/** A planned release: its objects, and the manifest that lists them and is uploaded last. */
module ReleasePlans {
  import opened Documents
  import opened ReleaseStore
  import Sorting

  datatype PlannedObject = PlannedObject(path: string, body: Body, bytes: nat, contentType: string, sha256: Sha)

  datatype Plan = Plan(manifest: Manifest, objects: seq<PlannedObject>, manifestObject: PlannedObject)

  function ObjectOf(path: string, body: Body, contentType: string): PlannedObject {
    PlannedObject(path, body, ByteLength(body), contentType, Sha256(body))
  }

  function ArtifactOf(planned: PlannedObject): Artifact {
    Artifact(planned.path, planned.bytes, planned.contentType, planned.sha256)
  }

  function ArtifactsOf(objects: seq<PlannedObject>): (r: seq<Artifact>)
    ensures |r| == |objects|
    ensures forall i :: 0 <= i < |objects| ==> r[i] == ArtifactOf(objects[i])
  {
    if objects == [] then [] else [ArtifactOf(objects[0])] + ArtifactsOf(objects[1..])
  }

  /** What planning a release guarantees to everything after it. */
  ghost predicate IsPlan(plan: Plan) {
    && (forall i :: 0 <= i < |plan.objects| ==>
          && plan.objects[i] == ObjectOf(plan.objects[i].path, plan.objects[i].body, plan.objects[i].contentType)
          && plan.objects[i].path != MANIFEST_PATH)
    && (forall i, j :: 0 <= i < j < |plan.objects| ==> plan.objects[i].path != plan.objects[j].path)
    && plan.manifest.objects == Sorting.Sort(ArtifactsOf(plan.objects), (a: Artifact) => a.path, Sorting.UnitLess)
    && plan.manifestObject == ObjectOf(MANIFEST_PATH, CanonicalManifest(plan.manifest), JSON_CONTENT_TYPE)
  }

  /** Everything a publish uploads, in order. */
  function Uploads(plan: Plan): seq<PlannedObject> {
    plan.objects + [plan.manifestObject]
  }

  function KeyOf(plan: Plan, planned: PlannedObject): Key {
    ReleaseKey(plan.manifest.siteId, plan.manifest.releaseId, planned.path)
  }

  function ManifestKey(siteId: string, releaseId: string): Key {
    ReleaseKey(siteId, releaseId, MANIFEST_PATH)
  }

  lemma {:induction false} ManifestLists(plan: Plan, a: Artifact)
    requires IsPlan(plan) && a in plan.manifest.objects
    ensures exists i :: 0 <= i < |plan.objects| && a == ArtifactOf(plan.objects[i])
  {
    assert a in ArtifactsOf(plan.objects);
  }

  lemma {:induction false} UploadFacts(plan: Plan, u: PlannedObject)
    requires IsPlan(plan) && u in Uploads(plan)
    ensures u == ObjectOf(u.path, u.body, u.contentType)
    ensures u.path == MANIFEST_PATH ==> u == plan.manifestObject
  {
    if u != plan.manifestObject {
      var i :| 0 <= i < |plan.objects| && plan.objects[i] == u;
    }
  }
}
