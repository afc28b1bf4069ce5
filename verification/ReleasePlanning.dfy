/** Laying out a compiled site as release objects, with the manifest derived from all of them. */
module ReleasePlanning {
  import opened Wrappers
  import opened Documents
  import opened ReleasePlans
  import opened RouteIndexing
  import opened Runtime
  import opened SiteCompiler
  import opened Sorting
  import opened Text

  datatype PlanError = TableInvalid | InputInvalid | CompilerUnsupported | ManifestInvalid | PathUnsafe | ObjectPathDuplicate

  datatype MediaObject = MediaObject(path: string, content: string, contentType: string)

  datatype BuildInput = BuildInput(
    siteId: string, releaseId: string, createdAt: string, output: CompileOutput, media: seq<MediaObject>,
    routing: RoutingTable, sourceVersionIds: seq<string>)

  const SITEMAP_PATH := "sitemap.xml"
  const CANDIDATE_PATH := "routing-candidate.json"

  // ---------- compiler versions ----------

  predicate IsVersionChar(c: char) {
    IsAlphanumeric(c) || c == '.' || c == '-'
  }

  /** A suffix such as -rc.1: the mark, then at least one character. */
  function SkipSuffix(s: string, mark: char): string {
    if s != "" && s[0] == mark && Run(s[1..], IsVersionChar) > 0 then s[1 + Run(s[1..], IsVersionChar)..] else s
  }

  /** Three numbers, then an optional pre-release and an optional build suffix. */
  predicate IsSemver(version: string) {
    var a := Run(version, IsDigit);
    && a > 0 && a < |version| && version[a] == '.'
    && var rest := version[a + 1..];
       var b := Run(rest, IsDigit);
       b > 0 && b < |rest| && rest[b] == '.'
       && var last := rest[b + 1..];
          var c := Run(last, IsDigit);
          c > 0 && SkipSuffix(SkipSuffix(last[c..], '-'), '+') == ""
  }

  /** Number(version.split(".")[0]) is 1. */
  predicate CompilerSupported(version: string) {
    IsSemver(version) && NatValue(version[..Run(version, IsDigit)]) == 1
  }

  lemma {:induction false} LeadingDigit(s: string)
    requires s != "" && All(s, IsDigit) && s[0] != '0'
    ensures NatValue(s) >= DigitValue(s[0]) >= 1
    ensures |s| > 1 ==> NatValue(s) >= 10
  {
    var front := s[..|s| - 1];
    if |s| > 1 {
      LeadingDigit(front);
    } else {
      assert NatValue(front) == 0;
    }
  }

  /** Rolling back to a release that could be planned fails its compiler check exactly when the version has a leading zero. */
  lemma {:induction false} RollbackCompilerCheck(version: string)
    requires CompilerSupported(version)
    ensures StartsWith(version, "1.") <==> version[0] != '0'
  {
    hide IsSemver;
    var a := Run(version, IsDigit);
    SemverStart(version);
    var major := version[..a];
    assert major[0] == version[0];
    if version[0] != '0' {
      LeadingDigit(major);
      assert a == 1 && DigitValue(version[0]) == 1;
      assert version[..2] == [version[0], version[1]];
    }
  }

  lemma SemverStart(version: string)
    requires IsSemver(version)
    ensures 0 < Run(version, IsDigit) < |version| && version[Run(version, IsDigit)] == '.'
    ensures All(version[..Run(version, IsDigit)], IsDigit)
  {
  }

  lemma {:induction false} NumberThenRest(a: string, rest: string)
    requires All(a, IsDigit)
    ensures var v := a + ("." + rest);
      Run(v, IsDigit) == |a| && |a| < |v| && v[|a|] == '.' && v[|a| + 1..] == rest
  {
    hide Run;
    RunStops(a, "." + rest, IsDigit);
  }

  lemma {:induction false} ThreeNumbers(a: string, b: string, c: string)
    requires a != "" && b != "" && c != "" && All(a, IsDigit) && All(b, IsDigit) && All(c, IsDigit)
    ensures IsSemver(a + ("." + (b + ("." + c))))
    ensures Run(a + ("." + (b + ("." + c))), IsDigit) == |a|
  {
    hide Run, All;
    NumberThenRest(a, b + ("." + c));
    NumberThenRest(b, c);
    RunStops(c, "", IsDigit);
    assert c + "" == c && c[|c|..] == "";
  }

  /** Such versions exist, whatever the other two numbers are. */
  lemma LeadingZeroPlans(b: string, c: string)
    requires b != "" && c != "" && All(b, IsDigit) && All(c, IsDigit)
    ensures var version := "01" + ("." + (b + ("." + c)));
      CompilerSupported(version) && !StartsWith(version, "1.")
  {
    hide Run, IsSemver;
    ThreeNumbers("01", b, c);
    var v := "01" + ("." + (b + ("." + c)));
    assert v[..2] == "01" && "01"[..1] == "0" && "0"[..0] == "";
    assert v[..2][0] == '0' && "1."[0] == '1';
  }

  // ---------- the objects, in order ----------

  type Candidate = Result<PlannedObject, PlanError>

  function DocumentObject(routes: seq<Route>, document: Document): Candidate {
    match FindRoute(routes, document.pathname)
    case None => Err(ManifestInvalid)
    case Some(route) =>
      if route.status.Gone? then Err(ManifestInvalid)
      else if !IsArtifactPath(route.objectKey) then Err(PathUnsafe)
      else Ok(ObjectOf(route.objectKey, DocumentBody(document), JSON_CONTENT_TYPE))
  }

  function DocumentObjects(routes: seq<Route>, documents: seq<Document>): (r: seq<Candidate>)
    ensures |r| == |documents| && forall i :: 0 <= i < |documents| ==> r[i] == DocumentObject(routes, documents[i])
  {
    if documents == [] then [] else [DocumentObject(routes, documents[0])] + DocumentObjects(routes, documents[1..])
  }

  function MediaObjectOf(media: MediaObject): Candidate {
    if IsArtifactPath(media.path) then Ok(ObjectOf(media.path, Octets(media.content), media.contentType)) else Err(PathUnsafe)
  }

  function MediaObjects(media: seq<MediaObject>): (r: seq<Candidate>)
    ensures |r| == |media| && forall i :: 0 <= i < |media| ==> r[i] == MediaObjectOf(media[i])
  {
    if media == [] then [] else [MediaObjectOf(media[0])] + MediaObjects(media[1..])
  }

  function SiteObjects(input: BuildInput): seq<Candidate> {
    [Ok(ObjectOf(ROUTES_PATH, RoutesJson(input.output.routeIndex, ""), JSON_CONTENT_TYPE)),
     Ok(ObjectOf(SITEMAP_PATH, Octets(input.output.sitemap), XML_CONTENT_TYPE)),
     if IsRoutingTable(input.routing) then Ok(ObjectOf(CANDIDATE_PATH, RoutingBody(input.routing), JSON_CONTENT_TYPE))
     else Err(TableInvalid)]
  }

  function Candidates(input: BuildInput): seq<Candidate> {
    DocumentObjects(input.output.routeIndex.routes, input.output.documents) + SiteObjects(input) + MediaObjects(input.media)
  }

  predicate HasPath(objects: seq<PlannedObject>, path: string) {
    exists i :: 0 <= i < |objects| && objects[i].path == path
  }

  /** Adds until a candidate fails or its path is taken. */
  function AddAll(objects: seq<PlannedObject>, more: seq<Candidate>): Result<seq<PlannedObject>, PlanError>
    decreases |more|
  {
    if more == [] then Ok(objects)
    else match more[0]
      case Err(error) => Err(error)
      case Ok(planned) =>
        if HasPath(objects, planned.path) then Err(ObjectPathDuplicate) else AddAll(objects + [planned], more[1..])
  }

  function ArtifactPath(a: Artifact): string { a.path }

  function ManifestFor(input: BuildInput, objects: seq<PlannedObject>): Manifest {
    Manifest(input.siteId, input.releaseId, input.output.compilerVersion, input.createdAt,
             Sort(ArtifactsOf(objects), (a: Artifact) => a.path, UnitLess),
             Sort(input.sourceVersionIds, Same, UnitLess))
  }

  predicate AllIdentifiers(ids: seq<string>) {
    forall i :: 0 <= i < |ids| ==> IsIdentifier(ids[i])
  }

  function Planned(input: BuildInput): Result<Plan, PlanError> {
    if !IsIdentifier(input.siteId) || !IsIdentifier(input.releaseId) then Err(InputInvalid)
    else if !CompilerSupported(input.output.compilerVersion) then Err(CompilerUnsupported)
    else if !AllIdentifiers(input.sourceVersionIds) then Err(InputInvalid)
    else match AddAll([], Candidates(input))
      case Err(error) => Err(error)
      case Ok(objects) =>
        if input.sourceVersionIds == [] || !DistinctBy(input.sourceVersionIds, Same) then Err(ManifestInvalid)
        else
          var m := ManifestFor(input, objects);
          Ok(Plan(m, objects, ObjectOf(MANIFEST_PATH, CanonicalManifest(m), JSON_CONTENT_TYPE)))
  }

  /** Adds the candidates one by one; `rest` is what is added after them. */
  method AddObjects(objects: seq<PlannedObject>, candidates: seq<Candidate>, ghost rest: seq<Candidate>)
    returns (result: Result<seq<PlannedObject>, PlanError>)
    ensures AddAll(objects, candidates + rest)
         == match result case Err(error) => Err(error) case Ok(added) => AddAll(added, rest)
  {
    hide HasPath;
    var added, i := objects, 0;
    assert candidates[0..] == candidates;
    while i < |candidates|
      invariant 0 <= i <= |candidates|
      invariant AddAll(objects, candidates + rest) == AddAll(added, candidates[i..] + rest)
    {
      ghost var todo := candidates[i..] + rest;
      assert todo[0] == candidates[i] && todo[1..] == candidates[i + 1..] + rest;
      if candidates[i].Err? {
        return Err(candidates[i].error);
      }
      if HasPath(added, candidates[i].value.path) {
        return Err(ObjectPathDuplicate);
      }
      added := added + [candidates[i].value];
      i := i + 1;
    }
    assert candidates[i..] + rest == rest;
    return Ok(added);
  }

  method PlanRelease(input: BuildInput) returns (result: Result<Plan, PlanError>)
    ensures result == Planned(input)
  {
    hide DocumentObjects, SiteObjects, MediaObjects, ManifestFor, CompilerSupported, IsIdentifier, DistinctBy;
    if !IsIdentifier(input.siteId) || !IsIdentifier(input.releaseId) {
      return Err(InputInvalid);
    }
    if !CompilerSupported(input.output.compilerVersion) {
      return Err(CompilerUnsupported);
    }
    var i := 0;
    while i < |input.sourceVersionIds|
      invariant 0 <= i <= |input.sourceVersionIds|
      invariant forall j :: 0 <= j < i ==> IsIdentifier(input.sourceVersionIds[j])
    {
      if !IsIdentifier(input.sourceVersionIds[i]) {
        return Err(InputInvalid);
      }
      i := i + 1;
    }
    var documents := DocumentObjects(input.output.routeIndex.routes, input.output.documents);
    var site, media := SiteObjects(input), MediaObjects(input.media);
    assert Candidates(input) == documents + (site + media) && media + [] == media;
    var added := AddObjects([], documents, site + media);
    if added.Err? {
      return Err(added.error);
    }
    added := AddObjects(added.value, site, media);
    if added.Err? {
      return Err(added.error);
    }
    added := AddObjects(added.value, media, []);
    if added.Err? {
      return Err(added.error);
    }
    if input.sourceVersionIds == [] || !DistinctBy(input.sourceVersionIds, Same) {
      return Err(ManifestInvalid);
    }
    var m := ManifestFor(input, added.value);
    return Ok(Plan(m, added.value, ObjectOf(MANIFEST_PATH, CanonicalManifest(m), JSON_CONTENT_TYPE)));
  }

  // ---------- what a plan is ----------

  predicate DistinctObjects(objects: seq<PlannedObject>) {
    forall i, j :: 0 <= i < j < |objects| ==> objects[i].path != objects[j].path
  }

  /** Exactly the candidates are added, all of them well formed, under different paths. */
  lemma {:induction false} AddedAll(objects: seq<PlannedObject>, more: seq<Candidate>)
    requires DistinctObjects(objects)
    ensures AddAll(objects, more).Ok? ==>
              var added := AddAll(objects, more).value;
              && DistinctObjects(added) && |added| == |objects| + |more|
              && (forall i :: 0 <= i < |objects| ==> added[i] == objects[i])
              && (forall i :: 0 <= i < |more| ==> more[i] == Ok(added[|objects| + i]))
    decreases |more|
  {
    if more != [] && more[0].Ok? && !HasPath(objects, more[0].value.path) {
      var next := objects + [more[0].value];
      AddedAll(next, more[1..]);
      if AddAll(objects, more).Ok? {
        var added := AddAll(objects, more).value;
        forall i | 0 <= i < |more| ensures more[i] == Ok(added[|objects| + i]) {
          if i == 0 {
            assert added[|objects|] == next[|objects|];
          } else {
            assert more[i] == more[1..][i - 1];
          }
        }
      }
    }
  }

  predicate CandidateSound(c: Candidate) {
    c.Ok? ==> c.value == ObjectOf(c.value.path, c.value.body, c.value.contentType) && c.value.path != MANIFEST_PATH
  }

  lemma {:induction false} CandidatesSound(input: BuildInput, i: nat)
    requires i < |Candidates(input)|
    ensures CandidateSound(Candidates(input)[i])
  {
    hide FindRoute, ByteLength, IsArtifactPart;
    var documents := DocumentObjects(input.output.routeIndex.routes, input.output.documents);
    var site := SiteObjects(input);
    if i < |documents| {
      assert Candidates(input)[i] == documents[i];
    } else if i < |documents| + 3 {
      assert Candidates(input)[i] == site[i - |documents|];
    } else {
      assert Candidates(input)[i] == MediaObjects(input.media)[i - |documents| - 3];
    }
  }

  /** What planning returns is a plan, and it holds every candidate's object. */
  lemma {:induction false} PlannedIsPlan(input: BuildInput)
    requires Planned(input).Ok?
    ensures var plan := Planned(input).value;
      && IsPlan(plan)
      && plan.manifest.siteId == input.siteId && plan.manifest.releaseId == input.releaseId
      && plan.manifest.compilerVersion == input.output.compilerVersion
      && IsIdentifier(input.siteId) && IsIdentifier(input.releaseId)
      && |plan.objects| == |Candidates(input)|
      && (forall i :: 0 <= i < |plan.objects| ==> Candidates(input)[i] == Ok(plan.objects[i]))
  {
    hide Candidates, CompilerSupported, IsIdentifier, AllIdentifiers, DistinctBy, ByteLength, Sort, UnitLess, AddAll, ArtifactsOf,
      CandidateSound;
    var objects := AddAll([], Candidates(input)).value;
    AddedAll([], Candidates(input));
    forall i | 0 <= i < |objects|
      ensures objects[i] == ObjectOf(objects[i].path, objects[i].body, objects[i].contentType) && objects[i].path != MANIFEST_PATH
      ensures Candidates(input)[i] == Ok(objects[i])
    {
      CandidatesSound(input, i);
      SoundObject(objects[i]);
    }
  }

  lemma SoundObject(u: PlannedObject)
    requires CandidateSound(Ok(u))
    ensures u == ObjectOf(u.path, u.body, u.contentType) && u.path != MANIFEST_PATH
  {
  }

  // ---------- what a release holds, and when it can be planned ----------

  predicate IsDocumentObject(routes: seq<Route>, d: Document, u: PlannedObject) {
    var route := FindRoute(routes, d.pathname);
    && route.Some? && !route.value.status.Gone? && IsArtifactPath(route.value.objectKey)
    && u == ObjectOf(route.value.objectKey, DocumentBody(d), JSON_CONTENT_TYPE)
  }

  predicate IsMediaObject(media: MediaObject, u: PlannedObject) {
    IsArtifactPath(media.path) && u == ObjectOf(media.path, Octets(media.content), media.contentType)
  }

  /** A compiled document at its route's key, the route index, the sitemap, the routing candidate or a medium. */
  ghost predicate IsReleaseObject(input: BuildInput, u: PlannedObject) {
    || (exists d :: d in input.output.documents && IsDocumentObject(input.output.routeIndex.routes, d, u))
    || Ok(u) in SiteObjects(input)
    || (exists media :: media in input.media && IsMediaObject(media, u))
  }

  lemma {:induction false} CandidateExact(input: BuildInput, u: PlannedObject)
    ensures Ok(u) in Candidates(input) <==> IsReleaseObject(input, u)
  {
    hide FindRoute, IsArtifactPath, ByteLength, SiteObjects;
    var routes, documents := input.output.routeIndex.routes, input.output.documents;
    var of := DocumentObjects(routes, documents);
    if d :| d in documents && IsDocumentObject(routes, d, u) {
      var i :| 0 <= i < |documents| && documents[i] == d;
      assert of[i] == Ok(u);
    }
    if Ok(u) in of {
      var i :| 0 <= i < |of| && of[i] == Ok(u);
      assert IsDocumentObject(routes, documents[i], u);
    }
    if media :| media in input.media && IsMediaObject(media, u) {
      var i :| 0 <= i < |input.media| && input.media[i] == media;
      assert MediaObjects(input.media)[i] == Ok(u);
    }
    if Ok(u) in MediaObjects(input.media) {
      var i :| 0 <= i < |input.media| && MediaObjects(input.media)[i] == Ok(u);
      assert IsMediaObject(input.media[i], u);
    }
  }

  /** A planned release holds exactly the objects of its site. */
  lemma {:induction false} PlannedExactly(input: BuildInput, u: PlannedObject)
    requires Planned(input).Ok?
    ensures u in Planned(input).value.objects <==> IsReleaseObject(input, u)
  {
    hide Candidates, Planned, IsReleaseObject, IsPlan, IsIdentifier;
    PlannedIsPlan(input);
    CandidateExact(input, u);
    var objects := Planned(input).value.objects;
    if u in objects {
      var i :| 0 <= i < |objects| && objects[i] == u;
      assert Candidates(input)[i] == Ok(u);
    }
    if Ok(u) in Candidates(input) {
      var i :| 0 <= i < |objects| && Candidates(input)[i] == Ok(u);
      assert objects[i] == u;
    }
  }

  predicate AllSafe(candidates: seq<Candidate>) {
    forall i :: 0 <= i < |candidates| ==> candidates[i].Ok?
  }

  /** No two of the candidates want the same path. */
  predicate PathsApart(candidates: seq<Candidate>) {
    forall i, j :: 0 <= i < j < |candidates| && candidates[i].Ok? && candidates[j].Ok?
      ==> candidates[i].value.path != candidates[j].value.path
  }

  predicate FirstApart(candidates: seq<Candidate>)
    requires candidates != [] && candidates[0].Ok?
  {
    forall i :: 1 <= i < |candidates| && candidates[i].Ok? ==> candidates[i].value.path != candidates[0].value.path
  }

  predicate PathsFree(objects: seq<PlannedObject>, candidates: seq<Candidate>) {
    forall i :: 0 <= i < |candidates| && candidates[i].Ok? ==> !HasPath(objects, candidates[i].value.path)
  }

  lemma {:induction false} AddedWhen(objects: seq<PlannedObject>, more: seq<Candidate>)
    ensures AddAll(objects, more).Ok? <==> AllSafe(more) && PathsApart(more) && PathsFree(objects, more)
    decreases |more|
  {
    if more != [] {
      assert more == [more[0]] + more[1..];
      if more[0].Ok? && !HasPath(objects, more[0].value.path) {
        var next := objects + [more[0].value];
        AddedWhen(next, more[1..]);
        forall path ensures HasPath(next, path) <==> HasPath(objects, path) || path == more[0].value.path {
          assert next[|objects|].path == more[0].value.path;
          assert forall i :: 0 <= i < |objects| ==> next[i] == objects[i];
        }
        RestApart(more);
        RestSafe(more);
        RestFree(objects, next, more);
      }
    }
  }

  lemma RestSafe(more: seq<Candidate>)
    requires more != [] && more[0].Ok?
    ensures AllSafe(more) <==> AllSafe(more[1..])
  {
    assert forall i :: 0 < i < |more| ==> more[i] == more[1..][i - 1];
  }

  lemma {:induction false} RestApart(more: seq<Candidate>)
    requires more != [] && more[0].Ok?
    ensures PathsApart(more) <==> PathsApart(more[1..]) && FirstApart(more)
  {
    assert forall i :: 0 < i < |more| ==> more[i] == more[1..][i - 1];
  }

  lemma {:induction false} RestFree(objects: seq<PlannedObject>, next: seq<PlannedObject>, more: seq<Candidate>)
    requires more != [] && more[0].Ok? && !HasPath(objects, more[0].value.path)
    requires forall path :: HasPath(next, path) <==> HasPath(objects, path) || path == more[0].value.path
    ensures PathsFree(next, more[1..]) <==> PathsFree(objects, more) && FirstApart(more)
  {
    hide HasPath;
    assert forall i :: 0 < i < |more| ==> more[i] == more[1..][i - 1];
  }

  /** A release can be planned exactly when its input is well formed, its paths are safe, and no two are the same. */
  lemma {:induction false} PlannedWhen(input: BuildInput)
    ensures Planned(input).Ok? <==>
      && IsIdentifier(input.siteId) && IsIdentifier(input.releaseId)
      && CompilerSupported(input.output.compilerVersion)
      && AllIdentifiers(input.sourceVersionIds) && input.sourceVersionIds != [] && DistinctBy(input.sourceVersionIds, Same)
      && AllSafe(Candidates(input)) && PathsApart(Candidates(input))
  {
    hide Candidates, CompilerSupported, IsIdentifier, DistinctBy, AllSafe, PathsApart, Sort;
    AddedWhen([], Candidates(input));
    assert PathsFree([], Candidates(input));
  }
}
