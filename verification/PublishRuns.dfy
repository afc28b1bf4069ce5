/** A publish that runs by itself, without other clients, and what rerunning one achieves. */
module PublishRuns {
  import opened Wrappers
  import opened Documents
  import opened ReleasePlans
  import opened ReleaseStore
  import opened ReleaseSteps
  import opened ReleaseProtocol

  /** An ETag no earlier value of the pointer had. */
  function FreshEtag<P>(history: seq<Cell<P>>): (etag: ETag)
    ensures forall i :: 0 <= i < |history| ==> history[i].etag < etag
  {
    if history == [] then 1
    else
      var rest := FreshEtag(history[1..]);
      assert forall i :: 1 <= i < |history| ==> history[i] == history[1..][i - 1];
      if rest > history[0].etag then rest else history[0].etag + 1
  }

  /** How many requests are left at most. */
  function Rank(plan: Plan, at: PublishAt): nat {
    match at
    case Uploading(todo) => 8 + |Uploads(plan)| + 3 * |todo|
    case Comparing(_, todo) => 8 + |Uploads(plan)| + 3 * |todo| + 2
    case Confirming(_, todo) => 8 + |Uploads(plan)| + 3 * |todo| + 1
    case Verifying(todo) => 7 + |todo|
    case ReadingManifest => 6
    case HeadingPointer => 5
    case CreatingPointer => 4
    case ReadingPointer(_) => 4
    case SwappingPointer(_) => 3
    case FinalReading(_, _) => 2
    case Published(_, _, _) => 0
    case PublishFailed(_) => 0
  }

  function NextPublish(s: Store, publisher: Publisher, plan: Plan, at: PublishAt): (r: (Store, PublishAt))
    ensures !at.Published? && !at.PublishFailed? ==> Rank(plan, r.1) < Rank(plan, at)
  {
    PublishStep(s, publisher, plan, at, FreshEtag(SiteHistory(s, publisher.verified.siteId)))
  }

  function RunPublish(s: Store, publisher: Publisher, plan: Plan, at: PublishAt): (Store, PublishAt)
    decreases Rank(plan, at)
  {
    if at.Published? || at.PublishFailed? then (s, at)
    else
      var (t, next) := NextPublish(s, publisher, plan, at);
      RunPublish(t, publisher, plan, next)
  }

  /** publishRelease by itself, from the first upload. */
  function SoloPublish(s: Store, publisher: Publisher, plan: Plan): (Store, PublishAt) {
    RunPublish(s, publisher, plan, Uploading(Uploads(plan)))
  }

  /** Whatever the store already holds under this plan's keys is what the plan would put there. */
  ghost predicate StoreFits(s: Store, plan: Plan) {
    forall u :: u in Uploads(plan) && KeyOf(plan, u) in s.objects ==> StoredExactly(s, plan, u)
  }

  lemma {:induction false} FreshAppend(s: Store, pointer: SitePointer)
    requires LawfulEtags(s)
    ensures LawfulEtags(AppendSite(s, pointer, FreshEtag(SiteHistory(s, pointer.siteId))))
  {
    var h := SiteHistory(s, pointer.siteId);
    var etag := FreshEtag(h);
    AppendAgrees(h, etag, pointer);
    var t := AppendSite(s, pointer, etag);
    hide EtagsAgree, FreshEtag;
    forall siteId ensures EtagsAgree(SiteHistory(t, siteId)) {
      assert SiteHistory(t, siteId) == if siteId == pointer.siteId then h + [Cell(etag, pointer)] else SiteHistory(s, siteId);
    }
  }

  lemma {:induction false} ObjectsLawful(s: Store, t: Store)
    requires LawfulEtags(s) && t.sites == s.sites && t.routing == s.routing
    ensures LawfulEtags(t)
  {
    assert forall siteId :: SiteHistory(t, siteId) == SiteHistory(s, siteId);
  }

  lemma {:induction false} FreshIsLawful(s: Store, publisher: Publisher, plan: Plan, at: PublishAt)
    requires LawfulEtags(s)
    ensures LawfulEtags(NextPublish(s, publisher, plan, at).0)
  {
    hide LawfulEtags, FreshEtag, Uploads, AppendSite, SiteHistory;
    var t := NextPublish(s, publisher, plan, at).0;
    FreshAppend(s, PointerOf(publisher, plan));
    if at.Uploading? {
      ObjectsLawful(s, t);
    }
  }

  /** A solo run is a run of the protocol: everything proved there holds here. */
  lemma {:induction false} RunKeepsSound(s: Store, publisher: Publisher, plan: Plan, at: PublishAt)
    requires Sound(s) && PublishInv(s, publisher, plan, at)
    ensures var (t, end) := RunPublish(s, publisher, plan, at);
      && Grows(s, t) && Sound(t) && t.routing == s.routing && PublishInv(t, publisher, plan, end)
      && (end.Published? || end.PublishFailed?)
    decreases Rank(plan, at)
  {
    hide Grows, PublishInv, PublishStep, ObjectsSound, PointersSound, LawfulEtags;
    GrowsReflexive(s);
    if !at.Published? && !at.PublishFailed? {
      FreshIsLawful(s, publisher, plan, at);
      PublishStepKeeps(s, publisher, plan, at, FreshEtag(SiteHistory(s, publisher.verified.siteId)));
      var (t, next) := NextPublish(s, publisher, plan, at);
      RunKeepsSound(t, publisher, plan, next);
      GrowsTransitive(s, t, RunPublish(t, publisher, plan, next).0);
    }
  }

  // ---------- success ----------

  lemma {:induction false} UploadsByPath(plan: Plan, u: PlannedObject, v: PlannedObject)
    requires IsPlan(plan) && u in Uploads(plan) && v in Uploads(plan) && u.path == v.path
    ensures u == v
  {
    UploadFacts(plan, u);
    UploadFacts(plan, v);
    if u.path != MANIFEST_PATH {
      assert u in plan.objects && v in plan.objects;
    }
  }

  /** Nothing can stop this client while it is alone. */
  ghost predicate OnTrack(s: Store, publisher: Publisher, plan: Plan, at: PublishAt) {
    var cell := SiteCell(s, plan.manifest.siteId);
    StoreFits(s, plan) &&
    match at
    case Comparing(current, todo) => SameBody(s, plan, current)
    case Confirming(current, todo) => SameBody(s, plan, current)
    case Verifying(todo) => forall u :: u in todo ==> u in Uploads(plan)
    case CreatingPointer => cell.None?
    case ReadingPointer(head) => cell.Some? && cell.value.etag == head
    case SwappingPointer(head) => cell.Some? && cell.value.etag == head
    case FinalReading(newEtag, oldEtag) => cell == Some(Cell(newEtag, PointerOf(publisher, plan)))
    case Published(etag, pointer, _) =>
      cell == Some(Cell(etag, pointer)) && Names(pointer, plan.manifest.releaseId, ManifestHash(plan.manifest))
    case PublishFailed(_) => false
    case _ => true
  }

  lemma {:induction false} UploadStaysOnTrack(s: Store, publisher: Publisher, plan: Plan, todo: seq<PlannedObject>)
    requires PublishInv(s, publisher, plan, Uploading(todo)) && OnTrack(s, publisher, plan, Uploading(todo))
    ensures var (t, next) := NextPublish(s, publisher, plan, Uploading(todo));
      OnTrack(t, publisher, plan, next)
  {
    hide IsPlan, Uploads;
    if todo != [] {
      var u := todo[0];
      var (t, next) := NextPublish(s, publisher, plan, Uploading(todo));
      forall v | v in Uploads(plan) && KeyOf(plan, v) in t.objects ensures StoredExactly(t, plan, v) {
        if v.path == u.path {
          UploadsByPath(plan, u, v);
        }
      }
    }
  }

  lemma {:induction false} StaysOnTrack(s: Store, publisher: Publisher, plan: Plan, at: PublishAt)
    requires Sound(s) && PublishInv(s, publisher, plan, at) && OnTrack(s, publisher, plan, at)
    requires !at.Published?
    ensures var (t, next) := NextPublish(s, publisher, plan, at); OnTrack(t, publisher, plan, next)
  {
    hide Sound, IsPlan, Uploads, Edge, HasEtag;
    var (t, next) := NextPublish(s, publisher, plan, at);
    match at
    case Uploading(todo) => UploadStaysOnTrack(s, publisher, plan, todo);
    case Comparing(current, todo) => UploadFacts(plan, current);
    case Confirming(current, todo) =>
    case Verifying(todo) =>
      if todo != [] {
        assert StoredExactly(s, plan, todo[0]);
        UploadFacts(plan, todo[0]);
        assert todo == [todo[0]] + todo[1..];
      }
    case ReadingManifest =>
      assert plan.manifestObject in Uploads(plan) && plan.manifestObject.path == MANIFEST_PATH by { ManifestIsUploaded(plan); }
      UploadFacts(plan, plan.manifestObject);
    case _ =>
  }

  lemma ManifestIsUploaded(plan: Plan)
    requires IsPlan(plan)
    ensures plan.manifestObject in Uploads(plan) && plan.manifestObject.path == MANIFEST_PATH
  {
  }

  lemma {:induction false} RunStaysOnTrack(s: Store, publisher: Publisher, plan: Plan, at: PublishAt)
    requires Sound(s) && PublishInv(s, publisher, plan, at) && OnTrack(s, publisher, plan, at)
    ensures var (t, end) := RunPublish(s, publisher, plan, at); end.Published? && OnTrack(t, publisher, plan, end)
    decreases Rank(plan, at)
  {
    hide Sound, PublishInv, PublishStep;
    if !at.Published? {
      StaysOnTrack(s, publisher, plan, at);
      FreshIsLawful(s, publisher, plan, at) by { assert LawfulEtags(s) by { SoundIsLawful(s); } }
      PublishStepKeeps(s, publisher, plan, at, FreshEtag(SiteHistory(s, publisher.verified.siteId)));
      var (t, next) := NextPublish(s, publisher, plan, at);
      RunStaysOnTrack(t, publisher, plan, next);
    }
  }

  lemma SoundIsLawful(s: Store)
    requires Sound(s)
    ensures LawfulEtags(s)
  {
  }

  /**
   A solo publish succeeds exactly when nothing different is stored under the plan's keys, and then
   the site's pointer names the release, all of whose objects are stored.
   */
  lemma {:induction false} SoloPublishSucceeds(s: Store, publisher: Publisher, plan: Plan)
    requires Sound(s) && IsPlan(plan) && Matches(publisher, plan)
    ensures var (t, end) := SoloPublish(s, publisher, plan);
      && (end.Published? <==> StoreFits(s, plan))
      && (end.Published? ==>
            && AllStored(t, plan) && ReleaseStored(t, plan.manifest) && Grows(s, t) && Sound(t)
            && SiteCell(t, plan.manifest.siteId) == Some(Cell(end.etag, end.pointer))
            && Names(end.pointer, plan.manifest.releaseId, ManifestHash(plan.manifest)))
  {
    hide Sound, IsPlan, Uploads, Grows, RunPublish, ReleaseStored;
    var at := Uploading(Uploads(plan));
    RunKeepsSound(s, publisher, plan, at);
    if StoreFits(s, plan) {
      RunStaysOnTrack(s, publisher, plan, at);
    }
    var (t, end) := SoloPublish(s, publisher, plan);
    if end.Published? {
      PlanComplete(t, publisher, plan);
      forall u | u in Uploads(plan) && KeyOf(plan, u) in s.objects ensures StoredExactly(s, plan, u) {
        ObjectStays(s, t, KeyOf(plan, u));
        assert StoredExactly(t, plan, u);
      }
    }
  }

  lemma ObjectStays(s: Store, t: Store, key: Key)
    requires Grows(s, t) && key in s.objects
    ensures key in t.objects && t.objects[key] == s.objects[key]
  {
  }

  // ---------- replay ----------

  /** A client before its first write to the pointer. */
  predicate BeforePointer(at: PublishAt) {
    !at.CreatingPointer? && !at.SwappingPointer? && !at.FinalReading? && !at.Published? && !at.PublishFailed?
  }

  lemma {:induction false} ReplayRun(s: Store, publisher: Publisher, plan: Plan, at: PublishAt)
    requires Sound(s) && PublishInv(s, publisher, plan, at) && OnTrack(s, publisher, plan, at)
    requires AllStored(s, plan) && BeforePointer(at)
    requires SiteCell(s, plan.manifest.siteId).Some?
    requires Names(SiteCell(s, plan.manifest.siteId).value.content, plan.manifest.releaseId, ManifestHash(plan.manifest))
    ensures var cell := SiteCell(s, plan.manifest.siteId).value;
      RunPublish(s, publisher, plan, at)
      == (s, Published(cell.etag, cell.content, PublishReceiptOf(publisher, plan, Some(cell.etag), cell.etag)))
    decreases Rank(plan, at)
  {
    hide Sound, IsPlan, Uploads;
    var (t, next) := NextPublish(s, publisher, plan, at);
    StaysOnTrack(s, publisher, plan, at);
    FreshIsLawful(s, publisher, plan, at) by { assert LawfulEtags(s) by { SoundIsLawful(s); } }
    PublishStepKeeps(s, publisher, plan, at, FreshEtag(SiteHistory(s, publisher.verified.siteId)));
    if !next.Published? {
      assert t == s && BeforePointer(next) by { hide OnTrack, SiteHistory; }
      ReplayRun(s, publisher, plan, next);
    }
  }

  /** Rerunning a publish that succeeded writes nothing, and its receipt's two ETags are the same. */
  lemma {:induction false} ResumablePublish(s: Store, first: Publisher, second: Publisher, plan: Plan)
    requires Sound(s) && IsPlan(plan) && StoreFits(s, plan) && Matches(first, plan) && Matches(second, plan)
    ensures var (t, end) := SoloPublish(s, first, plan);
      var (u, again) := SoloPublish(t, second, plan);
      && end.Published?
      && u == t && again == Published(end.etag, end.pointer, PublishReceiptOf(second, plan, Some(end.etag), end.etag))
  {
    hide Sound, Uploads, RunPublish, IsPlan, PublishStep;
    SoloPublishSucceeds(s, first, plan);
    var (t, end) := SoloPublish(s, first, plan);
    assert StoreFits(t, plan);
    ReplayRun(t, second, plan, Uploading(Uploads(plan)));
  }
}
