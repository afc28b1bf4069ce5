/**
 What an uninterrupted publish, rollback or routing publish leaves in the store and answers: every
 field of the pointer and of the receipt, and which error there is.
 */
module SoloOutcomes {
  import opened Wrappers
  import opened Documents
  import opened ReleasePlans
  import opened ReleaseStore
  import opened ReleaseSteps
  import opened ReleaseProtocol
  import opened PublishRuns
  import opened SoloRuns
  import opened Text

  // ---------- publishing ----------

  /** Something else is stored under the key of this object. */
  ghost predicate Differs(s: Store, plan: Plan, u: PlannedObject) {
    KeyOf(plan, u) in s.objects && s.objects[KeyOf(plan, u)].body != u.body
  }

  /** The same bytes are stored under the key of this object, with another content type. */
  ghost predicate MistypedIn(s: Store, plan: Plan, u: PlannedObject) {
    KeyOf(plan, u) in s.objects && s.objects[KeyOf(plan, u)].contentType != u.contentType
  }

  ghost predicate SomeDiffers(s: Store, plan: Plan, todo: seq<PlannedObject>) {
    exists u :: u in todo && Differs(s, plan, u)
  }

  ghost predicate SomeMistyped(s: Store, plan: Plan, todo: seq<PlannedObject>) {
    exists u :: u in todo && MistypedIn(s, plan, u)
  }

  /** `t` has what `s` has and every object of `todo` that was absent, and nothing else. */
  ghost predicate AddsObjects(s: Store, t: Store, plan: Plan, todo: seq<PlannedObject>) {
    && (forall key :: key in t.objects <==> key in s.objects || exists u :: u in todo && key == KeyOf(plan, u))
    && (forall key | key in s.objects :: key in t.objects && t.objects[key] == s.objects[key])
    && (forall u :: u in todo && KeyOf(plan, u) !in s.objects ==>
          KeyOf(plan, u) in t.objects && t.objects[KeyOf(plan, u)] == StoredObject(u.body, u.contentType))
  }

  lemma LastStep(s: Store, publisher: Publisher, plan: Plan, at: PublishAt)
    ensures var (t, next) := NextPublish(s, publisher, plan, at);
      !at.Published? && !at.PublishFailed? && (next.Published? || next.PublishFailed?) ==> RunPublish(s, publisher, plan, at) == (t, next)
  {
  }

  lemma {:induction false} UploadRun(s: Store, publisher: Publisher, plan: Plan, todo: seq<PlannedObject>) returns (t: Store)
    requires IsPlan(plan) && forall u :: u in todo ==> u in Uploads(plan)
    ensures t.sites == s.sites && t.routing == s.routing
    ensures SomeDiffers(s, plan, todo) ==>
      RunPublish(s, publisher, plan, Uploading(todo)) == (t, PublishFailed(ExistsWithDifferentContent))
    ensures !SomeDiffers(s, plan, todo) ==>
      && AddsObjects(s, t, plan, todo)
      && RunPublish(s, publisher, plan, Uploading(todo)) == RunPublish(t, publisher, plan, Verifying(Uploads(plan)))
    decreases |todo|
  {
    hide Uploads, IsPlan, SomeDiffers, AddsObjects;
    if todo == [] {
      NothingToDo(s, plan);
      return s;
    }
    var u := todo[0];
    assert u in todo && todo == [u] + todo[1..];
    var key := KeyOf(plan, u);
    var (next, created) := CreateIfAbsent(s, key, StoredObject(u.body, u.contentType));
    if Differs(s, plan, u) {
      UploadFacts(plan, u);
      assert RunPublish(s, publisher, plan, Uploading(todo)) == RunPublish(s, publisher, plan, Comparing(u, todo[1..]));
      LastStep(s, publisher, plan, Comparing(u, todo[1..]));
      FirstDiffers(s, plan, todo);
      return s;
    }
    if !created {
      UploadFacts(plan, u);
      ConfirmRun(s, publisher, plan, todo);
    } else {
      assert RunPublish(s, publisher, plan, Uploading(todo)) == RunPublish(next, publisher, plan, Uploading(todo[1..]));
    }
    StillDiffer(s, next, plan, todo);
    t := UploadRun(next, publisher, plan, todo[1..]);
    if !SomeDiffers(s, plan, todo) {
      AddsFirst(s, next, t, plan, todo);
    }
  }

  lemma NothingToDo(s: Store, plan: Plan)
    ensures !SomeDiffers(s, plan, []) && AddsObjects(s, s, plan, [])
  {
  }

  lemma FirstDiffers(s: Store, plan: Plan, todo: seq<PlannedObject>)
    requires todo != [] && Differs(s, plan, todo[0])
    ensures SomeDiffers(s, plan, todo)
  {
    assert todo[0] in todo;
  }

  /** Creating the first object, or finding its bytes, leaves what the others find as it was. */
  lemma {:induction false} StillDiffer(s: Store, next: Store, plan: Plan, todo: seq<PlannedObject>)
    requires IsPlan(plan) && todo != [] && (forall u :: u in todo ==> u in Uploads(plan)) && !Differs(s, plan, todo[0])
    requires next == CreateIfAbsent(s, KeyOf(plan, todo[0]), StoredObject(todo[0].body, todo[0].contentType)).0
    ensures SomeDiffers(s, plan, todo) <==> SomeDiffers(next, plan, todo[1..])
  {
    hide Uploads, IsPlan;
    var u := todo[0];
    assert todo == [u] + todo[1..];
    forall v | v in todo[1..] ensures Differs(s, plan, v) <==> Differs(next, plan, v) {
      if v.path == u.path {
        UploadsByPath(plan, u, v);
      }
    }
  }

  lemma {:induction false} AddsFirst(s: Store, next: Store, t: Store, plan: Plan, todo: seq<PlannedObject>)
    requires IsPlan(plan) && todo != [] && forall u :: u in todo ==> u in Uploads(plan)
    requires next == CreateIfAbsent(s, KeyOf(plan, todo[0]), StoredObject(todo[0].body, todo[0].contentType)).0
    requires AddsObjects(next, t, plan, todo[1..])
    ensures AddsObjects(s, t, plan, todo)
  {
    hide Uploads, IsPlan;
    var u := todo[0];
    assert todo == [u] + todo[1..];
    forall v | v in todo && KeyOf(plan, v) !in s.objects
      ensures KeyOf(plan, v) in t.objects && t.objects[KeyOf(plan, v)] == StoredObject(v.body, v.contentType)
    {
      if v.path == u.path {
        UploadsByPath(plan, u, v);
      }
    }
  }

  lemma {:induction false} ConfirmRun(s: Store, publisher: Publisher, plan: Plan, todo: seq<PlannedObject>)
    requires todo != [] && todo[0] == ObjectOf(todo[0].path, todo[0].body, todo[0].contentType)
    requires SameBody(s, plan, todo[0])
    ensures RunPublish(s, publisher, plan, Uploading(todo)) == RunPublish(s, publisher, plan, Uploading(todo[1..]))
  {
    var u, rest := todo[0], todo[1..];
    assert RunPublish(s, publisher, plan, Uploading(todo)) == RunPublish(s, publisher, plan, Comparing(u, rest));
    assert RunPublish(s, publisher, plan, Comparing(u, rest)) == RunPublish(s, publisher, plan, Confirming(u, rest));
  }

  lemma {:induction false} VerifyRun(s: Store, publisher: Publisher, plan: Plan, todo: seq<PlannedObject>)
    requires IsPlan(plan) && forall u :: u in todo ==> u in Uploads(plan) && SameBody(s, plan, u)
    ensures RunPublish(s, publisher, plan, Verifying(todo)) ==
      if SomeMistyped(s, plan, todo) then (s, PublishFailed(RemoteVerificationFailed))
      else RunPublish(s, publisher, plan, ReadingManifest)
    decreases |todo|
  {
    hide Uploads, IsPlan;
    if todo != [] {
      var u := todo[0];
      assert u in todo && todo == [u] + todo[1..];
      UploadFacts(plan, u);
      if !MistypedIn(s, plan, u) {
        assert RunPublish(s, publisher, plan, Verifying(todo)) == RunPublish(s, publisher, plan, Verifying(todo[1..]));
        VerifyRun(s, publisher, plan, todo[1..]);
      }
    }
  }

  /** The release becomes current: the pointer and receipt, field by field. */
  ghost predicate BecomesCurrent(s: Store, t: Store, publisher: Publisher, plan: Plan, end: PublishAt) {
    var m := plan.manifest;
    var hash := Sha256(CanonicalManifest(m));
    var cell := SiteCell(s, m.siteId);
    && t.routing == s.routing
    && if cell.Some? && cell.value.content.releaseId == m.releaseId && cell.value.content.manifestSha256 == hash then
         var etag := cell.value.etag;
         && t.sites == s.sites
         && end == Published(etag, cell.value.content,
              PublishReceipt(m.siteId, m.releaseId, hash, publisher.actor, m.createdAt, Some(etag), etag))
       else
         && end.Published?
         && end.pointer == SitePointer(m.siteId, m.releaseId, hash, publisher.actor, m.createdAt)
         && end.receipt == PublishReceipt(m.siteId, m.releaseId, hash, publisher.actor, m.createdAt,
              if cell.Some? then Some(cell.value.etag) else None, end.etag)
         && (forall c :: c in SiteHistory(s, m.siteId) ==> c.etag != end.etag)
         && t.sites == s.sites[m.siteId := SiteHistory(s, m.siteId) + [Cell(end.etag, end.pointer)]]
  }

  /** A pointer that is created or swapped is read back as it was written. */
  lemma {:induction false} WrittenRun(s: Store, publisher: Publisher, plan: Plan, at: PublishAt)
    requires Matches(publisher, plan)
    requires
      var cell := SiteCell(s, plan.manifest.siteId);
      if cell.None? then at == CreatingPointer else at == SwappingPointer(cell.value.etag)
    ensures
      var etag := FreshEtag(SiteHistory(s, plan.manifest.siteId));
      var before := if at.SwappingPointer? then Some(at.etag) else None;
      RunPublish(s, publisher, plan, at) ==
        (AppendSite(s, PointerOf(publisher, plan), etag),
         Published(etag, PointerOf(publisher, plan), PublishReceiptOf(publisher, plan, before, etag)))
  {
    hide FreshEtag, AppendSite;
    var etag := FreshEtag(SiteHistory(s, plan.manifest.siteId));
    var before := if at.SwappingPointer? then Some(at.etag) else None;
    var t := AppendSite(s, PointerOf(publisher, plan), etag);
    AppendedCell(s, PointerOf(publisher, plan), etag);
    assert RunPublish(s, publisher, plan, at) == RunPublish(t, publisher, plan, FinalReading(etag, before));
    LastStep(t, publisher, plan, FinalReading(etag, before));
  }

  lemma {:induction false} HeadRun(s: Store, publisher: Publisher, plan: Plan)
    requires Matches(publisher, plan)
    ensures
      var m := plan.manifest;
      var cell := SiteCell(s, m.siteId);
      RunPublish(s, publisher, plan, HeadingPointer) ==
        if cell.None? then RunPublish(s, publisher, plan, CreatingPointer)
        else if Names(cell.value.content, m.releaseId, ManifestHash(m)) then
          (s, Published(cell.value.etag, cell.value.content,
                        PublishReceiptOf(publisher, plan, Some(cell.value.etag), cell.value.etag)))
        else RunPublish(s, publisher, plan, SwappingPointer(cell.value.etag))
  {
    hide FreshEtag, AppendSite;
    var m := plan.manifest;
    var cell := SiteCell(s, m.siteId);
    if cell.Some? {
      var head := cell.value.etag;
      assert RunPublish(s, publisher, plan, HeadingPointer) == RunPublish(s, publisher, plan, ReadingPointer(head));
      LastStep(s, publisher, plan, ReadingPointer(head));
    }
  }

  lemma {:induction false} PointerRun(s: Store, publisher: Publisher, plan: Plan)
    requires IsPlan(plan) && Matches(publisher, plan) && SameBody(s, plan, plan.manifestObject)
    ensures var (t, end) := RunPublish(s, publisher, plan, ReadingManifest);
      t.objects == s.objects && BecomesCurrent(s, t, publisher, plan, end)
  {
    var m := plan.manifest;
    var etag := FreshEtag(SiteHistory(s, m.siteId));
    assert RunPublish(s, publisher, plan, ReadingManifest) == RunPublish(s, publisher, plan, HeadingPointer) by { hide FreshEtag; }
    hide FreshEtag, IsPlan, AppendSite, RunPublish;
    HeadRun(s, publisher, plan);
    var cell := SiteCell(s, m.siteId);
    if cell.None? || !Names(cell.value.content, m.releaseId, ManifestHash(m)) {
      WrittenRun(s, publisher, plan, if cell.None? then CreatingPointer else SwappingPointer(cell.value.etag));
      AppendedCell(s, PointerOf(publisher, plan), etag);
      FreshForAll(SiteHistory(s, m.siteId));
    }
  }

  lemma FreshForAll<P>(history: seq<Cell<P>>)
    ensures forall c :: c in history ==> c.etag != FreshEtag(history)
  {
  }

  lemma AppendedCell(s: Store, pointer: SitePointer, etag: ETag)
    ensures var t := AppendSite(s, pointer, etag);
      && SiteCell(t, pointer.siteId) == Some(Cell(etag, pointer))
      && t.objects == s.objects && t.routing == s.routing
      && t.sites == s.sites[pointer.siteId := SiteHistory(s, pointer.siteId) + [Cell(etag, pointer)]]
  {
  }

  /**
   An uninterrupted publish: refused for different content before anything else, then for a
   different content type, and otherwise the release is stored and becomes current.
   */
  lemma {:induction false} PublishOutcome(s: Store, publisher: Publisher, plan: Plan)
    requires IsPlan(plan) && Matches(publisher, plan)
    ensures
      var (t, end) := SoloPublish(s, publisher, plan);
      if SomeDiffers(s, plan, Uploads(plan)) then
        end == PublishFailed(ExistsWithDifferentContent) && t.sites == s.sites && t.routing == s.routing
      else
        && AddsObjects(s, t, plan, Uploads(plan))
        && if SomeMistyped(s, plan, Uploads(plan)) then
             end == PublishFailed(RemoteVerificationFailed) && t.sites == s.sites && t.routing == s.routing
           else BecomesCurrent(s, t, publisher, plan, end)
  {
    hide Uploads, IsPlan, RunPublish, BecomesCurrent;
    var all := Uploads(plan);
    var t := UploadRun(s, publisher, plan, all);
    if !SomeDiffers(s, plan, all) {
      assert forall u :: u in all ==> SameBody(t, plan, u);
      VerifyRun(t, publisher, plan, all);
      assert SomeMistyped(s, plan, all) <==> SomeMistyped(t, plan, all);
      ManifestIsUploaded(plan);
      PointerRun(t, publisher, plan);
      var (u, end) := RunPublish(t, publisher, plan, ReadingManifest);
      if !SomeMistyped(s, plan, all) {
        SamePointers(s, t, u, publisher, plan, end);
      }
    }
  }

  lemma SamePointers(s: Store, t: Store, u: Store, publisher: Publisher, plan: Plan, end: PublishAt)
    requires t.sites == s.sites && t.routing == s.routing && BecomesCurrent(t, u, publisher, plan, end)
    ensures BecomesCurrent(s, u, publisher, plan, end)
  {
    assert SiteHistory(s, plan.manifest.siteId) == SiteHistory(t, plan.manifest.siteId);
  }

  // ---------- rolling back ----------

  /** What is wrong with the first of these objects that is not stored as listed. */
  ghost function ArtifactRefusal(s: Store, m: Manifest, todo: seq<Artifact>): Option<RollbackError> {
    if todo == [] then None
    else
      var key := ReleaseKey(m.siteId, m.releaseId, todo[0].path);
      if key !in s.objects then Some(MissingObject)
      else if ByteLength(s.objects[key].body) != todo[0].bytes then Some(BytesMismatch)
      else if s.objects[key].contentType != todo[0].contentType then Some(ContentTypeMismatch)
      else if Sha256(s.objects[key].body) != todo[0].sha256 then Some(Sha256Mismatch)
      else ArtifactRefusal(s, m, todo[1..])
  }

  ghost predicate Lists(m: Manifest, path: string) {
    path == "manifest.json" || exists a :: a in m.objects && a.path == path
  }

  /** Something is stored under the release's prefix that its manifest does not list. */
  ghost predicate HasExtra(s: Store, m: Manifest) {
    exists path :: ReleaseKey(m.siteId, m.releaseId, path) in s.objects && !Lists(m, path)
  }

  ghost predicate LacksObject(s: Store, m: Manifest) {
    exists path :: ReleaseKey(m.siteId, m.releaseId, path) !in s.objects && Lists(m, path)
  }

  ghost function TargetRefusal(s: Store, r: RollbackRequest, m: Manifest): Option<RollbackError> {
    if m.siteId != r.siteId then Some(SiteMismatch)
    else if m.releaseId != r.releaseId then Some(ReleaseIdMismatch)
    else if !("1." <= m.compilerVersion) then Some(CompilerUnsupported)
    else if Sha256(CanonicalManifest(m)) != r.expectedManifestSha256 then Some(ManifestHashMismatch)
    else if HasExtra(s, m) then Some(ExtraObject)
    else if LacksObject(s, m) then Some(MissingObject)
    else ArtifactRefusal(s, m, m.objects)
  }

  /** Why a rollback is refused, in the order in which it looks. */
  ghost function Refusal(s: Store, r: RollbackRequest): Option<RollbackError> {
    var cell := SiteCell(s, r.siteId);
    var key := ReleaseKey(r.siteId, r.releaseId, "manifest.json");
    if cell.None? then Some(CurrentPointerUnreadable)
    else if key !in s.objects then Some(MissingObject)
    else
      match ManifestOf(s.objects[key].body)
      case None => Some(ManifestInvalid)
      case Some(m) =>
        match TargetRefusal(s, r, m)
        case Some(error) => Some(error)
        case None =>
          var was := cell.value.content;
          if was.releaseId == r.releaseId && was.manifestSha256 == r.expectedManifestSha256 then None
          else if was.releaseId == r.expectedCurrentReleaseId && was.manifestSha256 == r.expectedCurrentManifestSha256 then None
          else Some(ExpectedCurrentMismatch)
  }

  /** The target becomes current again: the pointer and receipt, field by field. */
  ghost predicate Restores(s: Store, t: Store, r: RollbackRequest, end: RollbackAt)
    requires SiteCell(s, r.siteId).Some?
  {
    var Cell(etag, was) := SiteCell(s, r.siteId).value;
    if was.releaseId == r.releaseId && was.manifestSha256 == r.expectedManifestSha256 then
      && t == s
      && end == RolledBack(etag, was, RollbackReceipt(
           r.siteId, r.releaseId, r.expectedManifestSha256, r.actor, r.recordedAt,
           r.expectedCurrentReleaseId, r.expectedCurrentManifestSha256, etag, etag))
    else
      && end.RolledBack?
      && end.pointer == SitePointer(r.siteId, r.releaseId, r.expectedManifestSha256, r.actor, r.recordedAt)
      && end.receipt == RollbackReceipt(
           r.siteId, r.releaseId, r.expectedManifestSha256, r.actor, r.recordedAt,
           was.releaseId, was.manifestSha256, etag, end.etag)
      && (forall c :: c in SiteHistory(s, r.siteId) ==> c.etag != end.etag)
      && t == s.(sites := s.sites[r.siteId := SiteHistory(s, r.siteId) + [Cell(end.etag, end.pointer)]])
  }

  lemma {:induction false} RefusedArtifacts(s: Store, r: RollbackRequest, current: Cell<SitePointer>, m: Manifest, todo: seq<Artifact>)
    ensures RunRollback(s, r, ReadingArtifacts(current, m, todo)) ==
      match ArtifactRefusal(s, m, todo)
      case Some(error) => (s, RollbackFailed(error))
      case None => RunRollback(s, r, Decide(r, current, m))
    decreases |todo|
  {
    hide Decide;
    if todo != [] && CheckArtifact(todo[0], Read(s, ReleaseKey(m.siteId, m.releaseId, todo[0].path))).Ok? {
      RefusedArtifacts(s, r, current, m, todo[1..]);
    }
  }

  lemma {:induction false} KeysListed(s: Store, m: Manifest)
    ensures ListedKeys(s, m.siteId, m.releaseId) <= ExpectedKeys(m) <==> !HasExtra(s, m)
    ensures ExpectedKeys(m) <= ListedKeys(s, m.siteId, m.releaseId) <==> !LacksObject(s, m)
  {
    var listed, expected := ListedKeys(s, m.siteId, m.releaseId), ExpectedKeys(m);
    forall path
      ensures ReleaseKey(m.siteId, m.releaseId, path) in expected <==> Lists(m, path)
      ensures ReleaseKey(m.siteId, m.releaseId, path) in listed <==> ReleaseKey(m.siteId, m.releaseId, path) in s.objects
    {
      if a :| a in m.objects && a.path == path {
        var i :| 0 <= i < |m.objects| && m.objects[i] == a;
        assert ReleaseKey(m.siteId, m.releaseId, m.objects[i].path) in expected;
      }
    }
    assert forall key :: key in listed || key in expected ==> key == ReleaseKey(m.siteId, m.releaseId, key.path);
  }

  lemma {:induction false} RefusedTarget(s: Store, r: RollbackRequest, current: Cell<SitePointer>, m: Manifest)
    requires Read(s, ManifestKey(r.siteId, r.releaseId)).Some?
    requires ManifestOf(Read(s, ManifestKey(r.siteId, r.releaseId)).value.body) == Some(m)
    ensures RunRollback(s, r, ReadingTarget(current)) ==
      match TargetRefusal(s, r, m)
      case Some(error) => (s, RollbackFailed(error))
      case None => RunRollback(s, r, Decide(r, current, m))
  {
    hide Decide, ListedKeys, ExpectedKeys, HasExtra, LacksObject, ArtifactRefusal;
    KeysListed(s, m);
    var found := CheckTarget(r, Read(s, ManifestKey(r.siteId, r.releaseId)));
    assert StartsWith(m.compilerVersion, "1.") <==> "1." <= m.compilerVersion;
    if found.Ok? {
      assert RunRollback(s, r, ReadingTarget(current)) == RunRollback(s, r, Listing(current, m));
      if !HasExtra(s, m) && !LacksObject(s, m) {
        assert RunRollback(s, r, Listing(current, m)) == RunRollback(s, r, ReadingArtifacts(current, m, m.objects));
        RefusedArtifacts(s, r, current, m, m.objects);
      } else {
        LastRollbackStep(s, r, Listing(current, m));
      }
    } else {
      LastRollbackStep(s, r, ReadingTarget(current));
    }
  }

  lemma LastRollbackStep(s: Store, r: RollbackRequest, at: RollbackAt)
    ensures var (t, next) := RollbackStep(s, r, at, FreshEtag(SiteHistory(s, r.siteId)));
      !at.RolledBack? && !at.RollbackFailed? && (next.RolledBack? || next.RollbackFailed?) ==> RunRollback(s, r, at) == (t, next)
  {
  }

  /** An uninterrupted rollback is refused for the first reason there is, and otherwise restores its target. */
  lemma {:induction false} RollbackOutcome(s: Store, r: RollbackRequest)
    ensures var (t, end) := SoloRollback(s, r);
      if Refusal(s, r).Some? then (t, end) == (s, RollbackFailed(Refusal(s, r).value))
      else Restores(s, t, r, end)
  {
    hide Decide, TargetRefusal, FreshEtag;
    var cell := SiteCell(s, r.siteId);
    if cell.None? {
      LastRollbackStep(s, r, ReadingCurrent);
    } else {
      var current := cell.value;
      assert SoloRollback(s, r) == RunRollback(s, r, ReadingTarget(current));
      var stored := Read(s, ManifestKey(r.siteId, r.releaseId));
      if stored.None? || ManifestOf(stored.value.body).None? {
        LastRollbackStep(s, r, ReadingTarget(current));
      } else {
        var m := ManifestOf(stored.value.body).value;
        RefusedTarget(s, r, current, m);
        if TargetRefusal(s, r, m).None? {
          TargetIs(s, r, m);
          DecisionRun(s, r, current, m);
        }
      }
    }
  }

  lemma TargetIs(s: Store, r: RollbackRequest, m: Manifest)
    requires TargetRefusal(s, r, m).None?
    ensures Targets(r, m) && Sha256(CanonicalManifest(m)) == r.expectedManifestSha256
  {
  }

  lemma {:induction false} DecisionRun(s: Store, r: RollbackRequest, current: Cell<SitePointer>, m: Manifest)
    requires SiteCell(s, r.siteId) == Some(current) && Targets(r, m)
    ensures var (t, end) := RunRollback(s, r, Decide(r, current, m));
      if CurrentAllows(r, current.content) then Restores(s, t, r, end)
      else (t, end) == (s, RollbackFailed(ExpectedCurrentMismatch))
  {
    hide FreshEtag, AppendSite;
    var h := SiteHistory(s, r.siteId);
    var etag := FreshEtag(h);
    var t := AppendSite(s, TargetPointer(r, m), etag);
    AppendedCell(s, TargetPointer(r, m), etag);
    FreshForAll(h);
    if Decide(r, current, m).Swapping? {
      assert RunRollback(s, r, Swapping(current, m)) == RunRollback(t, r, CheckingFinal(current, m, etag));
      LastRollbackStep(t, r, CheckingFinal(current, m, etag));
    }
  }

  // ---------- publishing the routing manifest ----------

  ghost function RoutingRefusal(s: Store, r: RoutingRequest): Option<RoutingError> {
    var key := RoutingKey(r.routingId);
    if !IsRoutingRequest(r) then Some(RequestInvalid)
    else if key in s.objects && s.objects[key].body != RoutingBody(r.table) then Some(ManifestExistsWithDifferentContent)
    else if exists siteId :: siteId in r.sites && SiteCell(s, siteId).None? then Some(SitePointerMissing)
    else if exists release :: release in r.releases && release !in s.objects && release != key then Some(SiteReleaseMissing)
    else None
  }

  /**
   An uninterrupted routing publish: the table is stored before its references are looked up, and
   the pointer is written only when it would change.
   */
  lemma {:induction false} RoutingOutcome(s: Store, r: RoutingRequest)
    ensures
      var (t, end) := SoloRouting(s, r);
      var key := RoutingKey(r.routingId);
      var pointer := RoutingPointer(r.routingId, Sha256(RoutingBody(r.table)), r.updatedAt);
      var why := RoutingRefusal(s, r);
      && t.sites == s.sites
      && (why.Some? ==> end == RoutingFailed(why.value) && t.routing == s.routing)
      && (why.None? ==> end == Routed(pointer))
      && t.objects == (if key in s.objects || why == Some(RequestInvalid) then s.objects
                       else s.objects[key := StoredObject(RoutingBody(r.table), "application/json")])
      && (why.None? ==>
            if RoutingCell(s).Some? && RoutingCell(s).value.content == pointer then t.routing == s.routing
            else exists etag :: t.routing == s.routing + [Cell(etag, pointer)] && forall c :: c in s.routing ==> c.etag != etag)
  {
    hide RoutingBody, IsRoutingRequest;
    var key := RoutingKey(r.routingId);
    TableRun(s, r);
    var t := CreateIfAbsent(s, key, StoredObject(RoutingBody(r.table), JSON_CONTENT_TYPE)).0;
    if IsRoutingRequest(r) && t.objects[key].body == RoutingBody(r.table) {
      SitesSame(s, t, r.sites);
      SitesRun(t, r, r.sites);
      ReleasesRun(t, r, r.releases);
      RoutingCellRun(t, r);
    }
  }

  lemma {:induction false} RoutingCellRun(s: Store, r: RoutingRequest)
    ensures var (t, end) := RunRouting(s, r, HeadingRouting);
      var pointer := RoutingPointerOf(r);
      && end == Routed(pointer) && t.objects == s.objects && t.sites == s.sites
      && if RoutingCell(s).Some? && RoutingCell(s).value.content == pointer then t.routing == s.routing
         else exists etag :: t.routing == s.routing + [Cell(etag, pointer)] && forall c :: c in s.routing ==> c.etag != etag
  {
    hide RoutingPointerOf, FreshEtag;
    RoutingPointerRun(s, r);
    FreshForAll(s.routing);
    var cell := RoutingCell(s);
    var etag := FreshEtag(s.routing);
    var t := AppendRouting(s, RoutingPointerOf(r), etag);
    assert t.routing == s.routing + [Cell(etag, RoutingPointerOf(r))];
    if cell.None? {
      assert RunRouting(s, r, HeadingRouting) == RunRouting(s, r, CreatingRouting);
      assert RunRouting(s, r, CreatingRouting) == RunRouting(t, r, Routed(RoutingPointerOf(r)));
    } else if cell.value.content != RoutingPointerOf(r) {
      var head := cell.value.etag;
      assert RunRouting(s, r, HeadingRouting) == RunRouting(s, r, ReadingRouting(head));
      assert RunRouting(s, r, ReadingRouting(head)) == RunRouting(s, r, SwappingRouting(head));
      assert RunRouting(s, r, SwappingRouting(head)) == RunRouting(t, r, Routed(RoutingPointerOf(r)));
    }
  }

  // ---------- publish, publish, roll back ----------

  /** Under the release's prefix there is at most what the plan puts there. */
  ghost predicate NothingElse(s: Store, plan: Plan) {
    forall path :: ReleaseKey(plan.manifest.siteId, plan.manifest.releaseId, path) in s.objects ==>
      exists u :: u in Uploads(plan) && u.path == path
  }

  lemma {:induction false} StillNothingElse(s: Store, t: Store, plan: Plan, other: Plan)
    requires NothingElse(s, plan) && AddsObjects(s, t, other, Uploads(other))
    requires other == plan || other.manifest.releaseId != plan.manifest.releaseId
    ensures NothingElse(t, plan)
  {
    hide Uploads;
    forall path | ReleaseKey(plan.manifest.siteId, plan.manifest.releaseId, path) in t.objects
      ensures exists u :: u in Uploads(plan) && u.path == path
    {
      var key := ReleaseKey(plan.manifest.siteId, plan.manifest.releaseId, path);
      if key !in s.objects {
        var u :| u in Uploads(other) && key == KeyOf(other, u);
        assert u.path == path;
      }
    }
  }

  lemma {:induction false} OnlyExpected(s: Store, plan: Plan)
    requires IsPlan(plan) && NothingElse(s, plan)
    ensures !HasExtra(s, plan.manifest)
  {
    var m := plan.manifest;
    forall path | ReleaseKey(m.siteId, m.releaseId, path) in s.objects ensures Lists(m, path) {
      var u :| u in Uploads(plan) && u.path == path;
      if u != plan.manifestObject {
        var i :| 0 <= i < |plan.objects| && plan.objects[i] == u;
        assert ArtifactOf(u) == ArtifactsOf(plan.objects)[i];
        assert ArtifactOf(u) in m.objects;
      }
    }
  }

  lemma {:induction false} Fits(s: Store, plan: Plan)
    requires !SomeDiffers(s, plan, Uploads(plan)) && !SomeMistyped(s, plan, Uploads(plan))
    ensures StoreFits(s, plan)
  {
    hide Uploads;
    forall u | u in Uploads(plan) && KeyOf(plan, u) in s.objects ensures StoredExactly(s, plan, u) {
      assert !Differs(s, plan, u) && !MistypedIn(s, plan, u);
    }
  }

  /**
   A release that was published and replaced by another is restored by a rollback: the site points to
   it again, and no object changes.
   */
  lemma {:induction false} RollbackRestores(s: Store, a: Publisher, first: Plan, b: Publisher, second: Plan, r: RollbackRequest)
    requires Sound(s) && IsPlan(first) && IsPlan(second) && Matches(a, first) && Matches(b, second)
    requires first.manifest.siteId == second.manifest.siteId && first.manifest.releaseId != second.manifest.releaseId
    requires StoreFits(s, first) && StoreFits(s, second) && NothingElse(s, first) && "1." <= first.manifest.compilerVersion
    requires r.siteId == first.manifest.siteId
    requires Names(PointerOf(a, first), r.releaseId, r.expectedManifestSha256)
    requires Names(PointerOf(b, second), r.expectedCurrentReleaseId, r.expectedCurrentManifestSha256)
    ensures
      var t := SoloPublish(s, a, first).0;
      var u := SoloPublish(t, b, second).0;
      var (v, end) := SoloRollback(u, r);
      && SiteCell(u, r.siteId).Some? && SiteCell(u, r.siteId).value.content.releaseId == second.manifest.releaseId
      && end.RolledBack? && v.objects == u.objects
      && SiteCell(v, r.siteId) == Some(Cell(end.etag,
           SitePointer(r.siteId, first.manifest.releaseId, Sha256(CanonicalManifest(first.manifest)), r.actor, r.recordedAt)))
  {
    hide Uploads, IsPlan, Sound, SoloPublish, SoloRollback, ReleaseStored, Grows, StoreFits, BecomesCurrent, NothingElse, HasExtra, AddsObjects;
    SoloPublishSucceeds(s, a, first);
    Added(s, a, first);
    var t := SoloPublish(s, a, first).0;
    StillNothingElse(s, t, first, first);
    FitsAfter(s, t, first, second);
    SoloPublishSucceeds(t, b, second);
    Added(t, b, second);
    var u := SoloPublish(t, b, second).0;
    StillNothingElse(t, u, first, second);
    ReleaseStays(t, u, first.manifest);
    OnlyExpected(u, first);
    KeysListed(u, first.manifest);
    assert Restorable(u, r, first.manifest);
    SoloRollbackSucceeds(u, r);
    RollbackOutcome(u, r);
  }

  lemma {:induction false} Added(s: Store, publisher: Publisher, plan: Plan)
    requires IsPlan(plan) && Matches(publisher, plan) && StoreFits(s, plan)
    ensures AddsObjects(s, SoloPublish(s, publisher, plan).0, plan, Uploads(plan))
  {
    hide Uploads, IsPlan, SoloPublish, AddsObjects, BecomesCurrent;
    PublishOutcome(s, publisher, plan);
  }

  lemma {:induction false} FitsAfter(s: Store, t: Store, plan: Plan, other: Plan)
    requires StoreFits(s, other) && AddsObjects(s, t, plan, Uploads(plan)) && plan.manifest.releaseId != other.manifest.releaseId
    ensures StoreFits(t, other)
  {
    hide Uploads;
    forall u | u in Uploads(other) && KeyOf(other, u) in t.objects ensures StoredExactly(t, other, u) {
      assert KeyOf(other, u) in s.objects;
    }
  }
}
