/** A rollback and a routing publish that run by themselves: exactly when they succeed, and what they change. */
module SoloRuns {
  import opened Wrappers
  import opened Documents
  import opened ReleasePlans
  import opened ReleaseStore
  import opened ReleaseSteps
  import opened ReleaseProtocol
  import opened Text
  import PublishRuns

  function RollbackPhase(at: RollbackAt): nat {
    match at
    case ReadingCurrent => 6
    case ReadingTarget(_) => 5
    case Listing(_, _) => 4
    case ReadingArtifacts(_, _, _) => 3
    case Swapping(_, _) => 2
    case CheckingFinal(_, _, _) => 1
    case RolledBack(_, _, _) => 0
    case RollbackFailed(_) => 0
  }

  function RunRollback(s: Store, r: RollbackRequest, at: RollbackAt): (Store, RollbackAt)
    decreases RollbackPhase(at), if at.ReadingArtifacts? then |at.todo| else 0
  {
    if at.RolledBack? || at.RollbackFailed? then (s, at)
    else
      var (t, next) := RollbackStep(s, r, at, PublishRuns.FreshEtag(SiteHistory(s, r.siteId)));
      RunRollback(t, r, next)
  }

  function SoloRollback(s: Store, r: RollbackRequest): (Store, RollbackAt) {
    RunRollback(s, r, ReadingCurrent)
  }

  /** The target release is there in full and nothing else is under its prefix. */
  ghost predicate Restorable(s: Store, r: RollbackRequest, m: Manifest) {
    && Targets(r, m) && StartsWith(m.compilerVersion, "1.")
    && ReleaseStored(s, m) && ListedKeys(s, m.siteId, m.releaseId) <= ExpectedKeys(m)
  }

  predicate CurrentAllows(r: RollbackRequest, current: SitePointer) {
    NamesExpected(r, current) || Names(current, r.releaseId, r.expectedManifestSha256)
  }

  lemma {:induction false} ArtifactsRun(s: Store, r: RollbackRequest, current: Cell<SitePointer>, m: Manifest, todo: seq<Artifact>)
    ensures var end := RunRollback(s, r, ReadingArtifacts(current, m, todo));
      if forall a :: a in todo ==> ArtifactStored(s, m, a)
      then end == RunRollback(s, r, Decide(r, current, m))
      else end.0 == s && end.1.RollbackFailed?
  {
    hide Decide;
    if todo != [] {
      assert todo == [todo[0]] + todo[1..];
      if ArtifactStored(s, m, todo[0]) {
        ArtifactsRun(s, r, current, m, todo[1..]);
      } else {
        assert todo[0] in todo;
      }
    }
  }

  lemma {:induction false} ListingHolds(s: Store, m: Manifest)
    requires ReleaseStored(s, m)
    ensures ExpectedKeys(m) <= ListedKeys(s, m.siteId, m.releaseId)
  {
    forall key | key in ExpectedKeys(m) ensures key in ListedKeys(s, m.siteId, m.releaseId) {
      if key != ManifestKey(m.siteId, m.releaseId) {
        var i :| 0 <= i < |m.objects| && key == ReleaseKey(m.siteId, m.releaseId, m.objects[i].path);
        assert ArtifactStored(s, m, m.objects[i]);
      }
    }
  }

  lemma {:induction false} DecideRun(s: Store, r: RollbackRequest, current: Cell<SitePointer>, m: Manifest)
    requires SiteCell(s, r.siteId) == Some(current) && Targets(r, m)
    ensures var (t, end) := RunRollback(s, r, Decide(r, current, m));
      && (end.RolledBack? <==> CurrentAllows(r, current.content))
      && (!end.RolledBack? ==> end.RollbackFailed? && t == s)
      && (end.RolledBack? ==> SiteCell(t, r.siteId) == Some(Cell(end.etag, end.pointer))
                              && Names(end.pointer, r.releaseId, r.expectedManifestSha256))
      && (Names(current.content, r.releaseId, r.expectedManifestSha256) ==> t == s)
  {
    hide StartsWith;
    var at := Decide(r, current, m);
    if at.Swapping? {
      var etag := PublishRuns.FreshEtag(SiteHistory(s, r.siteId));
      var (t, next) := RollbackStep(s, r, at, etag);
      assert next == CheckingFinal(current, m, etag);
      assert SiteCell(t, r.siteId) == Some(Cell(etag, TargetPointer(r, m)));
      assert RunRollback(s, r, at) == RunRollback(t, r, next);
    }
  }

  /**
   A solo rollback succeeds exactly when the target is restorable and the site's pointer is the
   expected one or already the target; it then leaves the pointer naming the target, and nothing
   else changes.
   */
  lemma {:induction false} SoloRollbackSucceeds(s: Store, r: RollbackRequest)
    requires Sound(s)
    ensures var (t, end) := SoloRollback(s, r);
      && (end.RolledBack? <==>
            && SiteCell(s, r.siteId).Some? && CurrentAllows(r, SiteCell(s, r.siteId).value.content)
            && exists m :: Restorable(s, r, m))
      && (end.RolledBack? ==> SiteCell(t, r.siteId) == Some(Cell(end.etag, end.pointer))
                              && Names(end.pointer, r.releaseId, r.expectedManifestSha256))
      && (!end.RolledBack? ==> t == s)
  {
    hide PointersSound, LawfulEtags, Decide, ListedKeys, ExpectedKeys, CurrentAllows;
    if SiteCell(s, r.siteId).Some? {
      var current := SiteCell(s, r.siteId).value;
      var found := CheckTarget(r, Read(s, ManifestKey(r.siteId, r.releaseId)));
      TargetFound(s, r);
      assert SoloRollback(s, r) == RunRollback(s, r, ReadingTarget(current));
      if found.Ok? {
        var m := found.value;
        assert RunRollback(s, r, ReadingTarget(current)) == RunRollback(s, r, Listing(current, m));
        ListingRun(s, r, current, m);
      } else {
        assert RunRollback(s, r, ReadingTarget(current)) == RunRollback(s, r, RollbackFailed(found.error));
      }
    } else {
      assert SoloRollback(s, r) == RunRollback(s, r, RollbackFailed(CurrentPointerUnreadable));
    }
  }

  /** The manifest check finds the only manifest that could be restorable. */
  lemma {:induction false} TargetFound(s: Store, r: RollbackRequest)
    requires Sound(s)
    ensures var found := CheckTarget(r, Read(s, ManifestKey(r.siteId, r.releaseId)));
      && (forall m :: Restorable(s, r, m) ==> found == Ok(m))
      && (found.Ok? ==> Targets(r, found.value) && ManifestStored(s, found.value)
                        && StartsWith(found.value.compilerVersion, "1."))
  {
    hide PointersSound, LawfulEtags, ListedKeys, ExpectedKeys, StartsWith;
    ReadsManifest(s, r);
  }

  lemma {:induction false} ListingRun(s: Store, r: RollbackRequest, current: Cell<SitePointer>, m: Manifest)
    requires SiteCell(s, r.siteId) == Some(current)
    requires Targets(r, m) && ManifestStored(s, m) && StartsWith(m.compilerVersion, "1.")
    ensures var (t, end) := RunRollback(s, r, Listing(current, m));
      && (end.RolledBack? <==> CurrentAllows(r, current.content) && Restorable(s, r, m))
      && (end.RolledBack? ==> SiteCell(t, r.siteId) == Some(Cell(end.etag, end.pointer))
                              && Names(end.pointer, r.releaseId, r.expectedManifestSha256))
      && (!end.RolledBack? ==> end.RollbackFailed? && t == s)
  {
    hide Decide, ListedKeys, ExpectedKeys, CurrentAllows, StartsWith, SiteCell, ManifestStored, Names, ManifestKey;
    if ReleaseStored(s, m) {
      ListingHolds(s, m);
    }
    ArtifactsRun(s, r, current, m, m.objects);
    DecideRun(s, r, current, m);
  }

  // ---------- routing ----------

  function RoutingPhase(at: RoutingAt): nat {
    match at
    case PuttingTable => 7
    case ComparingTable => 6
    case CheckingSites(_) => 5
    case CheckingReleases(_) => 4
    case HeadingRouting => 3
    case CreatingRouting => 2
    case ReadingRouting(_) => 2
    case SwappingRouting(_) => 1
    case Routed(_) => 0
    case RoutingFailed(_) => 0
  }

  function RunRouting(s: Store, r: RoutingRequest, at: RoutingAt): (Store, RoutingAt)
    decreases RoutingPhase(at), if at.CheckingSites? then |at.todo| else if at.CheckingReleases? then |at.keys| else 0
  {
    if at.Routed? || at.RoutingFailed? then (s, at)
    else
      var (t, next) := RoutingStep(s, r, at, PublishRuns.FreshEtag(s.routing));
      RunRouting(t, r, next)
  }

  function SoloRouting(s: Store, r: RoutingRequest): (Store, RoutingAt) {
    RunRouting(s, r, PuttingTable)
  }

  lemma {:induction false} SitesRun(s: Store, r: RoutingRequest, todo: seq<string>)
    ensures var end := RunRouting(s, r, CheckingSites(todo));
      if SitesExist(s, todo) then end == RunRouting(s, r, CheckingReleases(r.releases))
      else end == (s, RoutingFailed(SitePointerMissing))
  {
    hide SiteCell;
    if todo != [] {
      assert todo == [todo[0]] + todo[1..];
      if SiteCell(s, todo[0]).Some? {
        SitesRun(s, r, todo[1..]);
        assert SitesExist(s, todo) <==> SitesExist(s, todo[1..]);
      } else {
        assert todo[0] in todo;
      }
    }
  }

  lemma {:induction false} ReleasesRun(s: Store, r: RoutingRequest, keys: seq<Key>)
    ensures var end := RunRouting(s, r, CheckingReleases(keys));
      if forall key :: key in keys ==> key in s.objects then end == RunRouting(s, r, HeadingRouting)
      else end == (s, RoutingFailed(SiteReleaseMissing))
  {
    if keys != [] {
      assert keys == [keys[0]] + keys[1..];
      if keys[0] in s.objects {
        ReleasesRun(s, r, keys[1..]);
      } else {
        assert keys[0] in keys;
      }
    }
  }

  /** With the table stored and its references there, the pointer is created, kept or swapped. */
  lemma {:induction false} RoutingPointerRun(s: Store, r: RoutingRequest)
    ensures var (t, end) := RunRouting(s, r, HeadingRouting);
      && end == Routed(RoutingPointerOf(r))
      && RoutingCell(t).Some? && RoutingCell(t).value.content == RoutingPointerOf(r)
      && t.objects == s.objects && t.sites == s.sites
      && (RoutingCell(s).Some? && RoutingCell(s).value.content == RoutingPointerOf(r) ==> t == s)
  {
    hide RoutingPointerOf;
    var cell := RoutingCell(s);
    var etag := PublishRuns.FreshEtag(s.routing);
    if cell.None? {
      assert RunRouting(s, r, HeadingRouting) == RunRouting(s, r, CreatingRouting);
      assert RunRouting(s, r, CreatingRouting) == RunRouting(AppendRouting(s, RoutingPointerOf(r), etag), r, Routed(RoutingPointerOf(r)));
    } else {
      var head := cell.value.etag;
      assert RunRouting(s, r, HeadingRouting) == RunRouting(s, r, ReadingRouting(head));
      if cell.value.content != RoutingPointerOf(r) {
        assert RunRouting(s, r, ReadingRouting(head)) == RunRouting(s, r, SwappingRouting(head));
        assert RunRouting(s, r, SwappingRouting(head))
            == RunRouting(AppendRouting(s, RoutingPointerOf(r), etag), r, Routed(RoutingPointerOf(r)));
      }
    }
  }

  /**
   A solo routing publish succeeds exactly when its request is well formed, its manifest key is free or
   holds the same bytes, and every listed site pointer and release manifest exists; the routing pointer then names the table,
   and publishing the same request again changes nothing.
   */
  lemma {:induction false} SoloRoutingSucceeds(s: Store, r: RoutingRequest)
    ensures var (t, end) := SoloRouting(s, r);
      && (end.Routed? <==>
            && IsRoutingRequest(r)
            && (RoutingKey(r.routingId) in s.objects ==> s.objects[RoutingKey(r.routingId)].body == RoutingBody(r.table))
            && SitesExist(s, r.sites)
            && forall key :: key in r.releases ==> key in s.objects || key == RoutingKey(r.routingId))
      && (end.Routed? ==>
            && RoutingCell(t).Some? && RoutingCell(t).value.content == RoutingPointerOf(r)
            && RoutingKey(r.routingId) in t.objects && t.objects[RoutingKey(r.routingId)].body == RoutingBody(r.table)
            && t.sites == s.sites && SoloRouting(t, r) == (t, end))
  {
    hide RoutingPointerOf, RoutingBody, IsRoutingRequest;
    var key := RoutingKey(r.routingId);
    var stored := StoredObject(RoutingBody(r.table), JSON_CONTENT_TYPE);
    var t := CreateIfAbsent(s, key, stored).0;
    SitesSame(s, t, r.sites);
    TableRun(s, r);
    if IsRoutingRequest(r) && t.objects[key].body == RoutingBody(r.table) {
      SitesRun(t, r, r.sites);
      ReleasesRun(t, r, r.releases);
      RoutingPointerRun(t, r);
      var (u, end) := SoloRouting(s, r);
      if end.Routed? {
        SitesSame(t, u, r.sites);
        TableRun(u, r);
        SitesRun(u, r, r.sites);
        ReleasesRun(u, r, r.releases);
        RoutingPointerRun(u, r);
      }
    }
  }

  lemma SitesSame(s: Store, t: Store, sites: seq<string>)
    requires t.sites == s.sites
    ensures SitesExist(s, sites) <==> SitesExist(t, sites)
  {
    assert forall siteId :: SiteCell(s, siteId) == SiteCell(t, siteId);
  }

  lemma {:induction false} TableRun(s: Store, r: RoutingRequest)
    ensures var key := RoutingKey(r.routingId);
      var t := CreateIfAbsent(s, key, StoredObject(RoutingBody(r.table), JSON_CONTENT_TYPE)).0;
      if !IsRoutingRequest(r) then SoloRouting(s, r) == (s, RoutingFailed(RequestInvalid))
      else if t.objects[key].body == RoutingBody(r.table) then SoloRouting(s, r) == RunRouting(t, r, CheckingSites(r.sites))
      else SoloRouting(s, r) == (s, RoutingFailed(ManifestExistsWithDifferentContent))
  {
    hide RoutingPointerOf, RoutingBody, SiteCell, IsRoutingRequest;
    var key := RoutingKey(r.routingId);
    var (t, created) := CreateIfAbsent(s, key, StoredObject(RoutingBody(r.table), JSON_CONTENT_TYPE));
    if IsRoutingRequest(r) && !created {
      assert SoloRouting(s, r) == RunRouting(s, r, ComparingTable);
    }
  }

  lemma {:induction false} FreshRouting(s: Store, r: RoutingRequest, at: RoutingAt)
    requires LawfulEtags(s)
    ensures LawfulEtags(RoutingStep(s, r, at, PublishRuns.FreshEtag(s.routing)).0)
  {
    hide RoutingPointerOf, SiteCell;
    var etag := PublishRuns.FreshEtag(s.routing);
    AppendAgrees(s.routing, etag, RoutingPointerOf(r));
    var t := RoutingStep(s, r, at, etag).0;
    assert forall siteId :: SiteHistory(t, siteId) == SiteHistory(s, siteId);
  }

  lemma {:induction false} RoutingRunKeeps(s: Store, r: RoutingRequest, at: RoutingAt)
    requires Sound(s) && RoutingInv(s, r, at)
    ensures Grows(s, RunRouting(s, r, at).0) && Sound(RunRouting(s, r, at).0)
    decreases RoutingPhase(at), if at.CheckingSites? then |at.todo| else if at.CheckingReleases? then |at.keys| else 0
  {
    hide Grows, RoutingInv, ObjectsSound, PointersSound, LawfulEtags;
    GrowsReflexive(s);
    if !at.Routed? && !at.RoutingFailed? {
      FreshRouting(s, r, at);
      RoutingStepKeeps(s, r, at, PublishRuns.FreshEtag(s.routing));
      var (t, next) := RoutingStep(s, r, at, PublishRuns.FreshEtag(s.routing));
      RoutingRunKeeps(t, r, next);
      GrowsTransitive(s, t, RunRouting(t, r, next).0);
    }
  }

  /** A solo routing publish is a run of the protocol too. */
  lemma {:induction false} RoutingKeepsSound(s: Store, r: RoutingRequest)
    requires Sound(s)
    ensures Grows(s, SoloRouting(s, r).0) && Sound(SoloRouting(s, r).0)
  {
    hide Sound;
    RoutingRunKeeps(s, r, PuttingTable);
  }
}
