/** Rolling back and publishing the routing manifest against the store object. */
module StoreOperations {
  import opened Wrappers
  import opened Documents
  import opened ReleasePlans
  import opened ReleaseStore
  import opened ReleaseSteps
  import opened ArtifactStores
  import opened SoloRuns

  /** The checks of the listing: nothing unexpected, nothing missing. */
  method VerifyInventory(store: ArtifactStore, r: RollbackRequest, ghost current: Cell<SitePointer>, target: Manifest)
    returns (result: Result<(), RollbackError>)
    ensures RunRollback(store.State(), r, Listing(current, target))
         == match result
            case Ok(_) => RunRollback(store.State(), r, ReadingArtifacts(current, target, target.objects))
            case Err(error) => (store.State(), RollbackFailed(error))
  {
    hide ListedKeys, ExpectedKeys;
    var expected := ExpectedKeys(target);
    var listed := store.List(target.siteId, target.releaseId);
    var i := 0;
    while i < |listed|
      invariant 0 <= i <= |listed|
      invariant forall j :: 0 <= j < i ==> listed[j] in expected
    {
      if listed[i] !in expected {
        assert listed[i] in ListedKeys(store.State(), target.siteId, target.releaseId);
        return Err(ExtraObject);
      }
      i := i + 1;
    }
    assert ListedKeys(store.State(), target.siteId, target.releaseId) <= expected;
    var rest := expected;
    while rest != {}
      invariant rest <= expected
      invariant expected - rest <= ListedKeys(store.State(), target.siteId, target.releaseId)
      decreases rest
    {
      var key :| key in rest;
      if key !in listed {
        assert key in expected && key !in ListedKeys(store.State(), target.siteId, target.releaseId);
        return Err(MissingObject);
      }
      rest := rest - {key};
    }
    return Ok(());
  }

  /** Every listed artifact is read and compared with its entry. */
  method VerifyArtifacts(store: ArtifactStore, r: RollbackRequest, ghost current: Cell<SitePointer>, target: Manifest)
    returns (result: Result<(), RollbackError>)
    ensures RunRollback(store.State(), r, ReadingArtifacts(current, target, target.objects))
         == match result
            case Ok(_) => RunRollback(store.State(), r, Decide(r, current, target))
            case Err(error) => (store.State(), RollbackFailed(error))
  {
    hide Decide;
    var objects := target.objects;
    assert objects[0..] == objects;
    var i := 0;
    while i < |objects|
      invariant 0 <= i <= |objects|
      invariant RunRollback(store.State(), r, ReadingArtifacts(current, target, objects))
             == RunRollback(store.State(), r, ReadingArtifacts(current, target, objects[i..]))
    {
      assert objects[i..][0] == objects[i] && objects[i..][1..] == objects[i + 1..];
      var stored := store.Read(ReleaseKey(target.siteId, target.releaseId, objects[i].path));
      var checked := CheckArtifact(objects[i], stored);
      if checked.Err? {
        return Err(checked.error);
      }
      i := i + 1;
    }
    return Ok(());
  }

  method VerifyRemoteRelease(store: ArtifactStore, r: RollbackRequest, ghost current: Cell<SitePointer>)
    returns (result: Result<Manifest, RollbackError>)
    ensures RunRollback(store.State(), r, ReadingTarget(current))
         == if result.Ok? then RunRollback(store.State(), r, Decide(r, current, result.value))
            else (store.State(), RollbackFailed(result.error))
    ensures result.Ok? ==> result.value.siteId == r.siteId
  {
    hide Decide, ManifestHash;
    var stored := store.Read(ManifestKey(r.siteId, r.releaseId));
    var target := CheckTarget(r, stored);
    if target.Err? {
      return Err(target.error);
    }
    assert RunRollback(store.State(), r, ReadingTarget(current))
        == RunRollback(store.State(), r, Listing(current, target.value));
    var inventory := VerifyInventory(store, r, current, target.value);
    if inventory.Err? {
      return Err(inventory.error);
    }
    var artifacts := VerifyArtifacts(store, r, current, target.value);
    if artifacts.Err? {
      return Err(artifacts.error);
    }
    return target;
  }

  datatype RollbackResult = RollbackResult(etag: ETag, pointer: SitePointer, receipt: RollbackReceipt)

  function ReportedRollback(result: Result<RollbackResult, RollbackError>): RollbackAt {
    match result
    case Ok(r) => RolledBack(r.etag, r.pointer, r.receipt)
    case Err(error) => RollbackFailed(error)
  }

  method RollbackRelease(store: ArtifactStore, r: RollbackRequest)
    returns (result: Result<RollbackResult, RollbackError>)
    modifies store
    ensures (store.State(), ReportedRollback(result)) == SoloRollback(old(store.State()), r)
  {
    hide SiteHistory, CheckTarget, ManifestHash;
    var current := store.ReadPointer(r.siteId);
    if current.None? {
      return Err(CurrentPointerUnreadable);
    }
    var verified := VerifyRemoteRelease(store, r, current.value);
    if verified.Err? {
      return Err(verified.error);
    }
    result := MovePointer(store, r, current.value, verified.value);
  }

  /** Decides between refusing, reporting a replay, and swapping. */
  method MovePointer(store: ArtifactStore, r: RollbackRequest, current: Cell<SitePointer>, target: Manifest)
    returns (result: Result<RollbackResult, RollbackError>)
    requires target.siteId == r.siteId
    modifies store
    ensures (store.State(), ReportedRollback(result)) == RunRollback(old(store.State()), r, Decide(r, current, target))
  {
    hide SiteHistory, ManifestHash;
    var targetIsCurrent := Names(current.content, target.releaseId, ManifestHash(target));
    var expectedCurrent := Names(current.content, r.expectedCurrentReleaseId, r.expectedCurrentManifestSha256);
    if !expectedCurrent && !targetIsCurrent {
      return Err(ExpectedCurrentMismatch);
    }
    if targetIsCurrent {
      return Ok(RollbackResult(current.etag, current.content,
        RollbackReceiptOf(r, target, r.expectedCurrentReleaseId, r.expectedCurrentManifestSha256,
                          current.etag, current.etag)));
    }
    var swapped := store.CompareAndSwapCurrentPointer(current.etag, TargetPointer(r, target));
    if swapped.None? {
      return Err(StaleEtag);
    }
    assert RunRollback(old(store.State()), r, Decide(r, current, target))
        == RunRollback(store.State(), r, CheckingFinal(current, target, swapped.value));
    var final := store.ReadPointer(r.siteId);
    if final.None? {
      return Err(CurrentPointerUnreadable);
    }
    if !Names(final.value.content, target.releaseId, ManifestHash(target)) {
      return Err(ReleasePointerMismatch);
    }
    return Ok(RollbackResult(swapped.value, final.value.content,
      RollbackReceiptOf(r, target, current.content.releaseId, current.content.manifestSha256,
                        current.etag, swapped.value)));
  }

  /** Checks the sites and releases that the routing manifest refers to. */
  method CheckReferences(store: ArtifactStore, r: RoutingRequest) returns (result: Result<(), RoutingError>)
    ensures RunRouting(store.State(), r, CheckingSites(r.sites))
         == match result
            case Ok(_) => RunRouting(store.State(), r, HeadingRouting)
            case Err(error) => (store.State(), RoutingFailed(error))
  {
    hide SiteCell;
    assert r.sites[0..] == r.sites && r.releases[0..] == r.releases;
    var i := 0;
    while i < |r.sites|
      invariant 0 <= i <= |r.sites|
      invariant RunRouting(store.State(), r, CheckingSites(r.sites))
             == RunRouting(store.State(), r, CheckingSites(r.sites[i..]))
    {
      assert r.sites[i..][0] == r.sites[i] && r.sites[i..][1..] == r.sites[i + 1..];
      var found := store.ReadPointer(r.sites[i]);
      if found.None? {
        return Err(SitePointerMissing);
      }
      i := i + 1;
    }
    i := 0;
    while i < |r.releases|
      invariant 0 <= i <= |r.releases|
      invariant RunRouting(store.State(), r, CheckingSites(r.sites))
             == RunRouting(store.State(), r, CheckingReleases(r.releases[i..]))
    {
      assert r.releases[i..][0] == r.releases[i] && r.releases[i..][1..] == r.releases[i + 1..];
      var found := store.Read(r.releases[i]);
      if found.None? {
        return Err(SiteReleaseMissing);
      }
      i := i + 1;
    }
    return Ok(());
  }

  method PublishRoutingManifest(store: ArtifactStore, r: RoutingRequest)
    returns (result: Result<RoutingPointer, RoutingError>)
    modifies store
    ensures (store.State(), match result case Ok(pointer) => Routed(pointer) case Err(error) => RoutingFailed(error))
         == SoloRouting(old(store.State()), r)
  {
    hide RoutingBody, SiteCell, RoutingPointerOf, IsRoutingRequest;
    if !IsRoutingRequest(r) {
      return Err(RequestInvalid);
    }
    var key := RoutingKey(r.routingId);
    var created := store.CreateIfAbsent(key, StoredObject(RoutingBody(r.table), JSON_CONTENT_TYPE));
    if !created {
      assert SoloRouting(old(store.State()), r) == RunRouting(store.State(), r, ComparingTable);
      var existing := store.Read(key);
      if existing.None? || existing.value.body != RoutingBody(r.table) {
        return Err(ManifestExistsWithDifferentContent);
      }
    }
    assert SoloRouting(old(store.State()), r) == RunRouting(store.State(), r, CheckingSites(r.sites));
    var checked := CheckReferences(store, r);
    if checked.Err? {
      return Err(checked.error);
    }
    result := MoveRoutingPointer(store, r);
  }

  method MoveRoutingPointer(store: ArtifactStore, r: RoutingRequest)
    returns (result: Result<RoutingPointer, RoutingError>)
    modifies store
    ensures (store.State(), match result case Ok(pointer) => Routed(pointer) case Err(error) => RoutingFailed(error))
         == RunRouting(old(store.State()), r, HeadingRouting)
  {
    hide RoutingPointerOf;
    var pointer := RoutingPointerOf(r);
    var head := store.ReadRouting();
    if head.None? {
      assert RunRouting(old(store.State()), r, HeadingRouting) == RunRouting(store.State(), r, CreatingRouting);
      var created := store.CreateRouting(pointer);
      return if created then Ok(pointer) else Err(PointerConditionFailed);
    }
    assert RunRouting(old(store.State()), r, HeadingRouting) == RunRouting(store.State(), r, ReadingRouting(head.value.etag));
    var current := store.ReadRouting();
    if current.None? {
      return Err(RoutingPointerUnreadable);
    }
    if current.value.content == pointer {
      return Ok(pointer);
    }
    assert RunRouting(old(store.State()), r, HeadingRouting) == RunRouting(store.State(), r, SwappingRouting(head.value.etag));
    var swapped := store.CompareAndSwapRouting(head.value.etag, pointer);
    return if swapped then Ok(pointer) else Err(PointerConditionFailed);
  }
}
