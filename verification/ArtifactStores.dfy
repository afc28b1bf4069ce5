/**
 The store as an object, and the publisher's operations written against it. Each operation is the
 run of its program counter without interference.
 */
module ArtifactStores {
  import opened Wrappers
  import opened Documents
  import opened ReleasePlans
  import opened ReleaseStore
  import opened ReleaseSteps
  import opened PublishRuns

  class ArtifactStore {
    var objects: map<Key, StoredObject>
    var sites: map<string, seq<Cell<SitePointer>>>
    var routing: seq<Cell<RoutingPointer>>

    constructor ()
      ensures State() == EMPTY_STORE
    {
      objects, sites, routing := map[], map[], [];
    }

    function State(): Store
      reads this
    {
      Store(objects, sites, routing)
    }

    method CreateIfAbsent(key: Key, stored: StoredObject) returns (created: bool)
      modifies this`objects
      ensures (State(), created) == ReleaseStore.CreateIfAbsent(old(State()), key, stored)
    {
      created := key !in objects;
      if created {
        objects := objects[key := stored];
      }
    }

    method Read(key: Key) returns (found: Option<StoredObject>)
      ensures found == ReleaseStore.Read(State(), key)
    {
      found := if key in objects then Some(objects[key]) else None;
    }

    method ReadPointer(siteId: string) returns (found: Option<Cell<SitePointer>>)
      ensures found == SiteCell(State(), siteId)
    {
      found := if siteId in sites then Last(sites[siteId]) else None;
    }

    /** Every key of a release, collected one by one. */
    method List(siteId: string, releaseId: string) returns (entries: seq<Key>)
      ensures forall key :: key in entries <==> key in ListedKeys(State(), siteId, releaseId)
    {
      entries := [];
      var rest := set key | key in objects && key.ReleaseKey? && key.siteId == siteId && key.releaseId == releaseId;
      while rest != {}
        invariant forall key :: key in rest || key in entries <==> key in ListedKeys(State(), siteId, releaseId)
        decreases rest
      {
        var key :| key in rest;
        rest := rest - {key};
        entries := entries + [key];
      }
    }

    method ReadRouting() returns (found: Option<Cell<RoutingPointer>>)
      ensures found == RoutingCell(State())
    {
      found := Last(routing);
    }

    method CreateRouting(pointer: RoutingPointer) returns (created: bool)
      modifies this`routing
      ensures (State(), created) == CreateRoutingPointer(old(State()), pointer, FreshEtag(old(State()).routing))
    {
      created := routing == [];
      if created {
        routing := routing + [Cell(FreshEtag(routing), pointer)];
      }
    }

    method CompareAndSwapRouting(expected: ETag, pointer: RoutingPointer) returns (swapped: bool)
      modifies this`routing
      ensures (State(), swapped) == SwapRoutingPointer(old(State()), expected, pointer, FreshEtag(old(State()).routing))
    {
      swapped := routing != [] && routing[|routing| - 1].etag == expected;
      if swapped {
        routing := routing + [Cell(FreshEtag(routing), pointer)];
      }
    }

    /** Some ETag is the created pointer's; None is the failed condition. */
    method CreateCurrentPointer(pointer: SitePointer) returns (etag: Option<ETag>)
      modifies this`sites
      ensures var unused := FreshEtag(SiteHistory(old(State()), pointer.siteId));
        && (State(), etag.Some?) == CreateSitePointer(old(State()), pointer, unused)
        && (etag.Some? ==> etag.value == unused)
    {
      var history := if pointer.siteId in sites then sites[pointer.siteId] else [];
      if history != [] {
        return None;
      }
      var unused := FreshEtag(history);
      sites := sites[pointer.siteId := history + [Cell(unused, pointer)]];
      etag := Some(unused);
    }

    method CompareAndSwapCurrentPointer(expected: ETag, pointer: SitePointer) returns (etag: Option<ETag>)
      modifies this`sites
      ensures var unused := FreshEtag(SiteHistory(old(State()), pointer.siteId));
        && (State(), etag.Some?) == SwapSitePointer(old(State()), expected, pointer, unused)
        && (etag.Some? ==> etag.value == unused)
    {
      var history := if pointer.siteId in sites then sites[pointer.siteId] else [];
      if history == [] || history[|history| - 1].etag != expected {
        return None;
      }
      var unused := FreshEtag(history);
      sites := sites[pointer.siteId := history + [Cell(unused, pointer)]];
      etag := Some(unused);
    }
  }

  datatype PublishResult = PublishResult(etag: ETag, pointer: SitePointer, receipt: PublishReceipt)

  /** How a finished program counter is reported to the caller. */
  function Reported(result: Result<PublishResult, PublishError>): PublishAt {
    match result
    case Ok(r) => Published(r.etag, r.pointer, r.receipt)
    case Err(error) => PublishFailed(error)
  }

  /** Creates one object, accepting one that is already there with the same bytes. */
  method UploadConditionally(store: ArtifactStore, publisher: Publisher, plan: Plan, todo: seq<PlannedObject>)
    returns (result: Result<(), PublishError>)
    requires todo != []
    modifies store
    ensures RunPublish(old(store.State()), publisher, plan, Uploading(todo))
         == match result
            case Ok(_) => RunPublish(store.State(), publisher, plan, Uploading(todo[1..]))
            case Err(error) => (store.State(), PublishFailed(error))
  {
    hide SiteHistory, KeyOf, Uploads, ManifestHash;
    var planned, rest := todo[0], todo[1..];
    var created := store.CreateIfAbsent(KeyOf(plan, planned), StoredObject(planned.body, planned.contentType));
    if created {
      return Ok(());
    }
    assert RunPublish(old(store.State()), publisher, plan, Uploading(todo))
        == RunPublish(store.State(), publisher, plan, Comparing(planned, rest));
    var existing := store.Read(KeyOf(plan, planned));
    if existing.None? {
      return Err(RemoteVerificationFailed);
    }
    var sameBytes := ByteLength(existing.value.body) == ByteLength(planned.body);
    var sameHash := Sha256(existing.value.body) == planned.sha256;
    if !sameBytes || !sameHash {
      return Err(ExistsWithDifferentContent);
    }
    assert RunPublish(old(store.State()), publisher, plan, Uploading(todo))
        == RunPublish(store.State(), publisher, plan, Confirming(planned, rest));
    var head := store.Read(KeyOf(plan, planned));
    if head.None? {
      return Err(RemoteVerificationFailed);
    }
    return Ok(());
  }

  /** Re-reads what was uploaded: lengths and types of everything, and the manifest's hash. */
  method VerifyUploads(store: ArtifactStore, publisher: Publisher, plan: Plan) returns (result: Result<(), PublishError>)
    ensures RunPublish(store.State(), publisher, plan, Verifying(Uploads(plan)))
         == match result
            case Ok(_) => RunPublish(store.State(), publisher, plan, HeadingPointer)
            case Err(error) => (store.State(), PublishFailed(error))
  {
    hide SiteHistory, KeyOf, ManifestHash;
    var uploads := Uploads(plan);
    var i := 0;
    assert uploads[0..] == uploads;
    while i < |uploads|
      invariant 0 <= i <= |uploads|
      invariant RunPublish(store.State(), publisher, plan, Verifying(uploads))
             == RunPublish(store.State(), publisher, plan, Verifying(uploads[i..]))
    {
      var planned := uploads[i];
      assert uploads[i..][0] == planned && uploads[i..][1..] == uploads[i + 1..];
      var head := store.Read(KeyOf(plan, planned));
      if head.None? {
        return Err(RemoteVerificationFailed);
      }
      if ByteLength(head.value.body) != planned.bytes || head.value.contentType != planned.contentType {
        return Err(RemoteVerificationFailed);
      }
      i := i + 1;
    }
    assert RunPublish(store.State(), publisher, plan, Verifying(uploads))
        == RunPublish(store.State(), publisher, plan, ReadingManifest);
    var remote := store.Read(ManifestKey(plan.manifest.siteId, plan.manifest.releaseId));
    if remote.None? || Sha256(remote.value.body) != plan.manifestObject.sha256 {
      return Err(RemoteVerificationFailed);
    }
    return Ok(());
  }

  /** Reports the pointer that is current after the switch, whoever wrote it. */
  method ReadFinalPointer(store: ArtifactStore, publisher: Publisher, plan: Plan, newEtag: ETag, oldEtag: Option<ETag>)
    returns (result: Result<PublishResult, PublishError>)
    ensures (store.State(), Reported(result)) == RunPublish(store.State(), publisher, plan, FinalReading(newEtag, oldEtag))
  {
    hide SiteHistory, ManifestHash, Uploads;
    var final := store.ReadPointer(plan.manifest.siteId);
    if final.None? {
      return Err(PointerUnreadable);
    }
    return Ok(PublishResult(newEtag, final.value.content, PublishReceiptOf(publisher, plan, oldEtag, newEtag)));
  }

  lemma NextRuns(s: Store, publisher: Publisher, plan: Plan, at: PublishAt)
    requires !at.Published? && !at.PublishFailed?
    ensures var (t, next) := NextPublish(s, publisher, plan, at);
      && RunPublish(s, publisher, plan, at) == RunPublish(t, publisher, plan, next)
      && (next.Published? || next.PublishFailed? ==> RunPublish(s, publisher, plan, at) == (t, next))
  {
    hide NextPublish;
  }

  /** Switches the site's pointer to the release, or reports that it is already there. */
  method SwitchPointer(store: ArtifactStore, publisher: Publisher, plan: Plan)
    returns (result: Result<PublishResult, PublishError>)
    modifies store
    ensures (store.State(), Reported(result)) == RunPublish(old(store.State()), publisher, plan, HeadingPointer)
  {
    hide SiteHistory, ManifestHash, Uploads;
    var m := plan.manifest;
    var newEtag: ETag;
    var oldEtag: Option<ETag> := None;
    var head := store.ReadPointer(m.siteId);
    if head.None? {
      assert RunPublish(old(store.State()), publisher, plan, HeadingPointer)
          == RunPublish(old(store.State()), publisher, plan, CreatingPointer);
      var created := store.CreateCurrentPointer(PointerOf(publisher, plan));
      assert NextPublish(old(store.State()), publisher, plan, CreatingPointer)
          == (store.State(), if created.Some? then FinalReading(created.value, None) else PublishFailed(PointerAlreadyExists));
      NextRuns(old(store.State()), publisher, plan, CreatingPointer);
      if created.None? {
        return Err(PointerAlreadyExists);
      }
      newEtag := created.value;
    } else {
      oldEtag := Some(head.value.etag);
      assert RunPublish(old(store.State()), publisher, plan, HeadingPointer)
          == RunPublish(old(store.State()), publisher, plan, ReadingPointer(head.value.etag));
      var current := store.ReadPointer(m.siteId);
      if current.None? {
        return Err(PointerUnreadable);
      }
      if Names(current.value.content, m.releaseId, publisher.verified.manifestSha256) {
        var receipt := PublishReceiptOf(publisher, plan, oldEtag, head.value.etag);
        assert RunPublish(old(store.State()), publisher, plan, HeadingPointer)
            == RunPublish(store.State(), publisher, plan, Published(head.value.etag, current.value.content, receipt));
        return Ok(PublishResult(head.value.etag, current.value.content, receipt));
      }
      assert RunPublish(old(store.State()), publisher, plan, HeadingPointer)
          == RunPublish(old(store.State()), publisher, plan, SwappingPointer(head.value.etag));
      var swapped := store.CompareAndSwapCurrentPointer(head.value.etag, PointerOf(publisher, plan));
      assert NextPublish(old(store.State()), publisher, plan, SwappingPointer(head.value.etag))
          == (store.State(), if swapped.Some? then FinalReading(swapped.value, oldEtag) else PublishFailed(StalePointer));
      NextRuns(old(store.State()), publisher, plan, SwappingPointer(head.value.etag));
      if swapped.None? {
        return Err(StalePointer);
      }
      newEtag := swapped.value;
    }
    result := ReadFinalPointer(store, publisher, plan, newEtag, oldEtag);
  }

  method PublishRelease(store: ArtifactStore, publisher: Publisher, plan: Plan)
    returns (result: Result<PublishResult, PublishError>)
    modifies store
    ensures (store.State(), Reported(result)) == SoloPublish(old(store.State()), publisher, plan)
  {
    hide PublishStep, SiteHistory;
    var uploads := Uploads(plan);
    var i := 0;
    assert uploads[0..] == uploads;
    while i < |uploads|
      invariant 0 <= i <= |uploads|
      invariant SoloPublish(old(store.State()), publisher, plan)
             == RunPublish(store.State(), publisher, plan, Uploading(uploads[i..]))
    {
      assert uploads[i..][1..] == uploads[i + 1..];
      var uploaded := UploadConditionally(store, publisher, plan, uploads[i..]);
      if uploaded.Err? {
        return Err(uploaded.error);
      }
      i := i + 1;
    }
    UploadingDone(store.State(), publisher, plan, uploads[i..]);
    var verified := VerifyUploads(store, publisher, plan);
    if verified.Err? {
      return Err(verified.error);
    }
    result := SwitchPointer(store, publisher, plan);
  }

  lemma {:induction false} UploadingDone(s: Store, publisher: Publisher, plan: Plan, todo: seq<PlannedObject>)
    requires todo == []
    ensures RunPublish(s, publisher, plan, Uploading(todo)) == RunPublish(s, publisher, plan, Verifying(Uploads(plan)))
  {
  }
}
