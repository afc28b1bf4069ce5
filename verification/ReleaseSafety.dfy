/** What holds in every run of the protocol, from an empty store, at any moment and ever after. */
module ReleaseSafety {
  import opened Wrappers
  import opened Documents
  import opened ReleasePlans
  import opened ReleaseStore
  import opened ReleaseSteps
  import opened ReleaseProtocol

  function Store0(events: seq<Event>): Store {
    After(EMPTY_WORLD, events).store
  }

  lemma {:induction false} ReachableHolds(events: seq<Event>)
    requires Possible(EMPTY_WORLD, events)
    ensures Inv(After(EMPTY_WORLD, events))
  {
    EmptyHolds();
    RunKeeps(EMPTY_WORLD, events);
  }

  /** Every value a site pointer has had names a release that is stored in full, now and ever after. */
  lemma {:induction false} CompletePointerSafety(before: seq<Event>, later: seq<Event>, siteId: string, cell: Cell<SitePointer>)
    requires Possible(EMPTY_WORLD, before + later)
    requires cell in SiteHistory(Store0(before), siteId)
    ensures cell.content.siteId == siteId
    ensures Complete(Store0(before), cell.content) && Complete(Store0(before + later), cell.content)
    ensures SiteHistory(Store0(before), siteId) <= SiteHistory(Store0(before + later), siteId)
  {
    hide Possible, Apply, ClientInv, Complete, LawfulEtags, ObjectsSound;
    RunSplits(EMPTY_WORLD, before, later);
    ReachableHolds(before);
    RunKeeps(After(EMPTY_WORLD, before), later);
    CompleteStays(Store0(before), Store0(before + later), cell.content);
  }

  /** Release objects are never changed and never disappear. */
  lemma {:induction false} ObjectsAreImmutable(before: seq<Event>, later: seq<Event>, key: Key)
    requires Possible(EMPTY_WORLD, before + later) && key in Store0(before).objects
    ensures key in Store0(before + later).objects
    ensures Store0(before + later).objects[key] == Store0(before).objects[key]
  {
    hide Possible, Apply, Inv;
    RunSplits(EMPTY_WORLD, before, later);
    ReachableHolds(before);
    RunKeeps(After(EMPTY_WORLD, before), later);
  }

  /** When a rollback's swap succeeds, the pointer it replaces is the release its caller expected. */
  lemma {:induction false} RollbackNeverLosesUpdate(
    run: seq<Event>, k: nat, etag: ETag, r: RollbackRequest, current: Cell<SitePointer>, target: Manifest)
    requires Possible(EMPTY_WORLD, run + [Step(k, etag)])
    requires k < |After(EMPTY_WORLD, run).clients|
    requires After(EMPTY_WORLD, run).clients[k] == RollingBack(r, Swapping(current, target))
    requires RollbackStep(Store0(run), r, Swapping(current, target), etag).1.CheckingFinal?
    ensures SiteCell(Store0(run), r.siteId) == Some(current)
    ensures Names(current.content, r.expectedCurrentReleaseId, r.expectedCurrentManifestSha256)
    ensures SiteCell(Store0(run + [Step(k, etag)]), r.siteId) == Some(Cell(etag, TargetPointer(r, target)))
    ensures Names(TargetPointer(r, target), r.releaseId, r.expectedManifestSha256)
  {
    hide Complete, ObjectsSound, PointersSound, ReleaseStored, PublishInv, RoutingInv, PublishStep, RoutingStep;
    RunSplits(EMPTY_WORLD, run, [Step(k, etag)]);
    ReachableHolds(run);
    var w := After(EMPTY_WORLD, run);
    assert After(w, [Step(k, etag)]) == Apply(w, Step(k, etag));
    assert ClientInv(w.store, w.clients[k]);
    RollbackSwapKeeps(w.store, r, current, target, etag);
  }

  /**
   The receipt of a finished publish either reports the ETag it found (a replay), and a pointer that
   names the release was current then or later; or it names two ETags that followed each other in the
   pointer's history, the second being this release's.
   */
  lemma {:induction false} PublishReceiptsAreEdges(run: seq<Event>, k: nat, publisher: Publisher, plan: Plan, at: PublishAt)
    requires Possible(EMPTY_WORLD, run) && at.Published?
    requires k < |After(EMPTY_WORLD, run).clients|
    requires After(EMPTY_WORLD, run).clients[k] == Publishing(publisher, plan, at)
    ensures var history := SiteHistory(Store0(run), plan.manifest.siteId);
      && at.receipt == PublishReceiptOf(publisher, plan, at.receipt.oldEtag, at.etag)
      && ReportedSince(history, at.etag, at.pointer)
      && ((at.receipt.oldEtag == Some(at.etag) && Names(at.pointer, plan.manifest.releaseId, ManifestHash(plan.manifest)))
          || Edge(history, at.receipt.oldEtag, at.etag, PointerOf(publisher, plan)))
    ensures ReleaseStored(Store0(run), plan.manifest)
  {
    hide Possible, Sound, After, Edge, ReportedSince, ReleaseStored, AllStored, IsPlan;
    ReachableHolds(run);
    assert ClientInv(Store0(run), After(EMPTY_WORLD, run).clients[k]);
    PlanComplete(Store0(run), publisher, plan);
  }

  /** The receipt of a finished rollback names the release it expected and the one it reached. */
  lemma {:induction false} RollbackReceiptsAreEdges(run: seq<Event>, k: nat, r: RollbackRequest, at: RollbackAt)
    requires Possible(EMPTY_WORLD, run) && at.RolledBack?
    requires k < |After(EMPTY_WORLD, run).clients|
    requires After(EMPTY_WORLD, run).clients[k] == RollingBack(r, at)
    ensures RollbackHolds(SiteHistory(Store0(run), r.siteId), r, at.etag, at.receipt)
  {
    hide Possible, Sound, After, RollbackHolds;
    ReachableHolds(run);
    assert ClientInv(Store0(run), After(EMPTY_WORLD, run).clients[k]);
  }

  /**
   Every routing pointer ever set names a stored routing manifest with the recorded hash, and each
   site its publisher listed has a pointer, to a release that is stored in full, now and ever after.
   */
  lemma {:induction false} RoutingSafety(before: seq<Event>, later: seq<Event>, i: nat)
    requires Possible(EMPTY_WORLD, before + later)
    requires i < |Store0(before).routing|
    ensures i < |After(EMPTY_WORLD, before).listed|
    ensures RoutingComplete(Store0(before + later), Store0(before).routing[i].content)
    ensures forall siteId :: siteId in After(EMPTY_WORLD, before).listed[i] ==>
              && SiteCell(Store0(before + later), siteId).Some?
              && SiteCell(Store0(before + later), siteId).value.content.siteId == siteId
              && Complete(Store0(before + later), SiteCell(Store0(before + later), siteId).value.content)
  {
    hide Possible, Apply, ClientInv, Complete, LawfulEtags, ObjectsSound;
    RunSplits(EMPTY_WORLD, before, later);
    ReachableHolds(before);
    ReachableHolds(before + later);
    RunKeeps(After(EMPTY_WORLD, before), later);
    var s, t := Store0(before), Store0(before + later);
    assert RoutingComplete(s, s.routing[i].content);
    SitesStay(s, t, After(EMPTY_WORLD, before).listed[i]);
    forall siteId | siteId in After(EMPTY_WORLD, before).listed[i]
      ensures SiteCell(t, siteId).Some? && Complete(t, SiteCell(t, siteId).value.content)
              && SiteCell(t, siteId).value.content.siteId == siteId
    {
      var h := SiteHistory(t, siteId);
      assert Complete(t, h[|h| - 1].content);
    }
  }
}
