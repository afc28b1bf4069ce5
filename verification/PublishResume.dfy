/** Publishing again after any number of crashed or failed attempts at the same release. */
module PublishResume {
  import opened Wrappers
  import opened Documents
  import opened ReleasePlans
  import opened ReleaseStore
  import opened ReleaseSteps
  import opened ReleaseProtocol
  import opened PublishRuns

  /** Only this plan is ever published under its release id; everything else may run too. */
  predicate Spares(plan: Plan, c: Client) {
    (&& c.Publishing?
     && c.plan.manifest.siteId == plan.manifest.siteId
     && c.plan.manifest.releaseId == plan.manifest.releaseId)
    ==> c.plan == plan
  }

  predicate AllSpare(plan: Plan, events: seq<Event>) {
    forall i :: 0 <= i < |events| && events[i].Start? ==> Spares(plan, events[i].client)
  }

  ghost predicate FitsAndSpares(plan: Plan, w: World) {
    StoreFits(w.store, plan) && forall k :: 0 <= k < |w.clients| ==> Spares(plan, w.clients[k])
  }

  lemma {:induction false} CreateFits(s: Store, plan: Plan, c: Client, u: PlannedObject)
    requires IsPlan(plan) && StoreFits(s, plan) && c.Publishing? && Spares(plan, c) && u in Uploads(c.plan)
    ensures StoreFits(CreateIfAbsent(s, KeyOf(c.plan, u), StoredObject(u.body, u.contentType)).0, plan)
  {
    hide IsPlan, Uploads;
    var t := CreateIfAbsent(s, KeyOf(c.plan, u), StoredObject(u.body, u.contentType)).0;
    forall v | v in Uploads(plan) && KeyOf(plan, v) in t.objects ensures StoredExactly(t, plan, v) {
      if KeyOf(plan, v) == KeyOf(c.plan, u) {
        UploadsByPath(plan, u, v);
      }
    }
  }

  lemma {:induction false} StepFits(s: Store, plan: Plan, c: Client, etag: ETag)
    requires IsPlan(plan) && StoreFits(s, plan) && Spares(plan, c) && ClientInv(s, c)
    ensures StoreFits(ClientStep(s, c, etag).0, plan) && Spares(plan, ClientStep(s, c, etag).1)
  {
    hide IsPlan, Uploads, AllStored, RollbackInv, RoutingInv;
    var t := ClientStep(s, c, etag).0;
    if c.Publishing? && c.publish.Uploading? && c.publish.todo != [] {
      CreateFits(s, plan, c, c.publish.todo[0]);
    } else if c.Routing? && c.route.PuttingTable? {
      assert forall u :: KeyOf(plan, u) in t.objects ==> t.objects[KeyOf(plan, u)] == s.objects[KeyOf(plan, u)];
    } else {
      assert t.objects == s.objects;
    }
  }

  lemma {:induction false} RunFits(w: World, events: seq<Event>, plan: Plan)
    requires Inv(w) && Possible(w, events) && IsPlan(plan) && FitsAndSpares(plan, w) && AllSpare(plan, events)
    ensures FitsAndSpares(plan, After(w, events))
    decreases |events|
  {
    hide Sound, StoreFits, LawfulEtags, ClientStep, IsPlan, IsStart, ClientInv;
    if events != [] {
      var e := events[0];
      ApplyKeeps(w, e);
      if e.Step? && e.index < |w.clients| {
        assert ClientInv(w.store, w.clients[e.index]);
        StepFits(w.store, plan, w.clients[e.index], e.etag);
      }
      RunFits(Apply(w, e), events[1..], plan);
    }
  }

  /**
   After any run in which only this plan was published under its release id, however its attempts
   ended, publishing it alone succeeds, names the release, and rerunning it changes nothing.
   */
  lemma {:induction false} PublishAfterCrashes(events: seq<Event>, first: Publisher, second: Publisher, plan: Plan)
    requires Possible(EMPTY_WORLD, events) && IsPlan(plan) && AllSpare(plan, events)
    requires Matches(first, plan) && Matches(second, plan)
    ensures var (t, end) := SoloPublish(After(EMPTY_WORLD, events).store, first, plan);
      var (u, again) := SoloPublish(t, second, plan);
      && end.Published? && AllStored(t, plan)
      && SiteCell(t, plan.manifest.siteId) == Some(Cell(end.etag, end.pointer))
      && Names(end.pointer, plan.manifest.releaseId, ManifestHash(plan.manifest))
      && u == t && again == Published(end.etag, end.pointer, PublishReceiptOf(second, plan, Some(end.etag), end.etag))
  {
    hide Sound, Possible, After, SoloPublish, IsPlan, AllStored, ClientInv, StoreFits;
    EmptyHolds();
    RunKeeps(EMPTY_WORLD, events);
    EmptyFits(plan);
    RunFits(EMPTY_WORLD, events, plan);
    SoloPublishSucceeds(After(EMPTY_WORLD, events).store, first, plan);
    ResumablePublish(After(EMPTY_WORLD, events).store, first, second, plan);
  }

  lemma EmptyFits(plan: Plan)
    ensures FitsAndSpares(plan, EMPTY_WORLD)
  {
  }
}
