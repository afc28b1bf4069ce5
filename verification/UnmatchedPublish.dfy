/**
 The verified reference of a publish is an argument of its own, which nothing compares with the plan.
 From an empty store the pointer it sets is complete exactly when the reference is the plan's.
 */
module UnmatchedPublish {
  import opened Wrappers
  import opened Documents
  import opened ReleasePlans
  import opened ReleaseStore
  import opened ReleaseSteps
  import opened ReleaseProtocol
  import opened PublishRuns
  import opened PublishTraces

  /** Every event is possible but for the match of a starting publish. */
  ghost predicate Lawful(w: World, events: seq<Event>)
    decreases |events|
  {
    events != [] ==> LawfulEtags(Apply(w, events[0]).store) && Lawful(Apply(w, events[0]), events[1..])
  }

  lemma {:induction false} LawfulJoins(w: World, first: seq<Event>, second: seq<Event>)
    requires Lawful(w, first) && Lawful(After(w, first), second)
    ensures Lawful(w, first + second) && After(w, first + second) == After(After(w, first), second)
    decreases |first|
  {
    hide Apply, LawfulEtags;
    if first == [] {
      assert first + second == second;
    } else {
      assert (first + second)[1..] == first[1..] + second;
      LawfulJoins(Apply(w, first[0]), first[1..], second);
    }
  }

  ghost predicate OnlyPlan(s: Store, plan: Plan) {
    s.sites == map[] && s.routing == [] && forall key :: key in s.objects ==> exists u :: u in Uploads(plan) && key == KeyOf(plan, u)
  }

  /** Up to the head of the pointer, the reference plays no part. */
  lemma {:induction false} UnmatchedHeads(w: World, k: nat, right: Publisher, wrong: Publisher, plan: Plan, at: PublishAt)
    requires Sound(w.store) && PublishInv(w.store, right, plan, at) && OnTrack(w.store, right, plan, at) && BeforeHead(at)
    requires k < |w.clients| && w.clients[k] == Publishing(wrong, plan, at) && OnlyPlan(w.store, plan)
    ensures var events := StepsTo(w.store, k, right, plan, at, IsHeading);
      var t := EndOf(w.store, right, plan, at, IsHeading).0;
      && Lawful(w, events)
      && After(w, events) == World(t, w.clients[k := Publishing(wrong, plan, HeadingPointer)], w.listed)
      && Sound(t) && OnlyPlan(t, plan) && AllStored(t, plan)
    decreases Rank(plan, at)
  {
    hide Sound, LawfulEtags, OnlyPlan, OnTrack, PublishStep, IsPlan, Uploads;
    if at.HeadingPointer? {
      assert w.clients[k := Publishing(wrong, plan, at)] == w.clients;
    } else {
      hide PublishInv;
      var etag := FreshEtag(SiteHistory(w.store, right.verified.siteId));
      var (t, next) := NextPublish(w.store, right, plan, at);
      UnmatchedStep(w, k, right, wrong, plan, at);
      UnmatchedHeads(Apply(w, Step(k, etag)), k, right, wrong, plan, next);
      var events := StepsTo(w.store, k, right, plan, at, IsHeading);
      assert events[1..] == StepsTo(t, k, right, plan, next, IsHeading);
    }
  }

  lemma {:induction false} UnmatchedStep(w: World, k: nat, right: Publisher, wrong: Publisher, plan: Plan, at: PublishAt)
    requires Sound(w.store) && PublishInv(w.store, right, plan, at) && OnTrack(w.store, right, plan, at)
    requires BeforeHead(at) && !at.HeadingPointer?
    requires k < |w.clients| && w.clients[k] == Publishing(wrong, plan, at) && OnlyPlan(w.store, plan)
    ensures var (t, next) := NextPublish(w.store, right, plan, at);
      && Apply(w, Step(k, FreshEtag(SiteHistory(w.store, right.verified.siteId))))
         == World(t, w.clients[k := Publishing(wrong, plan, next)], w.listed)
      && LawfulEtags(t) && Sound(t) && OnlyPlan(t, plan)
      && PublishInv(t, right, plan, next) && OnTrack(t, right, plan, next) && BeforeHead(next)
  {
    hide Sound, LawfulEtags, OnlyPlan, PublishInv, PublishStep, SiteHistory, Apply;
    var etag := FreshEtag(SiteHistory(w.store, right.verified.siteId));
    SameStep(w.store, right, wrong, plan, at, etag);
    StepOf(w, k, wrong, plan, at, etag);
    StaysOnTrack(w.store, right, plan, at);
    SoundIsLawful(w.store);
    FreshIsLawful(w.store, right, plan, at);
    PublishStepKeeps(w.store, right, plan, at, etag);
    StepOnlyPlan(w.store, right, plan, at, etag);
  }

  lemma {:induction false} SameStep(s: Store, right: Publisher, wrong: Publisher, plan: Plan, at: PublishAt, etag: ETag)
    requires BeforeHead(at) && !at.HeadingPointer?
    ensures PublishStep(s, wrong, plan, at, etag) == PublishStep(s, right, plan, at, etag)
    ensures var next := PublishStep(s, right, plan, at, etag).1; BeforeHead(next) || next.PublishFailed?
  {
    hide Uploads, SiteHistory;
  }

  lemma {:induction false} StepOnlyPlan(s: Store, publisher: Publisher, plan: Plan, at: PublishAt, etag: ETag)
    requires PublishInv(s, publisher, plan, at) && OnlyPlan(s, plan) && BeforeHead(at)
    ensures OnlyPlan(PublishStep(s, publisher, plan, at, etag).0, plan)
  {
    hide IsPlan, Uploads, SameBody, StoredExactly;
    if at.Uploading? && at.todo != [] {
      assert at.todo[0] in Uploads(plan);
    }
  }

  /** Publishing a plan with some reference, from the empty store to its pointer. */
  function PointerRun(publisher: Publisher, plan: Plan): seq<Event> {
    var right := Publisher(publisher.actor, VerifyManifest(plan.manifest));
    [Start(NewClient(publisher, plan))] + StepsTo(EMPTY_STORE, 0, right, plan, Uploading(Uploads(plan)), IsHeading)
    + [Step(0, 1), Step(0, 1)]
  }

  lemma {:induction false} RunHeads(publisher: Publisher, plan: Plan)
    requires IsPlan(plan)
    ensures var right := Publisher(publisher.actor, VerifyManifest(plan.manifest));
      var events := [Start(NewClient(publisher, plan))] + StepsTo(EMPTY_STORE, 0, right, plan, Uploading(Uploads(plan)), IsHeading);
      var w := After(EMPTY_WORLD, events);
      && Lawful(EMPTY_WORLD, events) && w.clients == [Publishing(publisher, plan, HeadingPointer)]
      && Sound(w.store) && OnlyPlan(w.store, plan) && AllStored(w.store, plan)
  {
    hide Sound, IsPlan, Uploads, LawfulEtags, AllStored, StepsTo, EndOf;
    var right := Publisher(publisher.actor, VerifyManifest(plan.manifest));
    var c := NewClient(publisher, plan);
    var at := Uploading(Uploads(plan));
    EmptyHolds();
    SoundIsLawful(EMPTY_STORE);
    OneEvent(EMPTY_WORLD, Start(c));
    var w := Apply(EMPTY_WORLD, Start(c));
    assert w.clients[0] == c;
    OneLawful(EMPTY_WORLD, Start(c));
    assert PublishInv(EMPTY_STORE, right, plan, at);
    assert OnTrack(EMPTY_STORE, right, plan, at);
    UnmatchedHeads(w, 0, right, publisher, plan, at);
    LawfulJoins(EMPTY_WORLD, [Start(c)], StepsTo(EMPTY_STORE, 0, right, plan, at, IsHeading));
  }

  lemma OneLawful(w: World, e: Event)
    requires LawfulEtags(Apply(w, e).store)
    ensures Lawful(w, [e])
  {
    hide Apply, LawfulEtags;
    assert [e][1..] == [];
  }

  /** A pointer into a store that holds one plan only. */
  lemma {:induction false} CompleteIsMatched(s: Store, plan: Plan, publisher: Publisher)
    requires IsPlan(plan) && AllStored(s, plan)
    requires forall key :: key in s.objects ==> exists u :: u in Uploads(plan) && key == KeyOf(plan, u)
    ensures Complete(s, PointerOf(publisher, plan)) <==> Matches(publisher, plan)
  {
    if Matches(publisher, plan) {
      PlanComplete(s, publisher, plan);
    }
    if Complete(s, PointerOf(publisher, plan)) {
      var release := publisher.verified;
      var m :| ReleaseStored(s, m) && m.siteId == release.siteId && m.releaseId == release.releaseId && ManifestHash(m) == release.manifestSha256;
      assert ManifestKey(m.siteId, m.releaseId) in s.objects;
      var u :| u in Uploads(plan) && ManifestKey(m.siteId, m.releaseId) == KeyOf(plan, u);
      assert StoredExactly(s, plan, u);
      UploadFacts(plan, u);
      assert u == plan.manifestObject;
      assert m == plan.manifest;
    }
  }

  /**
   With any reference the publish sets its pointer; the release it then points to is stored in full
   exactly when the reference is that of the plan.
   */
  lemma {:induction false} CompleteOnlyWhenMatched(publisher: Publisher, plan: Plan)
    requires IsPlan(plan)
    ensures var events := PointerRun(publisher, plan);
      var s := After(EMPTY_WORLD, events).store;
      && Lawful(EMPTY_WORLD, events)
      && SiteCell(s, publisher.verified.siteId) == Some(Cell(1, PointerOf(publisher, plan)))
      && (Complete(s, PointerOf(publisher, plan)) <==> Matches(publisher, plan))
  {
    hide Sound, IsPlan, Uploads, AllStored, StepsTo, Lawful, Complete, OnlyPlan;
    var right := Publisher(publisher.actor, VerifyManifest(plan.manifest));
    var events := [Start(NewClient(publisher, plan))] + StepsTo(EMPTY_STORE, 0, right, plan, Uploading(Uploads(plan)), IsHeading);
    RunHeads(publisher, plan);
    var w := After(EMPTY_WORLD, events);
    LastSteps(w, publisher, plan);
    LawfulJoins(EMPTY_WORLD, events, [Step(0, 1), Step(0, 1)]);
    assert PointerRun(publisher, plan) == events + [Step(0, 1), Step(0, 1)];
    var s := After(w, [Step(0, 1), Step(0, 1)]).store;
    assert AllStored(s, plan) by { StoredSame(w.store, s, plan); }
    CompleteIsMatched(s, plan, publisher) by { assert OnlyPlan(w.store, plan); OnlyKeys(w.store, plan); }
  }

  lemma OnlyKeys(s: Store, plan: Plan)
    requires OnlyPlan(s, plan)
    ensures forall key :: key in s.objects ==> exists u :: u in Uploads(plan) && key == KeyOf(plan, u)
  {
  }

  lemma StoredSame(s: Store, t: Store, plan: Plan)
    requires AllStored(s, plan) && t.objects == s.objects
    ensures AllStored(t, plan)
  {
  }

  lemma {:induction false} LastSteps(w: World, publisher: Publisher, plan: Plan)
    requires OnlyPlan(w.store, plan) && w.clients == [Publishing(publisher, plan, HeadingPointer)]
    ensures var events := [Step(0, 1), Step(0, 1)];
      var s := After(w, events).store;
      && Lawful(w, events) && s.objects == w.store.objects
      && SiteCell(s, publisher.verified.siteId) == Some(Cell(1, PointerOf(publisher, plan)))
  {
    hide Uploads;
    var s := w.store;
    var v := Apply(w, Step(0, 1));
    StepOf(w, 0, publisher, plan, HeadingPointer, 1);
    assert v.clients[0] == Publishing(publisher, plan, CreatingPointer) && v.store == s;
    StepOf(v, 0, publisher, plan, CreatingPointer, 1);
    var u := Apply(v, Step(0, 1));
    assert u.store == AppendSite(s, PointerOf(publisher, plan), 1);
    assert [Step(0, 1), Step(0, 1)][1..] == [Step(0, 1)];
    OneEvent(v, Step(0, 1));
    OneLawful(v, Step(0, 1)) by {
      assert forall siteId :: |SiteHistory(u.store, siteId)| <= 1;
    }
  }
}
