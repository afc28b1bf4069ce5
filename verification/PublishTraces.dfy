/** Uninterrupted stretches of a publish as events of the protocol, so that runs can be put together from them. */
module PublishTraces {
  import opened Wrappers
  import opened Documents
  import opened ReleasePlans
  import opened ReleaseStore
  import opened ReleaseSteps
  import opened ReleaseProtocol
  import opened PublishRuns
  import PublishResume

  // ---------- runs, put together ----------

  lemma {:induction false} RunJoins(w: World, first: seq<Event>, second: seq<Event>)
    requires Possible(w, first) && Possible(After(w, first), second)
    ensures Possible(w, first + second) && After(w, first + second) == After(After(w, first), second)
    decreases |first|
  {
    hide Apply, LawfulEtags, IsStart;
    if first == [] {
      assert first + second == second;
    } else {
      assert (first + second)[1..] == first[1..] + second;
      RunJoins(Apply(w, first[0]), first[1..], second);
    }
  }

  lemma OneEvent(w: World, e: Event)
    ensures After(w, [e]) == Apply(w, e)
    ensures Possible(w, [e]) <==> (e.Start? ==> IsStart(e.client)) && LawfulEtags(Apply(w, e).store)
  {
    hide Apply, LawfulEtags, IsStart;
    assert After(Apply(w, e), []) == Apply(w, e);
    assert [e][1..] == [];
  }

  // ---------- one client alone, up to a point ----------

  /** The store and the client when the goal is reached, or when the publish has ended. */
  function EndOf(s: Store, publisher: Publisher, plan: Plan, at: PublishAt, goal: PublishAt -> bool): (Store, PublishAt)
    decreases Rank(plan, at)
  {
    if goal(at) || at.Published? || at.PublishFailed? then (s, at)
    else
      var (t, next) := NextPublish(s, publisher, plan, at);
      EndOf(t, publisher, plan, next, goal)
  }

  /** The events that lead there: steps of client `k`, each with an unused ETag. */
  function StepsTo(s: Store, k: nat, publisher: Publisher, plan: Plan, at: PublishAt, goal: PublishAt -> bool): seq<Event>
    decreases Rank(plan, at)
  {
    if goal(at) || at.Published? || at.PublishFailed? then []
    else
      var (t, next) := NextPublish(s, publisher, plan, at);
      [Step(k, FreshEtag(SiteHistory(s, publisher.verified.siteId)))] + StepsTo(t, k, publisher, plan, next, goal)
  }

  lemma {:induction false} StepsReach(w: World, k: nat, publisher: Publisher, plan: Plan, at: PublishAt, goal: PublishAt -> bool)
    requires Inv(w) && k < |w.clients| && w.clients[k] == Publishing(publisher, plan, at)
    ensures var (t, end) := EndOf(w.store, publisher, plan, at, goal);
      var events := StepsTo(w.store, k, publisher, plan, at, goal);
      && Possible(w, events) && NoStarts(events)
      && After(w, events) == World(t, w.clients[k := Publishing(publisher, plan, end)], w.listed)
    decreases Rank(plan, at)
  {
    hide Sound, ClientInv, LawfulEtags, PublishStep, SitesExist;
    if goal(at) || at.Published? || at.PublishFailed? {
      assert w.clients[k := Publishing(publisher, plan, at)] == w.clients;
    } else {
      var etag := FreshEtag(SiteHistory(w.store, publisher.verified.siteId));
      var (t, next) := NextPublish(w.store, publisher, plan, at);
      SoundIsLawful(w.store);
      FreshIsLawful(w.store, publisher, plan, at);
      StepOf(w, k, publisher, plan, at, etag);
      ApplyKeeps(w, Step(k, etag));
      var v := Apply(w, Step(k, etag));
      StepsReach(v, k, publisher, plan, next, goal);
      var events := StepsTo(w.store, k, publisher, plan, at, goal);
      assert events[1..] == StepsTo(t, k, publisher, plan, next, goal);
    }
  }

  predicate NoStarts(events: seq<Event>) {
    forall i :: 0 <= i < |events| ==> !events[i].Start?
  }

  lemma {:induction false} StepOf(w: World, k: nat, publisher: Publisher, plan: Plan, at: PublishAt, etag: ETag)
    requires k < |w.clients| && w.clients[k] == Publishing(publisher, plan, at)
    ensures var (t, next) := PublishStep(w.store, publisher, plan, at, etag);
      Apply(w, Step(k, etag)) == World(t, w.clients[k := Publishing(publisher, plan, next)], w.listed)
  {
    hide PublishStep;
  }

  predicate Never(at: PublishAt) {
    false
  }

  /** Without a goal, the whole run. */
  lemma {:induction false} EndIsRun(s: Store, publisher: Publisher, plan: Plan, at: PublishAt)
    ensures EndOf(s, publisher, plan, at, Never) == RunPublish(s, publisher, plan, at)
    decreases Rank(plan, at)
  {
    hide NextPublish;
    if !at.Published? && !at.PublishFailed? {
      var (t, next) := NextPublish(s, publisher, plan, at);
      EndIsRun(t, publisher, plan, next);
    }
  }

  // ---------- up to the head of the pointer ----------

  predicate IsHeading(at: PublishAt) {
    at.HeadingPointer?
  }

  predicate BeforeHead(at: PublishAt) {
    at.Uploading? || at.Comparing? || at.Confirming? || at.Verifying? || at.ReadingManifest? || at.HeadingPointer?
  }

  /** Alone and unhindered, a publish comes to heading the pointer, and has not touched it. */
  lemma {:induction false} ReachesHead(s: Store, publisher: Publisher, plan: Plan, at: PublishAt)
    requires Sound(s) && PublishInv(s, publisher, plan, at) && OnTrack(s, publisher, plan, at) && BeforeHead(at)
    ensures var (t, end) := EndOf(s, publisher, plan, at, IsHeading); end == HeadingPointer && t.sites == s.sites
    decreases Rank(plan, at)
  {
    hide Sound, PublishInv;
    if !at.HeadingPointer? {
      var (t, next) := NextPublish(s, publisher, plan, at);
      StaysOnTrack(s, publisher, plan, at);
      SoundIsLawful(s);
      FreshIsLawful(s, publisher, plan, at);
      PublishStepKeeps(s, publisher, plan, at, FreshEtag(SiteHistory(s, publisher.verified.siteId)));
      assert BeforeHead(next) && t.sites == s.sites by { hide FreshEtag, SiteHistory, Uploads; }
      ReachesHead(t, publisher, plan, next);
    }
  }

  // ---------- a new client ----------

  function NewClient(publisher: Publisher, plan: Plan): Client {
    Publishing(publisher, plan, Uploading(Uploads(plan)))
  }

  /** Starting a publish and running it up to a goal. */
  function StartTo(w: World, publisher: Publisher, plan: Plan, goal: PublishAt -> bool): seq<Event> {
    [Start(NewClient(publisher, plan))] + StepsTo(w.store, |w.clients|, publisher, plan, Uploading(Uploads(plan)), goal)
  }

  lemma {:induction false} StartReaches(w: World, publisher: Publisher, plan: Plan, goal: PublishAt -> bool)
    requires Inv(w) && IsPlan(plan) && Matches(publisher, plan)
    ensures var (t, end) := EndOf(w.store, publisher, plan, Uploading(Uploads(plan)), goal);
      var events := StartTo(w, publisher, plan, goal);
      && Possible(w, events)
      && After(w, events) == World(t, w.clients + [Publishing(publisher, plan, end)], w.listed)
      && (forall i :: 0 <= i < |events| && events[i].Start? ==> events[i].client == NewClient(publisher, plan))
  {
    hide Sound, ClientInv, LawfulEtags, Uploads, IsPlan, SitesExist, EndOf, StepsTo;
    var c := NewClient(publisher, plan);
    var v := Apply(w, Start(c));
    OneEvent(w, Start(c));
    assert LawfulEtags(v.store) by { SoundIsLawful(w.store); }
    ApplyKeeps(w, Start(c));
    var k := |w.clients|;
    assert v.clients[k] == c;
    StepsReach(v, k, publisher, plan, Uploading(Uploads(plan)), goal);
    var steps := StepsTo(w.store, k, publisher, plan, Uploading(Uploads(plan)), goal);
    RunJoins(w, [Start(c)], steps);
    var (t, end) := EndOf(w.store, publisher, plan, Uploading(Uploads(plan)), goal);
    assert v.clients[k := Publishing(publisher, plan, end)] == w.clients + [Publishing(publisher, plan, end)];
  }
}
