/** When the receipt of a replayed publish tells the truth, and a run in which it does not. */
module ReplayReceipts {
  import opened Wrappers
  import opened Documents
  import opened ReleasePlans
  import opened ReleaseStore
  import opened ReleaseSteps
  import opened ReleaseProtocol
  import opened ReleaseSafety
  import opened PublishRuns
  import opened PublishTraces
  import PublishResume
  import Sorting

  predicate NamesPlan(pointer: SitePointer, plan: Plan) {
    Names(pointer, plan.manifest.releaseId, ManifestHash(plan.manifest))
  }

  /** Some pointer of the history with the receipt's new ETag names the release of the receipt. */
  ghost predicate IsGenuine(history: seq<Cell<SitePointer>>, plan: Plan, receipt: PublishReceipt) {
    exists cell :: cell in history && cell.etag == receipt.newEtag && NamesPlan(cell.content, plan)
  }

  predicate IsReplay(receipt: PublishReceipt) {
    receipt.oldEtag == Some(receipt.newEtag)
  }

  // ---------- following one client through a run ----------

  /** Where client `k` stands after the events: a crash before it moves it down. */
  function IndexAfter(k: nat, events: seq<Event>): Option<nat> {
    if events == [] then Some(k)
    else match events[0]
      case Crash(j) => if j == k then None else IndexAfter(if j < k then k - 1 else k, events[1..])
      case _ => IndexAfter(k, events[1..])
  }

  /** A publish that has headed the pointer under this ETag and still carries it. */
  predicate Carries(at: PublishAt, etag: ETag) {
    match at
    case ReadingPointer(head) => head == etag
    case SwappingPointer(head) => head == etag
    case FinalReading(_, oldEtag) => oldEtag == Some(etag)
    case Published(_, _, receipt) => receipt.oldEtag == Some(etag)
    case PublishFailed(_) => true
    case _ => false
  }

  predicate IsCarrying(w: World, k: nat, publisher: Publisher, plan: Plan, etag: ETag) {
    && k < |w.clients| && w.clients[k].Publishing?
    && w.clients[k].publisher == publisher && w.clients[k].plan == plan && Carries(w.clients[k].publish, etag)
  }

  lemma {:induction false} CarriesOn(s: Store, publisher: Publisher, plan: Plan, at: PublishAt, etag: ETag, unused: ETag)
    requires Carries(at, etag)
    ensures Carries(PublishStep(s, publisher, plan, at, unused).1, etag)
  {
    hide Uploads, SiteHistory, AppendSite;
  }

  lemma {:induction false} Followed(w: World, events: seq<Event>, k: nat, publisher: Publisher, plan: Plan, etag: ETag)
    requires IsCarrying(w, k, publisher, plan, etag)
    ensures IndexAfter(k, events).Some? ==> IsCarrying(After(w, events), IndexAfter(k, events).value, publisher, plan, etag)
    decreases |events|
  {
    hide PublishStep, Carries;
    if events != [] {
      var v := Apply(w, events[0]);
      match events[0] {
        case Start(_) => Followed(v, events[1..], k, publisher, plan, etag);
        case Step(j, unused) =>
          if j == k {
            CarriesOn(w.store, publisher, plan, w.clients[k].publish, etag, unused);
          }
          Followed(v, events[1..], k, publisher, plan, etag);
        case Crash(j) =>
          if j != k {
            Followed(v, events[1..], if j < k then k - 1 else k, publisher, plan, etag);
          }
      }
    }
  }

  /**
   A replay receipt names the pointer that the publish headed, and it is genuine exactly when that
   pointer named the release when it was headed, whatever else ran before, in between and after.
   */
  lemma {:induction false} ReplayReceiptExact(
    before: seq<Event>, e: ETag, later: seq<Event>, k: nat, j: nat,
    publisher: Publisher, plan: Plan, found: Cell<SitePointer>, at: PublishAt)
    requires Possible(EMPTY_WORLD, before + ([Step(k, e)] + later))
    requires k < |After(EMPTY_WORLD, before).clients|
    requires After(EMPTY_WORLD, before).clients[k] == Publishing(publisher, plan, HeadingPointer)
    requires SiteCell(Store0(before), plan.manifest.siteId) == Some(found)
    requires IndexAfter(k, later) == Some(j) && j < |After(EMPTY_WORLD, before + ([Step(k, e)] + later)).clients|
    requires After(EMPTY_WORLD, before + ([Step(k, e)] + later)).clients[j] == Publishing(publisher, plan, at)
    requires at.Published? && IsReplay(at.receipt)
    ensures at.receipt.newEtag == at.etag == found.etag
    ensures IsGenuine(SiteHistory(Store0(before + ([Step(k, e)] + later)), plan.manifest.siteId), plan, at.receipt)
       <==> NamesPlan(found.content, plan)
  {
    hide Possible, Inv, LawfulEtags, PublishInv, SiteHistory, Grows, NamesPlan;
    var run := before + ([Step(k, e)] + later);
    RunSplits(EMPTY_WORLD, before, [Step(k, e)] + later);
    var w := After(EMPTY_WORLD, before);
    var v := Apply(w, Step(k, e));
    StepOf(w, k, publisher, plan, HeadingPointer, e);
    assert ([Step(k, e)] + later)[1..] == later;
    assert IsCarrying(v, k, publisher, plan, found.etag);
    Followed(v, later, k, publisher, plan, found.etag);
    assert Carries(at, found.etag);
    ReachableReceipt(run, j, publisher, plan, at);
    HistoryKeeps(before, [Step(k, e)] + later, plan.manifest.siteId, found);
  }

  lemma {:induction false} ReachableReceipt(run: seq<Event>, j: nat, publisher: Publisher, plan: Plan, at: PublishAt)
    requires Possible(EMPTY_WORLD, run) && j < |After(EMPTY_WORLD, run).clients|
    requires After(EMPTY_WORLD, run).clients[j] == Publishing(publisher, plan, at) && at.Published?
    ensures at.receipt.newEtag == at.etag
  {
    hide Possible, After, Edge, ReportedSince, ReleaseStored;
    PublishReceiptsAreEdges(run, j, publisher, plan, at);
  }

  /** What was current once stays in the history, and its ETag belongs to no other content. */
  lemma {:induction false} HistoryKeeps(before: seq<Event>, later: seq<Event>, siteId: string, found: Cell<SitePointer>)
    requires Possible(EMPTY_WORLD, before + later) && SiteCell(Store0(before), siteId) == Some(found)
    ensures var history := SiteHistory(Store0(before + later), siteId);
      && found in history
      && (forall cell :: cell in history && cell.etag == found.etag ==> cell.content == found.content)
  {
    hide Possible, Apply, ClientInv, ObjectsSound, PointersSound;
    RunSplits(EMPTY_WORLD, before, later);
    ReachableHolds(before);
    ReachableHolds(before + later);
    RunKeeps(After(EMPTY_WORLD, before), later);
    var h, k := SiteHistory(Store0(before), siteId), SiteHistory(Store0(before + later), siteId);
    assert h <= k && k[|h| - 1] == found;
    assert EtagsAgree(k);
    forall cell | cell in k && cell.etag == found.etag ensures cell.content == found.content {
      var i :| 0 <= i < |k| && k[i] == cell;
      assert k[i].etag == k[|h| - 1].etag;
    }
  }

  // ---------- a run with a stale receipt ----------

  /** The first release is published, and the second publish comes to the head of its pointer. */
  function Opening(first: Plan, plan: Plan, a: Publisher, b: Publisher): seq<Event> {
    var one := StartTo(EMPTY_WORLD, a, first, Never);
    one + StartTo(After(EMPTY_WORLD, one), b, plan, IsHeading)
  }

  /** Then it heads the pointer; another client publishes the same release; and it reads the pointer. */
  function StaleRun(first: Plan, plan: Plan, a: Publisher, b: Publisher, c: Publisher): seq<Event> {
    var two := Opening(first, plan, a, b);
    var three := two + [Step(1, 0)];
    var four := three + StartTo(After(EMPTY_WORLD, three), c, plan, Never);
    four + [Step(1, 0)]
  }

  ghost predicate TwoReleases(first: Plan, plan: Plan, a: Publisher, b: Publisher) {
    && IsPlan(first) && IsPlan(plan) && Matches(a, first) && Matches(b, plan)
    && first.manifest.siteId == plan.manifest.siteId && first.manifest.releaseId != plan.manifest.releaseId
  }

  lemma EmptyFits(plan: Plan)
    ensures StoreFits(EMPTY_STORE, plan)
  {
  }

  lemma {:induction false} OpeningReaches(first: Plan, plan: Plan, a: Publisher, b: Publisher)
    requires TwoReleases(first, plan, a, b)
    ensures var run := Opening(first, plan, a, b);
      var w := After(EMPTY_WORLD, run);
      && Possible(EMPTY_WORLD, run) && PublishResume.AllSpare(plan, run)
      && |w.clients| == 2 && w.clients[1] == Publishing(b, plan, HeadingPointer)
      && SiteCell(w.store, plan.manifest.siteId).Some?
      && !NamesPlan(SiteCell(w.store, plan.manifest.siteId).value.content, plan)
  {
    hide Possible, After, Inv, Sound, EndOf, StartTo, StoreFits, RunPublish, IsPlan, Uploads, ReleaseStored, AllStored, SiteHistory, Grows;
    var siteId := plan.manifest.siteId;
    EmptyHolds();
    StartReaches(EMPTY_WORLD, a, first, Never);
    var one := StartTo(EMPTY_WORLD, a, first, Never);
    var w := After(EMPTY_WORLD, one);
    assert Sound(EMPTY_STORE) by { InvSound(EMPTY_WORLD); }
    EmptyFits(first);
    EndIsRun(EMPTY_STORE, a, first, Uploading(Uploads(first)));
    SoloPublishSucceeds(EMPTY_STORE, a, first);
    assert Names(SiteCell(w.store, siteId).value.content, first.manifest.releaseId, ManifestHash(first.manifest));
    RunKeeps(EMPTY_WORLD, one);
    InvSound(w);
    StartReaches(w, b, plan, IsHeading);
    var two := StartTo(w, b, plan, IsHeading);
    assert PublishResume.AllSpare(plan, one);
    SpareFits(one, plan);
    ReachesHead(w.store, b, plan, Uploading(Uploads(plan))) by {
      assert PublishInv(w.store, b, plan, Uploading(Uploads(plan)));
    }
    RunJoins(EMPTY_WORLD, one, two);
    assert After(EMPTY_WORLD, one + two).store.sites == w.store.sites;
    SameSites(w.store, After(EMPTY_WORLD, one + two).store, siteId);
  }

  lemma InvSound(w: World)
    requires Inv(w)
    ensures Sound(w.store)
  {
  }

  lemma SameSites(s: Store, t: Store, siteId: string)
    requires s.sites == t.sites
    ensures SiteCell(s, siteId) == SiteCell(t, siteId) && SiteHistory(s, siteId) == SiteHistory(t, siteId)
  {
  }

  /** Only this plan having been published under its release id, nothing stands in its way. */
  lemma {:induction false} SpareFits(run: seq<Event>, plan: Plan)
    requires Possible(EMPTY_WORLD, run) && IsPlan(plan) && PublishResume.AllSpare(plan, run)
    ensures StoreFits(After(EMPTY_WORLD, run).store, plan)
  {
    hide Possible, After, IsPlan, Inv, StoreFits;
    EmptyHolds();
    PublishResume.EmptyFits(plan);
    PublishResume.RunFits(EMPTY_WORLD, run, plan);
  }

  lemma {:induction false} HeadReaches(first: Plan, plan: Plan, a: Publisher, b: Publisher)
    requires TwoReleases(first, plan, a, b)
    ensures var two := Opening(first, plan, a, b);
      var s := Store0(two);
      var w := After(EMPTY_WORLD, two + [Step(1, 0)]);
      && Possible(EMPTY_WORLD, two + [Step(1, 0)]) && PublishResume.AllSpare(plan, two + [Step(1, 0)])
      && SiteCell(s, plan.manifest.siteId).Some? && !NamesPlan(SiteCell(s, plan.manifest.siteId).value.content, plan)
      && |w.clients| == 2 && w.store == s
      && w.clients[1] == Publishing(b, plan, ReadingPointer(SiteCell(s, plan.manifest.siteId).value.etag))
  {
    hide Possible, After, Inv, StartTo, Opening, IsPlan, Uploads, SiteHistory, NamesPlan, Matches, LawfulEtags;
    OpeningReaches(first, plan, a, b);
    var two := Opening(first, plan, a, b);
    var w := After(EMPTY_WORLD, two);
    EmptyHolds();
    RunKeeps(EMPTY_WORLD, two);
    InvSound(w);
    SoundIsLawful(w.store);
    StepOf(w, 1, b, plan, HeadingPointer, 0);
    OneEvent(w, Step(1, 0));
    RunJoins(EMPTY_WORLD, two, [Step(1, 0)]);
  }

  /** The other client's publish moves the pointer to the release. */
  lemma {:induction false} OtherReaches(first: Plan, plan: Plan, a: Publisher, b: Publisher, c: Publisher)
    requires TwoReleases(first, plan, a, b) && Matches(c, plan)
    ensures var two := Opening(first, plan, a, b);
      var three := two + [Step(1, 0)];
      var four := three + StartTo(After(EMPTY_WORLD, three), c, plan, Never);
      var w := After(EMPTY_WORLD, four);
      && Possible(EMPTY_WORLD, four) && |w.clients| == 3
      && SiteCell(Store0(two), plan.manifest.siteId).Some?
      && w.clients[1] == Publishing(b, plan, ReadingPointer(SiteCell(Store0(two), plan.manifest.siteId).value.etag))
      && SiteCell(w.store, plan.manifest.siteId).Some?
      && NamesPlan(SiteCell(w.store, plan.manifest.siteId).value.content, plan)
  {
    hide Possible, After, Inv, Sound, StartTo, Opening, IsPlan, Uploads, SiteHistory, LawfulEtags, StoreFits, RunPublish, EndOf,
      ReleaseStored, AllStored, Grows, PublishResume.AllSpare;
    HeadReaches(first, plan, a, b);
    var three := Opening(first, plan, a, b) + [Step(1, 0)];
    var w := After(EMPTY_WORLD, three);
    EmptyHolds();
    RunKeeps(EMPTY_WORLD, three);
    InvSound(w);
    StartReaches(w, c, plan, Never);
    SpareFits(three, plan);
    EndIsRun(w.store, c, plan, Uploading(Uploads(plan)));
    SoloPublishSucceeds(w.store, c, plan);
    RunJoins(EMPTY_WORLD, three, StartTo(w, c, plan, Never));
  }

  /**
   For any two releases of a site there is a run, from the empty store, at whose end a publish of the
   second has a replay receipt with the ETag of a pointer to the first, and of no other pointer.
   */
  lemma {:induction false} ReplayCanReportAnEarlierPointer(first: Plan, plan: Plan, a: Publisher, b: Publisher, c: Publisher)
    requires TwoReleases(first, plan, a, b) && Matches(c, plan)
    ensures var run := StaleRun(first, plan, a, b, c);
      var w := After(EMPTY_WORLD, run);
      && Possible(EMPTY_WORLD, run) && |w.clients| == 3
      && w.clients[1].Publishing? && w.clients[1].publisher == b && w.clients[1].plan == plan
      && w.clients[1].publish.Published? && IsReplay(w.clients[1].publish.receipt)
      && NamesPlan(w.clients[1].publish.pointer, plan)
      && !IsGenuine(SiteHistory(w.store, plan.manifest.siteId), plan, w.clients[1].publish.receipt)
  {
    hide Possible, After, Inv, Sound, StartTo, Opening, IsPlan, Uploads, SiteHistory, LawfulEtags;
    HeadReaches(first, plan, a, b);
    OtherReaches(first, plan, a, b, c);
    var two := Opening(first, plan, a, b);
    var three := two + [Step(1, 0)];
    var four := three + StartTo(After(EMPTY_WORLD, three), c, plan, Never);
    var w := After(EMPTY_WORLD, four);
    var found := SiteCell(Store0(two), plan.manifest.siteId).value;
    EmptyHolds();
    RunKeeps(EMPTY_WORLD, four);
    InvSound(w);
    SoundIsLawful(w.store);
    StepOf(w, 1, b, plan, ReadingPointer(found.etag), 0);
    OneEvent(w, Step(1, 0));
    RunJoins(EMPTY_WORLD, four, [Step(1, 0)]);
    assert four + [Step(1, 0)] == two + ([Step(1, 0)] + StartTo(After(EMPTY_WORLD, three), c, plan, Never) + [Step(1, 0)]);
    HistoryKeeps(two, [Step(1, 0)] + StartTo(After(EMPTY_WORLD, three), c, plan, Never) + [Step(1, 0)], plan.manifest.siteId, found);
  }

  // ---------- two small releases ----------

  /** A release of one object. */
  function SmallPlan(siteId: string, releaseId: string): Plan {
    var objects := [ObjectOf("sitemap.xml", Octets(""), "application/xml")];
    var m := Manifest(siteId, releaseId, "1.0.0", "2026-01-01T00:00:00.000Z", ArtifactsOf(objects), ["version-1"]);
    Plan(m, objects, ObjectOf(MANIFEST_PATH, CanonicalManifest(m), JSON_CONTENT_TYPE))
  }

  lemma SmallIsPlan(siteId: string, releaseId: string)
    ensures IsPlan(SmallPlan(siteId, releaseId))
  {
    var plan := SmallPlan(siteId, releaseId);
    assert ArtifactsOf(plan.objects) == [ArtifactOf(plan.objects[0])];
    assert "sitemap.xml"[0] != MANIFEST_PATH[0];
  }

  function PublisherOf(actor: string, plan: Plan): Publisher {
    Publisher(actor, VerifyManifest(plan.manifest))
  }

  /** A stale receipt on concrete releases. */
  lemma {:induction false} StaleReceipt()
    ensures var first, plan := SmallPlan("acme", "release-1"), SmallPlan("acme", "release-2");
      var run := StaleRun(first, plan, PublisherOf("ann", first), PublisherOf("bob", plan), PublisherOf("cleo", plan));
      var w := After(EMPTY_WORLD, run);
      && Possible(EMPTY_WORLD, run) && |w.clients| == 3
      && w.clients[1].Publishing? && w.clients[1].publish.Published? && IsReplay(w.clients[1].publish.receipt)
      && !IsGenuine(SiteHistory(w.store, "acme"), plan, w.clients[1].publish.receipt)
  {
    hide StaleRun, Possible, After, IsPlan, IsGenuine;
    var first, plan := SmallPlan("acme", "release-1"), SmallPlan("acme", "release-2");
    SmallIsPlan("acme", "release-1");
    SmallIsPlan("acme", "release-2");
    assert "release-1"[8] != "release-2"[8];
    ReplayCanReportAnEarlierPointer(first, plan, PublisherOf("ann", first), PublisherOf("bob", plan), PublisherOf("cleo", plan));
  }

  // ---------- the receipts of a publish and its rerun ----------

  /** A pointer to the release means that everything the plan uploads is there. */
  lemma {:induction false} NamedIsStored(s: Store, plan: Plan, cell: Cell<SitePointer>)
    requires Sound(s) && IsPlan(plan) && SiteCell(s, plan.manifest.siteId) == Some(cell) && NamesPlan(cell.content, plan)
    ensures AllStored(s, plan)
  {
    hide LawfulEtags, ObjectsSound, ByteLength;
    var h := SiteHistory(s, plan.manifest.siteId);
    assert Complete(s, h[|h| - 1].content);
    var m :| ReleaseStored(s, m) && m.siteId == cell.content.siteId && m.releaseId == cell.content.releaseId
             && ManifestHash(m) == cell.content.manifestSha256;
    assert m == plan.manifest;
    forall u | u in Uploads(plan) ensures StoredExactly(s, plan, u) {
      if u in plan.objects {
        var i :| 0 <= i < |plan.objects| && plan.objects[i] == u;
        assert ArtifactOf(u) == ArtifactsOf(plan.objects)[i];
        assert ArtifactOf(u) in m.objects;
        assert ArtifactStored(s, m, ArtifactOf(u));
      }
    }
  }

  /** While another release is current, this publish cannot end as a replay. */
  ghost predicate IsNew(s: Store, publisher: Publisher, plan: Plan, at: PublishAt) {
    var cell := SiteCell(s, plan.manifest.siteId);
    match at
    case FinalReading(newEtag, oldEtag) => oldEtag != Some(newEtag)
    case Published(_, _, receipt) => !IsReplay(receipt)
    case _ => cell.Some? ==> !NamesPlan(cell.value.content, plan)
  }

  lemma {:induction false} StaysNew(s: Store, publisher: Publisher, plan: Plan, at: PublishAt)
    requires PublishInv(s, publisher, plan, at) && OnTrack(s, publisher, plan, at) && IsNew(s, publisher, plan, at)
    requires !at.Published?
    ensures var (t, next) := NextPublish(s, publisher, plan, at); IsNew(t, publisher, plan, next)
  {
    hide IsPlan, Uploads, Edge, SameBody, StoredExactly, StoreFits;
    if at.SwappingPointer? {
      var h := SiteHistory(s, plan.manifest.siteId);
      assert h[|h| - 1].etag < FreshEtag(h);
    }
  }

  lemma {:induction false} RunStaysNew(s: Store, publisher: Publisher, plan: Plan, at: PublishAt)
    requires Sound(s) && PublishInv(s, publisher, plan, at) && OnTrack(s, publisher, plan, at) && IsNew(s, publisher, plan, at)
    ensures var (t, end) := RunPublish(s, publisher, plan, at); end.Published? && !IsReplay(end.receipt)
    decreases Rank(plan, at)
  {
    hide Sound, PublishInv, PublishStep, OnTrack;
    if at.Published? {
    } else if at.PublishFailed? {
      assert false by { FailedIsOff(s, publisher, plan, at); }
    } else {
      StaysNew(s, publisher, plan, at);
      StaysOnTrack(s, publisher, plan, at);
      SoundIsLawful(s);
      FreshIsLawful(s, publisher, plan, at);
      PublishStepKeeps(s, publisher, plan, at, FreshEtag(SiteHistory(s, publisher.verified.siteId)));
      var (t, next) := NextPublish(s, publisher, plan, at);
      RunStaysNew(t, publisher, plan, next);
    }
  }

  lemma FailedIsOff(s: Store, publisher: Publisher, plan: Plan, at: PublishAt)
    requires at.PublishFailed?
    ensures !OnTrack(s, publisher, plan, at)
  {
  }

  /**
   A publish that succeeds and its rerun give equal receipts exactly when the site's pointer named the
   release before either, and both have the same actor.
   */
  lemma {:induction false} RerunReceipts(s: Store, first: Publisher, second: Publisher, plan: Plan)
    requires Sound(s) && IsPlan(plan) && StoreFits(s, plan) && Matches(first, plan) && Matches(second, plan)
    ensures var (t, end) := SoloPublish(s, first, plan);
      var (u, again) := SoloPublish(t, second, plan);
      var cell := SiteCell(s, plan.manifest.siteId);
      && end.Published? && again.Published?
      && (end.receipt == again.receipt
          <==> cell.Some? && NamesPlan(cell.value.content, plan) && first.actor == second.actor)
  {
    hide Sound, Uploads, RunPublish, IsPlan, PublishStep, StoreFits;
    var at := Uploading(Uploads(plan));
    var cell := SiteCell(s, plan.manifest.siteId);
    ResumablePublish(s, first, second, plan);
    var (t, end) := SoloPublish(s, first, plan);
    assert PublishInv(s, first, plan, at);
    RunKeepsSound(s, first, plan, at);
    if cell.Some? && NamesPlan(cell.value.content, plan) {
      NamedIsStored(s, plan, cell.value);
      ReplayRun(s, first, plan, at);
    } else {
      RunStaysNew(s, first, plan, at);
    }
  }

  /** So the receipt of a first publish is not repeated by its rerun. */
  lemma {:induction false} FirstReceiptDiffers()
    ensures var plan := SmallPlan("acme", "release-1");
      var publisher := PublisherOf("ann", plan);
      var (t, end) := SoloPublish(EMPTY_STORE, publisher, plan);
      var (u, again) := SoloPublish(t, publisher, plan);
      end.Published? && again.Published? && end.receipt != again.receipt
  {
    hide SoloPublish, IsPlan, StoreFits;
    var plan := SmallPlan("acme", "release-1");
    SmallIsPlan("acme", "release-1");
    EmptyHolds();
    InvSound(EMPTY_WORLD);
    EmptyFits(plan);
    RerunReceipts(EMPTY_STORE, PublisherOf("ann", plan), PublisherOf("ann", plan), plan);
  }
}
