/**
 Any number of publishes, rollbacks and routing publishes against one store, their requests
 interleaved in any order, any of them stopping at any point. What every run keeps: a pointer
 never names anything that is not there in full.
 */
module ReleaseProtocol {
  import opened Wrappers
  import opened Documents
  import opened ReleasePlans
  import opened ReleaseStore
  import opened ReleaseSteps
  import Sorting

  datatype Client =
    | Publishing(publisher: Publisher, plan: Plan, publish: PublishAt)
    | RollingBack(request: RollbackRequest, rollback: RollbackAt)
    | Routing(routing: RoutingRequest, route: RoutingAt)

  /** `listed` records, for each routing pointer ever set, the sites its publisher had checked. */
  datatype World = World(store: Store, clients: seq<Client>, listed: seq<seq<string>>)

  const EMPTY_WORLD := World(EMPTY_STORE, [], [])

  datatype Event = Start(client: Client) | Step(index: nat, etag: ETag) | Crash(index: nat)

  /** The next request of a client, and its effect. */
  function ClientStep(s: Store, c: Client, etag: ETag): (Store, Client) {
    match c
    case Publishing(publisher, plan, at) =>
      var (t, next) := PublishStep(s, publisher, plan, at, etag);
      (t, Publishing(publisher, plan, next))
    case RollingBack(r, at) =>
      var (t, next) := RollbackStep(s, r, at, etag);
      (t, RollingBack(r, next))
    case Routing(r, at) =>
      var (t, next) := RoutingStep(s, r, at, etag);
      (t, Routing(r, next))
  }

  ghost predicate IsStart(c: Client) {
    match c
    case Publishing(publisher, plan, at) => IsPlan(plan) && Matches(publisher, plan) && at == Uploading(Uploads(plan))
    case RollingBack(_, at) => at == ReadingCurrent
    case Routing(_, at) => at == PuttingTable
  }

  function Apply(w: World, e: Event): World {
    match e
    case Start(client) => w.(clients := w.clients + [client])
    case Step(k, etag) =>
      if k >= |w.clients| then w
      else
        var c := w.clients[k];
        var (t, next) := ClientStep(w.store, c, etag);
        World(t, w.clients[k := next],
              if |t.routing| > |w.store.routing| && c.Routing? then w.listed + [c.routing.sites] else w.listed)
    case Crash(k) => if k >= |w.clients| then w else w.(clients := w.clients[..k] + w.clients[k + 1..])
  }

  function After(w: World, events: seq<Event>): World
    decreases |events|
  {
    if events == [] then w else After(Apply(w, events[0]), events[1..])
  }

  /** The store gives two different pointer contents two different ETags. */
  ghost predicate LawfulEtags(s: Store) {
    (forall siteId :: EtagsAgree(SiteHistory(s, siteId))) && EtagsAgree(s.routing)
  }

  ghost predicate Possible(w: World, events: seq<Event>)
    decreases |events|
  {
    events != [] ==>
      && (events[0].Start? ==> IsStart(events[0].client))
      && LawfulEtags(Apply(w, events[0]).store)
      && Possible(Apply(w, events[0]), events[1..])
  }

  // ---------- what is kept about the store ----------

  ghost predicate ManifestStored(s: Store, m: Manifest) {
    var key := ManifestKey(m.siteId, m.releaseId);
    key in s.objects && s.objects[key] == StoredObject(CanonicalManifest(m), JSON_CONTENT_TYPE)
  }

  ghost predicate ArtifactStored(s: Store, m: Manifest, a: Artifact) {
    var key := ReleaseKey(m.siteId, m.releaseId, a.path);
    && key in s.objects
    && ByteLength(s.objects[key].body) == a.bytes
    && s.objects[key].contentType == a.contentType
    && Sha256(s.objects[key].body) == a.sha256
  }

  /** The manifest and every object it lists are in the store, with the listed size, type and hash. */
  ghost predicate ReleaseStored(s: Store, m: Manifest) {
    ManifestStored(s, m) && forall a :: a in m.objects ==> ArtifactStored(s, m, a)
  }

  ghost predicate Complete(s: Store, p: SitePointer) {
    exists m ::
      && ReleaseStored(s, m)
      && m.siteId == p.siteId && m.releaseId == p.releaseId && ManifestHash(m) == p.manifestSha256
  }

  ghost predicate RoutingComplete(s: Store, p: RoutingPointer) {
    var key := RoutingKey(p.routingId);
    && key in s.objects
    && Sha256(s.objects[key].body) == p.manifestSha256
    && s.objects[key].contentType == JSON_CONTENT_TYPE
    && RoutingOf(s.objects[key].body).Some?
  }

  ghost predicate ObjectsSound(s: Store) {
    forall key | key in s.objects ::
      && (key.ReleaseKey? && key.path == MANIFEST_PATH ==>
            exists m :: s.objects[key] == StoredObject(CanonicalManifest(m), JSON_CONTENT_TYPE)
                        && m.siteId == key.siteId && m.releaseId == key.releaseId)
      && (key.RoutingKey? ==>
            exists table :: IsRoutingTable(table) && s.objects[key] == StoredObject(RoutingBody(table), JSON_CONTENT_TYPE))
  }

  ghost predicate PointersSound(s: Store) {
    && (forall siteId, i :: 0 <= i < |SiteHistory(s, siteId)| ==>
          SiteHistory(s, siteId)[i].content.siteId == siteId && Complete(s, SiteHistory(s, siteId)[i].content))
    && (forall i :: 0 <= i < |s.routing| ==> RoutingComplete(s, s.routing[i].content))
  }

  ghost predicate Sound(s: Store) {
    LawfulEtags(s) && ObjectsSound(s) && PointersSound(s)
  }

  ghost predicate SitesExist(s: Store, sites: seq<string>) {
    forall siteId :: siteId in sites ==> SiteCell(s, siteId).Some?
  }

  // ---------- what is kept about each client ----------

  ghost predicate SameBody(s: Store, plan: Plan, u: PlannedObject) {
    KeyOf(plan, u) in s.objects && s.objects[KeyOf(plan, u)].body == u.body
  }

  ghost predicate StoredExactly(s: Store, plan: Plan, u: PlannedObject) {
    KeyOf(plan, u) in s.objects && s.objects[KeyOf(plan, u)] == StoredObject(u.body, u.contentType)
  }

  ghost predicate AllStored(s: Store, plan: Plan) {
    forall u :: u in Uploads(plan) ==> StoredExactly(s, plan, u)
  }

  /** `content` became current with ETag `newEtag`, directly after the cell tagged `oldEtag`. */
  ghost predicate Edge(history: seq<Cell<SitePointer>>, oldEtag: Option<ETag>, newEtag: ETag, content: SitePointer) {
    match oldEtag
    case None => history != [] && history[0] == Cell(newEtag, content)
    case Some(was) => exists i :: 0 < i < |history| && history[i - 1].etag == was && history[i] == Cell(newEtag, content)
  }

  ghost predicate HasEtag(history: seq<Cell<SitePointer>>, etag: ETag) {
    exists i :: 0 <= i < |history| && history[i].etag == etag
  }

  /** `content` was current at the time of an ETag or later. */
  ghost predicate ReportedSince(history: seq<Cell<SitePointer>>, etag: ETag, content: SitePointer) {
    exists i, j :: 0 <= i <= j < |history| && history[i].etag == etag && history[j].content == content
  }

  /** `newCell` became current directly after `oldCell`. */
  ghost predicate Follows(history: seq<Cell<SitePointer>>, oldCell: Cell<SitePointer>, newCell: Cell<SitePointer>) {
    exists i :: 0 < i < |history| && history[i - 1] == oldCell && history[i] == newCell
  }

  ghost predicate PublishInv(s: Store, publisher: Publisher, plan: Plan, at: PublishAt) {
    var history := SiteHistory(s, plan.manifest.siteId);
    IsPlan(plan) && Matches(publisher, plan) &&
    match at
    case Uploading(todo) =>
      && (forall u :: u in todo ==> u in Uploads(plan))
      && (forall u :: u in Uploads(plan) ==> u in todo || SameBody(s, plan, u))
    case Comparing(current, todo) =>
      && current in Uploads(plan)
      && (forall u :: u in todo ==> u in Uploads(plan))
      && (forall u :: u in Uploads(plan) ==> u in todo || u == current || SameBody(s, plan, u))
    case Confirming(current, todo) =>
      && (forall u :: u in todo ==> u in Uploads(plan))
      && (forall u :: u in Uploads(plan) ==> u in todo || SameBody(s, plan, u))
    case Verifying(todo) =>
      && (forall u :: u in Uploads(plan) ==> SameBody(s, plan, u))
      && (forall u :: u in Uploads(plan) ==> u in todo || StoredExactly(s, plan, u))
    case FinalReading(newEtag, oldEtag) => AllStored(s, plan) && Edge(history, oldEtag, newEtag, PointerOf(publisher, plan))
    case Published(etag, pointer, receipt) =>
      && AllStored(s, plan)
      && receipt == PublishReceiptOf(publisher, plan, receipt.oldEtag, etag)
      && ReportedSince(history, etag, pointer)
      && ((receipt.oldEtag == Some(etag) && Names(pointer, plan.manifest.releaseId, ManifestHash(plan.manifest)))
          || Edge(history, receipt.oldEtag, etag, PointerOf(publisher, plan)))
    case PublishFailed(_) => true
    case ReadingPointer(head) => AllStored(s, plan) && HasEtag(history, head)
    case SwappingPointer(head) => AllStored(s, plan) && HasEtag(history, head)
    case _ => AllStored(s, plan)
  }

  ghost predicate Targets(r: RollbackRequest, m: Manifest) {
    m.siteId == r.siteId && m.releaseId == r.releaseId && ManifestHash(m) == r.expectedManifestSha256
  }

  predicate NamesExpected(r: RollbackRequest, pointer: SitePointer) {
    Names(pointer, r.expectedCurrentReleaseId, r.expectedCurrentManifestSha256)
  }

  ghost predicate RollbackInv(s: Store, r: RollbackRequest, at: RollbackAt) {
    var history := SiteHistory(s, r.siteId);
    match at
    case ReadingCurrent => true
    case ReadingTarget(current) => current in history
    case Listing(current, m) => current in history && Targets(r, m) && ManifestStored(s, m)
    case ReadingArtifacts(current, m, todo) =>
      && current in history && Targets(r, m) && ManifestStored(s, m)
      && forall a :: a in m.objects ==> a in todo || ArtifactStored(s, m, a)
    case Swapping(current, m) =>
      current in history && Targets(r, m) && ReleaseStored(s, m) && NamesExpected(r, current.content)
    case CheckingFinal(current, m, newEtag) =>
      && Targets(r, m) && NamesExpected(r, current.content)
      && Follows(history, current, Cell(newEtag, TargetPointer(r, m)))
    case RolledBack(etag, pointer, receipt) => RollbackHolds(history, r, etag, receipt)
    case RollbackFailed(_) => true
  }

  /** A finished rollback found its target already current, or moved the pointer from the release it expected. */
  ghost predicate RollbackHolds(history: seq<Cell<SitePointer>>, r: RollbackRequest, etag: ETag, receipt: RollbackReceipt) {
    && receipt.siteId == r.siteId && receipt.releaseId == r.releaseId
    && receipt.manifestSha256 == r.expectedManifestSha256
    && receipt.fromReleaseId == r.expectedCurrentReleaseId
    && receipt.fromManifestSha256 == r.expectedCurrentManifestSha256
    && receipt.newEtag == etag
    && ((receipt.oldEtag == etag && exists cell :: cell in history && cell.etag == etag
                                                   && Names(cell.content, r.releaseId, r.expectedManifestSha256))
        || exists before, now ::
             && Follows(history, before, now)
             && before.etag == receipt.oldEtag && NamesExpected(r, before.content)
             && now.etag == etag && Names(now.content, r.releaseId, r.expectedManifestSha256))
  }

  ghost predicate TableStored(s: Store, r: RoutingRequest) {
    var key := RoutingKey(r.routingId);
    && IsRoutingTable(r.table)
    && key in s.objects && s.objects[key] == StoredObject(RoutingBody(r.table), JSON_CONTENT_TYPE)
  }

  ghost predicate RoutingInv(s: Store, r: RoutingRequest, at: RoutingAt) {
    match at
    case PuttingTable => true
    case ComparingTable => IsRoutingTable(r.table)
    case CheckingSites(todo) =>
      TableStored(s, r) && forall siteId :: siteId in r.sites ==> siteId in todo || SiteCell(s, siteId).Some?
    case RoutingFailed(_) => true
    case _ => TableStored(s, r) && SitesExist(s, r.sites)
  }

  ghost predicate ClientInv(s: Store, c: Client) {
    match c
    case Publishing(publisher, plan, at) => PublishInv(s, publisher, plan, at)
    case RollingBack(r, at) => RollbackInv(s, r, at)
    case Routing(r, at) => RoutingInv(s, r, at)
  }

  ghost predicate Inv(w: World) {
    && Sound(w.store)
    && (forall k :: 0 <= k < |w.clients| ==> ClientInv(w.store, w.clients[k]))
    && |w.listed| == |w.store.routing|
    && (forall i :: 0 <= i < |w.listed| ==> SitesExist(w.store, w.listed[i]))
  }

  // ---------- nothing is lost as the store grows ----------

  lemma {:induction false} SiteStays(s: Store, t: Store, siteId: string)
    requires Grows(s, t) && SiteCell(s, siteId).Some?
    ensures SiteCell(t, siteId).Some?
  {
    assert SiteHistory(s, siteId) <= SiteHistory(t, siteId);
  }

  lemma {:induction false} ReleaseStays(s: Store, t: Store, m: Manifest)
    requires Grows(s, t) && ReleaseStored(s, m)
    ensures ReleaseStored(t, m)
  {
    assert ManifestKey(m.siteId, m.releaseId) in s.objects;
    forall a | a in m.objects ensures ArtifactStored(t, m, a) {
      assert ArtifactStored(s, m, a);
    }
  }

  lemma {:induction false} CompleteStays(s: Store, t: Store, p: SitePointer)
    requires Grows(s, t) && Complete(s, p)
    ensures Complete(t, p)
  {
    var m :| ReleaseStored(s, m) && m.siteId == p.siteId && m.releaseId == p.releaseId && ManifestHash(m) == p.manifestSha256;
    ReleaseStays(s, t, m);
  }

  lemma {:induction false} UploadsStay(s: Store, t: Store, plan: Plan)
    requires Grows(s, t)
    ensures forall u :: u in Uploads(plan) && SameBody(s, plan, u) ==> SameBody(t, plan, u)
    ensures forall u :: u in Uploads(plan) && StoredExactly(s, plan, u) ==> StoredExactly(t, plan, u)
  {
    forall u | u in Uploads(plan) && SameBody(s, plan, u) ensures SameBody(t, plan, u) {
      assert KeyOf(plan, u) in t.objects;
    }
    forall u | u in Uploads(plan) && StoredExactly(s, plan, u) ensures StoredExactly(t, plan, u) {
      assert KeyOf(plan, u) in t.objects;
    }
  }

  lemma {:induction false} PublishStays(s: Store, t: Store, publisher: Publisher, plan: Plan, at: PublishAt)
    requires Grows(s, t) && PublishInv(s, publisher, plan, at)
    ensures PublishInv(t, publisher, plan, at)
  {
    UploadsStay(s, t, plan);
    var h, k := SiteHistory(s, plan.manifest.siteId), SiteHistory(t, plan.manifest.siteId);
    assert h <= k;
    EdgeStays(h, k);
    hide IsPlan, Uploads, SameBody, StoredExactly, Edge, HasEtag, ReportedSince, SiteHistory, PointerOf;
  }

  lemma {:induction false} EdgeStays(h: seq<Cell<SitePointer>>, k: seq<Cell<SitePointer>>)
    requires h <= k
    ensures forall oldEtag, newEtag, content :: Edge(h, oldEtag, newEtag, content) ==> Edge(k, oldEtag, newEtag, content)
    ensures forall a, b :: Follows(h, a, b) ==> Follows(k, a, b)
    ensures forall cell :: cell in h ==> cell in k
    ensures forall etag :: HasEtag(h, etag) ==> HasEtag(k, etag)
    ensures forall etag, content :: ReportedSince(h, etag, content) ==> ReportedSince(k, etag, content)
  {
    forall etag, content | ReportedSince(h, etag, content) ensures ReportedSince(k, etag, content) {
      var i, j :| 0 <= i <= j < |h| && h[i].etag == etag && h[j].content == content;
      assert k[i].etag == etag && k[j].content == content;
    }
    forall etag | HasEtag(h, etag) ensures HasEtag(k, etag) {
      var i :| 0 <= i < |h| && h[i].etag == etag;
      assert k[i].etag == etag;
    }
    forall oldEtag, newEtag, content | Edge(h, oldEtag, newEtag, content) ensures Edge(k, oldEtag, newEtag, content) {
      if oldEtag.Some? {
        var i :| 0 < i < |h| && h[i - 1].etag == oldEtag.value && h[i] == Cell(newEtag, content);
        assert k[i - 1].etag == oldEtag.value && k[i] == Cell(newEtag, content);
      }
    }
    forall a, b | Follows(h, a, b) ensures Follows(k, a, b) {
      var i :| 0 < i < |h| && h[i - 1] == a && h[i] == b;
      assert k[i - 1] == a && k[i] == b;
    }
  }

  lemma {:induction false} RollbackStays(s: Store, t: Store, r: RollbackRequest, at: RollbackAt)
    requires Grows(s, t) && RollbackInv(s, r, at)
    ensures RollbackInv(t, r, at)
  {
    var h, k := SiteHistory(s, r.siteId), SiteHistory(t, r.siteId);
    assert h <= k;
    EdgeStays(h, k);
    match at
    case Swapping(current, m) => ReleaseStays(s, t, m);
    case ReadingArtifacts(current, m, todo) =>
      assert ManifestKey(m.siteId, m.releaseId) in s.objects;
      forall a | a in m.objects ensures a in todo || ArtifactStored(t, m, a) {
        assert a in todo || ArtifactStored(s, m, a);
      }
    case Listing(current, m) => assert ManifestKey(m.siteId, m.releaseId) in s.objects;
    case _ =>
  }

  lemma {:induction false} RoutingStays(s: Store, t: Store, r: RoutingRequest, at: RoutingAt)
    requires Grows(s, t) && RoutingInv(s, r, at)
    ensures RoutingInv(t, r, at)
  {
    forall siteId | SiteCell(s, siteId).Some? ensures SiteCell(t, siteId).Some? {
      SiteStays(s, t, siteId);
    }
  }

  lemma {:induction false} ClientStays(s: Store, t: Store, c: Client)
    requires Grows(s, t) && ClientInv(s, c)
    ensures ClientInv(t, c)
  {
    hide PublishInv, RollbackInv, RoutingInv;
    match c
    case Publishing(publisher, plan, at) => PublishStays(s, t, publisher, plan, at);
    case RollingBack(r, at) => RollbackStays(s, t, r, at);
    case Routing(r, at) => RoutingStays(s, t, r, at);
  }

  // ---------- each kind of write ----------

  ghost predicate ObjectFits(key: Key, stored: StoredObject) {
    && (key.ReleaseKey? && key.path == MANIFEST_PATH ==>
          exists m :: stored == StoredObject(CanonicalManifest(m), JSON_CONTENT_TYPE)
                      && m.siteId == key.siteId && m.releaseId == key.releaseId)
    && (key.RoutingKey? ==>
          exists table :: IsRoutingTable(table) && stored == StoredObject(RoutingBody(table), JSON_CONTENT_TYPE))
  }

  lemma {:induction false} PointersStay(s: Store, t: Store)
    requires Grows(s, t) && PointersSound(s) && t.sites == s.sites && t.routing == s.routing
    ensures PointersSound(t)
  {
    forall siteId, i | 0 <= i < |SiteHistory(t, siteId)|
      ensures SiteHistory(t, siteId)[i].content.siteId == siteId && Complete(t, SiteHistory(t, siteId)[i].content)
    {
      CompleteStays(s, t, SiteHistory(s, siteId)[i].content);
    }
  }

  lemma {:induction false} CreateKeeps(s: Store, key: Key, stored: StoredObject)
    requires Sound(s) && ObjectFits(key, stored)
    ensures var t := CreateIfAbsent(s, key, stored).0;
      Grows(s, t) && Sound(t) && t.routing == s.routing && key in t.objects
  {
    var t := CreateIfAbsent(s, key, stored).0;
    assert forall siteId :: SiteHistory(t, siteId) == SiteHistory(s, siteId);
    PointersStay(s, t);
  }

  lemma {:induction false} AppendSiteKeeps(s: Store, pointer: SitePointer, etag: ETag)
    requires Sound(s) && Complete(s, pointer) && LawfulEtags(AppendSite(s, pointer, etag))
    ensures var t := AppendSite(s, pointer, etag);
      && Grows(s, t) && Sound(t) && t.routing == s.routing
      && SiteHistory(t, pointer.siteId) == SiteHistory(s, pointer.siteId) + [Cell(etag, pointer)]
  {
    hide Complete, EtagsAgree;
    var t := AppendSite(s, pointer, etag);
    assert forall siteId :: siteId != pointer.siteId ==> SiteHistory(t, siteId) == SiteHistory(s, siteId);
    assert Grows(s, t);
    forall siteId, i | 0 <= i < |SiteHistory(t, siteId)|
      ensures SiteHistory(t, siteId)[i].content.siteId == siteId && Complete(t, SiteHistory(t, siteId)[i].content)
    {
      if i < |SiteHistory(s, siteId)| {
        CompleteStays(s, t, SiteHistory(s, siteId)[i].content);
      } else {
        CompleteStays(s, t, pointer);
      }
    }
  }

  lemma {:induction false} AppendRoutingKeeps(s: Store, pointer: RoutingPointer, etag: ETag)
    requires Sound(s) && RoutingComplete(s, pointer) && LawfulEtags(AppendRouting(s, pointer, etag))
    ensures Grows(s, AppendRouting(s, pointer, etag)) && Sound(AppendRouting(s, pointer, etag))
  {
    var t := AppendRouting(s, pointer, etag);
    assert forall siteId :: SiteHistory(t, siteId) == SiteHistory(s, siteId);
    forall siteId, i | 0 <= i < |SiteHistory(t, siteId)|
      ensures SiteHistory(t, siteId)[i].content.siteId == siteId && Complete(t, SiteHistory(t, siteId)[i].content)
    {
      CompleteStays(s, t, SiteHistory(s, siteId)[i].content);
    }
    assert forall i :: 0 <= i < |t.routing| ==> RoutingComplete(t, t.routing[i].content);
  }

  // ---------- each client's step ----------

  /** Everything a plan uploads being stored makes the pointer to it complete. */
  lemma {:induction false} PlanComplete(s: Store, publisher: Publisher, plan: Plan)
    requires IsPlan(plan) && Matches(publisher, plan) && AllStored(s, plan)
    ensures ReleaseStored(s, plan.manifest) && Complete(s, PointerOf(publisher, plan))
  {
    var m := plan.manifest;
    assert plan.manifestObject in Uploads(plan);
    assert StoredExactly(s, plan, plan.manifestObject);
    forall a | a in m.objects ensures ArtifactStored(s, m, a) {
      ManifestLists(plan, a);
      var i :| 0 <= i < |plan.objects| && a == ArtifactOf(plan.objects[i]);
      assert plan.objects[i] in Uploads(plan);
      assert StoredExactly(s, plan, plan.objects[i]);
    }
    assert ReleaseStored(s, m);
  }

  lemma {:induction false} UploadFits(plan: Plan, u: PlannedObject)
    requires IsPlan(plan) && u in Uploads(plan)
    ensures ObjectFits(KeyOf(plan, u), StoredObject(u.body, u.contentType))
  {
    UploadFacts(plan, u);
  }

  lemma {:induction false} UploadStepKeeps(s: Store, publisher: Publisher, plan: Plan, todo: seq<PlannedObject>, etag: ETag)
    requires Sound(s) && PublishInv(s, publisher, plan, Uploading(todo))
    ensures var (t, next) := PublishStep(s, publisher, plan, Uploading(todo), etag);
      Grows(s, t) && Sound(t) && t.routing == s.routing && PublishInv(t, publisher, plan, next)
  {
    hide Sound, Grows, IsPlan, Uploads, ObjectFits;
    var (t, next) := PublishStep(s, publisher, plan, Uploading(todo), etag);
    if todo == [] {
      GrowsReflexive(s);
    } else {
      var u := todo[0];
      UploadFits(plan, u);
      CreateKeeps(s, KeyOf(plan, u), StoredObject(u.body, u.contentType));
      UploadsStay(s, t, plan);
      assert todo == [u] + todo[1..];
    }
  }

  lemma GrowsReflexive(s: Store)
    ensures Grows(s, s)
  {
  }

  lemma {:induction false} PublishStepKeeps(s: Store, publisher: Publisher, plan: Plan, at: PublishAt, etag: ETag)
    requires Sound(s) && PublishInv(s, publisher, plan, at)
    requires LawfulEtags(PublishStep(s, publisher, plan, at, etag).0)
    ensures var (t, next) := PublishStep(s, publisher, plan, at, etag);
      Grows(s, t) && Sound(t) && t.routing == s.routing && PublishInv(t, publisher, plan, next)
  {
    hide Sound, Grows, Uploads, IsPlan, LawfulEtags, CreateIfAbsent, AppendSite, SiteHistory;
    var (t, next) := PublishStep(s, publisher, plan, at, etag);
    var h := SiteHistory(s, plan.manifest.siteId);
    GrowsReflexive(s);
    match at
    case Uploading(todo) => UploadStepKeeps(s, publisher, plan, todo, etag);
    case Comparing(current, todo) => UploadFacts(plan, current);
    case Verifying(todo) => VerifyStepKeeps(s, publisher, plan, todo, etag);
    case HeadingPointer =>
      if h != [] {
        assert HasEtag(h, h[|h| - 1].etag);
      }
    case CreatingPointer =>
      PlanComplete(s, publisher, plan);
      if next.FinalReading? {
        AppendSiteKeeps(s, PointerOf(publisher, plan), etag);
        UploadsStay(s, t, plan);
        assert h == [];
      }
    case ReadingPointer(head) =>
      if next.Published? {
        LastSince(h, head);
      }
    case FinalReading(newEtag, oldEtag) =>
      if next.Published? {
        EdgeHasEtag(h, oldEtag, newEtag, PointerOf(publisher, plan));
        LastSince(h, newEtag);
      }
    case SwappingPointer(head) =>
      PlanComplete(s, publisher, plan);
      if next.FinalReading? {
        AppendSiteKeeps(s, PointerOf(publisher, plan), etag);
        UploadsStay(s, t, plan);
        var k := SiteHistory(t, plan.manifest.siteId);
        assert 0 < |h| < |k| && k[|h| - 1] == h[|h| - 1] && k[|h| - 1].etag == head;
        assert k[|h|] == Cell(etag, PointerOf(publisher, plan));
      }
    case _ =>
  }

  /** The current content is no older than any ETag of the history. */
  lemma LastSince(h: seq<Cell<SitePointer>>, etag: ETag)
    requires HasEtag(h, etag)
    ensures ReportedSince(h, etag, h[|h| - 1].content)
  {
    var i :| 0 <= i < |h| && h[i].etag == etag;
    assert h[|h| - 1].content == h[|h| - 1].content;
  }

  lemma {:induction false} EdgeHasEtag(h: seq<Cell<SitePointer>>, oldEtag: Option<ETag>, newEtag: ETag, content: SitePointer)
    requires Edge(h, oldEtag, newEtag, content)
    ensures HasEtag(h, newEtag)
  {
    if oldEtag.None? {
      assert h[0].etag == newEtag;
    } else {
      var i :| 0 < i < |h| && h[i - 1].etag == oldEtag.value && h[i] == Cell(newEtag, content);
      assert h[i].etag == newEtag;
    }
  }

  lemma {:induction false} VerifyStepKeeps(s: Store, publisher: Publisher, plan: Plan, todo: seq<PlannedObject>, etag: ETag)
    requires PublishInv(s, publisher, plan, Verifying(todo))
    ensures PublishInv(s, publisher, plan, PublishStep(s, publisher, plan, Verifying(todo), etag).1)
  {
    hide IsPlan, Uploads;
    if todo != [] {
      assert todo == [todo[0]] + todo[1..];
    }
  }

  lemma {:induction false} RollbackStepKeeps(s: Store, r: RollbackRequest, at: RollbackAt, etag: ETag)
    requires Sound(s) && RollbackInv(s, r, at)
    requires LawfulEtags(RollbackStep(s, r, at, etag).0)
    ensures var (t, next) := RollbackStep(s, r, at, etag);
      Grows(s, t) && Sound(t) && t.routing == s.routing && RollbackInv(t, r, next)
  {
    hide Grows, PointersSound, AppendSite;
    var (t, next) := RollbackStep(s, r, at, etag);
    var h := SiteHistory(s, r.siteId);
    GrowsReflexive(s);
    match at
    case ReadingTarget(current) =>
      hide ObjectsSound;
      ReadsManifest(s, r);
    case ReadingArtifacts(current, m, todo) =>
      if todo != [] {
        assert todo == [todo[0]] + todo[1..];
      } else if next.RolledBack? {
        assert current in h && Names(current.content, r.releaseId, r.expectedManifestSha256);
      }
    case Swapping(current, m) =>
      RollbackSwapKeeps(s, r, current, m, etag);
    case CheckingFinal(current, m, newEtag) =>
      if next.RolledBack? {
        var now := Cell(newEtag, TargetPointer(r, m));
        assert Follows(h, current, now) && current.etag == next.receipt.oldEtag && now.etag == newEtag;
      }
    case _ =>
  }

  /** The swap succeeds only on the very cell that was read, whatever happened in between. */
  lemma {:induction false} RollbackSwapKeeps(
    s: Store, r: RollbackRequest, current: Cell<SitePointer>, m: Manifest, etag: ETag)
    requires Sound(s) && RollbackInv(s, r, Swapping(current, m))
    requires LawfulEtags(RollbackStep(s, r, Swapping(current, m), etag).0)
    ensures var (t, next) := RollbackStep(s, r, Swapping(current, m), etag);
      && Grows(s, t) && Sound(t) && t.routing == s.routing && RollbackInv(t, r, next)
      && (next.CheckingFinal? ==> SiteCell(s, r.siteId) == Some(current))
  {
    hide Grows, ObjectsSound, PointersSound, AppendSite, ManifestStored, ArtifactStored;
    var (t, next) := RollbackStep(s, r, Swapping(current, m), etag);
    var h := SiteHistory(s, r.siteId);
    GrowsReflexive(s);
    if next.CheckingFinal? {
      AppendSiteKeeps(s, TargetPointer(r, m), etag);
      assert EtagsAgree(h);
      assert h[|h| - 1] == current;
      var k := SiteHistory(t, r.siteId);
      assert 0 < |h| < |k| && k[|h| - 1] == h[|h| - 1];
      assert k[|h|] == Cell(etag, TargetPointer(r, m));
    }
  }

  lemma {:induction false} ReadsManifest(s: Store, r: RollbackRequest)
    requires ObjectsSound(s)
    ensures var found := CheckTarget(r, Read(s, ManifestKey(r.siteId, r.releaseId)));
      found.Ok? ==> Targets(r, found.value) && ManifestStored(s, found.value)
  {
  }

  lemma {:induction false} RoutingStepKeeps(s: Store, r: RoutingRequest, at: RoutingAt, etag: ETag)
    requires Sound(s) && RoutingInv(s, r, at)
    requires LawfulEtags(RoutingStep(s, r, at, etag).0)
    ensures var (t, next) := RoutingStep(s, r, at, etag);
      && Grows(s, t) && Sound(t) && RoutingInv(t, r, next)
      && (t.routing != s.routing ==> exists cell :: t.routing == s.routing + [cell])
      && (t.routing != s.routing ==> SitesExist(s, r.sites))
  {
    var (t, next) := RoutingStep(s, r, at, etag);
    GrowsReflexive(s);
    hide Sound, Grows, AppendRouting, LawfulEtags;
    match at
    case PuttingTable =>
      if IsRoutingRequest(r) {
        CreateKeeps(s, RoutingKey(r.routingId), StoredObject(RoutingBody(r.table), JSON_CONTENT_TYPE));
      }
    case ComparingTable => RoutingObjects(s);
    case CheckingSites(todo) =>
      if todo != [] {
        assert todo == [todo[0]] + todo[1..];
      }
    case CreatingRouting => RoutingWriteKeeps(s, r, etag);
    case SwappingRouting(_) => RoutingWriteKeeps(s, r, etag);
    case _ =>
  }

  lemma {:induction false} RoutingObjects(s: Store)
    requires Sound(s)
    ensures forall key :: key in s.objects && key.RoutingKey? ==> s.objects[key].contentType == JSON_CONTENT_TYPE
  {
    hide LawfulEtags, PointersSound;
  }

  lemma {:induction false} RoutingWriteKeeps(s: Store, r: RoutingRequest, etag: ETag)
    requires Sound(s) && TableStored(s, r) && SitesExist(s, r.sites)
    ensures LawfulEtags(AppendRouting(s, RoutingPointerOf(r), etag)) ==>
              var t := AppendRouting(s, RoutingPointerOf(r), etag);
              Grows(s, t) && Sound(t) && TableStored(t, r) && SitesExist(t, r.sites)
              && t.routing == s.routing + [Cell(etag, RoutingPointerOf(r))]
  {
    SortedIsTable(r.table);
    if LawfulEtags(AppendRouting(s, RoutingPointerOf(r), etag)) {
      AppendRoutingKeeps(s, RoutingPointerOf(r), etag);
    }
  }

  // ---------- every run ----------

  lemma {:induction false} ClientStepKeeps(s: Store, c: Client, etag: ETag)
    requires Sound(s) && ClientInv(s, c) && LawfulEtags(ClientStep(s, c, etag).0)
    ensures var (t, next) := ClientStep(s, c, etag);
      && Grows(s, t) && Sound(t) && ClientInv(t, next)
      && (t.routing != s.routing ==>
            c.Routing? && (exists cell :: t.routing == s.routing + [cell]) && SitesExist(s, c.routing.sites))
  {
    hide Sound, Grows, LawfulEtags, PublishInv, RollbackInv, RoutingInv, PublishStep, RollbackStep, RoutingStep;
    match c
    case Publishing(publisher, plan, at) => PublishStepKeeps(s, publisher, plan, at, etag);
    case RollingBack(r, at) => RollbackStepKeeps(s, r, at, etag);
    case Routing(r, at) => RoutingStepKeeps(s, r, at, etag);
  }

  lemma {:induction false} ApplyKeeps(w: World, e: Event)
    requires Inv(w) && (e.Start? ==> IsStart(e.client)) && LawfulEtags(Apply(w, e).store)
    ensures Inv(Apply(w, e)) && Grows(w.store, Apply(w, e).store)
  {
    hide Sound, Grows, LawfulEtags, ClientStep, ClientInv, SitesExist;
    GrowsReflexive(w.store);
    var v := Apply(w, e);
    match e
    case Start(client) => StartHolds(w.store, client);
    case Crash(k) =>
    case Step(k, etag) =>
      if k < |w.clients| {
        ClientStepKeeps(w.store, w.clients[k], etag);
        forall i | 0 <= i < |v.clients| ensures ClientInv(v.store, v.clients[i]) {
          if i != k {
            ClientStays(w.store, v.store, w.clients[i]);
          }
        }
        forall i | 0 <= i < |v.listed| ensures SitesExist(v.store, v.listed[i]) {
          SitesStay(w.store, v.store, v.listed[i]);
        }
      }
  }

  lemma {:induction false} StartHolds(s: Store, c: Client)
    requires IsStart(c)
    ensures ClientInv(s, c)
  {
    hide IsPlan, Uploads;
  }

  lemma {:induction false} SitesStay(s: Store, t: Store, sites: seq<string>)
    requires Grows(s, t) && SitesExist(s, sites)
    ensures SitesExist(t, sites)
  {
    hide Grows;
    forall siteId | siteId in sites ensures SiteCell(t, siteId).Some? {
      SiteStays(s, t, siteId);
    }
  }

  lemma {:induction false} RunKeeps(w: World, events: seq<Event>)
    requires Inv(w) && Possible(w, events)
    ensures Inv(After(w, events)) && Grows(w.store, After(w, events).store)
    decreases |events|
  {
    hide Inv, Grows, Apply, LawfulEtags, IsStart;
    GrowsReflexive(w.store);
    if events != [] {
      ApplyKeeps(w, events[0]);
      RunKeeps(Apply(w, events[0]), events[1..]);
      GrowsTransitive(w.store, Apply(w, events[0]).store, After(w, events).store);
    }
  }

  lemma {:induction false} RunSplits(w: World, before: seq<Event>, later: seq<Event>)
    requires Possible(w, before + later)
    ensures Possible(w, before) && Possible(After(w, before), later)
    ensures After(w, before + later) == After(After(w, before), later)
    decreases |before|
  {
    hide Apply, LawfulEtags, IsStart;
    if before == [] {
      assert before + later == later;
    } else {
      assert (before + later)[1..] == before[1..] + later;
      RunSplits(Apply(w, before[0]), before[1..], later);
    }
  }

  lemma EmptyHolds()
    ensures Inv(EMPTY_WORLD)
  {
    assert forall siteId :: SiteHistory(EMPTY_STORE, siteId) == [];
  }
}
