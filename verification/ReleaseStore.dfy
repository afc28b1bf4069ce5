/**
 The object store under the publisher: release objects that are only ever created, and pointers
 that move by create-if-absent (If-None-Match: *) or compare-and-swap (If-Match).
 */
module ReleaseStore {
  import opened Wrappers
  import opened Documents

  type ETag = nat

  datatype Key = ReleaseKey(siteId: string, releaseId: string, path: string) | RoutingKey(routingId: string)

  datatype StoredObject = StoredObject(body: Body, contentType: string)

  datatype Cell<P> = Cell(etag: ETag, content: P)

  /** Each pointer with every value it has had; the last one is current. */
  datatype Store = Store(
    objects: map<Key, StoredObject>,
    sites: map<string, seq<Cell<SitePointer>>>,
    routing: seq<Cell<RoutingPointer>>)

  const EMPTY_STORE := Store(map[], map[], [])

  function Last<P>(history: seq<Cell<P>>): Option<Cell<P>> {
    if history == [] then None else Some(history[|history| - 1])
  }

  function SiteHistory(s: Store, siteId: string): seq<Cell<SitePointer>> {
    if siteId in s.sites then s.sites[siteId] else []
  }

  /** The current pointer of a site, with its ETag. */
  function SiteCell(s: Store, siteId: string): Option<Cell<SitePointer>> {
    Last(SiteHistory(s, siteId))
  }

  function RoutingCell(s: Store): Option<Cell<RoutingPointer>> {
    Last(s.routing)
  }

  function Read(s: Store, key: Key): Option<StoredObject> {
    if key in s.objects then Some(s.objects[key]) else None
  }

  // ---------- the conditional writes ----------

  /** If-None-Match: *; false is the failed condition. */
  function CreateIfAbsent(s: Store, key: Key, stored: StoredObject): (Store, bool) {
    if key in s.objects then (s, false) else (s.(objects := s.objects[key := stored]), true)
  }

  function AppendSite(s: Store, pointer: SitePointer, etag: ETag): Store {
    s.(sites := s.sites[pointer.siteId := SiteHistory(s, pointer.siteId) + [Cell(etag, pointer)]])
  }

  function CreateSitePointer(s: Store, pointer: SitePointer, etag: ETag): (Store, bool) {
    if SiteCell(s, pointer.siteId).Some? then (s, false) else (AppendSite(s, pointer, etag), true)
  }

  /** If-Match: the pointer must exist with the expected ETag. */
  function SwapSitePointer(s: Store, expected: ETag, pointer: SitePointer, etag: ETag): (Store, bool) {
    var cell := SiteCell(s, pointer.siteId);
    if cell.Some? && cell.value.etag == expected then (AppendSite(s, pointer, etag), true) else (s, false)
  }

  function AppendRouting(s: Store, pointer: RoutingPointer, etag: ETag): Store {
    s.(routing := s.routing + [Cell(etag, pointer)])
  }

  function CreateRoutingPointer(s: Store, pointer: RoutingPointer, etag: ETag): (Store, bool) {
    if RoutingCell(s).Some? then (s, false) else (AppendRouting(s, pointer, etag), true)
  }

  function SwapRoutingPointer(s: Store, expected: ETag, pointer: RoutingPointer, etag: ETag): (Store, bool) {
    var cell := RoutingCell(s);
    if cell.Some? && cell.value.etag == expected then (AppendRouting(s, pointer, etag), true) else (s, false)
  }

  // ---------- what every store satisfies ----------

  /** An ETag determines the content it was given for. */
  ghost predicate EtagsAgree<P>(history: seq<Cell<P>>) {
    forall i, j :: 0 <= i < |history| && 0 <= j < |history| && history[i].etag == history[j].etag
      ==> history[i].content == history[j].content
  }

  /** An ETag the store may give to `content` after this history: fresh, or already its own. */
  ghost predicate EtagFits<P>(history: seq<Cell<P>>, etag: ETag, content: P) {
    forall i :: 0 <= i < |history| && history[i].etag == etag ==> history[i].content == content
  }

  /** `t` can be reached from `s`: nothing stored is lost or changed. */
  ghost predicate Grows(s: Store, t: Store) {
    && (forall key | key in s.objects :: key in t.objects && t.objects[key] == s.objects[key])
    && (forall siteId :: SiteHistory(s, siteId) <= SiteHistory(t, siteId))
    && s.routing <= t.routing
  }

  lemma {:induction false} GrowsTransitive(s: Store, t: Store, u: Store)
    requires Grows(s, t) && Grows(t, u)
    ensures Grows(s, u)
  {
    forall key | key in s.objects ensures key in u.objects && u.objects[key] == s.objects[key] {
      assert key in t.objects;
    }
    forall siteId ensures SiteHistory(s, siteId) <= SiteHistory(u, siteId) {
      assert SiteHistory(s, siteId) <= SiteHistory(t, siteId) <= SiteHistory(u, siteId);
    }
  }

  lemma {:induction false} AppendAgrees<P>(history: seq<Cell<P>>, etag: ETag, content: P)
    requires EtagsAgree(history) && EtagFits(history, etag, content)
    ensures EtagsAgree(history + [Cell(etag, content)])
  {
  }
}
