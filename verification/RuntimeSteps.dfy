/**
 Requests that share the runtime's caches. A step is what happens between two awaits: one request to
 the store, or what follows an awaited digest or an awaited return, with the cache operations that
 belong to it. Computation that touches neither the store nor a cache joins the step before it.
 */
module RuntimeSteps {
  import opened Wrappers
  import opened Documents
  import opened ReleasePlans
  import opened ReleaseStore
  import opened LruCache
  import opened Runtime
  import opened Text

  datatype Caches = Caches(
    routing: seq<Entry<RoutingState>>, site: seq<Entry<SiteState>>, page: seq<Entry<Page>>)

  const NO_CACHES := Caches([], [], [])
  const ROUTING_POINTER_KEY := "routing/channels/current.json"

  /** None is a hostname or pathname that normalisation refuses. */
  datatype Request = Request(hostname: Option<string>, pathname: Option<string>)

  datatype At =
    | Arriving
    | HeadingRouting
    | ReadingRouting(routingEtag: ETag)
    | ReadingTable(routingEtag: ETag, routing: RoutingPointer)
    | KeepingTable(routingEtag: ETag, table: RoutingTable)
    | HeadingSite(routingEtag: ETag, siteId: string, canonicalDomain: string)
    | ReadingPointer(routingEtag: ETag, siteId: string, canonicalDomain: string, siteEtag: ETag)
    | ReadingManifest(routingEtag: ETag, siteId: string, canonicalDomain: string, siteEtag: ETag, pointer: SitePointer)
    | ReadingRoutes(routingEtag: ETag, siteId: string, canonicalDomain: string, siteEtag: ETag, pointer: SitePointer, manifest: Manifest)
    | KeepingSite(routingEtag: ETag, siteId: string, canonicalDomain: string, state: SiteState)
    | HavingSite(routingEtag: ETag, canonicalDomain: string, state: SiteState)
    | ReadingPage(routingEtag: ETag, canonicalDomain: string, state: SiteState, route: Route, missing: bool)
    | KeepingPage(routingEtag: ETag, canonicalDomain: string, state: SiteState, route: Route, missing: bool, document: Page)
    | Resolved(seenRouting: Option<ETag>, seenSite: Option<ETag>, outcome: Outcome)

  function Refused(code: Code): At {
    Resolved(None, None, Unavailable(code))
  }

  /** Once the routing manifest is known. */
  function WithTable(caches: Caches, etag: ETag, table: RoutingTable, r: Request): (Caches, At)
    requires r.hostname.Some?
  {
    (caches, match ChooseSite(table, r.hostname.value)
             case Nobody => Resolved(Some(etag), None, UnknownHost)
             case Failure(code) => Refused(code)
             case Site(siteId, canonicalDomain) => HeadingSite(etag, siteId, canonicalDomain))
  }

  /** Once the site's release is known: answers at once, from the page cache, or after a read. */
  function WithSite(c: Config, caches: Caches, now: int, etag: ETag, canonicalDomain: string, state: SiteState, r: Request)
    : (Caches, At)
    requires r.pathname.Some?
  {
    match PlanRequest(state, r.pathname.value)
    case Answer(outcome) => (caches, Resolved(Some(etag), Some(state.pointerEtag), outcome))
    case Load(route, missing) =>
      var (page, cached) := GetEntry(caches.page, PageKey(state.pointer.siteId, state.pointer.releaseId, route.pathname), now);
      (caches.(page := page),
       match cached
       case None => ReadingPage(etag, canonicalDomain, state, route, missing)
       case Some(document) =>
         Resolved(Some(etag), Some(state.pointerEtag), Finish(state.pointer, route, missing, document)))
  }

  function Step(s: Store, c: Config, caches: Caches, now: int, r: Request, at: At): (Caches, At) {
    if r.hostname.None? then (caches, if at.Resolved? then at else Resolved(None, None, UnknownHost))
    else if r.pathname.None? then (caches, if at.Resolved? then at else Refused(RequestInvalid))
    else match at
      case Arriving => (caches, HeadingRouting)
      case HeadingRouting =>
        (match RoutingCell(s)
         case None => (caches, Refused(RoutingInvalid))
         case Some(head) =>
           var (routing, cached) := GetEntry(caches.routing, ROUTING_POINTER_KEY, now);
           var left := caches.(routing := routing);
           if cached.Some? && cached.value.pointerEtag == head.etag
           then WithTable(left, head.etag, cached.value.table, r)
           else (left, ReadingRouting(head.etag)))
      case ReadingRouting(etag) =>
        (caches, match RoutingCell(s)
                 case None => Refused(RoutingInvalid)
                 case Some(cell) => if cell.etag == etag then ReadingTable(etag, cell.content) else Refused(StorageUnavailable))
      case ReadingTable(etag, pointer) =>
        (match CheckTable(Read(s, RoutingKey(pointer.routingId)), pointer)
         case Err(code) => (caches, Refused(code))
         case Ok(table) => (caches, KeepingTable(etag, table)))
      case KeepingTable(etag, table) =>
        var entries := SetEntry(caches.routing, ROUTING_POINTER_KEY, RoutingState(table, etag), now + c.ttlMs, 1);
        WithTable(caches.(routing := entries), etag, table, r)
      case HeadingSite(etag, siteId, canonicalDomain) =>
        (match SiteCell(s, siteId)
         case None => (caches, Refused(SiteReleaseInvalid))
         case Some(head) =>
           var (site, cached) := GetEntry(caches.site, siteId, now);
           if cached.Some? && cached.value.pointerEtag == head.etag && cached.value.routes.canonicalDomain == canonicalDomain
           then (caches.(site := site), HavingSite(etag, canonicalDomain, cached.value))
           else
             var left := caches.(site := Invalidate(site, (key: string) => key == siteId),
                                 page := Invalidate(caches.page, (key: string) => StartsWith(key, SitePrefix(siteId))));
             (left, ReadingPointer(etag, siteId, canonicalDomain, head.etag)))
      case ReadingPointer(etag, siteId, canonicalDomain, siteEtag) =>
        (caches, match SiteCell(s, siteId)
                 case None => Refused(SiteReleaseInvalid)
                 case Some(cell) =>
                   if cell.etag != siteEtag then Refused(StorageUnavailable)
                   else match CheckPointer(cell.content, siteId)
                     case Err(code) => Refused(code)
                     case Ok(pointer) => ReadingManifest(etag, siteId, canonicalDomain, siteEtag, pointer))
      case ReadingManifest(etag, siteId, canonicalDomain, siteEtag, pointer) =>
        (caches, match CheckManifest(ArtifactAt(s, pointer, MANIFEST_PATH), pointer)
                 case Err(code) => Refused(code)
                 case Ok(m) => ReadingRoutes(etag, siteId, canonicalDomain, siteEtag, pointer, m))
      case ReadingRoutes(etag, siteId, canonicalDomain, siteEtag, pointer, m) =>
        (match CheckRoutes(ArtifactAt(s, pointer, ROUTES_PATH), m, canonicalDomain)
         case Err(code) => (caches, Refused(code))
         case Ok(routes) => (caches, KeepingSite(etag, siteId, canonicalDomain, SiteState(m, pointer, siteEtag, routes))))
      case KeepingSite(etag, siteId, canonicalDomain, state) =>
        var entries := SetEntry(caches.site, siteId, state, now + c.ttlMs, c.maxEntries);
        (caches.(site := entries), HavingSite(etag, canonicalDomain, state))
      case HavingSite(etag, canonicalDomain, state) => WithSite(c, caches, now, etag, canonicalDomain, state, r)
      case ReadingPage(etag, canonicalDomain, state, route, missing) =>
        (match PageAt(s, state, route)
         case Err(code) => (caches, Resolved(Some(etag), Some(state.pointerEtag), Failed(missing, code)))
         case Ok(document) => (caches, KeepingPage(etag, canonicalDomain, state, route, missing, document)))
      case KeepingPage(etag, canonicalDomain, state, route, missing, document) =>
        var key := PageKey(state.pointer.siteId, state.pointer.releaseId, route.pathname);
        var entries := SetEntry(caches.page, key, document, now + c.ttlMs, c.maxEntries);
        (caches.(page := entries),
         Resolved(Some(etag), Some(state.pointerEtag), Finish(state.pointer, route, missing, document)))
      case Resolved(_, _, _) => (caches, at)
  }

  /** Loading the page that stands in for a missing route. */
  predicate LoadsMissing(at: At) {
    (at.ReadingPage? || at.KeepingPage?) && at.missing
  }

  /** A read of the store or a digest that throws. */
  function StoreThrows(r: Request, at: At): At {
    if at.Resolved? || at.Arriving? || at.HavingSite? then at
    else Resolved(None, None, Failed(LoadsMissing(at), StorageUnavailable))
  }
}
