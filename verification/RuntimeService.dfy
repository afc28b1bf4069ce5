/** The runtime as an object: the loaders over a store object and three cache objects. */
module RuntimeService {
  import opened Wrappers
  import opened Documents
  import opened ReleasePlans
  import opened ReleaseStore
  import opened LruCache
  import opened Runtime
  import opened RuntimeSteps
  import opened ResolveRuns
  import opened Text
  import opened ArtifactStores
  import CacheAgreement

  class Service {
    const store: ArtifactStore
    const routingCache: TtlLruCache<RoutingState>
    const siteCache: TtlLruCache<SiteState>
    const pageCache: TtlLruCache<Page>
    const config: Config
    var clock: int

    ghost predicate Valid()
      reads this, routingCache, siteCache, pageCache
    {
      var all: seq<object> := [this, store, routingCache, siteCache, pageCache];
      && (forall i, j :: 0 <= i < j < |all| ==> all[i] != all[j])
      && routingCache.Valid() && siteCache.Valid() && pageCache.Valid()
      && routingCache.maxEntries == 1 && routingCache.ttlMs == config.ttlMs
      && siteCache.maxEntries == config.maxEntries && siteCache.ttlMs == config.ttlMs
      && pageCache.maxEntries == config.maxEntries && pageCache.ttlMs == config.ttlMs
    }

    function Cached(): Caches
      reads routingCache, siteCache, pageCache
    {
      Caches(routingCache.entries, siteCache.entries, pageCache.entries)
    }

    constructor (store: ArtifactStore, maxEntries: nat, ttlMs: int)
      requires 1 <= maxEntries && 1 <= ttlMs
      ensures Valid() && Cached() == NO_CACHES && this.store == store && config == Config(maxEntries, ttlMs)
      ensures fresh(routingCache) && fresh(siteCache) && fresh(pageCache)
    {
      this.store, config, clock := store, Config(maxEntries, ttlMs), 0;
      routingCache := new TtlLruCache(1, ttlMs);
      siteCache := new TtlLruCache(maxEntries, ttlMs);
      pageCache := new TtlLruCache(maxEntries, ttlMs);
    }

    /** The rest of the request from a point of the program, with the caches as they are. */
    ghost function Rest(r: Request, caches: Caches, at: At): (Caches, At)
      reads this, store
    {
      RunRequest(store.State(), config, caches, clock, r, at)
    }

    method LoadRouting(r: Request) returns (result: Result<RoutingState, Code>)
      requires Valid() && r.hostname.Some? && r.pathname.Some?
      modifies routingCache
      ensures Valid() && Cached().site == old(Cached()).site && Cached().page == old(Cached()).page
      ensures Rest(r, old(Cached()), HeadingRouting)
           == match result
              case Err(code) => (Cached(), Refused(code))
              case Ok(state) =>
                var (left, at) := WithTable(Cached(), state.pointerEtag, state.table, r);
                Rest(r, left, at)
    {
      hide CheckTable, GetEntry, SetEntry, WithTable, RoutingCell, IndexOf, DistinctKeys, WithSite, PageAt, CheckManifest, CheckRoutes,
        CheckPointer, SiteCell, Invalidate;
      var head := store.ReadRouting();
      if head.None? {
        assert Rest(r, old(Cached()), HeadingRouting) == Rest(r, Cached(), Refused(RoutingInvalid));
        return Err(RoutingInvalid);
      }
      var cached := routingCache.Get(ROUTING_POINTER_KEY, clock);
      if cached.Some? && cached.value.pointerEtag == head.value.etag {
        return Ok(cached.value);
      }
      assert Rest(r, old(Cached()), HeadingRouting) == Rest(r, Cached(), ReadingRouting(head.value.etag));
      var pointer := store.ReadRouting();
      if pointer.None? {
        return Err(RoutingInvalid);
      }
      if pointer.value.etag != head.value.etag {
        return Err(StorageUnavailable);
      }
      var etag, content := pointer.value.etag, pointer.value.content;
      assert Rest(r, old(Cached()), HeadingRouting) == Rest(r, Cached(), ReadingTable(etag, content));
      var stored := store.Read(RoutingKey(content.routingId));
      var table := CheckTable(stored, content);
      if table.Err? {
        assert Rest(r, old(Cached()), HeadingRouting) == Rest(r, Cached(), Refused(table.error));
        return Err(table.error);
      }
      var state := RoutingState(table.value, etag);
      assert Rest(r, old(Cached()), HeadingRouting) == Rest(r, Cached(), KeepingTable(etag, table.value));
      label before:
      routingCache.Set(ROUTING_POINTER_KEY, state, clock);
      assert Cached() == old@before(Cached()).(routing :=
          SetEntry(old@before(Cached()).routing, ROUTING_POINTER_KEY, state, clock + config.ttlMs, 1));
      return Ok(state);
    }

    method LoadSite(r: Request, ghost etag: ETag, siteId: string, canonicalDomain: string)
      returns (result: Result<SiteState, Code>)
      requires Valid() && r.hostname.Some? && r.pathname.Some?
      modifies siteCache, pageCache
      ensures Valid() && Cached().routing == old(Cached()).routing
      ensures Rest(r, old(Cached()), HeadingSite(etag, siteId, canonicalDomain))
           == match result
              case Err(code) => (Cached(), Refused(code))
              case Ok(state) => Rest(r, Cached(), HavingSite(etag, canonicalDomain, state))
    {
      hide CheckPointer, CheckManifest, CheckRoutes, GetEntry, SetEntry, WithSite, SiteCell, Invalidate;
      var head := store.ReadPointer(siteId);
      if head.None? {
        assert Rest(r, old(Cached()), HeadingSite(etag, siteId, canonicalDomain))
            == Rest(r, Cached(), Refused(SiteReleaseInvalid));
        return Err(SiteReleaseInvalid);
      }
      var cached := siteCache.Get(siteId, clock);
      if && cached.Some? && cached.value.pointerEtag == head.value.etag
         && cached.value.routes.canonicalDomain == canonicalDomain
      {
        return Ok(cached.value);
      }
      siteCache.InvalidateKeys((key: string) => key == siteId);
      pageCache.InvalidateKeys((key: string) => StartsWith(key, SitePrefix(siteId)));
      assert Rest(r, old(Cached()), HeadingSite(etag, siteId, canonicalDomain))
          == Rest(r, Cached(), ReadingPointer(etag, siteId, canonicalDomain, head.value.etag));
      result := LoadSiteFromStore(r, etag, siteId, canonicalDomain, head.value.etag);
    }

    method LoadSiteFromStore(r: Request, ghost etag: ETag, siteId: string, canonicalDomain: string, siteEtag: ETag)
      returns (result: Result<SiteState, Code>)
      requires Valid() && r.hostname.Some? && r.pathname.Some?
      modifies siteCache
      ensures Valid() && Cached().routing == old(Cached()).routing && Cached().page == old(Cached()).page
      ensures Rest(r, old(Cached()), ReadingPointer(etag, siteId, canonicalDomain, siteEtag))
           == match result
              case Err(code) => (Cached(), Refused(code))
              case Ok(state) => Rest(r, Cached(), HavingSite(etag, canonicalDomain, state))
    {
      hide CheckPointer, CheckManifest, CheckRoutes, GetEntry, SetEntry, WithSite, SiteCell, Invalidate;
      var cell := store.ReadPointer(siteId);
      if cell.None? {
        assert Rest(r, old(Cached()), ReadingPointer(etag, siteId, canonicalDomain, siteEtag))
            == Rest(r, Cached(), Refused(SiteReleaseInvalid));
        return Err(SiteReleaseInvalid);
      }
      if cell.value.etag != siteEtag {
        assert Rest(r, old(Cached()), ReadingPointer(etag, siteId, canonicalDomain, siteEtag))
            == Rest(r, Cached(), Refused(StorageUnavailable));
        return Err(StorageUnavailable);
      }
      var pointer := CheckPointer(cell.value.content, siteId);
      if pointer.Err? {
        assert Rest(r, old(Cached()), ReadingPointer(etag, siteId, canonicalDomain, siteEtag))
            == Rest(r, Cached(), Refused(pointer.error));
        return Err(pointer.error);
      }
      assert Rest(r, old(Cached()), ReadingPointer(etag, siteId, canonicalDomain, siteEtag))
          == Rest(r, Cached(), ReadingManifest(etag, siteId, canonicalDomain, siteEtag, pointer.value));
      var storedManifest := store.Read(ManifestKey(pointer.value.siteId, pointer.value.releaseId));
      var manifest := CheckManifest(storedManifest, pointer.value);
      if manifest.Err? {
        assert Rest(r, old(Cached()), ReadingPointer(etag, siteId, canonicalDomain, siteEtag))
            == Rest(r, Cached(), Refused(manifest.error));
        return Err(manifest.error);
      }
      assert Rest(r, old(Cached()), ReadingPointer(etag, siteId, canonicalDomain, siteEtag))
          == Rest(r, Cached(), ReadingRoutes(etag, siteId, canonicalDomain, siteEtag, pointer.value, manifest.value));
      var storedRoutes := store.Read(ReleaseKey(pointer.value.siteId, pointer.value.releaseId, ROUTES_PATH));
      var routes := CheckRoutes(storedRoutes, manifest.value, canonicalDomain);
      if routes.Err? {
        assert Rest(r, old(Cached()), ReadingPointer(etag, siteId, canonicalDomain, siteEtag))
            == Rest(r, Cached(), Refused(routes.error));
        return Err(routes.error);
      }
      var state := SiteState(manifest.value, pointer.value, siteEtag, routes.value);
      assert Rest(r, old(Cached()), ReadingPointer(etag, siteId, canonicalDomain, siteEtag))
          == Rest(r, Cached(), KeepingSite(etag, siteId, canonicalDomain, state));
      label before:
      siteCache.Set(siteId, state, clock);
      assert Cached() == old@before(Cached()).(site :=
          SetEntry(old@before(Cached()).site, siteId, state, clock + config.ttlMs, config.maxEntries));
      return Ok(state);
    }

    method LoadPage(r: Request, ghost etag: ETag, ghost canonicalDomain: string, state: SiteState, route: Route, missing: bool)
      returns (result: Result<Page, Code>)
      requires Valid() && r.hostname.Some? && r.pathname.Some?
      requires PlanRequest(state, r.pathname.value) == Load(route, missing)
      modifies pageCache
      ensures Valid() && Cached().routing == old(Cached()).routing && Cached().site == old(Cached()).site
      ensures Rest(r, old(Cached()), HavingSite(etag, canonicalDomain, state))
        == (Cached(), Resolved(Some(etag), Some(state.pointerEtag),
                               match result
                               case Err(code) => Failed(missing, code)
                               case Ok(document) => Finish(state.pointer, route, missing, document)))
    {
      hide CheckPage, GetEntry, SetEntry, PlanRequest, Finish, PageKey;
      var key := PageKey(state.pointer.siteId, state.pointer.releaseId, route.pathname);
      var cached := pageCache.Get(key, clock);
      if cached.Some? {
        LastStep(store.State(), config, old(Cached()), clock, r, HavingSite(etag, canonicalDomain, state));
        return Ok(cached.value);
      }
      assert Rest(r, old(Cached()), HavingSite(etag, canonicalDomain, state))
          == Rest(r, Cached(), ReadingPage(etag, canonicalDomain, state, route, missing));
      hide WithSite;
      result := ReadPage(r, etag, canonicalDomain, state, route, missing);
    }

    method ReadPage(r: Request, ghost etag: ETag, ghost canonicalDomain: string, state: SiteState, route: Route, missing: bool)
      returns (result: Result<Page, Code>)
      requires Valid() && r.hostname.Some? && r.pathname.Some?
      modifies pageCache
      ensures Valid() && Cached().routing == old(Cached()).routing && Cached().site == old(Cached()).site
      ensures Rest(r, old(Cached()), ReadingPage(etag, canonicalDomain, state, route, missing))
           == (Cached(), Resolved(Some(etag), Some(state.pointerEtag),
                                  match result
                                  case Err(code) => Failed(missing, code)
                                  case Ok(document) => Finish(state.pointer, route, missing, document)))
    {
      hide CheckPage, SetEntry, Finish, PageKey;
      var key := PageKey(state.pointer.siteId, state.pointer.releaseId, route.pathname);
      var stored := store.Read(ReleaseKey(state.pointer.siteId, state.pointer.releaseId, route.objectKey));
      result := CheckPage(stored, state.manifest, route);
      if result.Ok? {
        assert Rest(r, old(Cached()), ReadingPage(etag, canonicalDomain, state, route, missing))
            == Rest(r, Cached(), KeepingPage(etag, canonicalDomain, state, route, missing, result.value));
        LastStep(store.State(), config, Cached(), clock, r,
                 KeepingPage(etag, canonicalDomain, state, route, missing, result.value));
        pageCache.Set(key, result.value, clock);
        assert Cached() == old(Cached()).(page :=
            SetEntry(old(Cached()).page, key, result.value, clock + config.ttlMs, config.maxEntries));
      } else {
        LastStep(store.State(), config, Cached(), clock, r, ReadingPage(etag, canonicalDomain, state, route, missing));
      }
    }

    /** Picks the route, and answers it or the not-found page. */
    method Serve(r: Request, ghost etag: ETag, ghost canonicalDomain: string, state: SiteState) returns (outcome: Outcome)
      requires Valid() && r.hostname.Some? && r.pathname.Some?
      modifies pageCache
      ensures Valid()
      ensures Rest(r, old(Cached()), HavingSite(etag, canonicalDomain, state))
           == (Cached(), Resolved(Some(etag), Some(state.pointerEtag), outcome))
    {
      hide FindRoute, FindNotFound, Finish, GetEntry, PageKey;
      var reply := PlanRequest(state, r.pathname.value);
      match reply
      case Answer(answer) =>
        LastStep(store.State(), config, Cached(), clock, r, HavingSite(etag, canonicalDomain, state));
        return answer;
      case Load(route, missing) =>
        hide PlanRequest, WithSite;
        var document := LoadPage(r, etag, canonicalDomain, state, route, missing);
        return match document case Err(code) => Failed(missing, code) case Ok(page) => Finish(state.pointer, route, missing, page);
    }

    method Resolve(r: Request) returns (outcome: Outcome)
      requires Valid()
      modifies routingCache, siteCache, pageCache
      ensures Valid()
      ensures (Cached(), outcome) == (Rest(r, old(Cached()), Arriving).0, Answered(Rest(r, old(Cached()), Arriving).1))
      ensures CacheAgreement.Lawful(store.State()) && CacheAgreement.CachesOk(store.State(), old(Cached()))
          ==> CacheAgreement.CachesOk(store.State(), Cached()) && outcome == Now(store.State(), r)
    {
      hide WithSite, ChooseSite, CacheAgreement.Lawful, CacheAgreement.CachesOk, Now;
      if CacheAgreement.Lawful(store.State()) && CacheAgreement.CachesOk(store.State(), Cached()) {
        UninterruptedResolve(store.State(), config, Cached(), clock, r);
      }
      if r.hostname.None? {
        return UnknownHost;
      }
      if r.pathname.None? {
        return Unavailable(RequestInvalid);
      }
      assert Rest(r, Cached(), Arriving) == Rest(r, Cached(), HeadingRouting);
      hide Step;
      var routing := LoadRouting(r);
      if routing.Err? {
        return Unavailable(routing.error);
      }
      var etag := routing.value.pointerEtag;
      match ChooseSite(routing.value.table, r.hostname.value)
      case Nobody => return UnknownHost;
      case Failure(code) => return Unavailable(code);
      case Site(siteId, canonicalDomain) =>
        var site := LoadSite(r, etag, siteId, canonicalDomain);
        if site.Err? {
          return Unavailable(site.error);
        }
        outcome := Serve(r, etag, canonicalDomain, site.value);
    }
  }

  function Answered(at: At): Outcome {
    if at.Resolved? then at.outcome else Unavailable(StorageUnavailable)
  }
}
