/**
 Whatever the store, the clock, the evictions and the interleaving of requests do, a successful
 answer is the one that a resolver without caches gives for the pointers the request saw.
 */
module CacheAgreement {
  import opened Wrappers
  import opened Documents
  import opened ReleasePlans
  import opened ReleaseStore
  import opened LruCache
  import opened Runtime
  import opened RuntimeSteps
  import opened Text

  // ---------- what cached values are ----------

  ghost predicate SiteValid(s: Store, siteId: string, state: SiteState) {
    SiteAt(s, siteId, state.routes.canonicalDomain, state.pointerEtag) == Ok(state)
  }

  /** The page of one route of one release that was valid for some pointer of its site. */
  ghost predicate PageFrom(s: Store, key: string, page: Page, state: SiteState, route: Route) {
    && SiteValid(s, state.pointer.siteId, state)
    && route in state.routes.routes
    && key == PageKey(state.pointer.siteId, state.pointer.releaseId, route.pathname)
    && PageAt(s, state, route) == Ok(page)
  }

  ghost predicate PageValid(s: Store, key: string, page: Page) {
    exists state: SiteState, route: Route :: PageFrom(s, key, page, state, route)
  }

  ghost predicate RoutingCacheOk(s: Store, entries: seq<Entry<RoutingState>>) {
    DistinctKeys(entries) && forall e :: e in entries ==> TableAt(s, e.value.pointerEtag) == Ok(e.value.table)
  }

  ghost predicate SiteCacheOk(s: Store, entries: seq<Entry<SiteState>>) {
    DistinctKeys(entries) && forall e :: e in entries ==> SiteValid(s, e.key, e.value)
  }

  ghost predicate PageCacheOk(s: Store, entries: seq<Entry<Page>>) {
    DistinctKeys(entries) && forall e :: e in entries ==> PageValid(s, e.key, e.value)
  }

  ghost predicate CachesOk(s: Store, caches: Caches) {
    RoutingCacheOk(s, caches.routing) && SiteCacheOk(s, caches.site) && PageCacheOk(s, caches.page)
  }

  // ---------- what a request knows ----------

  ghost predicate Routed(s: Store, r: Request, etag: ETag, siteId: string, canonicalDomain: string) {
    && r.hostname.Some? && r.pathname.Some?
    && TableAt(s, etag).Ok?
    && ChooseSite(TableAt(s, etag).value, r.hostname.value) == Site(siteId, canonicalDomain)
  }

  /** The site's state is what its pointer with that ETag loads. */
  ghost predicate Loaded(s: Store, r: Request, etag: ETag, domain: string, state: SiteState) {
    && Routed(s, r, etag, state.pointer.siteId, domain)
    && SiteAt(s, state.pointer.siteId, domain, state.pointerEtag) == Ok(state)
  }

  /** Some routing and some release of the site had no route at the pathname. */
  ghost predicate HadNoRoute(s: Store, r: Request) {
    exists etag, domain, state ::
      Loaded(s, r, etag, domain, state) && FindRoute(state.routes.routes, r.pathname.value).None?
  }

  ghost predicate Agrees(s: Store, r: Request, seenRouting: Option<ETag>, seenSite: Option<ETag>, outcome: Outcome) {
    Succeeds(outcome) ==>
      if r.hostname.None? then outcome == UnknownHost
      else
        && r.pathname.Some? && seenRouting.Some?
        && (seenSite.None? ==> outcome == UnknownHost)
        && forall e: ETag :: seenSite.None? || seenSite == Some(e) ==>
             Uncached(s, seenRouting.value, e, r.hostname.value, r.pathname.value) == outcome
  }

  ghost predicate AtOk(s: Store, r: Request, at: At) {
    match at
    case Arriving => true
    case HeadingRouting => true
    case ReadingRouting(_) => true
    case ReadingTable(etag, pointer) => ContentAt(s.routing, etag) == Some(pointer)
    case KeepingTable(etag, table) => r.hostname.Some? && r.pathname.Some? && TableAt(s, etag) == Ok(table)
    case HeadingSite(etag, siteId, domain) => Routed(s, r, etag, siteId, domain)
    case ReadingPointer(etag, siteId, domain, _) => Routed(s, r, etag, siteId, domain)
    case ReadingManifest(etag, siteId, domain, siteEtag, pointer) =>
      && Routed(s, r, etag, siteId, domain)
      && ContentAt(SiteHistory(s, siteId), siteEtag) == Some(pointer) && CheckPointer(pointer, siteId).Ok?
    case ReadingRoutes(etag, siteId, domain, siteEtag, pointer, m) =>
      && Routed(s, r, etag, siteId, domain)
      && ContentAt(SiteHistory(s, siteId), siteEtag) == Some(pointer) && CheckPointer(pointer, siteId).Ok?
      && CheckManifest(ArtifactAt(s, pointer, MANIFEST_PATH), pointer) == Ok(m)
    case KeepingSite(etag, siteId, domain, state) => siteId == state.pointer.siteId && Loaded(s, r, etag, domain, state)
    case HavingSite(etag, domain, state) => Loaded(s, r, etag, domain, state)
    case ReadingPage(etag, domain, state, route, missing) =>
      && Loaded(s, r, etag, domain, state)
      && PlanRequest(state, r.pathname.value) == Load(route, missing)
    case KeepingPage(etag, domain, state, route, missing, document) =>
      && Loaded(s, r, etag, domain, state)
      && PlanRequest(state, r.pathname.value) == Load(route, missing)
      && PageAt(s, state, route) == Ok(document)
    case Resolved(seenRouting, seenSite, outcome) =>
      Agrees(s, r, seenRouting, seenSite, outcome) && (outcome.Rejected? ==> HadNoRoute(s, r))
  }

  // ---------- growth of the store ----------

  lemma {:induction false} CachesStay(s: Store, t: Store, caches: Caches)
    requires Grows(s, t) && CachesOk(s, caches)
    ensures CachesOk(t, caches)
  {
    hide Grows, SiteAt, TableAt, PageAt, DistinctKeys, PageKey;
    forall e | e in caches.routing ensures TableAt(t, e.value.pointerEtag) == Ok(e.value.table) {
      TableStays(s, t, e.value.pointerEtag);
    }
    forall e | e in caches.site ensures SiteValid(t, e.key, e.value) {
      SiteAtStays(s, t, e.key, e.value.routes.canonicalDomain, e.value.pointerEtag);
    }
    forall e | e in caches.page ensures PageValid(t, e.key, e.value) {
      assert PageValid(s, e.key, e.value);
      var state, route :| PageFrom(s, e.key, e.value, state, route);
      SiteAtStays(s, t, state.pointer.siteId, state.routes.canonicalDomain, state.pointerEtag);
      PageStays(s, t, state, route);
      assert PageFrom(t, e.key, e.value, state, route);
    }
  }

  lemma {:induction false} AtStays(s: Store, t: Store, r: Request, at: At)
    requires Grows(s, t) && AtOk(s, r, at)
    ensures AtOk(t, r, at)
  {
    hide SiteAt, TableAt, PageAt, ChooseSite, PlanRequest, CheckManifest, CheckPointer, Uncached, Loaded, HadNoRoute;
    match at
    case ReadingTable(etag, pointer) => ContentStays(s.routing, t.routing, etag);
    case KeepingTable(etag, _) => TableStays(s, t, etag);
    case HeadingSite(etag, siteId, domain) => TableStays(s, t, etag);
    case ReadingPointer(etag, siteId, domain, _) => TableStays(s, t, etag);
    case ReadingManifest(etag, siteId, domain, siteEtag, pointer) =>
      TableStays(s, t, etag);
      assert SiteHistory(s, siteId) <= SiteHistory(t, siteId);
      ContentStays(SiteHistory(s, siteId), SiteHistory(t, siteId), siteEtag);
    case ReadingRoutes(etag, siteId, domain, siteEtag, pointer, m) =>
      TableStays(s, t, etag);
      assert SiteHistory(s, siteId) <= SiteHistory(t, siteId);
      ContentStays(SiteHistory(s, siteId), SiteHistory(t, siteId), siteEtag);
      ManifestStays(s, t, pointer);
    case KeepingSite(etag, _, domain, state) => LoadedStays(s, t, r, etag, domain, state);
    case HavingSite(etag, domain, state) => LoadedStays(s, t, r, etag, domain, state);
    case ReadingPage(etag, domain, state, route, missing) => LoadedStays(s, t, r, etag, domain, state);
    case KeepingPage(etag, domain, state, route, missing, _) =>
      LoadedStays(s, t, r, etag, domain, state);
      PageStays(s, t, state, route);
    case Resolved(seenRouting, seenSite, outcome) =>
      if outcome.Rejected? {
        NoRouteStays(s, t, r);
      }
      if Succeeds(outcome) && r.hostname.Some? {
        forall e: ETag | seenSite.None? || seenSite == Some(e)
          ensures Uncached(t, seenRouting.value, e, r.hostname.value, r.pathname.value) == outcome
        {
          UncachedStays(s, t, seenRouting.value, e, r.hostname.value, r.pathname.value);
        }
      }
    case _ =>
  }

  lemma {:induction false} LoadedStays(s: Store, t: Store, r: Request, etag: ETag, domain: string, state: SiteState)
    requires Grows(s, t) && Loaded(s, r, etag, domain, state)
    ensures Loaded(t, r, etag, domain, state)
  {
    hide SiteAt, TableAt, ChooseSite;
    TableStays(s, t, etag);
    SiteAtStays(s, t, state.pointer.siteId, domain, state.pointerEtag);
  }

  lemma {:induction false} NoRouteStays(s: Store, t: Store, r: Request)
    requires Grows(s, t) && HadNoRoute(s, r)
    ensures HadNoRoute(t, r)
  {
    hide FindRoute, SiteAt, TableAt, ChooseSite;
    var etag, domain, state :| Loaded(s, r, etag, domain, state) && FindRoute(state.routes.routes, r.pathname.value).None?;
    LoadedStays(s, t, r, etag, domain, state);
  }

  lemma {:induction false} ManifestStays(s: Store, t: Store, pointer: SitePointer)
    requires Grows(s, t) && CheckManifest(ArtifactAt(s, pointer, MANIFEST_PATH), pointer).Ok?
    ensures ArtifactAt(t, pointer, MANIFEST_PATH) == ArtifactAt(s, pointer, MANIFEST_PATH)
  {
    ReadStays(s, t, ReleaseKey(pointer.siteId, pointer.releaseId, MANIFEST_PATH));
  }

  // ---------- cached pages ----------

  lemma {:induction false} SiteAtFacts(s: Store, siteId: string, domain: string, etag: ETag)
    requires SiteAt(s, siteId, domain, etag).Ok?
    ensures var state := SiteAt(s, siteId, domain, etag).value;
      && state.pointer.siteId == siteId && IsIdentifier(siteId) && IsIdentifier(state.pointer.releaseId)
      && state.pointerEtag == etag && state.routes.canonicalDomain == domain && IsRouteIndex(state.routes)
      && SiteValid(s, siteId, state)
      && CheckManifest(ArtifactAt(s, state.pointer, MANIFEST_PATH), state.pointer) == Ok(state.manifest)
      && CheckRoutes(ArtifactAt(s, state.pointer, ROUTES_PATH), state.manifest, domain) == Ok(state.routes)
  {
    hide IsIdentifier, ContentAt, IsRouteIndex;
  }

  /** Pointers to the same release load the same manifest and the same routes. */
  lemma {:induction false} SameRelease(s: Store, one: SiteState, two: SiteState)
    requires SiteValid(s, one.pointer.siteId, one) && SiteValid(s, two.pointer.siteId, two)
    requires one.pointer.siteId == two.pointer.siteId && one.pointer.releaseId == two.pointer.releaseId
    ensures one.manifest == two.manifest && one.routes == two.routes
  {
    hide SiteAt, IsIdentifier, IsRouteIndex, FindArtifact;
    SiteAtFacts(s, one.pointer.siteId, one.routes.canonicalDomain, one.pointerEtag);
    SiteAtFacts(s, two.pointer.siteId, two.routes.canonicalDomain, two.pointerEtag);
    assert ArtifactAt(s, one.pointer, MANIFEST_PATH) == ArtifactAt(s, two.pointer, MANIFEST_PATH);
    assert ArtifactAt(s, one.pointer, ROUTES_PATH) == ArtifactAt(s, two.pointer, ROUTES_PATH);
  }

  lemma {:induction false} RoutesUnique(index: RouteIndex, a: Route, b: Route)
    requires IsRouteIndex(index) && a in index.routes && b in index.routes && a.pathname == b.pathname
    ensures a == b
  {
    var i :| 0 <= i < |index.routes| && index.routes[i] == a;
    var j :| 0 <= j < |index.routes| && index.routes[j] == b;
    assert i == j;
  }

  /** A cached page is the page of the route it is asked for, whatever pointer it was loaded under. */
  lemma {:induction false} CachedPage(s: Store, state: SiteState, route: Route, page: Page)
    requires SiteValid(s, state.pointer.siteId, state) && route in state.routes.routes
    requires PageValid(s, PageKey(state.pointer.siteId, state.pointer.releaseId, route.pathname), page)
    ensures PageAt(s, state, route) == Ok(page)
  {
    hide SiteAt, IsIdentifier, PageKey, IsRouteIndex, CheckPage;
    var key := PageKey(state.pointer.siteId, state.pointer.releaseId, route.pathname);
    var other: SiteState, from: Route :| PageFrom(s, key, page, other, from);
    SiteAtFacts(s, state.pointer.siteId, state.routes.canonicalDomain, state.pointerEtag);
    SiteAtFacts(s, other.pointer.siteId, other.routes.canonicalDomain, other.pointerEtag);
    PageKeyInjective(state.pointer.siteId, state.pointer.releaseId, route.pathname,
                     other.pointer.siteId, other.pointer.releaseId, from.pathname);
    SameRelease(s, state, other);
    RoutesUnique(state.routes, route, from);
  }

  // ---------- answering ----------

  lemma {:induction false} LoadsRoute(state: SiteState, pathname: string)
    ensures PlanRequest(state, pathname).Load? ==> PlanRequest(state, pathname).route in state.routes.routes
  {
    hide FindRoute, FindNotFound;
  }

  /** A page is loaded, or given up, in place of a route only where there is none. */
  lemma {:induction false} MissingHasNoRoute(state: SiteState, pathname: string)
    ensures var reply := PlanRequest(state, pathname);
      (reply.Load? && reply.missing) || (reply.Answer? && reply.outcome.Rejected?)
      ==> FindRoute(state.routes.routes, pathname).None?
  {
    hide FindRoute, FindNotFound;
  }

  lemma NoRoute(s: Store, r: Request, etag: ETag, domain: string, state: SiteState)
    requires Loaded(s, r, etag, domain, state) && FindRoute(state.routes.routes, r.pathname.value).None?
    ensures HadNoRoute(s, r)
  {
  }

  lemma {:induction false} AnswerAgrees(s: Store, r: Request, etag: ETag, domain: string, state: SiteState)
    requires Routed(s, r, etag, state.pointer.siteId, domain)
    requires SiteAt(s, state.pointer.siteId, domain, state.pointerEtag) == Ok(state)
    ensures Uncached(s, etag, state.pointerEtag, r.hostname.value, r.pathname.value) == ServeFrom(s, state, r.pathname.value)
  {
    hide SiteAt, TableAt, ServeFrom, ChooseSite;
  }

  lemma {:induction false} WithSiteOk(
    s: Store, c: Config, caches: Caches, now: int, etag: ETag, domain: string, state: SiteState, r: Request)
    requires CachesOk(s, caches) && Loaded(s, r, etag, domain, state)
    ensures var (left, at) := WithSite(c, caches, now, etag, domain, state, r);
      CachesOk(s, left) && AtOk(s, r, at)
  {
    hide SiteAt, TableAt, ChooseSite, PlanRequest, Uncached, PageAt, Finish, PageKey, GetEntry, DistinctKeys, IsRouteIndex, IsIdentifier, CheckManifest, CheckRoutes, PageValid, Succeeds, FindRoute, HadNoRoute;
    SiteAtFacts(s, state.pointer.siteId, domain, state.pointerEtag);
    AnswerAgrees(s, r, etag, domain, state);
    LoadsRoute(state, r.pathname.value);
    MissingHasNoRoute(state, r.pathname.value);
    if FindRoute(state.routes.routes, r.pathname.value).None? {
      NoRoute(s, r, etag, domain, state);
    }
    match PlanRequest(state, r.pathname.value)
    case Answer(outcome) =>
    case Load(route, missing) =>
      var key := PageKey(state.pointer.siteId, state.pointer.releaseId, route.pathname);
      GetOk(caches.page, key, now);
      var cached := GetEntry(caches.page, key, now).1;
      if cached.Some? {
        CachedPage(s, state, route, cached.value);
        if !missing {
          FoundNotRejected(state.pointer, route, cached.value);
        }
      }
  }

  lemma FoundNotRejected(pointer: SitePointer, route: Route, document: Page)
    ensures !Finish(pointer, route, false, document).Rejected?
  {
  }

  /** A hit is one of the entries, under its own key, and only entries are left. */
  lemma {:induction false} GetOk<V(!new)>(entries: seq<Entry<V>>, key: string, now: int)
    requires DistinctKeys(entries)
    ensures var (left, cached) := GetEntry(entries, key, now);
      && DistinctKeys(left) && (forall e :: e in left ==> e in entries)
      && (cached.Some? ==> exists e :: e in entries && e.key == key && e.value == cached.value)
  {
    GetKeeps(entries, key, now, |entries|);
    var i := IndexOf(entries, key);
    if i < |entries| {
      assert entries[i] in entries;
    }
  }

  // ---------- each step ----------

  lemma {:induction false} StepOk(s: Store, c: Config, caches: Caches, now: int, r: Request, at: At)
    requires EtagsAgree(s.routing) && (forall siteId :: EtagsAgree(SiteHistory(s, siteId)))
    requires CachesOk(s, caches) && AtOk(s, r, at)
    ensures var (left, next) := Step(s, c, caches, now, r, at);
      CachesOk(s, left) && AtOk(s, r, next)
  {
    hide CachesOk, EtagsAgree, ChooseSite, PlanRequest, Uncached, PageAt, SiteAt, Finish, ServeFrom, CheckTable, CheckPointer, CheckManifest, CheckRoutes, CheckPage, WithSite;
    if r.hostname.Some? && r.pathname.Some? {
      match at
      case HeadingRouting => RoutingHeadOk(s, c, caches, now, r);
      case ReadingRouting(etag) =>
        if RoutingCell(s).Some? {
          ContentIs(s.routing, RoutingCell(s).value);
        }
      case ReadingTable(etag, pointer) => TableReadOk(s, c, caches, now, r, etag, pointer);
      case KeepingTable(etag, table) => TableKeptOk(s, c, caches, now, r, etag, table);
      case HeadingSite(etag, siteId, domain) => SiteHeadOk(s, c, caches, now, r, etag, siteId, domain);
      case ReadingPointer(etag, siteId, domain, siteEtag) =>
        if SiteCell(s, siteId).Some? {
          assert EtagsAgree(SiteHistory(s, siteId));
          ContentIs(SiteHistory(s, siteId), SiteCell(s, siteId).value);
          CheckedPointer(SiteCell(s, siteId).value.content, siteId);
        }
      case ReadingRoutes(etag, siteId, domain, siteEtag, pointer, m) =>
        RoutesReadOk(s, c, caches, now, r, at);
      case KeepingSite(etag, siteId, domain, state) => SiteKeptOk(s, c, caches, now, r, at);
      case HavingSite(etag, domain, state) => WithSiteOk(s, c, caches, now, etag, domain, state, r);
      case ReadingPage(etag, domain, state, route, missing) => PageReadOk(s, c, caches, now, r, at);
      case KeepingPage(etag, domain, state, route, missing, document) => PageKeptOk(s, c, caches, now, r, at);
      case _ =>
    }
  }

  lemma CheckedPointer(pointer: SitePointer, siteId: string)
    ensures CheckPointer(pointer, siteId).Ok? ==> CheckPointer(pointer, siteId).value == pointer
  {
    hide IsIdentifier;
  }

  lemma {:induction false} WithTableOk(s: Store, caches: Caches, etag: ETag, table: RoutingTable, r: Request)
    requires r.hostname.Some? && r.pathname.Some? && TableAt(s, etag) == Ok(table)
    ensures AtOk(s, r, WithTable(caches, etag, table, r).1) && WithTable(caches, etag, table, r).0 == caches
  {
    hide TableAt, ChooseSite, SiteAt, ServeFrom;
  }

  lemma {:induction false} RoutingHeadOk(s: Store, c: Config, caches: Caches, now: int, r: Request)
    requires CachesOk(s, caches) && r.hostname.Some? && r.pathname.Some?
    ensures var (left, next) := Step(s, c, caches, now, r, HeadingRouting); CachesOk(s, left) && AtOk(s, r, next)
  {
    hide SiteCacheOk, PageCacheOk, WithTable, TableAt, GetEntry, DistinctKeys;
    if RoutingCell(s).Some? {
      GetOk(caches.routing, ROUTING_POINTER_KEY, now);
      var (routing, cached) := GetEntry(caches.routing, ROUTING_POINTER_KEY, now);
      if cached.Some? && cached.value.pointerEtag == RoutingCell(s).value.etag {
        WithTableOk(s, caches.(routing := routing), cached.value.pointerEtag, cached.value.table, r);
      }
    }
  }

  lemma {:induction false} TableReadOk(s: Store, c: Config, caches: Caches, now: int, r: Request, etag: ETag, pointer: RoutingPointer)
    requires CachesOk(s, caches) && r.hostname.Some? && r.pathname.Some? && AtOk(s, r, ReadingTable(etag, pointer))
    ensures var (left, next) := Step(s, c, caches, now, r, ReadingTable(etag, pointer)); CachesOk(s, left) && AtOk(s, r, next)
  {
    hide CachesOk, CheckTable;
  }

  lemma {:induction false} TableKeptOk(s: Store, c: Config, caches: Caches, now: int, r: Request, etag: ETag, table: RoutingTable)
    requires CachesOk(s, caches) && r.hostname.Some? && r.pathname.Some? && AtOk(s, r, KeepingTable(etag, table))
    ensures var (left, next) := Step(s, c, caches, now, r, KeepingTable(etag, table)); CachesOk(s, left) && AtOk(s, r, next)
  {
    hide SiteCacheOk, PageCacheOk, WithTable, SetEntry, DistinctKeys, TableAt;
    SetKeeps(caches.routing, ROUTING_POINTER_KEY, RoutingState(table, etag), now + c.ttlMs, 1);
    var left := caches.(routing := SetEntry(caches.routing, ROUTING_POINTER_KEY, RoutingState(table, etag), now + c.ttlMs, 1));
    WithTableOk(s, left, etag, table, r);
  }

  lemma {:induction false} SiteHeadOk(
    s: Store, c: Config, caches: Caches, now: int, r: Request, etag: ETag, siteId: string, domain: string)
    requires CachesOk(s, caches) && Routed(s, r, etag, siteId, domain)
    ensures var (left, next) := Step(s, c, caches, now, r, HeadingSite(etag, siteId, domain));
      CachesOk(s, left) && AtOk(s, r, next)
  {
    hide RoutingCacheOk, WithSite, SiteAt, TableAt, ChooseSite, GetEntry, DistinctKeys, PageValid, StartsWith, IsIdentifier, IsRouteIndex, CheckManifest, CheckRoutes, Invalidate;
    if SiteCell(s, siteId).Some? {
      GetOk(caches.site, siteId, now);
      var (site, cached) := GetEntry(caches.site, siteId, now);
      var head := SiteCell(s, siteId).value;
      if cached.Some? && cached.value.pointerEtag == head.etag && cached.value.routes.canonicalDomain == domain {
        SiteAtFacts(s, siteId, domain, head.etag);
      } else {
        var ours := (key: string) => key == siteId;
        var pages := (key: string) => StartsWith(key, SitePrefix(siteId));
        InvalidateMembers(site, ours);
        InvalidateDistinct(site, ours);
        InvalidateMembers(caches.page, pages);
        InvalidateDistinct(caches.page, pages);
      }
    }
  }

  lemma {:induction false} RoutesReadOk(s: Store, c: Config, caches: Caches, now: int, r: Request, at: At)
    requires CachesOk(s, caches) && at.ReadingRoutes? && AtOk(s, r, at)
    ensures var (left, next) := Step(s, c, caches, now, r, at); CachesOk(s, left) && AtOk(s, r, next)
  {
    hide CachesOk, TableAt, ChooseSite, CheckManifest, CheckRoutes, ContentAt;
    var found := CheckRoutes(ArtifactAt(s, at.pointer, ROUTES_PATH), at.manifest, at.canonicalDomain);
    if found.Ok? {
      var state := SiteState(at.manifest, at.pointer, at.siteEtag, found.value);
      assert SiteAt(s, at.siteId, at.canonicalDomain, at.siteEtag) == Ok(state) by { CheckedPointer(at.pointer, at.siteId); }
      hide SiteAt;
      SiteAtFacts(s, at.siteId, at.canonicalDomain, at.siteEtag);
    }
  }

  lemma {:induction false} SiteKeptOk(s: Store, c: Config, caches: Caches, now: int, r: Request, at: At)
    requires CachesOk(s, caches) && at.KeepingSite? && AtOk(s, r, at)
    ensures var (left, next) := Step(s, c, caches, now, r, at); CachesOk(s, left) && AtOk(s, r, next)
  {
    hide RoutingCacheOk, PageCacheOk, TableAt, ChooseSite, DistinctKeys, SetEntry, SiteAt, IsRouteIndex, IsIdentifier, CheckManifest, CheckRoutes;
    SiteAtFacts(s, at.siteId, at.canonicalDomain, at.state.pointerEtag);
    SetKeeps(caches.site, at.siteId, at.state, now + c.ttlMs, c.maxEntries);
  }

  lemma {:induction false} PageReadOk(s: Store, c: Config, caches: Caches, now: int, r: Request, at: At)
    requires CachesOk(s, caches) && at.ReadingPage? && AtOk(s, r, at)
    ensures var (left, next) := Step(s, c, caches, now, r, at); CachesOk(s, left) && AtOk(s, r, next)
  {
    hide CachesOk, SiteAt, TableAt, ChooseSite, PlanRequest, PageAt, Uncached, FindRoute, HadNoRoute;
    MissingHasNoRoute(at.state, r.pathname.value);
    if at.missing {
      NoRoute(s, r, at.routingEtag, at.canonicalDomain, at.state);
    }
  }

  lemma {:induction false} PageKeptOk(s: Store, c: Config, caches: Caches, now: int, r: Request, at: At)
    requires CachesOk(s, caches) && at.KeepingPage? && AtOk(s, r, at)
    ensures var (left, next) := Step(s, c, caches, now, r, at); CachesOk(s, left) && AtOk(s, r, next)
  {
    hide RoutingCacheOk, SiteCacheOk, SiteAt, TableAt, ChooseSite, DistinctKeys, Finish, PlanRequest, PageKey, SetEntry, PageAt, Uncached, Succeeds, FindRoute, HadNoRoute, IsRouteIndex, IsIdentifier, CheckManifest, CheckRoutes;
    var state := at.state;
    AnswerAgrees(s, r, at.routingEtag, at.canonicalDomain, state);
    LoadsRoute(state, r.pathname.value);
    SiteAtFacts(s, state.pointer.siteId, at.canonicalDomain, state.pointerEtag);
    MissingHasNoRoute(state, r.pathname.value);
    if at.missing {
      NoRoute(s, r, at.routingEtag, at.canonicalDomain, state);
    } else {
      FoundNotRejected(state.pointer, at.route, at.document);
    }
    var key := PageKey(state.pointer.siteId, state.pointer.releaseId, at.route.pathname);
    assert PageFrom(s, key, at.document, state, at.route);
    SetKeeps(caches.page, key, at.document, now + c.ttlMs, c.maxEntries);
  }

  // ---------- every history ----------

  datatype World = World(store: Store, caches: Caches, requests: seq<(Request, At)>)

  /** The store moves to any later state, a request arrives, one continues, or its read throws. */
  datatype Event = Write(later: Store) | Arrive(request: Request) | Continue(index: nat, now: int) | Throw(index: nat)

  function Apply(c: Config, w: World, e: Event): World {
    match e
    case Write(later) => w.(store := later)
    case Arrive(request) => w.(requests := w.requests + [(request, Arriving)])
    case Continue(k, now) =>
      if k >= |w.requests| then w
      else
        var (caches, next) := Step(w.store, c, w.caches, now, w.requests[k].0, w.requests[k].1);
        World(w.store, caches, w.requests[k := (w.requests[k].0, next)])
    case Throw(k) =>
      if k >= |w.requests| then w
      else w.(requests := w.requests[k := (w.requests[k].0, StoreThrows(w.requests[k].0, w.requests[k].1))])
  }

  ghost predicate Lawful(s: Store) {
    EtagsAgree(s.routing) && forall siteId :: EtagsAgree(SiteHistory(s, siteId))
  }

  ghost predicate CanHappen(w: World, e: Event) {
    e.Write? ==> Grows(w.store, e.later) && Lawful(e.later)
  }

  ghost predicate Possible(c: Config, w: World, events: seq<Event>)
    decreases |events|
  {
    events != [] ==> CanHappen(w, events[0]) && Possible(c, Apply(c, w, events[0]), events[1..])
  }

  function After(c: Config, w: World, events: seq<Event>): World
    decreases |events|
  {
    if events == [] then w else After(c, Apply(c, w, events[0]), events[1..])
  }

  ghost predicate Inv(w: World) {
    && Lawful(w.store) && CachesOk(w.store, w.caches)
    && forall k :: 0 <= k < |w.requests| ==> AtOk(w.store, w.requests[k].0, w.requests[k].1)
  }

  lemma {:induction false} ApplyOk(c: Config, w: World, e: Event)
    requires Inv(w) && CanHappen(w, e)
    ensures Inv(Apply(c, w, e))
  {
    hide CachesOk, AtOk, Step, Grows, EtagsAgree;
    match e
    case Write(later) =>
      CachesStay(w.store, later, w.caches);
      forall k | 0 <= k < |w.requests| ensures AtOk(later, w.requests[k].0, w.requests[k].1) {
        AtStays(w.store, later, w.requests[k].0, w.requests[k].1);
      }
    case Arrive(request) => ArrivingOk(w.store, request);
    case Continue(k, now) =>
      if k < |w.requests| {
        StepOk(w.store, c, w.caches, now, w.requests[k].0, w.requests[k].1);
      }
    case Throw(k) =>
      if k < |w.requests| {
        ThrowOk(w.store, w.requests[k].0, w.requests[k].1);
      }
  }

  lemma ArrivingOk(s: Store, r: Request)
    ensures AtOk(s, r, Arriving)
  {
  }

  lemma {:induction false} ThrowOk(s: Store, r: Request, at: At)
    requires AtOk(s, r, at)
    ensures AtOk(s, r, StoreThrows(r, at))
  {
    hide Uncached, SiteAt, TableAt, ChooseSite, PlanRequest, FindRoute, HadNoRoute, PageAt;
    if LoadsMissing(at) {
      MissingHasNoRoute(at.state, r.pathname.value);
      NoRoute(s, r, at.routingEtag, at.canonicalDomain, at.state);
    }
  }

  lemma {:induction false} RunOk(c: Config, w: World, events: seq<Event>)
    requires Inv(w) && Possible(c, w, events)
    ensures Inv(After(c, w, events))
    decreases |events|
  {
    hide Inv, CanHappen, Apply;
    if events != [] {
      ApplyOk(c, w, events[0]);
      RunOk(c, Apply(c, w, events[0]), events[1..]);
    }
  }

  /**
   After any history that began with empty caches, a request that was answered with success was
   answered as the resolver without caches answers for the pointers it saw; and the page it got is
   an object of the one release that the answer names.
   */
  lemma {:induction false} CachesAgree(c: Config, start: Store, events: seq<Event>, k: nat)
    requires Lawful(start) && Possible(c, World(start, NO_CACHES, []), events)
    requires k < |After(c, World(start, NO_CACHES, []), events).requests|
    ensures var w := After(c, World(start, NO_CACHES, []), events);
      var (r, at) := w.requests[k];
      at.Resolved? && Succeeds(at.outcome) && r.hostname.Some? ==>
        && r.pathname.Some? && at.seenRouting.Some? && (at.outcome.UnknownHost? || at.seenSite.Some?)
        && (forall e: ETag :: at.seenSite.None? || at.seenSite == Some(e) ==>
              Uncached(w.store, at.seenRouting.value, e, r.hostname.value, r.pathname.value) == at.outcome)
        && (DocumentOf(at.outcome).Some? ==>
              BelongsTo(w.store, at.outcome.siteId, at.outcome.releaseId, DocumentOf(at.outcome).value))
  {
    hide Possible, After, CachesOk, Uncached, BelongsTo, Lawful;
    var first := World(start, NO_CACHES, []);
    assert Inv(first) by { StartOk(start); }
    RunOk(c, first, events);
    var w := After(c, first, events);
    var (r, at) := w.requests[k];
    assert AtOk(w.store, r, at);
    if at.Resolved? && Succeeds(at.outcome) && r.hostname.Some? && DocumentOf(at.outcome).Some? {
      UncachedBelongs(w.store, at.seenRouting.value, at.seenSite.value, r.hostname.value, r.pathname.value);
    }
  }

  lemma StartOk(s: Store)
    ensures CachesOk(s, NO_CACHES)
  {
  }
}
