/** A request that is not interrupted: all of its reads see one store. */
module ResolveRuns {
  import opened Wrappers
  import opened Documents
  import opened ReleasePlans
  import opened ReleaseStore
  import opened LruCache
  import opened Runtime
  import opened RuntimeSteps
  import opened Text
  import CacheAgreement

  // ---------- a request by itself ----------

  function Rank(at: At): nat {
    match at
    case Arriving => 13
    case HeadingRouting => 12
    case ReadingRouting(_) => 11
    case ReadingTable(_, _) => 10
    case KeepingTable(_, _) => 9
    case HeadingSite(_, _, _) => 8
    case ReadingPointer(_, _, _, _) => 7
    case ReadingManifest(_, _, _, _, _) => 6
    case ReadingRoutes(_, _, _, _, _, _) => 5
    case KeepingSite(_, _, _, _) => 4
    case HavingSite(_, _, _) => 3
    case ReadingPage(_, _, _, _, _) => 2
    case KeepingPage(_, _, _, _, _, _) => 1
    case Resolved(_, _, _) => 0
  }

  lemma {:induction false} StepAdvances(s: Store, c: Config, caches: Caches, now: int, r: Request, at: At)
    requires !at.Resolved?
    ensures Rank(Step(s, c, caches, now, r, at).1) < Rank(at)
  {
    hide CheckTable, CheckPointer, CheckManifest, CheckRoutes, PageAt, GetEntry, SetEntry, Invalidate, ChooseSite, PlanRequest;
  }

  function RunRequest(s: Store, c: Config, caches: Caches, now: int, r: Request, at: At): (Caches, At)
    decreases Rank(at)
  {
    if at.Resolved? then (caches, at)
    else
      var (left, next) := Step(s, c, caches, now, r, at);
      StepAdvances(s, c, caches, now, r, at);
      RunRequest(s, c, left, now, r, next)
  }

  lemma LastStep(s: Store, c: Config, caches: Caches, now: int, r: Request, at: At)
    requires !at.Resolved? && Step(s, c, caches, now, r, at).1.Resolved?
    ensures RunRequest(s, c, caches, now, r, at) == Step(s, c, caches, now, r, at)
  {
  }

  function Etag<P>(cell: Option<Cell<P>>): ETag {
    if cell.Some? then cell.value.etag else 0
  }

  /** What the store says now, without caches. */
  function Now(s: Store, r: Request): Outcome {
    if r.hostname.None? then UnknownHost
    else if r.pathname.None? then Unavailable(RequestInvalid)
    else
      var routingEtag := Etag(RoutingCell(s));
      var choice := if TableAt(s, routingEtag).Ok? then ChooseSite(TableAt(s, routingEtag).value, r.hostname.value) else Nobody;
      var siteEtag := if choice.Site? then Etag(SiteCell(s, choice.siteId)) else 0;
      Uncached(s, routingEtag, siteEtag, r.hostname.value, r.pathname.value)
  }

  ghost predicate SeesCurrent(s: Store, etag: ETag, state: SiteState) {
    && RoutingCell(s).Some? && etag == RoutingCell(s).value.etag
    && SiteCell(s, state.pointer.siteId).Some? && state.pointerEtag == SiteCell(s, state.pointer.siteId).value.etag
  }

  /** The request has seen the current pointers, and if it is answered, the answer is the current one. */
  ghost predicate Exact(s: Store, r: Request, at: At) {
    CacheAgreement.AtOk(s, r, at) &&
    match at
    case Arriving => true
    case HeadingRouting => true
    case ReadingRouting(etag) => RoutingCell(s).Some? && etag == RoutingCell(s).value.etag
    case ReadingTable(etag, _) => RoutingCell(s).Some? && etag == RoutingCell(s).value.etag
    case KeepingTable(etag, _) => RoutingCell(s).Some? && etag == RoutingCell(s).value.etag
    case HeadingSite(etag, _, _) => RoutingCell(s).Some? && etag == RoutingCell(s).value.etag
    case KeepingSite(etag, _, _, state) => SeesCurrent(s, etag, state)
    case HavingSite(etag, _, state) => SeesCurrent(s, etag, state)
    case ReadingPage(etag, _, state, _, _) => SeesCurrent(s, etag, state)
    case KeepingPage(etag, _, state, _, _, _) => SeesCurrent(s, etag, state)
    case Resolved(_, _, outcome) => outcome == Now(s, r)
    case _ =>
      && RoutingCell(s).Some? && at.routingEtag == RoutingCell(s).value.etag
      && SiteCell(s, at.siteId).Some? && at.siteEtag == SiteCell(s, at.siteId).value.etag
  }

  /** Once the site is chosen, the answer is the answer of its current release. */
  lemma {:induction false} NowFromSite(s: Store, r: Request, etag: ETag, siteId: string, domain: string)
    requires CacheAgreement.Routed(s, r, etag, siteId, domain) && etag == Etag(RoutingCell(s))
    ensures Now(s, r) == match SiteAt(s, siteId, domain, Etag(SiteCell(s, siteId)))
                         case Err(code) => Unavailable(code)
                         case Ok(state) => ServeFrom(s, state, r.pathname.value)
  {
    hide TableAt, SiteAt, ServeFrom, ChooseSite, SiteCell, RoutingCell;
  }

  lemma {:induction false} NowFromTable(s: Store, r: Request, etag: ETag, table: RoutingTable)
    requires r.hostname.Some? && r.pathname.Some? && TableAt(s, etag) == Ok(table) && etag == Etag(RoutingCell(s))
    ensures match ChooseSite(table, r.hostname.value)
            case Nobody => Now(s, r) == UnknownHost
            case Failure(code) => Now(s, r) == Unavailable(code)
            case Site(siteId, domain) => CacheAgreement.Routed(s, r, etag, siteId, domain)
  {
    hide TableAt, SiteAt, ServeFrom, ChooseSite, SiteCell, RoutingCell;
  }

  lemma {:induction false} WithTableExact(s: Store, caches: Caches, table: RoutingTable, r: Request)
    requires r.hostname.Some? && r.pathname.Some? && RoutingCell(s).Some?
    requires TableAt(s, RoutingCell(s).value.etag) == Ok(table)
    ensures Exact(s, r, WithTable(caches, RoutingCell(s).value.etag, table, r).1)
  {
    hide TableAt, ChooseSite, Now, SiteCell, RoutingCell, Uncached;
    NowFromTable(s, r, RoutingCell(s).value.etag, table);
    CacheAgreement.WithTableOk(s, caches, RoutingCell(s).value.etag, table, r);
  }

  lemma {:induction false} WithSiteExact(
    s: Store, c: Config, caches: Caches, now: int, domain: string, state: SiteState, r: Request)
    requires CacheAgreement.CachesOk(s, caches) && RoutingCell(s).Some? && SeesCurrent(s, RoutingCell(s).value.etag, state)
    requires CacheAgreement.Loaded(s, r, RoutingCell(s).value.etag, domain, state)
    ensures var (left, at) := WithSite(c, caches, now, RoutingCell(s).value.etag, domain, state, r);
      CacheAgreement.CachesOk(s, left) && Exact(s, r, at)
  {
    hide CacheAgreement.CachesOk, TableAt, SiteAt, ChooseSite, Now, SiteCell, RoutingCell, Uncached, PageAt, PlanRequest, Finish, GetEntry, PageKey;
    var etag := RoutingCell(s).value.etag;
    CacheAgreement.WithSiteOk(s, c, caches, now, etag, domain, state, r);
    NowFromSite(s, r, etag, state.pointer.siteId, domain);
    CachedPageExact(s, caches, now, domain, state, r);
  }

  /** A page found in the cache is the page in the store. */
  lemma {:induction false} CachedPageExact(s: Store, caches: Caches, now: int, domain: string, state: SiteState, r: Request)
    requires CacheAgreement.CachesOk(s, caches) && r.pathname.Some?
    requires SiteAt(s, state.pointer.siteId, domain, state.pointerEtag) == Ok(state)
    ensures var reply := PlanRequest(state, r.pathname.value);
      reply.Load? ==>
        var cached := GetEntry(caches.page, PageKey(state.pointer.siteId, state.pointer.releaseId, reply.route.pathname), now).1;
        cached.Some? ==> PageAt(s, state, reply.route) == Ok(cached.value)
  {
    hide SiteAt, PlanRequest, PageAt, GetEntry, PageKey, DistinctKeys, CacheAgreement.PageValid, IsRouteIndex, IsIdentifier, CheckManifest, CheckRoutes;
    CacheAgreement.SiteAtFacts(s, state.pointer.siteId, domain, state.pointerEtag);
    CacheAgreement.LoadsRoute(state, r.pathname.value);
    match PlanRequest(state, r.pathname.value)
    case Answer(_) =>
    case Load(route, missing) =>
      var key := PageKey(state.pointer.siteId, state.pointer.releaseId, route.pathname);
      CacheAgreement.GetOk(caches.page, key, now);
      var cached := GetEntry(caches.page, key, now).1;
      if cached.Some? {
        CacheAgreement.CachedPage(s, state, route, cached.value);
      }
  }

  lemma {:induction false} StepExact(s: Store, c: Config, caches: Caches, now: int, r: Request, at: At)
    requires CacheAgreement.Lawful(s) && CacheAgreement.CachesOk(s, caches) && Exact(s, r, at)
    ensures var (left, next) := Step(s, c, caches, now, r, at);
      CacheAgreement.CachesOk(s, left) && Exact(s, r, next)
  {
    hide CacheAgreement.CachesOk, CacheAgreement.Routed, TableAt, SiteAt, ChooseSite, Now, SiteCell, RoutingCell, Uncached, PageAt, PlanRequest, Finish, CheckTable, CheckManifest, CheckRoutes, CheckPointer, GetEntry, SetEntry, Invalidate, WithSite, WithTable, ContentAt, ArtifactAt;
    CacheAgreement.StepOk(s, c, caches, now, r, at);
    if r.hostname.None? || r.pathname.None? {
      NowRefused(s, r);
    } else {
      match at
      case HeadingRouting => RoutingHeadExact(s, c, caches, now, r);
      case ReadingRouting(_) =>
      case ReadingTable(etag, pointer) => TableReadExact(s, c, caches, now, r, at);
      case KeepingTable(etag, table) =>
        WithTableExact(s, caches.(routing := SetEntry(caches.routing, ROUTING_POINTER_KEY, RoutingState(table, etag), now + c.ttlMs, 1)), table, r);
      case HeadingSite(_, _, _) => SiteHeadExact(s, c, caches, now, r, at);
      case ReadingPointer(_, _, _, _) => PointerReadExact(s, c, caches, now, r, at);
      case ReadingManifest(_, _, _, _, _) => ManifestReadExact(s, c, caches, now, r, at);
      case ReadingRoutes(_, _, _, _, _, _) => RoutesReadExact(s, c, caches, now, r, at);
      case HavingSite(etag, domain, state) => WithSiteExact(s, c, caches, now, domain, state, r);
      case ReadingPage(_, _, _, _, _) => PageReadExact(s, c, caches, now, r, at);
      case KeepingPage(_, _, _, _, _, _) => PageKeptExact(s, c, caches, now, r, at);
      case _ =>
    }
  }

  lemma NowRefused(s: Store, r: Request)
    ensures r.hostname.None? ==> Now(s, r) == UnknownHost
    ensures r.hostname.Some? && r.pathname.None? ==> Now(s, r) == Unavailable(RequestInvalid)
  {
    hide Uncached, TableAt, ChooseSite;
  }

  lemma {:induction false} RoutingHeadExact(s: Store, c: Config, caches: Caches, now: int, r: Request)
    requires CacheAgreement.CachesOk(s, caches) && r.hostname.Some? && r.pathname.Some?
    ensures Exact(s, r, Step(s, c, caches, now, r, HeadingRouting).1)
  {
    hide CacheAgreement.SiteCacheOk, CacheAgreement.PageCacheOk, CheckTable, SiteAt, ChooseSite, GetEntry, DistinctKeys, ServeFrom, WithTable, TableAt, Now;
    if RoutingCell(s).None? {
      NoRouting(s, r);
    } else {
      CacheAgreement.GetOk(caches.routing, ROUTING_POINTER_KEY, now);
      var (routing, cached) := GetEntry(caches.routing, ROUTING_POINTER_KEY, now);
      if cached.Some? && cached.value.pointerEtag == RoutingCell(s).value.etag {
        WithTableExact(s, caches.(routing := routing), cached.value.table, r);
      }
    }
  }

  lemma NoRouting(s: Store, r: Request)
    requires RoutingCell(s).None? && r.hostname.Some? && r.pathname.Some?
    ensures Now(s, r) == Unavailable(RoutingInvalid)
  {
  }

  lemma {:induction false} TableReadExact(s: Store, c: Config, caches: Caches, now: int, r: Request, at: At)
    requires at.ReadingTable? && Exact(s, r, at) && r.hostname.Some? && r.pathname.Some?
    ensures Exact(s, r, Step(s, c, caches, now, r, at).1)
  {
    hide ChooseSite, SiteAt, ServeFrom, CheckTable, RoutingCell;
    var found := CheckTable(Read(s, RoutingKey(at.routing.routingId)), at.routing);
    assert TableAt(s, at.routingEtag) == found;
  }

  lemma {:induction false} SiteHeadExact(s: Store, c: Config, caches: Caches, now: int, r: Request, at: At)
    requires CacheAgreement.CachesOk(s, caches) && at.HeadingSite? && Exact(s, r, at) && r.hostname.Some? && r.pathname.Some?
    requires CacheAgreement.AtOk(s, r, Step(s, c, caches, now, r, at).1)
    ensures Exact(s, r, Step(s, c, caches, now, r, at).1)
  {
    hide CacheAgreement.RoutingCacheOk, CacheAgreement.PageCacheOk, WithSite, TableAt, ChooseSite, GetEntry, DistinctKeys, Invalidate, RoutingCell, Now, IsIdentifier, IsRouteIndex, CheckManifest, CheckRoutes, ServeFrom, StartsWith;
    NowFromSite(s, r, at.routingEtag, at.siteId, at.canonicalDomain);
    if SiteCell(s, at.siteId).Some? {
      hide SiteAt, SiteCell;
      CacheAgreement.GetOk(caches.site, at.siteId, now);
      var (site, cached) := GetEntry(caches.site, at.siteId, now);
      var head := SiteCell(s, at.siteId).value;
      if cached.Some? && cached.value.pointerEtag == head.etag && cached.value.routes.canonicalDomain == at.canonicalDomain {
        CacheAgreement.SiteAtFacts(s, at.siteId, at.canonicalDomain, head.etag);
      }
    }
  }

  lemma {:induction false} PointerReadExact(s: Store, c: Config, caches: Caches, now: int, r: Request, at: At)
    requires CacheAgreement.Lawful(s) && at.ReadingPointer? && Exact(s, r, at) && r.hostname.Some? && r.pathname.Some?
    requires CacheAgreement.AtOk(s, r, Step(s, c, caches, now, r, at).1)
    ensures Exact(s, r, Step(s, c, caches, now, r, at).1)
  {
    hide TableAt, ChooseSite, Now, RoutingCell, CheckManifest, CheckRoutes, ServeFrom, CheckPointer;
    NowFromSite(s, r, at.routingEtag, at.siteId, at.canonicalDomain);
    assert EtagsAgree(SiteHistory(s, at.siteId));
    ContentIs(SiteHistory(s, at.siteId), SiteCell(s, at.siteId).value);
  }

  lemma {:induction false} ManifestReadExact(s: Store, c: Config, caches: Caches, now: int, r: Request, at: At)
    requires at.ReadingManifest? && Exact(s, r, at) && r.hostname.Some? && r.pathname.Some?
    requires CacheAgreement.AtOk(s, r, Step(s, c, caches, now, r, at).1)
    ensures Exact(s, r, Step(s, c, caches, now, r, at).1)
  {
    hide TableAt, ChooseSite, Now, RoutingCell, SiteCell, CheckManifest, CheckRoutes, ServeFrom, CheckPointer, SiteHistory, ArtifactAt;
    NowFromSite(s, r, at.routingEtag, at.siteId, at.canonicalDomain);
    CacheAgreement.CheckedPointer(at.pointer, at.siteId);
  }

  lemma {:induction false} RoutesReadExact(s: Store, c: Config, caches: Caches, now: int, r: Request, at: At)
    requires CacheAgreement.CachesOk(s, caches) && at.ReadingRoutes? && Exact(s, r, at)
    ensures Exact(s, r, Step(s, c, caches, now, r, at).1)
  {
    hide TableAt, ChooseSite, Now, RoutingCell, SiteCell, CheckManifest, CheckRoutes, ServeFrom, CheckPointer, SiteHistory, ArtifactAt, ContentAt, WithSite, SetEntry, DistinctKeys, CacheAgreement.RoutingCacheOk, CacheAgreement.PageCacheOk;
    NowFromSite(s, r, at.routingEtag, at.siteId, at.canonicalDomain);
    CacheAgreement.CheckedPointer(at.pointer, at.siteId);
    var found := CheckRoutes(ArtifactAt(s, at.pointer, ROUTES_PATH), at.manifest, at.canonicalDomain);
    if found.Ok? {
      var state := SiteState(at.manifest, at.pointer, at.siteEtag, found.value);
      assert SiteAt(s, at.siteId, at.canonicalDomain, at.siteEtag) == Ok(state);
      hide SiteAt;
      CacheAgreement.SiteAtFacts(s, at.siteId, at.canonicalDomain, at.siteEtag);
    } else {
      assert SiteAt(s, at.siteId, at.canonicalDomain, at.siteEtag) == Err(found.error);
    }
  }

  lemma {:induction false} PageReadExact(s: Store, c: Config, caches: Caches, now: int, r: Request, at: At)
    requires at.ReadingPage? && Exact(s, r, at) && CacheAgreement.AtOk(s, r, Step(s, c, caches, now, r, at).1)
    ensures Exact(s, r, Step(s, c, caches, now, r, at).1)
  {
    hide TableAt, SiteAt, ChooseSite, Now, RoutingCell, SiteCell, PageAt, Finish, PlanRequest, SetEntry, PageKey, Uncached, Succeeds;
    NowFromSite(s, r, at.routingEtag, at.state.pointer.siteId, at.canonicalDomain);
    CacheAgreement.AnswerAgrees(s, r, at.routingEtag, at.canonicalDomain, at.state);
  }

  lemma {:induction false} PageKeptExact(s: Store, c: Config, caches: Caches, now: int, r: Request, at: At)
    requires at.KeepingPage? && Exact(s, r, at) && CacheAgreement.AtOk(s, r, Step(s, c, caches, now, r, at).1)
    ensures Exact(s, r, Step(s, c, caches, now, r, at).1)
  {
    hide TableAt, SiteAt, ChooseSite, Now, RoutingCell, SiteCell, PageAt, Finish, PlanRequest, SetEntry, PageKey, Uncached, Succeeds;
    NowFromSite(s, r, at.routingEtag, at.state.pointer.siteId, at.canonicalDomain);
  }

  lemma {:induction false} RunExact(s: Store, c: Config, caches: Caches, now: int, r: Request, at: At)
    requires CacheAgreement.Lawful(s) && CacheAgreement.CachesOk(s, caches) && Exact(s, r, at)
    ensures var (left, end) := RunRequest(s, c, caches, now, r, at);
      CacheAgreement.CachesOk(s, left) && end.Resolved? && end.outcome == Now(s, r)
    decreases Rank(at)
  {
    hide CacheAgreement.Lawful, CacheAgreement.CachesOk, Step, Now, CacheAgreement.AtOk;
    if !at.Resolved? {
      StepAdvances(s, c, caches, now, r, at);
      StepExact(s, c, caches, now, r, at);
      var (left, next) := Step(s, c, caches, now, r, at);
      RunExact(s, c, left, now, r, next);
    }
  }

  /** Not interrupted, every answer, failures included, is the one without caches. */
  lemma {:induction false} UninterruptedResolve(s: Store, c: Config, caches: Caches, now: int, r: Request)
    requires CacheAgreement.Lawful(s) && CacheAgreement.CachesOk(s, caches)
    ensures var (left, end) := RunRequest(s, c, caches, now, r, Arriving);
      CacheAgreement.CachesOk(s, left) && end.Resolved? && end.outcome == Now(s, r)
  {
    hide CacheAgreement.Lawful, CacheAgreement.CachesOk, RunRequest, Now;
    assert Exact(s, r, Arriving);
    RunExact(s, c, caches, now, r, Arriving);
  }
}
