/**
 Requests that end in a rejection instead of a 503: resolve returns the promise of notFound without
 awaiting it, so what fails while the not-found page is loaded passes by its handler.
 */
module Rejections {
  import opened Wrappers
  import opened Documents
  import opened ReleasePlans
  import opened ReleaseStore
  import opened LruCache
  import opened Runtime
  import opened RuntimeSteps
  import opened ResolveRuns
  import CacheAgreement

  // ---------- exactly when ----------

  /** The not-found page of a release cannot be had: its object fails a check, or is another page. */
  predicate NotFoundFails(s: Store, state: SiteState) {
    match FindNotFound(state.routes.routes)
    case None => true
    case Some(route) => PageAt(s, state, route).Err? || PageAt(s, state, route).value.pageType != "not-found"
  }

  lemma {:induction false} ServeRejects(s: Store, state: SiteState, pathname: string)
    ensures ServeFrom(s, state, pathname).Rejected?
       <==> FindRoute(state.routes.routes, pathname).None? && NotFoundFails(s, state)
  {
    hide FindRoute, FindNotFound, PageAt;
  }

  /** A release that loads has a not-found route. */
  lemma {:induction false} LoadedHasNotFound(s: Store, siteId: string, domain: string, etag: ETag)
    requires SiteAt(s, siteId, domain, etag).Ok?
    ensures FindNotFound(SiteAt(s, siteId, domain, etag).value.routes.routes).Some?
  {
    hide SiteAt, FindNotFound, IsIdentifier, CheckManifest, CheckRoutes;
    CacheAgreement.SiteAtFacts(s, siteId, domain, etag);
    var routes := SiteAt(s, siteId, domain, etag).value.routes.routes;
    var i :| 0 <= i < |routes| && routes[i].status.NotFound?;
    HasNotFound(routes, i);
  }

  lemma {:induction false} HasNotFound(routes: seq<Route>, i: nat)
    requires i < |routes| && routes[i].status.NotFound?
    ensures FindNotFound(routes).Some?
  {
    if !routes[0].status.NotFound? {
      HasNotFound(routes[1..], i - 1);
    }
  }

  /** The site, the domain and the release that a request is answered from now, if it comes that far. */
  function StateNow(s: Store, r: Request): Option<SiteState> {
    if r.hostname.None? || r.pathname.None? then None
    else match TableAt(s, Etag(RoutingCell(s)))
      case Err(_) => None
      case Ok(table) =>
        match ChooseSite(table, r.hostname.value)
        case Site(siteId, domain) =>
          (match SiteAt(s, siteId, domain, Etag(SiteCell(s, siteId)))
           case Err(_) => None
           case Ok(state) => Some(state))
        case _ => None
  }

  /**
   The answer without caches is a rejection exactly when the site's release loads, has no route at the
   pathname, and its not-found page cannot be had.
   */
  lemma {:induction false} RejectedExact(s: Store, r: Request)
    ensures Now(s, r).Rejected? <==>
      var state := StateNow(s, r);
      state.Some? && FindRoute(state.value.routes.routes, r.pathname.value).None? && NotFoundFails(s, state.value)
    ensures StateNow(s, r).Some? ==> FindNotFound(StateNow(s, r).value.routes.routes).Some?
  {
    hide TableAt, SiteAt, ServeFrom, FindRoute, FindNotFound, NotFoundFails, RoutingCell, SiteCell;
    if r.hostname.Some? && r.pathname.Some? && TableAt(s, Etag(RoutingCell(s))).Ok? {
      var choice := ChooseSite(TableAt(s, Etag(RoutingCell(s))).value, r.hostname.value);
      if choice.Site? {
        var state := SiteAt(s, choice.siteId, choice.canonicalDomain, Etag(SiteCell(s, choice.siteId)));
        if state.Ok? {
          ServeRejects(s, state.value, r.pathname.value);
          LoadedHasNotFound(s, choice.siteId, choice.canonicalDomain, Etag(SiteCell(s, choice.siteId)));
        }
      }
    }
  }

  /** The same of an uninterrupted request, through any sound caches. */
  lemma {:induction false} RunRejects(s: Store, c: Config, caches: Caches, now: int, r: Request)
    requires CacheAgreement.Lawful(s) && CacheAgreement.CachesOk(s, caches)
    ensures var end := RunRequest(s, c, caches, now, r, Arriving).1;
      end.Resolved? && (end.outcome.Rejected? <==>
        var state := StateNow(s, r);
        state.Some? && FindRoute(state.value.routes.routes, r.pathname.value).None? && NotFoundFails(s, state.value))
  {
    hide CacheAgreement.Lawful, CacheAgreement.CachesOk, RunRequest, Now, StateNow, NotFoundFails, FindRoute;
    UninterruptedResolve(s, c, caches, now, r);
    RejectedExact(s, r);
  }

  // ---------- interrupted requests ----------

  /** A read or a digest that throws rejects the request exactly while it loads the page of a missing route. */
  lemma ThrowRejects(r: Request, at: At)
    requires !at.Resolved?
    ensures StoreThrows(r, at).Resolved? && StoreThrows(r, at).outcome.Rejected? <==> LoadsMissing(at)
  {
  }

  ghost predicate RejectsNow(s: Store, caches: Caches, now: int, r: Request, at: At)
    requires r.pathname.Some?
  {
    match at
    case HavingSite(_, _, state) =>
      var reply := PlanRequest(state, r.pathname.value);
      if reply.Answer? then reply.outcome.Rejected?
      else
        var key := PageKey(state.pointer.siteId, state.pointer.releaseId, reply.route.pathname);
        var cached := GetEntry(caches.page, key, now).1;
        reply.missing && cached.Some? && cached.value.pageType != "not-found"
    case ReadingPage(_, _, state, route, missing) => missing && PageAt(s, state, route).Err?
    case KeepingPage(_, _, _, _, missing, document) => missing && document.pageType != "not-found"
    case _ => false
  }

  /** A step that does not throw rejects exactly where the not-found page turns out not to be one. */
  lemma {:induction false} StepRejects(s: Store, c: Config, caches: Caches, now: int, r: Request, at: At)
    requires r.hostname.Some? && r.pathname.Some? && !at.Resolved?
    ensures var next := Step(s, c, caches, now, r, at).1;
      next.Resolved? && next.outcome.Rejected? <==> RejectsNow(s, caches, now, r, at)
  {
    hide TableAt, ChooseSite, CheckTable, CheckPointer, CheckManifest, CheckRoutes, CheckPage, GetEntry, SetEntry, Invalidate, FindRoute,
      FindNotFound, PageKey;
    ChoiceIsNoAnswer(r);
  }

  lemma ChoiceIsNoAnswer(r: Request)
    ensures forall code :: !Refused(code).outcome.Rejected?
  {
  }

  /**
   In every history, a rejected request had a hostname of a site and a pathname for which some release
   of the site, current when the request looked, had no route.
   */
  lemma {:induction false} RejectedHadNoRoute(c: Config, start: Store, events: seq<CacheAgreement.Event>, k: nat)
    requires CacheAgreement.Lawful(start)
    requires CacheAgreement.Possible(c, CacheAgreement.World(start, NO_CACHES, []), events)
    requires k < |CacheAgreement.After(c, CacheAgreement.World(start, NO_CACHES, []), events).requests|
    ensures var w := CacheAgreement.After(c, CacheAgreement.World(start, NO_CACHES, []), events);
      var (r, at) := w.requests[k];
      at.Resolved? && at.outcome.Rejected? ==> CacheAgreement.HadNoRoute(w.store, r)
  {
    hide CacheAgreement.Possible, CacheAgreement.After, CacheAgreement.CachesOk, CacheAgreement.HadNoRoute, CacheAgreement.Lawful,
      CacheAgreement.Agrees;
    var first := CacheAgreement.World(start, NO_CACHES, []);
    assert CacheAgreement.Inv(first) by { CacheAgreement.StartOk(start); }
    CacheAgreement.RunOk(c, first, events);
    var w := CacheAgreement.After(c, first, events);
    assert CacheAgreement.AtOk(w.store, w.requests[k].0, w.requests[k].1);
  }
}
