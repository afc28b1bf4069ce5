/** Exactly when each change of the URL registry succeeds, and exactly what it changes. */
module UrlEffects {
  import opened Wrappers
  import opened RedirectGraph
  import opened UrlRegistry

  // ---------- what is permitted ----------

  predicate HasReserved(r: Registry, id: string) {
    exists i :: 0 <= i < |r.routes| && r.routes[i].id == id && r.routes[i].state.Reserved?
  }

  predicate HasActive(r: Registry, id: string) {
    exists i :: 0 <= i < |r.routes| && r.routes[i].id == id && r.routes[i].state.Active?
  }

  predicate OwnsActive(r: Registry, id: string, tenantId: string, siteId: string) {
    exists i :: 0 <= i < |r.routes| && r.routes[i].id == id && r.routes[i].state.Active?
                && r.routes[i].tenantId == tenantId && r.routes[i].siteId == siteId
  }

  predicate IsAddress(route: UrlRoute, siteId: string, locale: string, pathname: string) {
    route.siteId == siteId && route.locale == locale && route.pathname == pathname
  }

  /** A normalised address that is not reserved and that no route of the site has, under an unused identifier. */
  predicate IsFree(r: Registry, id: string, siteId: string, locale: Option<string>, pathname: Option<string>) {
    && locale.Some? && pathname.Some? && pathname.value !in r.reservedPathnames
    && forall i :: 0 <= i < |r.routes| ==>
         r.routes[i].id != id && !IsAddress(r.routes[i], siteId, locale.value, pathname.value)
  }

  predicate Permitted(norms: Norms, r: Registry, op: Op) {
    r.revision == op.expectedRevision &&
    match op
    case Reserve(_, urlId, _, _, siteId, locale, pathname) =>
      IsFree(r, urlId, siteId, norms.locale(locale), norms.pathname(pathname))
    case Publish(_, urlId, hostname) =>
      HasReserved(r, urlId) && norms.hostname(hostname).Some?
    case Rename(_, sourceUrlId, targetUrlId, tenantId, siteId, locale, pathname, hostname) =>
      && OwnsActive(r, sourceUrlId, tenantId, siteId)
      && IsFree(r, targetUrlId, siteId, norms.locale(locale), norms.pathname(pathname))
      && norms.hostname(hostname).Some?
      && TargetsActive(r.routes) && !IsTarget(r.routes, sourceUrlId)
    case MarkGone(_, urlId) => HasActive(r, urlId)
  }

  // ---------- what it changes ----------

  function WithState(r: Registry, k: nat, state: State): seq<UrlRoute>
    requires k < |r.routes|
  {
    r.routes[k := r.routes[k].(state := state)]
  }

  /** The one route that changes, and how; everything else stays as it was. */
  ghost predicate Changes(norms: Norms, r: Registry, op: Op, next: Registry)
    requires Permitted(norms, r, op)
  {
    next == r.(revision := r.revision + 1, routes := next.routes) &&
    match op
    case Reserve(_, urlId, contentId, tenantId, siteId, locale, pathname) =>
      var address := (norms.locale(locale).value, norms.pathname(pathname).value);
      next.routes == r.routes + [UrlRoute(urlId, UniqueKey(siteId, address.0, address.1), contentId, address.0,
                                          tenantId, siteId, address.1, Reserved)]
    case Publish(_, urlId, hostname) =>
      exists k :: 0 <= k < |r.routes| && r.routes[k].id == urlId && r.routes[k].state.Reserved? &&
        next.routes == WithState(r, k, Active(norms.canonicalUrl(norms.hostname(hostname).value, r.routes[k].pathname)))
    case Rename(_, sourceUrlId, targetUrlId, tenantId, siteId, locale, pathname, hostname) =>
      var address := (norms.locale(locale).value, norms.pathname(pathname).value);
      exists k :: 0 <= k < |r.routes| && r.routes[k].id == sourceUrlId && r.routes[k].state.Active? &&
        next.routes == WithState(r, k, Redirected(targetUrlId))
          + [UrlRoute(targetUrlId, UniqueKey(siteId, address.0, address.1), r.routes[k].contentId, address.0,
                      tenantId, siteId, address.1, Active(norms.canonicalUrl(norms.hostname(hostname).value, address.1)))]
    case MarkGone(_, urlId) =>
      exists k :: 0 <= k < |r.routes| && r.routes[k].id == urlId && r.routes[k].state.Active? &&
        next.routes == WithState(r, k, Gone)
  }

  // ---------- looking routes up ----------

  /** A key is taken exactly by the route at its address. */
  lemma {:induction false} KeyTaken(r: Registry, siteId: string, locale: string, pathname: string)
    requires Inv(r)
    ensures HasKey(r.routes, UniqueKey(siteId, locale, pathname))
       <==> exists i :: 0 <= i < |r.routes| && IsAddress(r.routes[i], siteId, locale, pathname)
  {
    hide UniqueKey, RedirectHolds, DistinctIdsAndKeys;
    if HasKey(r.routes, UniqueKey(siteId, locale, pathname)) {
      var i :| 0 <= i < |r.routes| && r.routes[i].key == UniqueKey(siteId, locale, pathname);
      assert RouteHolds(r, r.routes[i]);
      UniqueKeyInjective(siteId, locale, pathname, r.routes[i].siteId, r.routes[i].locale, r.routes[i].pathname);
      assert IsAddress(r.routes[i], siteId, locale, pathname);
    }
    if i :| 0 <= i < |r.routes| && IsAddress(r.routes[i], siteId, locale, pathname) {
      assert RouteHolds(r, r.routes[i]);
    }
  }

  lemma {:induction false} FreeExact(r: Registry, id: string, siteId: string, locale: string, pathname: string)
    requires Inv(r)
    ensures IsFree(r, id, siteId, Some(locale), Some(pathname))
       <==> pathname !in r.reservedPathnames && FindRoute(r.routes, id).None? && !HasKey(r.routes, UniqueKey(siteId, locale, pathname))
  {
    hide UniqueKey, Inv, FindRoute, HasKey;
    KeyTaken(r, siteId, locale, pathname);
    if FindRoute(r.routes, id).Some? {
      var i :| 0 <= i < |r.routes| && r.routes[i] == FindRoute(r.routes, id).value;
    }
  }

  /** The route found under an identifier is the one that stands there. */
  lemma {:induction false} FoundAt(r: Registry, id: string) returns (k: nat)
    requires DistinctIdsAndKeys(r.routes)
    ensures FindRoute(r.routes, id).Some? ==> k < |r.routes| && r.routes[k] == FindRoute(r.routes, id).value
    ensures forall i :: 0 <= i < |r.routes| && r.routes[i].id == id ==> FindRoute(r.routes, id).Some? && i == k
  {
    hide FindRoute;
    k := 0;
    if FindRoute(r.routes, id).Some? {
      k :| 0 <= k < |r.routes| && r.routes[k] == FindRoute(r.routes, id).value;
    }
  }

  lemma {:induction false} ReplacedAt(r: Registry, k: nat, state: State)
    requires DistinctIdsAndKeys(r.routes) && k < |r.routes|
    ensures Replace(r.routes, r.routes[k].(state := state)) == WithState(r, k, state)
  {
    hide Replace;
    var changed := r.routes[k].(state := state);
    forall i | 0 <= i < |r.routes| ensures Replace(r.routes, changed)[i] == WithState(r, k, state)[i] {
      assert i != k ==> r.routes[i].id != r.routes[k].id;
    }
  }

  // ---------- each operation ----------

  lemma {:induction false} ReserveExact(norms: Norms, r: Registry, op: Op)
    requires Inv(r) && op.Reserve?
    ensures Attempt(norms, r, op).Ok? <==> Permitted(norms, r, op)
    ensures Attempt(norms, r, op).Ok? ==> Changes(norms, r, op, Attempt(norms, r, op).value)
  {
    hide UniqueKey, Inv, FindRoute, HasKey;
    var locale, pathname := norms.locale(op.locale), norms.pathname(op.pathname);
    if locale.Some? && pathname.Some? {
      FreeExact(r, op.urlId, op.siteId, locale.value, pathname.value);
    }
  }

  lemma {:induction false} PublishExact(norms: Norms, r: Registry, op: Op)
    requires Inv(r) && op.Publish?
    ensures Attempt(norms, r, op).Ok? <==> Permitted(norms, r, op)
    ensures Attempt(norms, r, op).Ok? ==> Changes(norms, r, op, Attempt(norms, r, op).value)
  {
    hide UniqueKey, FindRoute, Replace, RouteHolds, RedirectHolds, WithState;
    var k := FoundAt(r, op.urlId);
    if Attempt(norms, r, op).Ok? {
      ReplacedAt(r, k, Active(norms.canonicalUrl(norms.hostname(op.hostname).value, r.routes[k].pathname)));
    }
  }

  lemma {:induction false} MarkGoneExact(norms: Norms, r: Registry, op: Op)
    requires Inv(r) && op.MarkGone?
    ensures Attempt(norms, r, op).Ok? <==> Permitted(norms, r, op)
    ensures Attempt(norms, r, op).Ok? ==> Changes(norms, r, op, Attempt(norms, r, op).value)
  {
    hide UniqueKey, FindRoute, Replace, RouteHolds, RedirectHolds, WithState;
    var k := FoundAt(r, op.urlId);
    if Attempt(norms, r, op).Ok? {
      ReplacedAt(r, k, Gone);
    }
  }

  /** The validator accepts a rename exactly when all redirects led to active routes and none to the source. */
  lemma {:induction false} RenamedGraph(r: Registry, k: nat, target: UrlRoute)
    requires Inv(r) && k < |r.routes| && r.routes[k].state.Active?
    requires FindRoute(r.routes, target.id).None? && !HasKey(r.routes, target.key)
    requires target.state.Active? && SameOwner(r.routes[k], target)
    ensures IsRedirectGraph(WithState(r, k, Redirected(target.id)) + [target])
       <==> TargetsActive(r.routes) && !IsTarget(r.routes, r.routes[k].id)
  {
    hide UniqueKey, FindRoute, RouteHolds;
    var n := |r.routes|;
    var next := WithState(r, k, Redirected(target.id)) + [target];
    assert next[n] == target;
    assert forall i :: 0 <= i < n ==> next[i] == if i == k then r.routes[k].(state := Redirected(target.id)) else r.routes[i];
    if IsRedirectGraph(next) {
      RenamedWasActive(r, k, target, next);
    }
    if TargetsActive(r.routes) && !IsTarget(r.routes, r.routes[k].id) {
      forall i | 0 <= i <= n && next[i].state.Redirected? ensures RedirectsToActive(next, next[i]) {
        if i != k {
          assert RedirectHolds(r.routes, r.routes[i]);
          var j :| 0 <= j < n && r.routes[j].id == r.routes[i].state.targetUrlId && SameOwner(r.routes[i], r.routes[j])
                   && (r.routes[j].state.Active? || r.routes[j].state.Gone?);
          assert r.routes[i].state == Redirected(r.routes[j].id);
          assert j != k && next[j] == r.routes[j];
        }
      }
    }
  }

  lemma {:induction false} RenamedWasActive(r: Registry, k: nat, target: UrlRoute, next: seq<UrlRoute>)
    requires k < |r.routes| && |next| == |r.routes| + 1 && IsRedirectGraph(next)
    requires forall i :: 0 <= i < |r.routes| ==>
      next[i] == if i == k then r.routes[k].(state := Redirected(target.id)) else r.routes[i]
    requires r.routes[k].state.Active?
    ensures TargetsActive(r.routes) && !IsTarget(r.routes, r.routes[k].id)
  {
    hide IsRedirectGraph;
    GraphIsActive(next);
    forall i, j | 0 <= i < |r.routes| && 0 <= j < |r.routes| && r.routes[i].state == Redirected(r.routes[j].id)
      ensures r.routes[j].state.Active? && j != k
    {
      assert next[i].state == Redirected(next[j].id);
      assert next[j].state.Active?;
    }
  }

  lemma {:induction false} RenameExact(norms: Norms, r: Registry, op: Op)
    requires Inv(r) && op.Rename?
    ensures Attempt(norms, r, op).Ok? <==> Permitted(norms, r, op)
    ensures Attempt(norms, r, op).Ok? ==> Changes(norms, r, op, Attempt(norms, r, op).value)
  {
    hide UniqueKey, FindRoute, HasKey, Replace, RouteHolds, RedirectHolds, WithState, GraphProblem, IsRedirectGraph, IsFree, TargetsActive, IsTarget;
    var k := FoundAt(r, op.sourceUrlId);
    var locale, pathname, hostname := norms.locale(op.locale), norms.pathname(op.pathname), norms.hostname(op.hostname);
    if OwnsActive(r, op.sourceUrlId, op.tenantId, op.siteId) && locale.Some? && pathname.Some? && hostname.Some? {
      FreeExact(r, op.targetUrlId, op.siteId, locale.value, pathname.value);
      var next := Renamed(norms, r, op, r.routes[k], locale.value, pathname.value, hostname.value);
      ReplacedAt(r, k, Redirected(op.targetUrlId));
      GraphExact(next.routes);
      if IsFree(r, op.targetUrlId, op.siteId, locale, pathname) {
        RenamedGraph(r, k, next.routes[|r.routes|]);
      }
    } else if locale.None? || pathname.None? {
      NotFree(r, op.targetUrlId, op.siteId, locale, pathname);
    }
  }

  lemma NotFree(r: Registry, id: string, siteId: string, locale: Option<string>, pathname: Option<string>)
    requires locale.None? || pathname.None?
    ensures !IsFree(r, id, siteId, locale, pathname)
  {
  }

  /**
   In every registry that can be reached, an operation succeeds exactly when it is permitted, and then
   it changes exactly what it names.
   */
  lemma {:induction false} AttemptExact(norms: Norms, r: Registry, op: Op)
    requires Inv(r)
    ensures Attempt(norms, r, op).Ok? <==> Permitted(norms, r, op)
    ensures Attempt(norms, r, op).Ok? ==> Changes(norms, r, op, Attempt(norms, r, op).value)
  {
    hide Inv, Attempt, Permitted, Changes;
    match op
    case Reserve(_, _, _, _, _, _, _) => ReserveExact(norms, r, op);
    case Publish(_, _, _) => PublishExact(norms, r, op);
    case Rename(_, _, _, _, _, _, _, _) => RenameExact(norms, r, op);
    case MarkGone(_, _) => MarkGoneExact(norms, r, op);
  }
}
