/** URL routes and the validator of their redirects. */
module RedirectGraph {
  import opened Wrappers

  datatype State = Reserved | Active(canonicalUrl: string) | Redirected(targetUrlId: string) | Gone

  datatype UrlRoute = UrlRoute(
    id: string, key: string, contentId: string, locale: string, tenantId: string, siteId: string,
    pathname: string, state: State)

  datatype Registry = Registry(reservedPathnames: seq<string>, revision: nat, routes: seq<UrlRoute>)

  datatype UrlError =
    | RevisionConflict | InvalidLocale | InvalidPathname | InvalidHostname | ReservedRouteCollision
    | IdCollision | UniqueKeyCollision | RecordNotFound | RecordNotReserved | RecordNotActive
    | RedirectChain | RedirectLoop | RedirectCrossTenant | RedirectCrossSite | RedirectTargetNotActive

  function FindRoute(routes: seq<UrlRoute>, id: string): (r: Option<UrlRoute>)
    ensures r.Some? ==> r.value in routes && r.value.id == id
    ensures r.None? ==> forall i :: 0 <= i < |routes| ==> routes[i].id != id
  {
    if routes == [] then None
    else if routes[0].id == id then Some(routes[0])
    else FindRoute(routes[1..], id)
  }

  function IdsOf(routes: seq<UrlRoute>): set<string> {
    set i | 0 <= i < |routes| :: routes[i].id
  }

  function CheckOwnership(source: UrlRoute, target: UrlRoute): Option<UrlError> {
    if source.tenantId != target.tenantId then Some(RedirectCrossTenant)
    else if source.siteId != target.siteId then Some(RedirectCrossSite)
    else None
  }

  /** Following redirects from `current`, with the identifiers seen so far; None is a valid redirect. */
  function Walk(routes: seq<UrlRoute>, current: UrlRoute, visited: set<string>, hops: nat): Option<UrlError>
    decreases IdsOf(routes) - visited
  {
    match current.state
    case Redirected(targetUrlId) =>
      if targetUrlId in visited then Some(RedirectLoop)
      else
        (match FindRoute(routes, targetUrlId)
         case None => Some(RedirectTargetNotActive)
         case Some(target) =>
           match CheckOwnership(current, target)
           case Some(error) => Some(error)
           case None =>
             VisitsMore(routes, visited, target);
             Walk(routes, target, visited + {targetUrlId}, hops + 1))
    case Active(_) => if hops > 1 then Some(RedirectChain) else None
    case _ => if hops > 1 then Some(RedirectChain) else Some(RedirectTargetNotActive)
  }

  lemma VisitsMore(routes: seq<UrlRoute>, visited: set<string>, target: UrlRoute)
    requires target in routes && target.id !in visited
    ensures IdsOf(routes) - (visited + {target.id}) < IdsOf(routes) - visited
  {
    var i :| 0 <= i < |routes| && routes[i] == target;
    assert routes[i].id in IdsOf(routes) - visited;
  }

  method ValidateRedirect(routes: seq<UrlRoute>, source: UrlRoute) returns (problem: Option<UrlError>)
    requires source.state.Redirected?
    ensures problem == Walk(routes, source, {source.id}, 0)
  {
    var visited, current, hops := {source.id}, source, 0;
    while current.state.Redirected?
      invariant Walk(routes, source, {source.id}, 0) == Walk(routes, current, visited, hops)
      decreases IdsOf(routes) - visited, current.state.Redirected?
    {
      if current.state.targetUrlId in visited {
        return Some(RedirectLoop);
      }
      var target := FindRoute(routes, current.state.targetUrlId);
      if target.None? {
        return Some(RedirectTargetNotActive);
      }
      var ownership := CheckOwnership(current, target.value);
      if ownership.Some? {
        return ownership;
      }
      VisitsMore(routes, visited, target.value);
      visited := visited + {current.state.targetUrlId};
      current := target.value;
      hops := hops + 1;
    }
    if hops > 1 {
      return Some(RedirectChain);
    }
    return if current.state.Active? then None else Some(RedirectTargetNotActive);
  }

  function CheckPair(route: UrlRoute, candidate: UrlRoute): Option<UrlError> {
    if route.id == candidate.id then Some(IdCollision)
    else if route.key == candidate.key then Some(UniqueKeyCollision)
    else None
  }

  function CheckLater(route: UrlRoute, rest: seq<UrlRoute>): Option<UrlError> {
    if rest == [] then None
    else if CheckPair(route, rest[0]).Some? then CheckPair(route, rest[0])
    else CheckLater(route, rest[1..])
  }

  function CheckFrom(routes: seq<UrlRoute>, i: nat): Option<UrlError>
    requires i <= |routes|
    decreases |routes| - i
  {
    if i == |routes| then None
    else
      var later := CheckLater(routes[i], routes[i + 1..]);
      var walk := if routes[i].state.Redirected? then Walk(routes, routes[i], {routes[i].id}, 0) else None;
      if later.Some? then later else if walk.Some? then walk else CheckFrom(routes, i + 1)
  }

  /** validateRedirectGraph: None is an accepted registry. */
  function GraphProblem(routes: seq<UrlRoute>): Option<UrlError> {
    CheckFrom(routes, 0)
  }

  method ValidateRedirectGraph(registry: Registry) returns (result: Result<Registry, UrlError>)
    ensures result == match GraphProblem(registry.routes) case None => Ok(registry) case Some(error) => Err(error)
  {
    hide Walk;
    var routes := registry.routes;
    var i := 0;
    while i < |routes|
      invariant 0 <= i <= |routes|
      invariant GraphProblem(routes) == CheckFrom(routes, i)
    {
      var route, rest := routes[i], routes[i + 1..];
      var j := 0;
      assert rest[0..] == rest;
      while j < |rest|
        invariant 0 <= j <= |rest|
        invariant CheckLater(route, rest) == CheckLater(route, rest[j..])
      {
        assert rest[j..][0] == rest[j] && rest[j..][1..] == rest[j + 1..];
        var pair := CheckPair(route, rest[j]);
        if pair.Some? {
          return Err(pair.value);
        }
        j := j + 1;
      }
      if route.state.Redirected? {
        var redirect := ValidateRedirect(routes, route);
        if redirect.Some? {
          return Err(redirect.value);
        }
      }
      i := i + 1;
    }
    return Ok(registry);
  }

  // ---------- exactly what is accepted ----------

  predicate DistinctIdsAndKeys(routes: seq<UrlRoute>) {
    forall i, j :: 0 <= i < j < |routes| ==> routes[i].id != routes[j].id && routes[i].key != routes[j].key
  }

  predicate SameOwner(a: UrlRoute, b: UrlRoute) {
    a.tenantId == b.tenantId && a.siteId == b.siteId
  }

  /** A redirect in one hop to an active route of the same tenant and site. */
  predicate RedirectsToActive(routes: seq<UrlRoute>, source: UrlRoute) {
    source.state.Redirected? &&
    exists j :: 0 <= j < |routes| && routes[j].id == source.state.targetUrlId
                && routes[j].state.Active? && SameOwner(source, routes[j])
  }

  predicate IsRedirectGraph(routes: seq<UrlRoute>) {
    && DistinctIdsAndKeys(routes)
    && forall i :: 0 <= i < |routes| && routes[i].state.Redirected? ==> RedirectsToActive(routes, routes[i])
  }

  lemma {:induction false} FindIs(routes: seq<UrlRoute>, i: nat)
    requires DistinctIdsAndKeys(routes) && i < |routes|
    ensures FindRoute(routes, routes[i].id) == Some(routes[i])
  {
    if i > 0 {
      FindIs(routes[1..], i - 1);
    }
  }

  lemma {:induction false} LaterExact(route: UrlRoute, rest: seq<UrlRoute>)
    ensures CheckLater(route, rest).None?
       <==> forall j :: 0 <= j < |rest| ==> route.id != rest[j].id && route.key != rest[j].key
  {
    if rest != [] {
      LaterExact(route, rest[1..]);
      assert rest == [rest[0]] + rest[1..];
    }
  }

  /** With distinct identifiers, a walk succeeds exactly along one hop to an active route of the owner. */
  lemma {:induction false} WalkExact(routes: seq<UrlRoute>, i: nat)
    requires DistinctIdsAndKeys(routes) && i < |routes| && routes[i].state.Redirected?
    ensures Walk(routes, routes[i], {routes[i].id}, 0).None? <==> RedirectsToActive(routes, routes[i])
  {
    var source := routes[i];
    var target := FindRoute(routes, source.state.targetUrlId);
    if RedirectsToActive(routes, source) {
      var j :| 0 <= j < |routes| && routes[j].id == source.state.targetUrlId
               && routes[j].state.Active? && SameOwner(source, routes[j]);
      FindIs(routes, j);
    }
    if target.Some? {
      var j :| 0 <= j < |routes| && routes[j] == target.value;
      if target.value.state.Redirected? && target.value.id != source.id {
        SecondHopFails(routes, target.value, {source.id} + {target.value.id});
      }
    }
  }

  /** After one hop, another redirect can no longer end well. */
  lemma {:induction false} SecondHopFails(routes: seq<UrlRoute>, current: UrlRoute, visited: set<string>)
    requires current.state.Redirected?
    ensures Walk(routes, current, visited, 1).Some?
  {
    LongWalkFails(routes, current, visited, 1);
  }

  lemma {:induction false} LongWalkFails(routes: seq<UrlRoute>, current: UrlRoute, visited: set<string>, hops: nat)
    requires hops > 1 || (hops == 1 && current.state.Redirected?)
    ensures Walk(routes, current, visited, hops).Some?
    decreases IdsOf(routes) - visited
  {
    if current.state.Redirected? && current.state.targetUrlId !in visited {
      var target := FindRoute(routes, current.state.targetUrlId);
      if target.Some? && CheckOwnership(current, target.value).None? {
        VisitsMore(routes, visited, target.value);
        LongWalkFails(routes, target.value, visited + {current.state.targetUrlId}, hops + 1);
      }
    }
  }

  lemma {:induction false} DistinctFrom(routes: seq<UrlRoute>, i: nat)
    requires i <= |routes| && CheckFrom(routes, i).None?
    ensures forall a, b :: i <= a < b < |routes| ==> routes[a].id != routes[b].id && routes[a].key != routes[b].key
    ensures forall a :: i <= a < |routes| && routes[a].state.Redirected? ==> Walk(routes, routes[a], {routes[a].id}, 0).None?
    decreases |routes| - i
  {
    hide Walk;
    if i < |routes| {
      DistinctFrom(routes, i + 1);
      LaterExact(routes[i], routes[i + 1..]);
      assert forall b :: i < b < |routes| ==> routes[b] == routes[i + 1..][b - i - 1];
    }
  }

  lemma {:induction false} AcceptedFrom(routes: seq<UrlRoute>, i: nat)
    requires i <= |routes| && DistinctIdsAndKeys(routes)
    requires forall a :: i <= a < |routes| && routes[a].state.Redirected? ==> Walk(routes, routes[a], {routes[a].id}, 0).None?
    ensures CheckFrom(routes, i).None?
    decreases |routes| - i
  {
    hide Walk;
    if i < |routes| {
      LaterExact(routes[i], routes[i + 1..]);
      AcceptedFrom(routes, i + 1);
    }
  }

  /**
   On every registry, cyclic or with duplicates, the validator stops, and it accepts exactly those with
   distinct identifiers and keys whose redirects each lead in one hop to an active route of their owner.
   */
  lemma {:induction false} GraphExact(routes: seq<UrlRoute>)
    ensures GraphProblem(routes).None? <==> IsRedirectGraph(routes)
  {
    hide Walk, RedirectsToActive;
    if GraphProblem(routes).None? {
      DistinctFrom(routes, 0);
      forall i | 0 <= i < |routes| && routes[i].state.Redirected? ensures RedirectsToActive(routes, routes[i]) {
        WalkExact(routes, i);
      }
    }
    if IsRedirectGraph(routes) {
      forall i | 0 <= i < |routes| && routes[i].state.Redirected? ensures Walk(routes, routes[i], {routes[i].id}, 0).None? {
        WalkExact(routes, i);
      }
      AcceptedFrom(routes, 0);
    }
  }
}
