/** Which error a change of the URL registry answers, and which problem the redirect validator reports. */
module UrlErrors {
  import opened Wrappers
  import opened RedirectGraph
  import opened UrlRegistry
  import opened UrlEffects
  import Json
  import Text

  // ---------- the walk along a redirect ----------

  /** The routes that following redirects from the first one visits: same owner, no identifier twice. */
  ghost predicate IsTrail(routes: seq<UrlRoute>, trail: seq<UrlRoute>) {
    && trail != []
    && (forall i :: 0 < i < |trail| ==>
          && trail[i - 1].state == Redirected(trail[i].id)
          && FindRoute(routes, trail[i].id) == Some(trail[i]) && SameOwner(trail[i - 1], trail[i]))
    && (forall i, j :: 0 <= i < j < |trail| ==> trail[i].id != trail[j].id)
  }

  ghost predicate Visited(trail: seq<UrlRoute>, visited: set<string>) {
    forall id :: id in visited <==> exists route :: route in trail && route.id == id
  }

  /** What the route at the end of the trail makes of the walk. */
  ghost predicate EndsWith(routes: seq<UrlRoute>, trail: seq<UrlRoute>, problem: Option<UrlError>)
    requires trail != []
  {
    var end := trail[|trail| - 1];
    match end.state
    case Redirected(id) =>
      if exists route :: route in trail && route.id == id then problem == Some(RedirectLoop)
      else if forall route :: route in routes ==> route.id != id then problem == Some(RedirectTargetNotActive)
      else
        var next := FindRoute(routes, id);
        && next.Some? && !SameOwner(end, next.value)
        && problem == Some(if next.value.tenantId != end.tenantId then RedirectCrossTenant else RedirectCrossSite)
    case Active(_) => problem == if |trail| > 2 then Some(RedirectChain) else None
    case _ => problem == Some(if |trail| > 2 then RedirectChain else RedirectTargetNotActive)
  }

  lemma {:induction false} WalkFollows(routes: seq<UrlRoute>, trail: seq<UrlRoute>, visited: set<string>) returns (all: seq<UrlRoute>)
    requires IsTrail(routes, trail) && Visited(trail, visited)
    ensures trail <= all && IsTrail(routes, all)
    ensures EndsWith(routes, all, Walk(routes, trail[|trail| - 1], visited, |trail| - 1))
    decreases IdsOf(routes) - visited
  {
    hide FindRoute, IdsOf;
    var end := trail[|trail| - 1];
    all := trail;
    if end.state.Redirected? && end.state.targetUrlId !in visited {
      var next := FindRoute(routes, end.state.targetUrlId);
      NotThere(routes, end.state.targetUrlId);
      if next.Some? && CheckOwnership(end, next.value).None? {
        VisitsMore(routes, visited, next.value);
        TrailGrows(routes, trail, next.value, visited);
        all := WalkFollows(routes, trail + [next.value], visited + {next.value.id});
      }
    }
  }

  lemma NotThere(routes: seq<UrlRoute>, id: string)
    ensures FindRoute(routes, id).None? <==> forall route :: route in routes ==> route.id != id
  {
    hide FindRoute;
    if FindRoute(routes, id).None? {
      forall route | route in routes ensures route.id != id {
        var i :| 0 <= i < |routes| && routes[i] == route;
      }
    }
  }

  lemma TrailGrows(routes: seq<UrlRoute>, trail: seq<UrlRoute>, next: UrlRoute, visited: set<string>)
    requires IsTrail(routes, trail) && Visited(trail, visited) && next.id !in visited
    requires trail[|trail| - 1].state == Redirected(next.id)
    requires FindRoute(routes, next.id) == Some(next) && SameOwner(trail[|trail| - 1], next)
    ensures IsTrail(routes, trail + [next]) && Visited(trail + [next], visited + {next.id})
  {
    hide FindRoute, Visited;
    GrowsVisited(trail, next, visited);
    var longer := trail + [next];
    forall i, j | 0 <= i < j < |longer| ensures longer[i].id != longer[j].id {
      assert longer[i] in trail;
    }
  }

  lemma GrowsVisited(trail: seq<UrlRoute>, next: UrlRoute, visited: set<string>)
    requires Visited(trail, visited) && next.id !in visited
    ensures Visited(trail + [next], visited + {next.id}) && forall route :: route in trail ==> route.id != next.id
  {
    assert forall route :: route in trail + [next] <==> route in trail || route == next;
  }

  /** The walk from a redirect reports what the end of its trail says. */
  lemma {:induction false} WalkReports(routes: seq<UrlRoute>, source: UrlRoute) returns (trail: seq<UrlRoute>)
    requires source.state.Redirected?
    ensures IsTrail(routes, trail) && trail[0] == source
    ensures EndsWith(routes, trail, Walk(routes, source, {source.id}, 0))
  {
    hide Walk;
    trail := WalkFollows(routes, [source], {source.id});
  }

  // ---------- the unique key ----------

  lemma UniqueKeyText(siteId: string, locale: string, pathname: string)
    ensures UniqueKey(siteId, locale, pathname) ==
      "[" + (Json.Quote(siteId) + ("," + (Json.Quote(locale) + ("," + (Json.Quote(pathname) + "]")))))
  {
    hide Json.Quote, Json.ElementTexts;
    var parts := [Json.Str(siteId), Json.Str(locale), Json.Str(pathname)];
    assert parts == [parts[0]] + ([parts[1]] + ([parts[2]] + []));
    TextsOf(parts[2], []);
    TextsOf(parts[1], [parts[2]] + []);
    TextsOf(parts[0], [parts[1]] + ([parts[2]] + []));
    NoTexts();
    JoinThree(Json.Quote(siteId), Json.Quote(locale), Json.Quote(pathname));
    assert [Json.Quote(siteId)] + ([Json.Quote(locale)] + ([Json.Quote(pathname)] + []))
        == [Json.Quote(siteId), Json.Quote(locale), Json.Quote(pathname)];
  }

  lemma NoTexts()
    ensures Json.ElementTexts([]) == []
  {
  }

  lemma JoinThree(a: string, b: string, c: string)
    ensures ['['] + Text.Join([a, b, c], ',') + [']'] == "[" + (a + ("," + (b + ("," + (c + "]")))))
  {
    assert [b, c][1..] == [c] && [a, b, c][1..] == [b, c];
    assert Text.Join([b, c], ',') == b + [','] + c;
    assert Text.Join([a, b, c], ',') == a + [','] + (b + [','] + c);
  }

  lemma TextsOf(v: Json.Value, more: seq<Json.Value>)
    ensures Json.ElementTexts([v] + more) == [Json.Stringify(v)] + Json.ElementTexts(more)
  {
    assert ([v] + more)[1..] == more;
  }

  // ---------- the operations ----------

  ghost predicate HasId(r: Registry, id: string) {
    exists i :: 0 <= i < |r.routes| && r.routes[i].id == id
  }

  ghost predicate HasAddress(r: Registry, siteId: string, locale: string, pathname: string) {
    exists i :: 0 <= i < |r.routes| && IsAddress(r.routes[i], siteId, locale, pathname)
  }

  /** Why a new address is refused once its locale and pathname are known. */
  ghost function AddressError(r: Registry, siteId: string, locale: string, pathname: string): Option<UrlError> {
    if pathname in r.reservedPathnames then Some(ReservedRouteCollision)
    else if HasAddress(r, siteId, locale, pathname) then Some(UniqueKeyCollision)
    else None
  }

  /** Only an active route can be renamed or retired. */
  ghost predicate SourceError(r: Registry, id: string, error: UrlError) {
    if !HasId(r, id) then error == RecordNotFound
    else exists i :: 0 <= i < |r.routes| && r.routes[i].id == id && !r.routes[i].state.Active?
           && error == if r.routes[i].state.Redirected? then RedirectChain else RecordNotActive
  }

  /** The first redirect that a rename would leave without an active target, and what it leads to. */
  ghost predicate GraphError(r: Registry, sourceId: string, error: UrlError) {
    exists i, j ::
      && 0 <= i < |r.routes| && 0 <= j < |r.routes| && r.routes[i].state == Redirected(r.routes[j].id)
      && (r.routes[j].id == sourceId || r.routes[j].state.Gone?)
      && (forall k, l :: 0 <= k < i && 0 <= l < |r.routes| && r.routes[k].state == Redirected(r.routes[l].id)
            ==> r.routes[l].id != sourceId && !r.routes[l].state.Gone?)
      && error == if r.routes[j].id == sourceId then RedirectChain else RedirectTargetNotActive
  }

  /** The error of a change that is not permitted. */
  ghost predicate Explains(norms: Norms, r: Registry, op: Op, error: UrlError) {
    if r.revision != op.expectedRevision then error == RevisionConflict
    else match op
      case Reserve(_, urlId, _, _, siteId, locale, pathname) =>
        if norms.locale(locale).None? then error == InvalidLocale
        else if norms.pathname(pathname).None? then error == InvalidPathname
        else if norms.pathname(pathname).value in r.reservedPathnames then error == ReservedRouteCollision
        else if HasId(r, urlId) then error == IdCollision
        else HasAddress(r, siteId, norms.locale(locale).value, norms.pathname(pathname).value) && error == UniqueKeyCollision
      case Publish(_, urlId, hostname) =>
        if !HasId(r, urlId) then error == RecordNotFound
        else if !HasReserved(r, urlId) then error == RecordNotReserved
        else norms.hostname(hostname).None? && error == InvalidHostname
      case MarkGone(_, urlId) => SourceError(r, urlId, error)
      case Rename(_, sourceUrlId, targetUrlId, tenantId, siteId, locale, pathname, hostname) =>
        if !HasActive(r, sourceUrlId) then SourceError(r, sourceUrlId, error)
        else if !OwnsActive(r, sourceUrlId, tenantId, siteId) then
          exists i :: 0 <= i < |r.routes| && r.routes[i].id == sourceUrlId
            && error == if r.routes[i].tenantId != tenantId then RedirectCrossTenant else RedirectCrossSite
        else if HasId(r, targetUrlId) then error == IdCollision
        else if norms.locale(locale).None? then error == InvalidLocale
        else if norms.pathname(pathname).None? then error == InvalidPathname
        else
          var address := AddressError(r, siteId, norms.locale(locale).value, norms.pathname(pathname).value);
          if address.Some? then error == address.value
          else if norms.hostname(hostname).None? then error == InvalidHostname
          else GraphError(r, sourceUrlId, error)
  }

  lemma {:induction false} IdFound(r: Registry, id: string)
    ensures FindRoute(r.routes, id).Some? <==> HasId(r, id)
  {
    hide FindRoute;
    if FindRoute(r.routes, id).Some? {
      var i :| 0 <= i < |r.routes| && r.routes[i] == FindRoute(r.routes, id).value;
    }
  }

  lemma {:induction false} SourceExplained(r: Registry, id: string)
    requires Inv(r)
    ensures match ActiveSource(r, id)
      case Err(error) => !HasActive(r, id) && SourceError(r, id, error)
      case Ok(route) => HasActive(r, id) && route.state.Active?
  {
    hide FindRoute, RouteHolds, RedirectHolds;
    IdFound(r, id);
    var k := FoundAt(r, id);
  }

  lemma {:induction false} ReserveExplained(norms: Norms, r: Registry, op: Op)
    requires Inv(r) && op.Reserve? && Attempt(norms, r, op).Err?
    ensures Explains(norms, r, op, Attempt(norms, r, op).error)
  {
    hide UniqueKey, Inv, FindRoute, HasKey;
    IdFound(r, op.urlId);
    if norms.locale(op.locale).Some? && norms.pathname(op.pathname).Some? {
      KeyTaken(r, op.siteId, norms.locale(op.locale).value, norms.pathname(op.pathname).value);
    }
  }

  lemma {:induction false} PublishExplained(norms: Norms, r: Registry, op: Op)
    requires Inv(r) && op.Publish? && Attempt(norms, r, op).Err?
    ensures Explains(norms, r, op, Attempt(norms, r, op).error)
  {
    hide UniqueKey, FindRoute, Replace, RouteHolds, RedirectHolds;
    IdFound(r, op.urlId);
    var k := FoundAt(r, op.urlId);
  }

  // ---------- the redirects after a rename ----------

  /** What a rename makes of the routes. */
  ghost predicate IsRenamed(r: Registry, k: nat, target: UrlRoute, next: seq<UrlRoute>) {
    && k < |r.routes| && r.routes[k].state.Active? && target.state.Active? && SameOwner(r.routes[k], target)
    && |next| == |r.routes| + 1 && next[|r.routes|] == target
    && (forall m :: 0 <= m < |r.routes| ==> next[m] == if m == k then r.routes[k].(state := Redirected(target.id)) else r.routes[m])
  }

  /** The walk of a redirect to a route that is active, gone, or the renamed source. */
  lemma {:induction false} RenamedWalk(r: Registry, k: nat, target: UrlRoute, next: seq<UrlRoute>, i: nat, j: nat)
    requires DistinctIdsAndKeys(next) && IsRenamed(r, k, target, next)
    requires i < |r.routes| && j < |r.routes| && r.routes[i].state == Redirected(r.routes[j].id) && SameOwner(r.routes[i], r.routes[j])
    requires r.routes[j].state.Active? || r.routes[j].state.Gone?
    ensures Walk(next, next[i], {next[i].id}, 0) ==
      if j == k then Some(RedirectChain) else if r.routes[j].state.Gone? then Some(RedirectTargetNotActive) else None
  {
    hide FindRoute;
    assert i != k && i != j;
    FindIs(next, j);
    var once := {next[i].id} + {next[j].id};
    assert Walk(next, next[i], {next[i].id}, 0) == Walk(next, next[j], once, 1);
    if j == k {
      FindIs(next, |r.routes|);
      assert Walk(next, next[k], once, 1) == Walk(next, target, once + {target.id}, 2);
    }
  }

  lemma {:induction false} NewWalk(r: Registry, k: nat, target: UrlRoute, next: seq<UrlRoute>)
    requires DistinctIdsAndKeys(next) && IsRenamed(r, k, target, next)
    ensures Walk(next, next[k], {next[k].id}, 0) == None
  {
    hide FindRoute;
    FindIs(next, |r.routes|);
  }

  /** With distinct identifiers and keys, the first walk with a problem decides. */
  lemma {:induction false} FirstWalk(routes: seq<UrlRoute>, i: nat)
    requires DistinctIdsAndKeys(routes) && i <= |routes| && CheckFrom(routes, i).Some?
    ensures exists k ::
      && i <= k < |routes| && routes[k].state.Redirected?
      && CheckFrom(routes, i) == Walk(routes, routes[k], {routes[k].id}, 0)
      && forall l :: i <= l < k && routes[l].state.Redirected? ==> Walk(routes, routes[l], {routes[l].id}, 0).None?
    decreases |routes| - i
  {
    hide Walk;
    if i < |routes| {
      LaterExact(routes[i], routes[i + 1..]);
      var walk := if routes[i].state.Redirected? then Walk(routes, routes[i], {routes[i].id}, 0) else None;
      if walk.None? {
        FirstWalk(routes, i + 1);
      }
    }
  }

  lemma {:induction false} GraphExplained(r: Registry, k: nat, target: UrlRoute, next: seq<UrlRoute>)
    requires Inv(r) && IsRenamed(r, k, target, next)
    requires FindRoute(r.routes, target.id).None? && !HasKey(r.routes, target.key)
    requires GraphProblem(next).Some?
    ensures GraphError(r, r.routes[k].id, GraphProblem(next).value)
  {
    hide UniqueKey, FindRoute, Inv, Walk, CheckFrom, DistinctIdsAndKeys, HasKey;
    InvDistinct(r);
    RenamedDistinct(r, k, target, next);
    NewWalk(r, k, target, next);
    FirstWalk(next, 0);
    var i :| 0 <= i < |next| && next[i].state.Redirected? && GraphProblem(next) == Walk(next, next[i], {next[i].id}, 0)
      && forall l :: 0 <= l < i && next[l].state.Redirected? ==> Walk(next, next[l], {next[l].id}, 0).None?;
    assert i != k && i < |r.routes|;
    var j := RedirectTarget(r, i);
    RenamedWalk(r, k, target, next, i, j);
    SourceIsAt(r, k, j);
    forall a, b | 0 <= a < i && 0 <= b < |r.routes| && r.routes[a].state == Redirected(r.routes[b].id)
      ensures r.routes[b].id != r.routes[k].id && !r.routes[b].state.Gone?
    {
      var c := RedirectTarget(r, a);
      RenamedWalk(r, k, target, next, a, b);
      SourceIsAt(r, k, b);
    }
  }

  lemma SourceIsAt(r: Registry, k: nat, j: nat)
    requires Inv(r) && k < |r.routes| && j < |r.routes|
    ensures r.routes[j].id == r.routes[k].id <==> j == k
  {
  }

  lemma {:induction false} RenamedDistinct(r: Registry, k: nat, target: UrlRoute, next: seq<UrlRoute>)
    requires DistinctIdsAndKeys(r.routes) && IsRenamed(r, k, target, next)
    requires FindRoute(r.routes, target.id).None? && !HasKey(r.routes, target.key)
    ensures DistinctIdsAndKeys(next)
  {
    hide FindRoute;
  }

  lemma {:induction false} RedirectTarget(r: Registry, i: nat) returns (j: nat)
    requires Inv(r) && i < |r.routes| && r.routes[i].state.Redirected?
    ensures j < |r.routes| && r.routes[i].state == Redirected(r.routes[j].id) && SameOwner(r.routes[i], r.routes[j])
    ensures r.routes[j].state.Active? || r.routes[j].state.Gone?
    ensures forall l :: 0 <= l < |r.routes| && r.routes[i].state == Redirected(r.routes[l].id) ==> l == j
  {
    hide RouteHolds;
    assert RedirectHolds(r.routes, r.routes[i]);
    j :| 0 <= j < |r.routes| && r.routes[j].id == r.routes[i].state.targetUrlId
      && SameOwner(r.routes[i], r.routes[j]) && (r.routes[j].state.Active? || r.routes[j].state.Gone?);
  }

  lemma {:induction false} RenameExplained(norms: Norms, r: Registry, op: Op)
    requires Inv(r) && op.Rename? && Attempt(norms, r, op).Err?
    ensures Explains(norms, r, op, Attempt(norms, r, op).error)
  {
    hide UniqueKey, Inv, FindRoute, HasKey, Replace, WithState, GraphProblem, GraphError, DistinctIdsAndKeys;
    if r.revision == op.expectedRevision {
      SourceExplained(r, op.sourceUrlId);
      IdFound(r, op.targetUrlId);
      InvDistinct(r);
      var k := FoundAt(r, op.sourceUrlId);
      if ActiveSource(r, op.sourceUrlId).Ok? {
        var locale, pathname, hostname := norms.locale(op.locale), norms.pathname(op.pathname), norms.hostname(op.hostname);
        if locale.Some? && pathname.Some? {
          KeyTaken(r, op.siteId, locale.value, pathname.value);
          if hostname.Some? && OwnsActive(r, op.sourceUrlId, op.tenantId, op.siteId) && !HasId(r, op.targetUrlId)
             && AddressError(r, op.siteId, locale.value, pathname.value).None? {
            var next := Renamed(norms, r, op, r.routes[k], locale.value, pathname.value, hostname.value);
            ReplacedAt(r, k, Redirected(op.targetUrlId));
            RenamedIs(r, k, next.routes[|next.routes| - 1], next.routes);
            GraphExplained(r, k, next.routes[|next.routes| - 1], next.routes);
          }
        }
      }
    }
  }

  lemma RenamedIs(r: Registry, k: nat, target: UrlRoute, next: seq<UrlRoute>)
    requires k < |r.routes| && r.routes[k].state.Active? && target.state.Active? && SameOwner(r.routes[k], target)
    requires next == WithState(r, k, Redirected(target.id)) + [target]
    ensures IsRenamed(r, k, target, next)
  {
  }

  lemma InvDistinct(r: Registry)
    requires Inv(r)
    ensures DistinctIdsAndKeys(r.routes)
  {
  }

  /** A change that is refused says why: the first check that fails, in the order of the checks. */
  lemma {:induction false} AttemptExplained(norms: Norms, r: Registry, op: Op)
    requires Inv(r) && Attempt(norms, r, op).Err?
    ensures Explains(norms, r, op, Attempt(norms, r, op).error)
  {
    hide Explains, Inv, ReserveUrl, PublishUrl, RenameUrl;
    match op
    case Reserve(_, _, _, _, _, _, _) => ReserveExplained(norms, r, op);
    case Publish(_, _, _) => PublishExplained(norms, r, op);
    case Rename(_, _, _, _, _, _, _, _) => RenameExplained(norms, r, op);
    case MarkGone(_, _) => MarkGoneExplained(norms, r, op);
  }

  lemma {:induction false} MarkGoneExplained(norms: Norms, r: Registry, op: Op)
    requires Inv(r) && op.MarkGone? && Attempt(norms, r, op).Err?
    ensures Explains(norms, r, op, Attempt(norms, r, op).error)
  {
    hide Inv, SourceError, ActiveSource;
    SourceExplained(r, op.urlId);
  }
}
