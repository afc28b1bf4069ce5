/** The registry of a tenant's URLs: reserving, publishing, renaming and retiring them. */
module UrlRegistry {
  import opened Wrappers
  import opened RedirectGraph
  import opened Sorting
  import Json

  /** Normalisation of addresses; None is a refused input. */
  datatype Norms = Norms(
    locale: string -> Option<string>,
    pathname: string -> Option<string>,
    hostname: string -> Option<string>,
    canonicalUrl: (string, string) -> string)

  /** The unique key of an address. */
  function UniqueKey(siteId: string, locale: string, pathname: string): string {
    Json.Stringify(Json.Arr([Json.Str(siteId), Json.Str(locale), Json.Str(pathname)]))
  }

  lemma KeyIsJson(s: string, l: string, p: string)
    ensures Json.IsJson(Json.Arr([Json.Str(s), Json.Str(l), Json.Str(p)]))
  {
  }

  lemma {:induction false} UniqueKeyInjective(s: string, l: string, p: string, t: string, m: string, q: string)
    requires UniqueKey(s, l, p) == UniqueKey(t, m, q)
    ensures s == t && l == m && p == q
  {
    hide Json.Parse, Json.Stringify;
    var a := Json.Arr([Json.Str(s), Json.Str(l), Json.Str(p)]);
    var b := Json.Arr([Json.Str(t), Json.Str(m), Json.Str(q)]);
    KeyIsJson(s, l, p);
    KeyIsJson(t, m, q);
    Json.ParseStringify(a);
    Json.ParseStringify(b);
    assert a.items[0] == b.items[0] && a.items[1] == b.items[1] && a.items[2] == b.items[2];
  }

  // ---------- creating ----------

  predicate AllAccepted(norms: Norms, values: seq<string>) {
    forall i :: 0 <= i < |values| ==> norms.pathname(values[i]).Some?
  }

  /** Keeps each normalised pathname once, in the order of `before`. */
  method CreateUrlRegistry(norms: Norms, values: seq<string>, before: (string, string) -> bool)
    returns (result: Result<Registry, UrlError>)
    ensures result.Ok? <==> AllAccepted(norms, values)
    ensures result.Ok? ==>
              var r := result.value;
              && r.revision == 0 && r.routes == []
              && (forall p :: p in r.reservedPathnames <==>
                    exists i :: 0 <= i < |values| && norms.pathname(values[i]) == Some(p))
              && DistinctBy(r.reservedPathnames, Same)
              && (StrictTotalOrder(before) ==> Increasing(r.reservedPathnames, Same, before))
  {
    var kept: seq<string> := [];
    var i := 0;
    while i < |values|
      invariant 0 <= i <= |values|
      invariant AllAccepted(norms, values[..i])
      invariant DistinctBy(kept, Same)
      invariant forall p :: p in kept <==> exists j :: 0 <= j < i && norms.pathname(values[j]) == Some(p)
    {
      var pathname := norms.pathname(values[i]);
      if pathname.None? {
        return Err(InvalidPathname);
      }
      if pathname.value !in kept {
        kept := kept + [pathname.value];
      }
      i := i + 1;
    }
    assert values[..i] == values;
    var sorted := Sort(kept, Same, before);
    SortMultiset(kept, Same, before);
    DistinctByMultiset(kept, sorted, Same);
    if StrictTotalOrder(before) {
      SortIncreasing(kept, Same, before);
    }
    return Ok(Registry(sorted, 0, []));
  }

  // ---------- the operations ----------

  datatype Op =
    | Reserve(expectedRevision: nat, urlId: string, contentId: string, tenantId: string, siteId: string, locale: string, pathname: string)
    | Publish(expectedRevision: nat, urlId: string, hostname: string)
    | Rename(expectedRevision: nat, sourceUrlId: string, targetUrlId: string, tenantId: string, siteId: string,
             locale: string, pathname: string, hostname: string)
    | MarkGone(expectedRevision: nat, urlId: string)

  predicate HasKey(routes: seq<UrlRoute>, key: string) {
    exists i :: 0 <= i < |routes| && routes[i].key == key
  }

  /** Replaces every route with this identifier. */
  function Replace(routes: seq<UrlRoute>, route: UrlRoute): (r: seq<UrlRoute>)
    ensures |r| == |routes|
    ensures forall i :: 0 <= i < |routes| ==> r[i] == if routes[i].id == route.id then route else routes[i]
  {
    if routes == [] then []
    else [if routes[0].id == route.id then route else routes[0]] + Replace(routes[1..], route)
  }

  function ReserveUrl(norms: Norms, r: Registry, op: Op): Result<Registry, UrlError>
    requires op.Reserve?
  {
    if r.revision != op.expectedRevision then Err(RevisionConflict)
    else match norms.locale(op.locale)
      case None => Err(InvalidLocale)
      case Some(locale) =>
        match norms.pathname(op.pathname)
        case None => Err(InvalidPathname)
        case Some(pathname) =>
          var key := UniqueKey(op.siteId, locale, pathname);
          if pathname in r.reservedPathnames then Err(ReservedRouteCollision)
          else if FindRoute(r.routes, op.urlId).Some? then Err(IdCollision)
          else if HasKey(r.routes, key) then Err(UniqueKeyCollision)
          else
            var reserved := UrlRoute(op.urlId, key, op.contentId, locale, op.tenantId, op.siteId, pathname, Reserved);
            Ok(r.(revision := r.revision + 1, routes := r.routes + [reserved]))
  }

  function PublishUrl(norms: Norms, r: Registry, op: Op): Result<Registry, UrlError>
    requires op.Publish?
  {
    if r.revision != op.expectedRevision then Err(RevisionConflict)
    else match FindRoute(r.routes, op.urlId)
      case None => Err(RecordNotFound)
      case Some(route) =>
        if !route.state.Reserved? then Err(RecordNotReserved)
        else match norms.hostname(op.hostname)
          case None => Err(InvalidHostname)
          case Some(hostname) =>
            var active := route.(state := Active(norms.canonicalUrl(hostname, route.pathname)));
            Ok(r.(revision := r.revision + 1, routes := Replace(r.routes, active)))
  }

  function ActiveSource(r: Registry, id: string): Result<UrlRoute, UrlError> {
    match FindRoute(r.routes, id)
    case None => Err(RecordNotFound)
    case Some(route) =>
      match route.state
      case Active(_) => Ok(route)
      case Redirected(_) => Err(RedirectChain)
      case _ => Err(RecordNotActive)
  }

  function RenameUrl(norms: Norms, r: Registry, op: Op): Result<Registry, UrlError>
    requires op.Rename?
  {
    if r.revision != op.expectedRevision then Err(RevisionConflict)
    else match ActiveSource(r, op.sourceUrlId)
      case Err(error) => Err(error)
      case Ok(source) =>
        if source.tenantId != op.tenantId then Err(RedirectCrossTenant)
        else if source.siteId != op.siteId then Err(RedirectCrossSite)
        else if FindRoute(r.routes, op.targetUrlId).Some? then Err(IdCollision)
        else match norms.locale(op.locale)
          case None => Err(InvalidLocale)
          case Some(locale) =>
            match norms.pathname(op.pathname)
            case None => Err(InvalidPathname)
            case Some(pathname) =>
              var key := UniqueKey(op.siteId, locale, pathname);
              if pathname in r.reservedPathnames then Err(ReservedRouteCollision)
              else if HasKey(r.routes, key) then Err(UniqueKeyCollision)
              else match norms.hostname(op.hostname)
                case None => Err(InvalidHostname)
                case Some(hostname) =>
                  var next := Renamed(norms, r, op, source, locale, pathname, hostname);
                  match GraphProblem(next.routes)
                  case Some(error) => Err(error)
                  case None => Ok(next)
  }

  /** The source becomes a redirect, and its target is a new active route with the same content. */
  function Renamed(norms: Norms, r: Registry, op: Op, source: UrlRoute, locale: string, pathname: string, hostname: string): Registry
    requires op.Rename?
  {
    var active := UrlRoute(op.targetUrlId, UniqueKey(op.siteId, locale, pathname), source.contentId, locale,
                           op.tenantId, op.siteId, pathname, Active(norms.canonicalUrl(hostname, pathname)));
    var redirect := source.(state := Redirected(active.id));
    r.(revision := r.revision + 1, routes := Replace(r.routes, redirect) + [active])
  }

  function MarkUrlGone(r: Registry, op: Op): Result<Registry, UrlError>
    requires op.MarkGone?
  {
    if r.revision != op.expectedRevision then Err(RevisionConflict)
    else match ActiveSource(r, op.urlId)
      case Err(error) => Err(error)
      case Ok(source) => Ok(r.(revision := r.revision + 1, routes := Replace(r.routes, source.(state := Gone))))
  }

  function Attempt(norms: Norms, r: Registry, op: Op): Result<Registry, UrlError> {
    match op
    case Reserve(_, _, _, _, _, _, _) => ReserveUrl(norms, r, op)
    case Publish(_, _, _) => PublishUrl(norms, r, op)
    case Rename(_, _, _, _, _, _, _, _) => RenameUrl(norms, r, op)
    case MarkGone(_, _) => MarkUrlGone(r, op)
  }

  /** A refused operation leaves the registry as it was. */
  function Apply(norms: Norms, r: Registry, op: Op): Registry {
    match Attempt(norms, r, op) case Ok(next) => next case Err(_) => r
  }

  function After(norms: Norms, r: Registry, ops: seq<Op>): Registry
    decreases |ops|
  {
    if ops == [] then r else After(norms, Apply(norms, r, ops[0]), ops[1..])
  }

  // ---------- what every registry satisfies ----------

  /** A redirect leads in one hop to a route of the same owner and content that is active or gone. */
  predicate RedirectHolds(routes: seq<UrlRoute>, source: UrlRoute) {
    source.state.Redirected? ==>
      exists j :: 0 <= j < |routes| && routes[j].id == source.state.targetUrlId
                  && SameOwner(source, routes[j]) && routes[j].contentId == source.contentId
                  && (routes[j].state.Active? || routes[j].state.Gone?)
  }

  predicate RouteHolds(r: Registry, route: UrlRoute) {
    route.key == UniqueKey(route.siteId, route.locale, route.pathname) && route.pathname !in r.reservedPathnames
  }

  predicate Inv(r: Registry) {
    && DistinctIdsAndKeys(r.routes)
    && (forall i :: 0 <= i < |r.routes| ==> RouteHolds(r, r.routes[i]))
    && (forall i :: 0 <= i < |r.routes| ==> RedirectHolds(r.routes, r.routes[i]))
  }

  /** Reserved, then active, then redirected or gone for good. */
  predicate Leads(a: State, b: State) {
    a == b || (a.Reserved? && !b.Reserved?) || (a.Active? && (b.Redirected? || b.Gone?))
  }

  /** The same record: only its state can have moved on. */
  predicate Continues(a: UrlRoute, b: UrlRoute) {
    b == a.(state := b.state) && Leads(a.state, b.state)
  }

  predicate Extends(r: Registry, t: Registry) {
    && r.reservedPathnames == t.reservedPathnames && |r.routes| <= |t.routes| && r.revision <= t.revision
    && forall i :: 0 <= i < |r.routes| ==> Continues(r.routes[i], t.routes[i])
  }

  lemma {:induction false} ExtendsTransitive(r: Registry, s: Registry, t: Registry)
    requires Extends(r, s) && Extends(s, t)
    ensures Extends(r, t)
  {
    forall i | 0 <= i < |r.routes| ensures Continues(r.routes[i], t.routes[i]) {
      assert Continues(r.routes[i], s.routes[i]) && Continues(s.routes[i], t.routes[i]);
    }
  }

  /** Replacing the one route with this identifier by a later state of it. */
  lemma {:induction false} ReplaceAt(r: Registry, route: UrlRoute, changed: UrlRoute)
    requires DistinctIdsAndKeys(r.routes) && FindRoute(r.routes, route.id) == Some(route)
    requires changed == route.(state := changed.state)
    ensures exists k :: 0 <= k < |r.routes| && r.routes[k] == route && Replace(r.routes, changed) == r.routes[k := changed]
  {
    var k :| 0 <= k < |r.routes| && r.routes[k] == route;
    forall i | 0 <= i < |r.routes| ensures Replace(r.routes, changed)[i] == r.routes[k := changed][i] {
      assert i != k ==> r.routes[i].id != r.routes[k].id;
    }
    assert Replace(r.routes, changed) == r.routes[k := changed];
  }

  /** Changing the state of one route keeps the invariant, if redirects to it may end in its new state. */
  lemma {:induction false} ChangeKeeps(r: Registry, k: nat, changed: UrlRoute, next: Registry)
    requires Inv(r) && k < |r.routes| && changed == r.routes[k].(state := changed.state)
    requires next == r.(revision := next.revision, routes := r.routes[k := changed])
    requires changed.state.Active? || changed.state.Gone?
    ensures Inv(next)
  {
    hide UniqueKey;
    forall i | 0 <= i < |next.routes| ensures RedirectHolds(next.routes, next.routes[i]) {
      if next.routes[i].state.Redirected? {
        assert next.routes[i] == r.routes[i] && RedirectHolds(r.routes, r.routes[i]);
        var j :| 0 <= j < |r.routes| && r.routes[j].id == r.routes[i].state.targetUrlId
                 && SameOwner(r.routes[i], r.routes[j]) && r.routes[j].contentId == r.routes[i].contentId
                 && (r.routes[j].state.Active? || r.routes[j].state.Gone?);
        assert next.routes[j].id == r.routes[j].id;
      }
    }
  }

  /** Adding a route with a new identifier and a new key. */
  lemma {:induction false} AddKeeps(r: Registry, route: UrlRoute, next: Registry)
    requires Inv(r) && RouteHolds(r, route) && !route.state.Redirected?
    requires FindRoute(r.routes, route.id).None? && !HasKey(r.routes, route.key)
    requires next == r.(revision := next.revision, routes := r.routes + [route])
    ensures Inv(next)
  {
    hide UniqueKey, FindRoute;
    forall i | 0 <= i < |next.routes| ensures RedirectHolds(next.routes, next.routes[i]) {
      if next.routes[i].state.Redirected? {
        assert RedirectHolds(r.routes, r.routes[i]);
        var j :| 0 <= j < |r.routes| && r.routes[j].id == r.routes[i].state.targetUrlId
                 && SameOwner(r.routes[i], r.routes[j]) && r.routes[j].contentId == r.routes[i].contentId
                 && (r.routes[j].state.Active? || r.routes[j].state.Gone?);
        assert next.routes[j] == r.routes[j];
      }
    }
  }

  /** A successful rename turns one active route into a redirect and adds its target. */
  ghost predicate RenameShape(r: Registry, op: Op, next: Registry, k: nat)
    requires op.Rename?
  {
    && k < |r.routes| && r.routes[k].id == op.sourceUrlId && r.routes[k].state.Active?
    && |next.routes| == |r.routes| + 1
    && next == r.(revision := r.revision + 1, routes := next.routes)
    && next.routes[..|r.routes|] == r.routes[k := r.routes[k].(state := Redirected(op.targetUrlId))]
    && next.routes[|r.routes|].id == op.targetUrlId && next.routes[|r.routes|].state.Active?
    && next.routes[|r.routes|].contentId == r.routes[k].contentId
    && SameOwner(r.routes[k], next.routes[|r.routes|])
    && RouteHolds(r, next.routes[|r.routes|])
    && IsRedirectGraph(next.routes)
  }

  lemma {:induction false} RenameHasShape(norms: Norms, r: Registry, op: Op) returns (k: nat)
    requires DistinctIdsAndKeys(r.routes) && op.Rename? && RenameUrl(norms, r, op).Ok?
    ensures RenameShape(r, op, RenameUrl(norms, r, op).value, k)
  {
    hide UniqueKey, GraphProblem, FindRoute, Replace, IsRedirectGraph, DistinctIdsAndKeys, HasKey;
    var next := RenameUrl(norms, r, op).value;
    var source := ActiveSource(r, op.sourceUrlId).value;
    var redirect := source.(state := Redirected(op.targetUrlId));
    ReplaceAt(r, source, redirect);
    k :| 0 <= k < |r.routes| && r.routes[k] == source && Replace(r.routes, redirect) == r.routes[k := redirect];
    GraphExact(next.routes);
    assert next.routes[..|r.routes|] == Replace(r.routes, redirect);
  }

  lemma {:induction false} ShapeRoutes(r: Registry, op: Op, next: Registry, k: nat)
    requires op.Rename? && RenameShape(r, op, next, k)
    ensures forall i :: 0 <= i < |r.routes| ==>
              next.routes[i] == if i == k then r.routes[k].(state := Redirected(op.targetUrlId)) else r.routes[i]
  {
    hide UniqueKey, IsRedirectGraph, RouteHolds;
    assert forall i :: 0 <= i < |r.routes| ==> next.routes[i] == next.routes[..|r.routes|][i];
  }

  lemma {:induction false} ShapeKeeps(r: Registry, op: Op, next: Registry, k: nat)
    requires Inv(r) && op.Rename? && RenameShape(r, op, next, k)
    ensures Inv(next) && Extends(r, next)
  {
    hide UniqueKey, IsRedirectGraph, RedirectHolds;
    ShapeRoutes(r, op, next, k);
    var n := |r.routes|;
    assert DistinctIdsAndKeys(next.routes) by { GraphDistinct(next.routes); }
    hide DistinctIdsAndKeys;
    forall i | 0 <= i < |next.routes| ensures RedirectHolds(next.routes, next.routes[i]) {
      if i == k {
        NewRedirect(next.routes, k, n);
      } else if i < n && next.routes[i].state.Redirected? {
        OldRedirect(r, next, i);
      } else {
        OtherHolds(next.routes, next.routes[i]);
      }
    }
  }

  lemma NewRedirect(routes: seq<UrlRoute>, i: nat, j: nat)
    requires i < |routes| && j < |routes| && routes[i].state == Redirected(routes[j].id)
    requires SameOwner(routes[i], routes[j]) && routes[j].contentId == routes[i].contentId && routes[j].state.Active?
    ensures RedirectHolds(routes, routes[i])
  {
  }

  lemma OtherHolds(routes: seq<UrlRoute>, route: UrlRoute)
    requires !route.state.Redirected?
    ensures RedirectHolds(routes, route)
  {
  }

  lemma GraphDistinct(routes: seq<UrlRoute>)
    requires IsRedirectGraph(routes)
    ensures DistinctIdsAndKeys(routes)
  {
  }

  lemma {:induction false} RenameKeeps(norms: Norms, r: Registry, op: Op)
    requires Inv(r) && op.Rename? && RenameUrl(norms, r, op).Ok?
    ensures Inv(RenameUrl(norms, r, op).value) && Extends(r, RenameUrl(norms, r, op).value)
    ensures RenameUrl(norms, r, op).value.revision == r.revision + 1
    ensures TargetsActive(RenameUrl(norms, r, op).value.routes)
  {
    hide RenameUrl, RouteHolds, RedirectHolds, IsRedirectGraph, TargetsActive, Extends;
    var k := RenameHasShape(norms, r, op);
    ShapeKeeps(r, op, RenameUrl(norms, r, op).value, k);
    GraphIsActive(RenameUrl(norms, r, op).value.routes);
  }

  /** In an accepted graph, a redirect that was there before still leads to the route it led to. */
  lemma {:induction false} OldRedirect(r: Registry, next: Registry, i: nat)
    requires Inv(r) && i < |r.routes| <= |next.routes| && next.routes[i] == r.routes[i] && r.routes[i].state.Redirected?
    requires forall j :: 0 <= j < |r.routes| ==> next.routes[j] == r.routes[j].(state := next.routes[j].state)
    requires IsRedirectGraph(next.routes)
    ensures RedirectHolds(next.routes, next.routes[i])
  {
    hide UniqueKey;
    var source := r.routes[i];
    assert RedirectHolds(r.routes, source);
    var j :| 0 <= j < |r.routes| && r.routes[j].id == source.state.targetUrlId
             && SameOwner(source, r.routes[j]) && r.routes[j].contentId == source.contentId
             && (r.routes[j].state.Active? || r.routes[j].state.Gone?);
    assert RedirectsToActive(next.routes, next.routes[i]);
    var m :| 0 <= m < |next.routes| && next.routes[m].id == source.state.targetUrlId && next.routes[m].state.Active?;
    assert next.routes[j].id == next.routes[m].id;
    assert j == m;
  }

  lemma {:induction false} ReserveKeeps(norms: Norms, r: Registry, op: Op)
    requires Inv(r) && op.Reserve? && ReserveUrl(norms, r, op).Ok?
    ensures Inv(ReserveUrl(norms, r, op).value) && Extends(r, ReserveUrl(norms, r, op).value)
  {
    hide UniqueKey, FindRoute, HasKey, RedirectHolds;
    var next := ReserveUrl(norms, r, op).value;
    AddKeeps(r, next.routes[|r.routes|], next);
  }

  lemma {:induction false} AttemptKeeps(norms: Norms, r: Registry, op: Op)
    requires Inv(r) && Attempt(norms, r, op).Ok?
    ensures Inv(Attempt(norms, r, op).value) && Extends(r, Attempt(norms, r, op).value)
    ensures Attempt(norms, r, op).value.revision == r.revision + 1
  {
    hide UniqueKey, RenameUrl, FindRoute, HasKey, Replace, RedirectHolds, RouteHolds;
    var next := Attempt(norms, r, op).value;
    match op
    case Reserve(_, _, _, _, _, _, _) =>
      ReserveKeeps(norms, r, op);
    case Publish(_, _, _) =>
      var route := FindRoute(r.routes, op.urlId).value;
      var active := route.(state := Active(norms.canonicalUrl(norms.hostname(op.hostname).value, route.pathname)));
      ReplaceAt(r, route, active);
      var k :| 0 <= k < |r.routes| && r.routes[k] == route && Replace(r.routes, active) == r.routes[k := active];
      ChangeKeeps(r, k, active, next);
    case Rename(_, _, _, _, _, _, _, _) =>
      RenameKeeps(norms, r, op);
    case MarkGone(_, _) =>
      var route := ActiveSource(r, op.urlId).value;
      ReplaceAt(r, route, route.(state := Gone));
      var k :| 0 <= k < |r.routes| && r.routes[k] == route && Replace(r.routes, route.(state := Gone)) == r.routes[k := route.(state := Gone)];
      ChangeKeeps(r, k, route.(state := Gone), next);
  }

  /** How many operations of a run succeed. */
  function Successes(norms: Norms, r: Registry, ops: seq<Op>): nat
    decreases |ops|
  {
    if ops == [] then 0
    else (if Attempt(norms, r, ops[0]).Ok? then 1 else 0) + Successes(norms, Apply(norms, r, ops[0]), ops[1..])
  }

  /**
   After any run: identifiers and keys stay unique, no route sits on a reserved pathname, redirects
   hold; no route disappears or changes but for its state moving forward; and the revision has
   counted the successful changes.
   */
  lemma {:induction false} RunKeeps(norms: Norms, r: Registry, ops: seq<Op>)
    requires Inv(r)
    ensures Inv(After(norms, r, ops)) && Extends(r, After(norms, r, ops))
    ensures After(norms, r, ops).revision == r.revision + Successes(norms, r, ops)
    decreases |ops|
  {
    hide Inv, Attempt, Extends;
    ExtendsSelf(r);
    if ops != [] {
      var next := Apply(norms, r, ops[0]);
      if Attempt(norms, r, ops[0]).Ok? {
        AttemptKeeps(norms, r, ops[0]);
      }
      RunKeeps(norms, next, ops[1..]);
      ExtendsTransitive(r, next, After(norms, next, ops[1..]));
    }
  }

  lemma ExtendsSelf(r: Registry)
    ensures Extends(r, r)
  {
  }

  lemma NewRegistryHolds(reservedPathnames: seq<string>)
    ensures Inv(Registry(reservedPathnames, 0, []))
  {
  }

  // ---------- redirect targets that are retired ----------

  predicate IsTarget(routes: seq<UrlRoute>, id: string) {
    exists i :: 0 <= i < |routes| && routes[i].state == Redirected(id)
  }

  /** Every redirect target is still active. */
  predicate TargetsActive(routes: seq<UrlRoute>) {
    forall i, j :: 0 <= i < |routes| && 0 <= j < |routes| && routes[i].state == Redirected(routes[j].id)
      ==> routes[j].state.Active?
  }

  /** Retiring a redirect target. */
  predicate RetiresTarget(norms: Norms, r: Registry, op: Op) {
    op.MarkGone? && MarkUrlGone(r, op).Ok? && IsTarget(r.routes, op.urlId)
  }

  /** Retiring a route keeps the targets active exactly when no redirect leads to it: nothing checks this. */
  lemma {:induction false} GoneExact(norms: Norms, r: Registry, op: Op)
    requires Inv(r) && TargetsActive(r.routes) && op.MarkGone? && MarkUrlGone(r, op).Ok?
    ensures TargetsActive(MarkUrlGone(r, op).value.routes) <==> !IsTarget(r.routes, op.urlId)
  {
    hide UniqueKey, FindRoute, Replace;
    var route := ActiveSource(r, op.urlId).value;
    var gone := route.(state := Gone);
    ReplaceAt(r, route, gone);
    var next := MarkUrlGone(r, op).value.routes;
    var k :| 0 <= k < |r.routes| && r.routes[k] == route && Replace(r.routes, gone) == r.routes[k := gone];
    assert next == r.routes[k := gone];
    if IsTarget(r.routes, op.urlId) {
      var i :| 0 <= i < |r.routes| && r.routes[i].state == Redirected(op.urlId);
      assert next[i].state == Redirected(next[k].id) && !next[k].state.Active?;
    }
  }

  lemma {:induction false} AttemptKeepsActive(norms: Norms, r: Registry, op: Op)
    requires Inv(r) && TargetsActive(r.routes) && Attempt(norms, r, op).Ok? && !RetiresTarget(norms, r, op)
    ensures TargetsActive(Attempt(norms, r, op).value.routes)
  {
    hide UniqueKey, RenameUrl, FindRoute, HasKey, Replace, RouteHolds, RedirectHolds, Extends;
    match op
    case Reserve(_, _, _, _, _, _, _) => NewIsNoTarget(r, op.urlId);
    case Publish(_, _, _) =>
      var route := FindRoute(r.routes, op.urlId).value;
      var active := route.(state := Active(norms.canonicalUrl(norms.hostname(op.hostname).value, route.pathname)));
      ReplaceAt(r, route, active);
    case Rename(_, _, _, _, _, _, _, _) => RenameKeeps(norms, r, op);
    case MarkGone(_, _) => GoneExact(norms, r, op);
  }

  lemma {:induction false} GraphIsActive(routes: seq<UrlRoute>)
    requires IsRedirectGraph(routes)
    ensures TargetsActive(routes)
  {
    forall i, j | 0 <= i < |routes| && 0 <= j < |routes| && routes[i].state == Redirected(routes[j].id)
      ensures routes[j].state.Active?
    {
      assert RedirectsToActive(routes, routes[i]);
      var m :| 0 <= m < |routes| && routes[m].id == routes[j].id && routes[m].state.Active?;
      assert m == j;
    }
  }

  /** Every redirect's target is there already, so a new identifier is not one. */
  lemma {:induction false} NewIsNoTarget(r: Registry, id: string)
    requires Inv(r) && FindRoute(r.routes, id).None?
    ensures !IsTarget(r.routes, id)
  {
    hide UniqueKey, FindRoute;
    forall i | 0 <= i < |r.routes| ensures r.routes[i].state != Redirected(id) {
      assert RedirectHolds(r.routes, r.routes[i]);
    }
  }

  /** No operation of the run retires a redirect target. */
  predicate SparesTargets(norms: Norms, r: Registry, ops: seq<Op>)
    decreases |ops|
  {
    ops != [] ==> !RetiresTarget(norms, r, ops[0]) && SparesTargets(norms, Apply(norms, r, ops[0]), ops[1..])
  }

  /** As long as no redirect target is marked gone, every redirect leads to an active route. */
  lemma {:induction false} TargetsStayActive(norms: Norms, r: Registry, ops: seq<Op>)
    requires Inv(r) && TargetsActive(r.routes) && SparesTargets(norms, r, ops)
    ensures TargetsActive(After(norms, r, ops).routes)
    decreases |ops|
  {
    hide Inv, Attempt, TargetsActive, RetiresTarget;
    if ops != [] {
      if Attempt(norms, r, ops[0]).Ok? {
        AttemptKeeps(norms, r, ops[0]);
        AttemptKeepsActive(norms, r, ops[0]);
      }
      TargetsStayActive(norms, Apply(norms, r, ops[0]), ops[1..]);
    }
  }

  /** A redirect whose target is gone. */
  predicate HasDeadRedirect(routes: seq<UrlRoute>) {
    exists i, j :: 0 <= i < |routes| && 0 <= j < |routes| && routes[i].state == Redirected(routes[j].id) && routes[j].state.Gone?
  }

  /** Once a redirect target is gone, no rename in the registry can succeed any more. */
  lemma {:induction false} DeadRedirectBlocksRenames(norms: Norms, r: Registry, op: Op)
    requires Inv(r) && HasDeadRedirect(r.routes) && op.Rename?
    ensures RenameUrl(norms, r, op).Err?
  {
    hide RenameUrl, Inv, TargetsActive, HasDeadRedirect, Extends;
    if RenameUrl(norms, r, op).Ok? {
      var next := RenameUrl(norms, r, op).value;
      RenameKeeps(norms, r, op);
      DeadStays(r, next);
      DeadIsInactive(next.routes);
    }
  }

  lemma DeadIsInactive(routes: seq<UrlRoute>)
    requires HasDeadRedirect(routes)
    ensures !TargetsActive(routes)
  {
  }

  lemma {:induction false} DeadStays(r: Registry, next: Registry)
    requires Extends(r, next) && HasDeadRedirect(r.routes)
    ensures HasDeadRedirect(next.routes)
  {
    var i, j :| 0 <= i < |r.routes| && 0 <= j < |r.routes| && r.routes[i].state == Redirected(r.routes[j].id) && r.routes[j].state.Gone?;
    assert Continues(r.routes[i], next.routes[i]) && Continues(r.routes[j], next.routes[j]);
  }

  /** And so it stays: after any further run, renames still fail. */
  lemma {:induction false} RenamesStayBlocked(norms: Norms, r: Registry, ops: seq<Op>, op: Op)
    requires Inv(r) && HasDeadRedirect(r.routes) && op.Rename?
    ensures RenameUrl(norms, After(norms, r, ops), op).Err?
  {
    hide Inv, RenameUrl, Extends, HasDeadRedirect;
    RunKeeps(norms, r, ops);
    DeadStays(r, After(norms, r, ops));
    DeadRedirectBlocksRenames(norms, After(norms, r, ops), op);
  }

  /** A redirect target can never itself be renamed: that would make a chain. */
  lemma {:induction false} TargetCannotMove(norms: Norms, r: Registry, op: Op)
    requires Inv(r) && op.Rename? && IsTarget(r.routes, op.sourceUrlId)
    ensures RenameUrl(norms, r, op).Err?
  {
    hide RenameUrl, TargetsActive, RouteHolds, RedirectHolds, IsRedirectGraph, Extends;
    if RenameUrl(norms, r, op).Ok? {
      var k := RenameHasShape(norms, r, op);
      MovedIsInactive(r, op, RenameUrl(norms, r, op).value, k);
      RenameKeeps(norms, r, op);
    }
  }

  lemma {:induction false} MovedIsInactive(r: Registry, op: Op, next: Registry, k: nat)
    requires op.Rename? && RenameShape(r, op, next, k) && IsTarget(r.routes, op.sourceUrlId)
    ensures !TargetsActive(next.routes)
  {
    hide UniqueKey, IsRedirectGraph, RouteHolds;
    var n := |r.routes|;
    assert forall i :: 0 <= i < n ==> next.routes[i] == next.routes[..n][i];
    var i :| 0 <= i < n && r.routes[i].state == Redirected(op.sourceUrlId);
    assert next.routes[i].state == Redirected(next.routes[k].id) && !next.routes[k].state.Active?;
  }
}
