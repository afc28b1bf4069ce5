/** The per-site route index: which pathnames exist, with which status and document. */
module RouteIndexing {
  import opened Wrappers
  import opened Documents
  import opened Runtime
  import opened Sorting
  import opened Text

  datatype RouteError = PathCollision | CrossSiteReference | TargetUnresolved | RedirectLoop | IndexInvalid

  datatype DocumentHead = DocumentHead(pathname: string, pageType: string)

  datatype RedirectRule = RedirectRule(fromPathname: string, targetUrl: string)

  /** What `new URL` reads; hostnames come out in lower case. */
  datatype Url = Url(protocol: string, hostname: string, pathname: string)

  /** `knownDomains` and `canonicalDomain` are in lower case; `parseUrl` is None where `new URL` throws. */
  datatype IndexInput = IndexInput(
    siteId: string, canonicalDomain: string, documents: seq<DocumentHead>, gonePathnames: seq<string>,
    knownDomains: seq<string>, redirects: seq<RedirectRule>, parseUrl: string -> Option<Url>)

  predicate IsActiveType(pageType: string) {
    pageType == "article" || pageType == "article-list" || pageType == "category" || pageType == "tag"
  }

  function ObjectKeyOf(pathname: string): string {
    if pathname == "/" then "pages/index.json" else "pages" + pathname + ".json"
  }

  function RedirectRoute(pathname: string): Route {
    Route(pathname, Redirect, ObjectKeyOf(pathname), "redirect")
  }

  function RouteOf(document: DocumentHead): Route {
    if document.pageType == "not-found" then Route(document.pathname, NotFound, ObjectKeyOf(document.pathname), "not-found")
    else if IsActiveType(document.pageType) then Route(document.pathname, Active, ObjectKeyOf(document.pathname), document.pageType)
    else RedirectRoute(document.pathname)
  }

  function GoneRoute(pathname: string): Route {
    Route(pathname, Gone, "", "")
  }

  function RoutePath(route: Route): string {
    route.pathname
  }

  // ---------- claiming pathnames ----------

  /** Adds routes in order; a pathname can be claimed once. */
  function ClaimAll(routes: seq<Route>, more: seq<Route>): Result<seq<Route>, RouteError>
    decreases |more|
  {
    if more == [] then Ok(routes)
    else if FindRoute(routes, more[0].pathname).Some? then Err(PathCollision)
    else ClaimAll(routes + [more[0]], more[1..])
  }

  function DocumentRoutes(documents: seq<DocumentHead>): (r: seq<Route>)
    ensures |r| == |documents| && forall i :: 0 <= i < |documents| ==> r[i] == RouteOf(documents[i])
  {
    if documents == [] then [] else [RouteOf(documents[0])] + DocumentRoutes(documents[1..])
  }

  function GoneRoutes(pathnames: seq<string>): (r: seq<Route>)
    ensures |r| == |pathnames| && forall i :: 0 <= i < |pathnames| ==> r[i] == GoneRoute(pathnames[i])
  {
    if pathnames == [] then [] else [GoneRoute(pathnames[0])] + GoneRoutes(pathnames[1..])
  }

  function Claims(input: IndexInput): seq<Route> {
    DocumentRoutes(input.documents) + GoneRoutes(Sort(input.gonePathnames, Same, UnitLess))
  }

  // ---------- redirects ----------

  /** Map.set: the value of an existing key is replaced in place. */
  function Put(targets: seq<RedirectRule>, rule: RedirectRule): seq<RedirectRule> {
    if targets == [] then [rule]
    else if targets[0].fromPathname == rule.fromPathname then [rule] + targets[1..]
    else [targets[0]] + Put(targets[1..], rule)
  }

  function AddRedirects(routes: seq<Route>, targets: seq<RedirectRule>, more: seq<RedirectRule>)
    : Result<(seq<Route>, seq<RedirectRule>), RouteError>
    decreases |more|
  {
    if more == [] then Ok((routes, targets))
    else
      match FindRoute(routes, more[0].fromPathname)
      case None => AddRedirects(routes + [RedirectRoute(more[0].fromPathname)], Put(targets, more[0]), more[1..])
      case Some(existing) =>
        if existing.status.Redirect? then AddRedirects(routes, Put(targets, more[0]), more[1..])
        else Err(PathCollision)
  }

  datatype Target = External(host: string) | Internal(pathname: string)

  function TargetOf(input: IndexInput, targetUrl: string): Result<Target, RouteError> {
    if StartsWith(targetUrl, "/") then Ok(Internal(targetUrl))
    else match input.parseUrl(targetUrl)
      case None => Err(TargetUnresolved)
      case Some(url) =>
        if url.protocol != "https:" then Err(TargetUnresolved)
        else if url.hostname != input.canonicalDomain then Ok(External(url.hostname))
        else Ok(Internal(url.pathname))
  }

  predicate HasRedirect(targets: seq<RedirectRule>, pathname: string) {
    exists i :: 0 <= i < |targets| && targets[i].fromPathname == pathname
  }

  predicate IsActivePath(documents: seq<DocumentHead>, pathname: string) {
    exists i :: 0 <= i < |documents| && documents[i].pathname == pathname && IsActiveType(documents[i].pageType)
  }

  /** A redirect may leave for a domain that is not a sibling site's, or lead to an active page here. */
  function CheckTarget(input: IndexInput, targets: seq<RedirectRule>, rule: RedirectRule): Option<RouteError> {
    match TargetOf(input, rule.targetUrl)
    case Err(error) => Some(error)
    case Ok(External(host)) => if host in input.knownDomains then Some(CrossSiteReference) else None
    case Ok(Internal(pathname)) =>
      if HasRedirect(targets, pathname) then Some(RedirectLoop)
      else if !IsActivePath(input.documents, pathname) then Some(TargetUnresolved)
      else None
  }

  function CheckTargets(input: IndexInput, targets: seq<RedirectRule>, more: seq<RedirectRule>): Option<RouteError>
    decreases |more|
  {
    if more == [] then None
    else match CheckTarget(input, targets, more[0])
      case Some(error) => Some(error)
      case None => CheckTargets(input, targets, more[1..])
  }

  /** The schema's checks, and its sort by pathname. */
  function IndexOf(input: IndexInput, routes: seq<Route>): Result<RouteIndex, RouteError> {
    var index := RouteIndex(input.siteId, input.canonicalDomain, Sort(routes, RoutePath, UnitLess));
    if IsRouteIndex(index) then Ok(index) else Err(IndexInvalid)
  }

  function Indexed(input: IndexInput): Result<RouteIndex, RouteError> {
    if input.canonicalDomain in input.knownDomains then Err(CrossSiteReference)
    else match ClaimAll([], Claims(input))
      case Err(error) => Err(error)
      case Ok(claimed) =>
        match AddRedirects(claimed, [], input.redirects)
        case Err(error) => Err(error)
        case Ok((routes, targets)) =>
          match CheckTargets(input, targets, targets)
          case Some(error) => Err(error)
          case None => IndexOf(input, routes)
  }

  /** Claims every document's pathname, then every gone pathname in order. */
  method ClaimPathnames(input: IndexInput) returns (result: Result<seq<Route>, RouteError>)
    ensures result == ClaimAll([], Claims(input))
  {
    hide RouteOf, FindRoute, Sort;
    ghost var claims := Claims(input);
    var routes: seq<Route> := [];
    var i := 0;
    assert claims[0..] == claims;
    while i < |input.documents|
      invariant 0 <= i <= |input.documents|
      invariant ClaimAll([], claims) == ClaimAll(routes, claims[i..])
    {
      var entry := RouteOf(input.documents[i]);
      assert claims[i..][0] == entry && claims[i..][1..] == claims[i + 1..];
      if FindRoute(routes, entry.pathname).Some? {
        return Err(PathCollision);
      }
      routes := routes + [entry];
      i := i + 1;
    }
    var gone := GoneRoutes(Sort(input.gonePathnames, Same, UnitLess));
    assert claims[i..] == gone && gone[0..] == gone;
    i := 0;
    while i < |gone|
      invariant 0 <= i <= |gone|
      invariant ClaimAll([], claims) == ClaimAll(routes, gone[i..])
    {
      assert gone[i..][0] == gone[i] && gone[i..][1..] == gone[i + 1..];
      if FindRoute(routes, gone[i].pathname).Some? {
        return Err(PathCollision);
      }
      routes := routes + [gone[i]];
      i := i + 1;
    }
    return Ok(routes);
  }

  /** Adds the routes of redirects, and collects their targets. */
  method AddRedirectRoutes(input: IndexInput, claimed: seq<Route>)
    returns (result: Result<(seq<Route>, seq<RedirectRule>), RouteError>)
    ensures result == AddRedirects(claimed, [], input.redirects)
  {
    hide FindRoute, RedirectRoute, Put;
    var routes, targets: seq<RedirectRule> := claimed, [];
    var i := 0;
    assert input.redirects[0..] == input.redirects;
    while i < |input.redirects|
      invariant 0 <= i <= |input.redirects|
      invariant AddRedirects(claimed, [], input.redirects) == AddRedirects(routes, targets, input.redirects[i..])
    {
      var rule := input.redirects[i];
      assert input.redirects[i..][0] == rule && input.redirects[i..][1..] == input.redirects[i + 1..];
      var existing := FindRoute(routes, rule.fromPathname);
      if existing.None? {
        routes := routes + [RedirectRoute(rule.fromPathname)];
      } else if !existing.value.status.Redirect? {
        return Err(PathCollision);
      }
      targets := Put(targets, rule);
      i := i + 1;
    }
    return Ok((routes, targets));
  }

  method BuildRouteIndex(input: IndexInput) returns (result: Result<RouteIndex, RouteError>)
    ensures result == Indexed(input)
  {
    hide CheckTarget, Claims, IndexOf, ClaimAll, AddRedirects;
    if input.canonicalDomain in input.knownDomains {
      return Err(CrossSiteReference);
    }
    var claimed := ClaimPathnames(input);
    if claimed.Err? {
      return Err(claimed.error);
    }
    var added := AddRedirectRoutes(input, claimed.value);
    if added.Err? {
      return Err(added.error);
    }
    var (routes, targets) := added.value;
    var i := 0;
    assert targets[0..] == targets;
    while i < |targets|
      invariant 0 <= i <= |targets|
      invariant CheckTargets(input, targets, targets) == CheckTargets(input, targets, targets[i..])
    {
      assert targets[i..][0] == targets[i] && targets[i..][1..] == targets[i + 1..];
      var problem := CheckTarget(input, targets, targets[i]);
      if problem.Some? {
        return Err(problem.value);
      }
      i := i + 1;
    }
    return IndexOf(input, routes);
  }

  // ---------- what an index means ----------

  predicate DistinctPaths(routes: seq<Route>) {
    forall i, j :: 0 <= i < j < |routes| ==> routes[i].pathname != routes[j].pathname
  }

  lemma {:induction false} ClaimsDistinct(routes: seq<Route>, more: seq<Route>)
    requires DistinctPaths(routes)
    ensures ClaimAll(routes, more) == if DistinctPaths(routes + more) then Ok(routes + more) else Err(PathCollision)
    decreases |more|
  {
    hide FindRoute;
    if more == [] {
      assert routes + more == routes;
    } else {
      var next := routes + [more[0]];
      assert next + more[1..] == routes + more;
      if FindRoute(routes, more[0].pathname).Some? {
        var i :| 0 <= i < |routes| && routes[i] == FindRoute(routes, more[0].pathname).value;
        assert (routes + more)[i].pathname == (routes + more)[|routes|].pathname;
      } else {
        assert DistinctPaths(next);
        ClaimsDistinct(next, more[1..]);
      }
    }
  }

  /** Only redirects lead to redirect routes, always in the same form. */
  ghost predicate RedirectsUniform(routes: seq<Route>) {
    forall route :: route in routes && route.status.Redirect? ==> route == RedirectRoute(route.pathname)
  }

  /** No redirect starts at a pathname with another kind of route. */
  ghost predicate NoClash(routes: seq<Route>, rules: seq<RedirectRule>) {
    forall rule, route :: rule in rules && route in routes && route.pathname == rule.fromPathname ==> route.status.Redirect?
  }

  ghost predicate FromRules(route: Route, rules: seq<RedirectRule>) {
    exists rule :: rule in rules && route == RedirectRoute(rule.fromPathname)
  }

  /** The last target of each redirect source, in the order of their first mention. */
  function FinalTargets(targets: seq<RedirectRule>, more: seq<RedirectRule>): seq<RedirectRule>
    decreases |more|
  {
    if more == [] then targets else FinalTargets(Put(targets, more[0]), more[1..])
  }

  function Added(routes: seq<Route>, more: seq<RedirectRule>): seq<Route>
    decreases |more|
  {
    if more == [] then routes
    else if FindRoute(routes, more[0].fromPathname).Some? then Added(routes, more[1..])
    else Added(routes + [RedirectRoute(more[0].fromPathname)], more[1..])
  }

  lemma {:induction false} FoundInDistinct(routes: seq<Route>, route: Route)
    requires DistinctPaths(routes) && route in routes
    ensures FindRoute(routes, route.pathname) == Some(route)
  {
    var found := FindRoute(routes, route.pathname);
    assert found.Some? && found.value in routes && found.value.pathname == route.pathname by { hide DistinctPaths; }
    var i :| 0 <= i < |routes| && routes[i] == route;
    var j :| 0 <= j < |routes| && routes[j] == found.value;
    hide FindRoute;
    assert i == j;
  }

  lemma {:induction false} AddOne(routes: seq<Route>, rule: RedirectRule)
    requires DistinctPaths(routes) && RedirectsUniform(routes) && FindRoute(routes, rule.fromPathname).None?
    ensures var next := routes + [RedirectRoute(rule.fromPathname)]; DistinctPaths(next) && RedirectsUniform(next)
  {
    hide FindRoute;
  }

  lemma {:induction false} AddExact(routes: seq<Route>, targets: seq<RedirectRule>, more: seq<RedirectRule>)
    requires DistinctPaths(routes) && RedirectsUniform(routes)
    ensures AddRedirects(routes, targets, more)
         == if NoClash(routes, more) then Ok((Added(routes, more), FinalTargets(targets, more))) else Err(PathCollision)
    decreases |more|
  {
    hide FindRoute, Put, DistinctPaths, RedirectsUniform;
    if more != [] {
      var rule := more[0];
      var found := FindRoute(routes, rule.fromPathname);
      assert more == [rule] + more[1..];
      if found.None? {
        AddOne(routes, rule);
        var next := routes + [RedirectRoute(rule.fromPathname)];
        AddExact(next, Put(targets, rule), more[1..]);
        assert NoClash(routes, more) <==> NoClash(next, more[1..]) by { ClashStep(routes, more); }
      } else {
        AddExact(routes, Put(targets, rule), more[1..]);
        ClashFound(routes, more);
      }
    }
  }

  lemma {:induction false} ClashStep(routes: seq<Route>, more: seq<RedirectRule>)
    requires more != [] && FindRoute(routes, more[0].fromPathname).None?
    ensures NoClash(routes, more) <==> NoClash(routes + [RedirectRoute(more[0].fromPathname)], more[1..])
  {
    hide FindRoute;
    var next := routes + [RedirectRoute(more[0].fromPathname)];
    assert more == [more[0]] + more[1..];
    forall route | route in routes ensures route.pathname != more[0].fromPathname {
      var i :| 0 <= i < |routes| && routes[i] == route;
    }
    if NoClash(routes, more) {
      assert forall route :: route in next ==> route in routes || route.status.Redirect?;
    }
    if NoClash(next, more[1..]) {
      assert forall route :: route in routes ==> route in next;
    }
  }

  lemma {:induction false} ClashFound(routes: seq<Route>, more: seq<RedirectRule>)
    requires more != [] && DistinctPaths(routes) && FindRoute(routes, more[0].fromPathname).Some?
    ensures NoClash(routes, more)
       <==> FindRoute(routes, more[0].fromPathname).value.status.Redirect? && NoClash(routes, more[1..])
  {
    hide FindRoute, DistinctPaths;
    var found := FindRoute(routes, more[0].fromPathname).value;
    assert more == [more[0]] + more[1..];
    forall route | route in routes && route.pathname == more[0].fromPathname ensures route == found {
      FoundInDistinct(routes, route);
    }
  }

  lemma {:induction false} AddedFacts(routes: seq<Route>, more: seq<RedirectRule>)
    requires DistinctPaths(routes) && RedirectsUniform(routes) && NoClash(routes, more)
    ensures var all := Added(routes, more);
      && DistinctPaths(all) && RedirectsUniform(all)
      && (forall route :: route in routes ==> route in all)
      && (forall rule :: rule in more ==> RedirectRoute(rule.fromPathname) in all)
      && (forall route :: route in all ==> route in routes || FromRules(route, more))
    decreases |more|
  {
    hide FindRoute, DistinctPaths, RedirectsUniform, NoClash;
    if more != [] {
      var rule := more[0];
      assert more == [rule] + more[1..];
      var found := FindRoute(routes, rule.fromPathname);
      if found.None? {
        AddOne(routes, rule);
        ClashStep(routes, more);
        AddedFacts(routes + [RedirectRoute(rule.fromPathname)], more[1..]);
        assert RedirectRoute(rule.fromPathname) in routes + [RedirectRoute(rule.fromPathname)];
      } else {
        ClashFound(routes, more);
        AddedFacts(routes, more[1..]);
        UniformFound(routes, found.value);
      }
    }
  }

  lemma UniformFound(routes: seq<Route>, route: Route)
    requires RedirectsUniform(routes) && route in routes && route.status.Redirect?
    ensures route == RedirectRoute(route.pathname)
  {
  }

  lemma {:induction false} ClaimsUniform(input: IndexInput)
    ensures RedirectsUniform(Claims(input))
  {
    var claims := Claims(input);
    forall route | route in claims && route.status.Redirect? ensures route == RedirectRoute(route.pathname) {
      var i :| 0 <= i < |claims| && claims[i] == route;
      assert i < |input.documents| ==> route == RouteOf(input.documents[i]);
    }
  }

  // ---------- exactly when there is an index, and what it contains ----------

  ghost predicate TargetsAllowed(input: IndexInput) {
    var targets := FinalTargets([], input.redirects);
    forall rule :: rule in targets ==> CheckTarget(input, targets, rule).None?
  }

  predicate OneNotFound(documents: seq<DocumentHead>) {
    && (exists i :: 0 <= i < |documents| && documents[i].pageType == "not-found")
    && (forall i, j :: 0 <= i < j < |documents| ==>
          !(documents[i].pageType == "not-found" && documents[j].pageType == "not-found"))
  }

  lemma {:induction false} TargetsExact(input: IndexInput, targets: seq<RedirectRule>, more: seq<RedirectRule>)
    ensures CheckTargets(input, targets, more).None? <==> forall rule :: rule in more ==> CheckTarget(input, targets, rule).None?
    decreases |more|
  {
    hide CheckTarget;
    if more != [] {
      assert more == [more[0]] + more[1..];
      TargetsExact(input, targets, more[1..]);
    }
  }

  /** What the routes of an index are: each document's, each gone pathname's, each redirect's, and no other. */
  ghost predicate Covers(input: IndexInput, routes: seq<Route>) {
    && (forall d :: d in input.documents ==> RouteOf(d) in routes)
    && (forall pathname :: pathname in input.gonePathnames ==> GoneRoute(pathname) in routes)
    && (forall rule :: rule in input.redirects ==> RedirectRoute(rule.fromPathname) in routes)
    && (forall route :: route in routes ==>
          || (exists d :: d in input.documents && route == RouteOf(d))
          || (exists pathname :: pathname in input.gonePathnames && route == GoneRoute(pathname))
          || FromRules(route, input.redirects))
  }

  lemma {:induction false} ClaimsMembers(input: IndexInput)
    ensures var claims := Claims(input);
      && (forall d :: d in input.documents ==> RouteOf(d) in claims)
      && (forall pathname :: pathname in input.gonePathnames ==> GoneRoute(pathname) in claims)
      && (forall route :: route in claims ==>
            || (exists d :: d in input.documents && route == RouteOf(d))
            || (exists pathname :: pathname in input.gonePathnames && route == GoneRoute(pathname)))
  {
    hide RouteOf;
    var docs := DocumentRoutes(input.documents);
    var sorted := Sort(input.gonePathnames, Same, UnitLess);
    var gone := GoneRoutes(sorted);
    forall d | d in input.documents ensures RouteOf(d) in Claims(input) {
      var i :| 0 <= i < |input.documents| && input.documents[i] == d;
      assert docs[i] == RouteOf(d) && docs[i] in docs;
    }
    forall pathname | pathname in input.gonePathnames ensures GoneRoute(pathname) in Claims(input) {
      assert pathname in sorted;
      var i :| 0 <= i < |sorted| && sorted[i] == pathname;
      assert gone[i] == GoneRoute(pathname) && gone[i] in gone;
    }
    forall route | route in Claims(input)
      ensures (exists d :: d in input.documents && route == RouteOf(d))
           || (exists pathname :: pathname in input.gonePathnames && route == GoneRoute(pathname))
    {
      if route in docs {
        var i :| 0 <= i < |docs| && docs[i] == route;
        assert input.documents[i] in input.documents;
      } else {
        var i :| 0 <= i < |gone| && gone[i] == route;
        assert sorted[i] in sorted;
      }
    }
  }

  lemma {:induction false} RoutesCover(input: IndexInput)
    requires DistinctPaths(Claims(input)) && NoClash(Claims(input), input.redirects)
    ensures var routes := Added(Claims(input), input.redirects);
      DistinctPaths(routes) && RedirectsUniform(routes) && Covers(input, routes)
  {
    hide RouteOf, NoClash, Added, DistinctPaths, RedirectsUniform, Claims;
    ClaimsUniform(input);
    ClaimsMembers(input);
    AddedFacts(Claims(input), input.redirects);
  }

  lemma {:induction false} SortedPaths(routes: seq<Route>)
    requires DistinctPaths(routes)
    ensures var sorted := Sort(routes, RoutePath, UnitLess);
      && DistinctPaths(sorted) && Increasing(sorted, RoutePath, UnitLess)
      && multiset(sorted) == multiset(routes)
  {
    UnitLessIsOrder();
    hide UnitLess, Sort;
    assert DistinctBy(routes, RoutePath);
    SortMultiset(routes, RoutePath, UnitLess);
    SortIncreasing(routes, RoutePath, UnitLess);
    DistinctByMultiset(routes, Sort(routes, RoutePath, UnitLess), RoutePath);
  }

  /** The schema's demands on identifiers, hosts, pathnames and object keys. */
  predicate WellFormed(input: IndexInput, routes: seq<Route>) {
    && IsIdentifier(input.siteId) && IsHost(input.canonicalDomain)
    && forall i :: 0 <= i < |routes| ==> IsRoute(routes[i])
  }

  /** Exactly one not-found route: the schema's last check comes down to the documents. */
  lemma {:induction false} NotFoundCount(input: IndexInput, routes: seq<Route>)
    requires DistinctPaths(Claims(input)) && DistinctPaths(routes) && Covers(input, routes)
    ensures IsRouteIndex(RouteIndex(input.siteId, input.canonicalDomain, routes))
       <==> WellFormed(input, routes) && OneNotFound(input.documents)
  {
    hide OneNotFound, IsRouteIndex, Covers, DistinctPaths, Claims, WellFormed;
    if OneNotFound(input.documents) && WellFormed(input, routes) {
      OneMakesIndex(input, routes);
    }
    if IsRouteIndex(RouteIndex(input.siteId, input.canonicalDomain, routes)) {
      IndexHasOne(input, routes);
    }
  }

  lemma {:induction false} OneMakesIndex(input: IndexInput, routes: seq<Route>)
    requires DistinctPaths(routes) && Covers(input, routes) && OneNotFound(input.documents) && WellFormed(input, routes)
    ensures IsRouteIndex(RouteIndex(input.siteId, input.canonicalDomain, routes))
  {
    hide Covers, DistinctPaths, IsRoute, IsIdentifier, IsHost;
    var docs := input.documents;
    var i :| 0 <= i < |docs| && docs[i].pageType == "not-found";
    var k := RoutedAt(input, routes, i);
    forall a, b | 0 <= a < b < |routes| ensures !(routes[a].status.NotFound? && routes[b].status.NotFound?) {
      if routes[a].status.NotFound? && routes[b].status.NotFound? {
        NotFoundFromDocument(input, routes, routes[a]);
        NotFoundFromDocument(input, routes, routes[b]);
        PathsDiffer(routes, a, b);
      }
    }
    PathsDistinct(routes);
  }

  lemma {:induction false} IndexHasOne(input: IndexInput, routes: seq<Route>)
    requires DistinctPaths(Claims(input)) && Covers(input, routes)
    requires IsRouteIndex(RouteIndex(input.siteId, input.canonicalDomain, routes))
    ensures OneNotFound(input.documents) && WellFormed(input, routes)
  {
    hide Covers, DistinctPaths, Claims, IsRoute, IsIdentifier, IsHost;
    var docs := input.documents;
    DocumentsDistinct(input);
    var k :| 0 <= k < |routes| && routes[k].status.NotFound?;
    NotFoundFromDocument(input, routes, routes[k]);
    forall i, j | 0 <= i < j < |docs| ensures !(docs[i].pageType == "not-found" && docs[j].pageType == "not-found") {
      if docs[i].pageType == "not-found" && docs[j].pageType == "not-found" {
        var a := RoutedAt(input, routes, i);
        var b := RoutedAt(input, routes, j);
      }
    }
  }

  /** Where a document's route is. */
  lemma {:induction false} RoutedAt(input: IndexInput, routes: seq<Route>, i: nat) returns (k: nat)
    requires Covers(input, routes) && i < |input.documents|
    ensures k < |routes| && routes[k] == RouteOf(input.documents[i])
    ensures routes[k].pathname == input.documents[i].pathname
    ensures routes[k].status.NotFound? <==> input.documents[i].pageType == "not-found"
  {
    assert input.documents[i] in input.documents;
    k :| 0 <= k < |routes| && routes[k] == RouteOf(input.documents[i]);
  }

  lemma PathsDiffer(routes: seq<Route>, a: nat, b: nat)
    requires DistinctPaths(routes) && a < b < |routes|
    ensures routes[a].pathname != routes[b].pathname
  {
  }

  lemma PathsDistinct(routes: seq<Route>)
    requires DistinctPaths(routes)
    ensures forall i, j :: 0 <= i < j < |routes| ==> routes[i].pathname != routes[j].pathname
  {
  }

  lemma {:induction false} DocumentsDistinct(input: IndexInput)
    requires DistinctPaths(Claims(input))
    ensures forall i, j :: 0 <= i < j < |input.documents| ==> input.documents[i].pathname != input.documents[j].pathname
  {
    forall i, j | 0 <= i < j < |input.documents| ensures input.documents[i].pathname != input.documents[j].pathname {
      assert Claims(input)[i] == RouteOf(input.documents[i]) && Claims(input)[j] == RouteOf(input.documents[j]);
    }
  }

  lemma {:induction false} NotFoundFromDocument(input: IndexInput, routes: seq<Route>, route: Route)
    requires Covers(input, routes) && route in routes && route.status.NotFound?
    ensures exists i :: 0 <= i < |input.documents| && input.documents[i].pageType == "not-found"
                        && input.documents[i].pathname == route.pathname
  {
    var d :| d in input.documents && route == RouteOf(d);
    var i :| 0 <= i < |input.documents| && input.documents[i] == d;
  }

  ghost predicate Indexable(input: IndexInput) {
    && input.canonicalDomain !in input.knownDomains
    && DistinctPaths(Claims(input))
    && NoClash(Claims(input), input.redirects)
    && TargetsAllowed(input)
    && OneNotFound(input.documents)
    && WellFormed(input, Added(Claims(input), input.redirects))
  }

  /**
   There is an index exactly when no pathname is claimed twice, no redirect starts at another kind
   of route, every final redirect target is allowed, one document is the not-found page, the
   schema accepts every pathname and object key, and the site's own domain is not listed as a sibling's. The index then has exactly the claimed routes,
   each pathname once, in order.
   */
  lemma {:induction false} IndexExact(input: IndexInput)
    ensures Indexed(input).Ok? <==> Indexable(input)
    ensures Indexed(input).Ok? ==>
              var index := Indexed(input).value;
              && index.siteId == input.siteId && index.canonicalDomain == input.canonicalDomain
              && IsRouteIndex(index) && Covers(input, index.routes)
              && Increasing(index.routes, RoutePath, UnitLess)
    ensures Indexed(input).Ok? ==>
              Indexed(input).value.routes == Sort(Added(Claims(input), input.redirects), RoutePath, UnitLess)
  {
    hide Claims, NoClash, Covers, IsRouteIndex, Added, FinalTargets, CheckTarget, OneNotFound, Sort, UnitLess, Increasing, DistinctPaths, ClaimAll, AddRedirects, CheckTargets, WellFormed;
    var claims := Claims(input);
    assert [] + claims == claims;
    NoneDistinct();
    ClaimsDistinct([], claims);
    ClaimsUniform(input);
    if DistinctPaths(claims) {
      AddExact(claims, [], input.redirects);
      if NoClash(claims, input.redirects) {
        var targets := FinalTargets([], input.redirects);
        TargetsExact(input, targets, targets);
        var routes := Added(claims, input.redirects);
        RoutesCover(input);
        SortedPaths(routes);
        var sorted := Sort(routes, RoutePath, UnitLess);
        CoverSorted(input, routes, sorted);
        SortedWellFormed(input, routes);
        NotFoundCount(input, sorted);
      }
    }
  }

  lemma {:induction false} SortedWellFormed(input: IndexInput, routes: seq<Route>)
    ensures WellFormed(input, Sort(routes, RoutePath, UnitLess)) <==> WellFormed(input, routes)
  {
    hide IsRoute, IsIdentifier, IsHost, Sort, UnitLess;
    var sorted := Sort(routes, RoutePath, UnitLess);
    assert forall i :: 0 <= i < |routes| ==> routes[i] in sorted;
    assert forall i :: 0 <= i < |sorted| ==> sorted[i] in routes;
  }

  lemma NoneDistinct()
    ensures DistinctPaths([])
  {
  }

  lemma {:induction false} CoverSorted(input: IndexInput, routes: seq<Route>, sorted: seq<Route>)
    requires Covers(input, routes) && multiset(routes) == multiset(sorted)
    ensures Covers(input, sorted)
  {
    hide RouteOf, FromRules;
    assert forall route :: route in routes <==> route in multiset(routes);
    assert forall route :: route in sorted <==> route in multiset(sorted);
    assert forall route :: route in routes <==> route in sorted;
  }
}
