/**
 The route index, said of the documents, gone pathnames and redirects it is built from: when there is
 one, which error there is otherwise, and every field of every route.
 */
module RouteForms {
  import opened Wrappers
  import opened Documents
  import opened RouteIndexing
  import opened Sorting
  import opened KeyOrder
  import opened Text

  predicate HasPage(pageType: string) {
    pageType in ["article", "article-list", "category", "tag"]
  }

  ghost predicate IsDocumentRoute(d: DocumentHead, route: Route) {
    && route.pathname == d.pathname
    && route.objectKey == (if d.pathname == "/" then "pages/index.json" else "pages" + d.pathname + ".json")
    && if HasPage(d.pageType) then route.status == Active && route.pageType == d.pageType
       else if d.pageType == "not-found" then route.status == NotFound && route.pageType == "not-found"
       else route.status == Redirect && route.pageType == "redirect"
  }

  ghost predicate IsRuleRoute(rule: RedirectRule, route: Route) {
    IsDocumentRoute(DocumentHead(rule.fromPathname, "redirect"), route)
  }

  ghost predicate IsRouteFor(input: IndexInput, route: Route) {
    || (exists d :: d in input.documents && IsDocumentRoute(d, route))
    || (exists pathname :: pathname in input.gonePathnames && route == Route(pathname, Gone, "", ""))
    || (exists rule :: rule in input.redirects && IsRuleRoute(rule, route))
  }

  // ---------- targets ----------

  /** The rule that counts for its pathname: the last one. */
  ghost predicate IsFinal(rules: seq<RedirectRule>, rule: RedirectRule) {
    exists before, after :: rules == before + [rule] + after && forall r :: r in after ==> r.fromPathname != rule.fromPathname
  }

  /** Why a pathname of this site cannot be a target. */
  ghost function LandingError(input: IndexInput, pathname: string): Option<RouteError> {
    if exists rule :: rule in input.redirects && rule.fromPathname == pathname then Some(RedirectLoop)
    else if exists d :: d in input.documents && d.pathname == pathname && HasPage(d.pageType) then None
    else Some(TargetUnresolved)
  }

  ghost function TargetError(input: IndexInput, targetUrl: string): Option<RouteError> {
    if "/" <= targetUrl then LandingError(input, targetUrl)
    else
      match input.parseUrl(targetUrl)
      case None => Some(TargetUnresolved)
      case Some(Url(protocol, hostname, pathname)) =>
        if protocol != "https:" then Some(TargetUnresolved)
        else if hostname == input.canonicalDomain then LandingError(input, pathname)
        else if hostname in input.knownDomains then Some(CrossSiteReference)
        else None
  }

  ghost predicate FromDistinct(rules: seq<RedirectRule>) {
    forall i, j :: 0 <= i < j < |rules| ==> rules[i].fromPathname != rules[j].fromPathname
  }

  lemma {:induction false} PutMembers(targets: seq<RedirectRule>, rule: RedirectRule)
    requires FromDistinct(targets)
    ensures FromDistinct(Put(targets, rule))
    ensures forall t :: t in Put(targets, rule) <==> t == rule || (t in targets && t.fromPathname != rule.fromPathname)
  {
    if targets != [] {
      var first, rest := targets[0], targets[1..];
      assert targets == [first] + rest;
      assert FromDistinct(rest) by {
        assert forall i :: 0 <= i < |rest| ==> rest[i] == targets[i + 1];
      }
      assert forall t :: t in rest ==> t.fromPathname != first.fromPathname by {
        forall t | t in rest ensures t.fromPathname != first.fromPathname {
          var i :| 0 <= i < |rest| && rest[i] == t;
          assert targets[i + 1] == t;
        }
      }
      if first.fromPathname != rule.fromPathname {
        PutMembers(rest, rule);
        var put := Put(rest, rule);
        assert forall i :: 0 <= i < |put| ==> put[i] in put;
      }
    }
  }

  lemma FinalAfter(rule: RedirectRule, more: seq<RedirectRule>, t: RedirectRule)
    ensures IsFinal([rule] + more, t) <==> IsFinal(more, t) || (t == rule && forall m :: m in more ==> m.fromPathname != rule.fromPathname)
  {
    var all := [rule] + more;
    if IsFinal(all, t) {
      var before, after :| all == before + [t] + after && forall r :: r in after ==> r.fromPathname != t.fromPathname;
      if before != [] {
        assert more == all[1..] == before[1..] + [t] + after;
      } else {
        assert all[0] == t && after == all[1..] == more;
      }
    }
    if IsFinal(more, t) {
      var before, after :| more == before + [t] + after && forall r :: r in after ==> r.fromPathname != t.fromPathname;
      assert all == ([rule] + before) + [t] + after;
    }
    if t == rule && forall m :: m in more ==> m.fromPathname != rule.fromPathname {
      assert all == [] + [t] + more;
    }
  }

  lemma {:induction false} FinalMembers(targets: seq<RedirectRule>, more: seq<RedirectRule>)
    requires FromDistinct(targets)
    ensures forall t :: t in FinalTargets(targets, more) <==>
      IsFinal(more, t) || (t in targets && forall m :: m in more ==> m.fromPathname != t.fromPathname)
    decreases |more|
  {
    hide IsFinal, Put, FromDistinct;
    if more == [] {
      NoFinal();
    } else {
      var rule, rest := more[0], more[1..];
      assert more == [rule] + rest;
      PutMembers(targets, rule);
      FinalMembers(Put(targets, rule), rest);
      forall t ensures IsFinal(more, t) <==> IsFinal(rest, t) || (t == rule && forall m :: m in rest ==> m.fromPathname != rule.fromPathname) {
        FinalAfter(rule, rest, t);
      }
    }
  }

  lemma NoFinal()
    ensures forall t :: !IsFinal([], t)
  {
  }

  lemma {:induction false} FinalExists(rules: seq<RedirectRule>, pathname: string)
    ensures (exists t :: IsFinal(rules, t) && t.fromPathname == pathname) <==> exists rule :: rule in rules && rule.fromPathname == pathname
  {
    hide IsFinal;
    if rules == [] {
      NoFinal();
    } else {
      FinalExists(rules[1..], pathname);
      assert rules == [rules[0]] + rules[1..];
      forall t
        ensures IsFinal(rules, t) <==>
          (IsFinal(rules[1..], t) || (t == rules[0] && forall m :: m in rules[1..] ==> m.fromPathname != rules[0].fromPathname))
      {
        FinalAfter(rules[0], rules[1..], t);
      }
    }
  }

  lemma {:induction false} TargetForm(input: IndexInput, rule: RedirectRule)
    ensures CheckTarget(input, FinalTargets([], input.redirects), rule) == TargetError(input, rule.targetUrl)
  {
    hide IsFinal, FinalTargets;
    var targets := FinalTargets([], input.redirects);
    NoRules();
    FinalMembers([], input.redirects);
    forall pathname
      ensures HasRedirect(targets, pathname) <==> exists r :: r in input.redirects && r.fromPathname == pathname
      ensures IsActivePath(input.documents, pathname) <==>
        exists d :: d in input.documents && d.pathname == pathname && HasPage(d.pageType)
    {
      FinalExists(input.redirects, pathname);
      HasRedirectIs(targets, pathname);
      ActiveIs(input.documents, pathname);
    }
    assert "/" <= rule.targetUrl <==> StartsWith(rule.targetUrl, "/");
  }

  lemma NoRules()
    ensures FromDistinct([])
  {
  }

  lemma HasRedirectIs(targets: seq<RedirectRule>, pathname: string)
    ensures HasRedirect(targets, pathname) <==> exists t :: t in targets && t.fromPathname == pathname
  {
    if t :| t in targets && t.fromPathname == pathname {
      var i :| 0 <= i < |targets| && targets[i] == t;
    }
  }

  lemma ActiveIs(documents: seq<DocumentHead>, pathname: string)
    ensures IsActivePath(documents, pathname) <==> exists d :: d in documents && d.pathname == pathname && HasPage(d.pageType)
  {
    if d :| d in documents && d.pathname == pathname && HasPage(d.pageType) {
      var i :| 0 <= i < |documents| && documents[i] == d;
    }
  }

  // ---------- claims ----------

  /** Every document and every gone pathname claims a pathname of its own. */
  ghost predicate ClaimsApart(input: IndexInput) {
    var d, g := input.documents, input.gonePathnames;
    && (forall i, j :: 0 <= i < j < |d| ==> d[i].pathname != d[j].pathname)
    && (forall i, j :: 0 <= i < j < |g| ==> g[i] != g[j])
    && (forall document, pathname :: document in d && pathname in g ==> document.pathname != pathname)
  }

  /** No redirect starts at a gone pathname or at a document that is no redirect. */
  ghost predicate RedirectsApart(input: IndexInput) {
    forall rule :: rule in input.redirects ==>
      && rule.fromPathname !in input.gonePathnames
      && forall d :: d in input.documents && d.pathname == rule.fromPathname ==> !HasPage(d.pageType) && d.pageType != "not-found"
  }

  lemma {:induction false} SortedGone(gone: seq<string>)
    ensures var sorted := Sort(gone, Same, UnitLess);
      && (forall pathname :: pathname in sorted <==> pathname in gone)
      && (DistinctBy(sorted, Same) <==> DistinctBy(gone, Same))
  {
    hide Sort, UnitLess, DistinctBy;
    var sorted := Sort(gone, Same, UnitLess);
    SortMultiset(gone, Same, UnitLess);
    if DistinctBy(sorted, Same) {
      DistinctByMultiset(sorted, gone, Same);
    }
    if DistinctBy(gone, Same) {
      DistinctByMultiset(gone, sorted, Same);
    }
  }

  /** Two lists of routes put together have distinct pathnames if each has and they share none. */
  lemma {:induction false} DistinctTogether(a: seq<Route>, b: seq<Route>)
    ensures DistinctPaths(a + b) <==>
      DistinctPaths(a) && DistinctPaths(b) && forall r, q :: r in a && q in b ==> r.pathname != q.pathname
  {
    var all := a + b;
    assert forall i :: 0 <= i < |a| ==> all[i] == a[i];
    assert forall j :: 0 <= j < |b| ==> all[|a| + j] == b[j];
    if DistinctPaths(all) {
      forall i, j | 0 <= i < j < |b| ensures b[i].pathname != b[j].pathname {
        assert all[|a| + i].pathname != all[|a| + j].pathname;
      }
      forall r, q | r in a && q in b ensures r.pathname != q.pathname {
        var i :| 0 <= i < |a| && a[i] == r;
        var j :| 0 <= j < |b| && b[j] == q;
        assert all[i].pathname != all[|a| + j].pathname;
      }
      forall i, j | 0 <= i < j < |a| ensures a[i].pathname != a[j].pathname {
        assert all[i].pathname != all[j].pathname;
      }
    }
  }

  lemma {:induction false} ClaimsForm(input: IndexInput)
    ensures DistinctPaths(Claims(input)) <==> ClaimsApart(input)
  {
    hide Sort, UnitLess, DistinctPaths, DistinctBy, DocumentRoutes, GoneRoutes;
    var sorted := Sort(input.gonePathnames, Same, UnitLess);
    var docs, gone := DocumentRoutes(input.documents), GoneRoutes(sorted);
    DistinctTogether(docs, gone);
    SortedGone(input.gonePathnames);
    DocumentsApart(input.documents);
    GoneApart(sorted);
    PathnamesApart(input.gonePathnames);
    SharedPaths(input, docs, sorted, gone);
  }

  lemma DocumentsApart(documents: seq<DocumentHead>)
    ensures DistinctPaths(DocumentRoutes(documents)) <==>
      forall i, j :: 0 <= i < j < |documents| ==> documents[i].pathname != documents[j].pathname
  {
    var routes := DocumentRoutes(documents);
    assert forall i :: 0 <= i < |documents| ==> routes[i].pathname == documents[i].pathname;
    if DistinctPaths(routes) {
      forall i, j | 0 <= i < j < |documents| ensures documents[i].pathname != documents[j].pathname {
        assert routes[i].pathname != routes[j].pathname;
      }
    }
  }

  lemma GoneApart(pathnames: seq<string>)
    ensures DistinctPaths(GoneRoutes(pathnames)) <==> DistinctBy(pathnames, Same)
  {
    var routes := GoneRoutes(pathnames);
    assert forall i :: 0 <= i < |pathnames| ==> routes[i].pathname == Same(pathnames[i]);
    if DistinctPaths(routes) {
      forall i, j | 0 <= i < j < |pathnames| ensures Same(pathnames[i]) != Same(pathnames[j]) {
        assert routes[i].pathname != routes[j].pathname;
      }
    }
  }

  lemma PathnamesApart(pathnames: seq<string>)
    ensures DistinctBy(pathnames, Same) <==> forall i, j :: 0 <= i < j < |pathnames| ==> pathnames[i] != pathnames[j]
  {
    if DistinctBy(pathnames, Same) {
      forall i, j | 0 <= i < j < |pathnames| ensures pathnames[i] != pathnames[j] {
        assert Same(pathnames[i]) != Same(pathnames[j]);
      }
    }
  }

  lemma {:induction false} SharedPaths(input: IndexInput, docs: seq<Route>, sorted: seq<string>, gone: seq<Route>)
    requires docs == DocumentRoutes(input.documents) && gone == GoneRoutes(sorted)
    requires forall pathname :: pathname in sorted <==> pathname in input.gonePathnames
    ensures (forall r, q :: r in docs && q in gone ==> r.pathname != q.pathname) <==>
      forall document, pathname :: document in input.documents && pathname in input.gonePathnames ==> document.pathname != pathname
  {
    hide DocumentRoutes, GoneRoutes;
    if forall r, q :: r in docs && q in gone ==> r.pathname != q.pathname {
      forall document, pathname | document in input.documents && pathname in input.gonePathnames ensures document.pathname != pathname {
        var r := DocumentRoute(input.documents, document);
        var q := GoneMember(sorted, pathname);
      }
    }
    if forall document, pathname :: document in input.documents && pathname in input.gonePathnames ==> document.pathname != pathname {
      forall r, q | r in docs && q in gone ensures r.pathname != q.pathname {
        var d := RoutedDocument(input.documents, r);
        var pathname := RoutedPathname(sorted, q);
      }
    }
  }

  lemma RoutedDocument(documents: seq<DocumentHead>, route: Route) returns (d: DocumentHead)
    requires route in DocumentRoutes(documents)
    ensures d in documents && route.pathname == d.pathname
  {
    var i :| 0 <= i < |documents| && DocumentRoutes(documents)[i] == route;
    d := documents[i];
  }

  lemma RoutedPathname(pathnames: seq<string>, route: Route) returns (pathname: string)
    requires route in GoneRoutes(pathnames)
    ensures pathname in pathnames && route.pathname == pathname
  {
    var i :| 0 <= i < |pathnames| && GoneRoutes(pathnames)[i] == route;
    pathname := pathnames[i];
  }

  lemma DocumentRoute(documents: seq<DocumentHead>, d: DocumentHead) returns (route: Route)
    requires d in documents
    ensures route in DocumentRoutes(documents) && route.pathname == d.pathname
  {
    var i :| 0 <= i < |documents| && documents[i] == d;
    route := DocumentRoutes(documents)[i];
  }

  lemma GoneMember(pathnames: seq<string>, pathname: string) returns (route: Route)
    requires pathname in pathnames
    ensures route in GoneRoutes(pathnames) && route.pathname == pathname
  {
    var i :| 0 <= i < |pathnames| && pathnames[i] == pathname;
    route := GoneRoutes(pathnames)[i];
  }

  lemma {:induction false} ClashForm(input: IndexInput)
    ensures NoClash(Claims(input), input.redirects) <==> RedirectsApart(input)
  {
    hide Claims;
    ClaimsMembers(input);
    if NoClash(Claims(input), input.redirects) {
      forall rule | rule in input.redirects
        ensures rule.fromPathname !in input.gonePathnames
        ensures forall d :: d in input.documents && d.pathname == rule.fromPathname ==> !HasPage(d.pageType) && d.pageType != "not-found"
      {
        var gone := GoneRoute(rule.fromPathname);
        assert gone.pathname == rule.fromPathname && !gone.status.Redirect?;
        forall d | d in input.documents && d.pathname == rule.fromPathname ensures !HasPage(d.pageType) && d.pageType != "not-found" {
          assert RouteOf(d) in Claims(input) && RouteOf(d).pathname == rule.fromPathname;
        }
      }
    }
  }

  lemma RouteForm(d: DocumentHead, route: Route)
    ensures route == RouteOf(d) <==> IsDocumentRoute(d, route)
  {
  }

  lemma RuleForm(rule: RedirectRule, route: Route)
    ensures route == RedirectRoute(rule.fromPathname) <==> IsRuleRoute(rule, route)
  {
  }

  lemma {:induction false} CoverForm(input: IndexInput, routes: seq<Route>)
    requires Covers(input, routes)
    ensures forall route :: route in routes <==> IsRouteFor(input, route)
  {
    hide RouteOf, RedirectRoute, IsDocumentRoute, IsRuleRoute;
    forall route, d ensures route == RouteOf(d) <==> IsDocumentRoute(d, route) {
      RouteForm(d, route);
    }
    forall route, rule: RedirectRule ensures route == RedirectRoute(rule.fromPathname) <==> IsRuleRoute(rule, route) {
      RuleForm(rule, route);
    }
  }

  // ---------- the index ----------

  /** Every route of the input has a pathname and an object key that the schema accepts. */
  ghost predicate RoutesAccepted(input: IndexInput) {
    && IsIdentifier(input.siteId) && IsHost(input.canonicalDomain)
    && (forall route :: IsRouteFor(input, route) ==>
          && "/" <= route.pathname && '?' !in route.pathname && '#' !in route.pathname
          && (route.status != Gone ==> IsArtifactPath(route.objectKey)))
    && (exists i :: 0 <= i < |input.documents| && input.documents[i].pageType == "not-found"
          && forall j :: 0 <= j < |input.documents| && j != i ==> input.documents[j].pageType != "not-found")
  }

  /** There is an index exactly when all of this holds; the first that fails decides the error. */
  ghost function IndexError(input: IndexInput): Option<RouteError> {
    if input.canonicalDomain in input.knownDomains then Some(CrossSiteReference)
    else if !ClaimsApart(input) || !RedirectsApart(input) then Some(PathCollision)
    else if exists rule :: IsFinal(input.redirects, rule) && TargetError(input, rule.targetUrl).Some? then
      FirstError(input, FinalTargets([], input.redirects))
    else if !RoutesAccepted(input) then Some(IndexInvalid)
    else None
  }

  /** The error of the first target that has one. */
  ghost function FirstError(input: IndexInput, targets: seq<RedirectRule>): Option<RouteError> {
    if targets == [] then None
    else if TargetError(input, targets[0].targetUrl).Some? then TargetError(input, targets[0].targetUrl)
    else FirstError(input, targets[1..])
  }

  lemma {:induction false} FirstErrorIs(input: IndexInput, more: seq<RedirectRule>)
    ensures CheckTargets(input, FinalTargets([], input.redirects), more) == FirstError(input, more)
    ensures FirstError(input, more).Some? <==> exists rule :: rule in more && TargetError(input, rule.targetUrl).Some?
    decreases |more|
  {
    hide CheckTarget, TargetError, FinalTargets;
    if more != [] {
      TargetForm(input, more[0]);
      FirstErrorIs(input, more[1..]);
      assert more == [more[0]] + more[1..];
    }
  }

  lemma {:induction false} AcceptedForm(input: IndexInput, routes: seq<Route>)
    requires forall route :: route in routes <==> IsRouteFor(input, route)
    ensures WellFormed(input, routes) && OneNotFound(input.documents) <==> RoutesAccepted(input)
  {
    hide IsRouteFor, IsIdentifier, IsHost, IsArtifactPath;
    assert forall i :: 0 <= i < |routes| ==> routes[i] in routes;
    forall route: Route ensures IsRoute(route) <==>
      && "/" <= route.pathname && '?' !in route.pathname && '#' !in route.pathname
      && (route.status != Gone ==> IsArtifactPath(route.objectKey))
    {
      assert "/" <= route.pathname <==> route.pathname != "" && route.pathname[0] == '/';
    }
  }

  lemma {:induction false} IndexForm(input: IndexInput)
    ensures match IndexError(input)
      case Some(error) => Indexed(input) == Err(error)
      case None =>
        && Indexed(input).Ok? && Indexed(input).value.siteId == input.siteId
        && Indexed(input).value.canonicalDomain == input.canonicalDomain
        && (forall route :: route in Indexed(input).value.routes <==> IsRouteFor(input, route))
        && forall i, j :: 0 <= i < j < |Indexed(input).value.routes| ==>
             Before(Units(Indexed(input).value.routes[i].pathname), Units(Indexed(input).value.routes[j].pathname))
  {
    hide Claims, NoClash, DistinctPaths, ClaimsApart, RedirectsApart, IsFinal, TargetError, FinalTargets, CheckTargets, FirstError,
      Added, AddRedirects, ClaimAll, Sort, UnitLess, IsRouteIndex, Covers, RoutesAccepted, Increasing, WellFormed, OneNotFound, IsRouteFor, Before;
    var claims := Claims(input);
    assert [] + claims == claims;
    NoneDistinct();
    ClaimsDistinct([], claims);
    ClaimsForm(input);
    ClashForm(input);
    ClaimsUniform(input);
    NoRules();
    FinalMembers([], input.redirects);
    var targets := FinalTargets([], input.redirects);
    FirstErrorIs(input, targets);
    if DistinctPaths(claims) {
      AddExact(claims, [], input.redirects);
      if NoClash(claims, input.redirects) {
        IndexOfForm(input);
      }
    }
  }

  lemma {:induction false} IndexOfForm(input: IndexInput)
    requires DistinctPaths(Claims(input)) && NoClash(Claims(input), input.redirects)
    ensures var made := IndexOf(input, Added(Claims(input), input.redirects));
      if !RoutesAccepted(input) then made == Err(IndexInvalid)
      else
        && made.Ok? && made.value.siteId == input.siteId && made.value.canonicalDomain == input.canonicalDomain
        && (forall route :: route in made.value.routes <==> IsRouteFor(input, route))
        && forall i, j :: 0 <= i < j < |made.value.routes| ==>
             Before(Units(made.value.routes[i].pathname), Units(made.value.routes[j].pathname))
  {
    hide Claims, NoClash, DistinctPaths, Added, Sort, UnitLess, IsRouteIndex, Covers, RoutesAccepted, WellFormed, OneNotFound, IsRouteFor, Before;
    var routes := Added(Claims(input), input.redirects);
    RoutesCover(input);
    SortedPaths(routes);
    var sorted := Sort(routes, RoutePath, UnitLess);
    CoverSorted(input, routes, sorted);
    CoverForm(input, sorted);
    NotFoundCount(input, sorted);
    AcceptedForm(input, sorted);
    forall i, j | 0 <= i < j < |sorted| ensures Before(Units(sorted[i].pathname), Units(sorted[j].pathname)) {
      assert UnitLess(RoutePath(sorted[i]), RoutePath(sorted[j]));
      UnitLessExact(sorted[i].pathname, sorted[j].pathname);
    }
  }
}
