/** From compilation through planning, publishing and routing to the runtime: what is served is what was compiled. */
module Served {
  import opened Wrappers
  import opened Documents
  import opened ReleasePlans
  import opened ReleasePlanning
  import opened ReleaseProtocol
  import opened ReleaseStore
  import opened ReleaseSteps
  import opened LruCache
  import opened ResolveRuns
  import opened RouteIndexing
  import opened Runtime
  import opened RuntimeSteps
  import opened SiteCompiler
  import opened Sorting
  import opened Text
  import CacheAgreement
  import HostChoice
  import OrderIndependence
  import Pagination
  import PublishRuns
  import ReleaseSafety
  import ReplayReceipts
  import SoloRuns

  // ---------- the documents of a compilation ----------

  predicate IsKind(pageType: string) {
    IsActiveType(pageType) || pageType == "redirect" || pageType == "not-found"
  }

  /** A document says of itself what its route says of it. */
  predicate WellMade(req: CompileRequest, d: Document) {
    && d.page.siteId == req.siteId && d.page.pathname == d.pathname && d.page.pageType == d.pageType && IsKind(d.pageType)
  }

  predicate AllMade(req: CompileRequest, attempts: seq<Attempt>) {
    forall i :: 0 <= i < |attempts| && attempts[i].Ok? ==> WellMade(req, attempts[i].value)
  }

  lemma MadeConcat(req: CompileRequest, a: seq<Attempt>, b: seq<Attempt>)
    requires AllMade(req, a) && AllMade(req, b)
    ensures AllMade(req, a + b)
  {
    hide WellMade;
  }

  lemma {:induction false} ArticlesMade(tools: Tools, req: CompileRequest, titles: map<string, string>, editions: seq<Edition>)
    ensures AllMade(req, ArticleAttempts(tools, req, titles, editions))
  {
    if editions != [] {
      ArticlesMade(tools, req, titles, editions[1..]);
      MadeConcat(req, [ArticleAttempt(tools, req, titles, editions[0])], ArticleAttempts(tools, req, titles, editions[1..]));
    }
  }

  lemma {:induction false} PagesMade(tools: Tools, req: CompileRequest, kind: string, title: string, pages: seq<Pagination.ListingPage<Item>>)
    requires IsActiveType(kind)
    ensures AllMade(req, PageAttempts(tools, req, kind, title, pages))
  {
    hide Sort, DistinctBy;
    if pages != [] {
      PagesMade(tools, req, kind, title, pages[1..]);
      MadeConcat(req, [PageAttempt(tools, req, kind, title, pages[0])], PageAttempts(tools, req, kind, title, pages[1..]));
    }
  }

  lemma {:induction false} SectionMade(tools: Tools, req: CompileRequest, kind: string, pathname: string, title: string, items: seq<Item>)
    requires IsActiveType(kind)
    ensures AllMade(req, SectionAttempts(tools, req, kind, pathname, title, items))
  {
    hide Pagination.Pages, PageAttempts;
    if req.pageSize >= 1 {
      PagesMade(tools, req, kind, title, Pagination.Pages(pathname, items, req.pageSize));
    }
  }

  lemma {:induction false} SectionsMade(tools: Tools, req: CompileRequest, kind: string, listings: seq<Listing>, editions: seq<Edition>)
    requires IsActiveType(kind)
    ensures AllMade(req, SectionsAttempts(tools, req, kind, listings, editions))
  {
    hide SectionAttempts, ItemsOf, WithSlug, AllMade;
    if listings == [] {
      NoneMade(req);
    } else {
      var items := ItemsOf(WithSlug(kind, listings[0].slug, editions));
      SectionMade(tools, req, kind, listings[0].pathname, listings[0].title, items);
      SectionsMade(tools, req, kind, listings[1..], editions);
      MadeConcat(req, SectionAttempts(tools, req, kind, listings[0].pathname, listings[0].title, items),
                 SectionsAttempts(tools, req, kind, listings[1..], editions));
    }
  }

  lemma NoneMade(req: CompileRequest)
    ensures AllMade(req, [])
  {
  }

  lemma {:induction false} RedirectsMade(tools: Tools, req: CompileRequest, rules: seq<RedirectRule>)
    ensures AllMade(req, RedirectAttempts(tools, req, rules))
  {
    hide ResolveTarget;
    if rules != [] {
      RedirectsMade(tools, req, rules[1..]);
      MadeConcat(req, [RedirectAttempt(tools, req, rules[0])], RedirectAttempts(tools, req, rules[1..]));
    }
  }

  lemma NotFoundMade(tools: Tools, req: CompileRequest)
    ensures AllMade(req, [NotFoundAttempt(tools, req)])
  {
  }

  lemma {:induction false} AttemptsMade(tools: Tools, req: CompileRequest)
    ensures AllMade(req, Attempts(tools, req))
  {
    hide Sort, ArticleAttempts, SectionAttempts, SectionsAttempts, RedirectAttempts, NotFoundAttempt, ItemsOf, TitlesOf, AllMade;
    var editions := Sort(req.editions, EditionPath, tools.before);
    var p1 := ArticleAttempts(tools, req, TitlesOf(AllListings(req)), editions);
    var p2 := SectionAttempts(tools, req, "article-list", req.articlesPathname, "Articles", ItemsOf(editions));
    var p3 := SectionsAttempts(tools, req, "category", Sort(req.categories, ListingPath, tools.before), editions);
    var p4 := SectionsAttempts(tools, req, "tag", Sort(req.tags, ListingPath, tools.before), editions);
    var p5 := RedirectAttempts(tools, req, Sort(req.redirects, RulePath, tools.before));
    var p6 := [NotFoundAttempt(tools, req)];
    ArticlesMade(tools, req, TitlesOf(AllListings(req)), editions);
    SectionMade(tools, req, "article-list", req.articlesPathname, "Articles", ItemsOf(editions));
    SectionsMade(tools, req, "category", Sort(req.categories, ListingPath, tools.before), editions);
    SectionsMade(tools, req, "tag", Sort(req.tags, ListingPath, tools.before), editions);
    RedirectsMade(tools, req, Sort(req.redirects, RulePath, tools.before));
    NotFoundMade(tools, req);
    MadeConcat(req, p5, p6);
    MadeConcat(req, p4, p5 + p6);
    MadeConcat(req, p3, p4 + (p5 + p6));
    MadeConcat(req, p2, p3 + (p4 + (p5 + p6)));
    MadeConcat(req, p1, p2 + (p3 + (p4 + (p5 + p6))));
  }

  lemma {:induction false} ValuesMade(req: CompileRequest, attempts: seq<Attempt>)
    requires AllMade(req, attempts)
    ensures forall d :: d in OrderIndependence.Values(attempts) ==> WellMade(req, d)
  {
    hide WellMade;
    if attempts != [] {
      assert AllMade(req, attempts[1..]) by {
        forall i | 0 <= i < |attempts| - 1 && attempts[1..][i].Ok? ensures WellMade(req, attempts[1..][i].value) {
          assert attempts[i + 1].Ok?;
        }
      }
      ValuesMade(req, attempts[1..]);
    }
  }

  /** The output of a compilation: well-made documents, and the index of their pathnames. */
  lemma {:induction false} CompiledOutput(tools: Tools, req: CompileRequest)
    requires Compiled(tools, req).Ok?
    ensures var out := Compiled(tools, req).value;
      var input := IndexInputOf(tools, req, out.documents);
      && (forall d :: d in out.documents ==> WellMade(req, d))
      && Indexed(input) == Ok(out.routeIndex) && Indexable(input)
      && out.routeIndex.siteId == req.siteId && out.routeIndex.canonicalDomain == req.canonicalDomain
      && IsRouteIndex(out.routeIndex) && Covers(input, out.routeIndex.routes)
      && multiset(out.documents) == multiset(OrderIndependence.Values(Attempts(tools, req)))
      && OrderIndependence.AllOk(Attempts(tools, req))
  {
    hide Attempts, Sort, Indexed, WellMade, Indexable, Covers, IsRouteIndex, OrderIndependence.Values, OrderIndependence.AllOk;
    OrderIndependence.CompiledFacts(tools, req);
    var emitted := OrderIndependence.Values(Attempts(tools, req));
    AttemptsMade(tools, req);
    ValuesMade(req, Attempts(tools, req));
    SortMultiset(emitted, DocumentPath, tools.before);
    var out := Compiled(tools, req).value;
    assert out.documents == Sort(emitted, DocumentPath, tools.before);
    IndexExact(IndexInputOf(tools, req, out.documents));
  }

  // ---------- the routes of documents ----------

  lemma {:induction false} RouteIs(index: RouteIndex, route: Route)
    requires IsRouteIndex(index) && route in index.routes
    ensures FindRoute(index.routes, route.pathname) == Some(route)
  {
    hide IsRoute, IsIdentifier, IsHost;
    FoundInDistinct(index.routes, route);
  }

  lemma {:induction false} NotFoundIs(index: RouteIndex, route: Route)
    requires IsRouteIndex(index) && route in index.routes && route.status.NotFound?
    ensures FindNotFound(index.routes) == Some(route)
  {
    hide IsRoute, IsIdentifier, IsHost;
    FoundNotFound(index.routes, route);
    var found := FindNotFound(index.routes).value;
    var i :| 0 <= i < |index.routes| && index.routes[i] == route;
    var j :| 0 <= j < |index.routes| && index.routes[j] == found;
    assert i == j;
  }

  lemma {:induction false} FoundNotFound(routes: seq<Route>, route: Route)
    requires route in routes && route.status.NotFound?
    ensures FindNotFound(routes).Some?
  {
    if !routes[0].status.NotFound? {
      assert routes == [routes[0]] + routes[1..];
      FoundNotFound(routes[1..], route);
    }
  }

  // ---------- what the store holds ----------

  /** The plan's release is current for its site, and the routing manifest has the domain as the site's canonical host. */
  ghost predicate Deployed(s: Store, plan: Plan, domain: string) {
    var siteId := plan.manifest.siteId;
    && LawfulEtags(s) && AllStored(s, plan)
    && SiteCell(s, siteId).Some?
    && SiteCell(s, siteId).value.content.siteId == siteId
    && Names(SiteCell(s, siteId).value.content, plan.manifest.releaseId, ManifestHash(plan.manifest))
    && RoutingCell(s).Some?
    && TableAt(s, RoutingCell(s).value.etag).Ok?
    && Host(domain, siteId, true) in TableAt(s, RoutingCell(s).value.etag).value.hosts
  }

  /** A host, canonical or alias, that the current routing manifest has for the site. */
  ghost predicate IsHostOf(s: Store, host: string, siteId: string) {
    && RoutingCell(s).Some? && TableAt(s, RoutingCell(s).value.etag).Ok?
    && exists h :: h in TableAt(s, RoutingCell(s).value.etag).value.hosts && h.host == host && h.siteId == siteId
  }

  lemma {:induction false} LoadedTable(s: Store, etag: ETag)
    requires TableAt(s, etag).Ok?
    ensures IsRoutingTable(TableAt(s, etag).value)
  {
    hide IsRoutingTable, Sort;
    var pointer := ContentAt(s.routing, etag).value;
    var body := Read(s, RoutingKey(pointer.routingId)).value.body;
    assert RoutingOf(body).Some?;
    SortedIsTable(body.table);
  }

  /** Every host of the site leads to its release. */
  lemma {:induction false} HostRouted(s: Store, plan: Plan, domain: string, host: string, pathname: string)
    requires Deployed(s, plan, domain) && IsHostOf(s, host, plan.manifest.siteId)
    ensures CacheAgreement.Routed(s, Request(Some(host), Some(pathname)), RoutingCell(s).value.etag, plan.manifest.siteId, domain)
  {
    hide AllStored, LawfulEtags, TableAt, ChooseSite, IsRoutingTable, SiteCell, RoutingCell;
    var etag := RoutingCell(s).value.etag;
    LoadedTable(s, etag);
    var table := TableAt(s, etag).value;
    var h :| h in table.hosts && h.host == host && h.siteId == plan.manifest.siteId;
    HostChoice.ListedHostChosen(table, h, Host(domain, plan.manifest.siteId, true));
  }

  lemma OwnHost(s: Store, plan: Plan, domain: string)
    requires Deployed(s, plan, domain)
    ensures IsHostOf(s, domain, plan.manifest.siteId)
  {
    hide AllStored, LawfulEtags, TableAt, SiteCell, RoutingCell;
    assert Host(domain, plan.manifest.siteId, true).host == domain;
  }

  /** The manifest leads the reader to the very object that was planned. */
  lemma {:induction false} PlannedArtifact(s: Store, plan: Plan, u: PlannedObject)
    requires IsPlan(plan) && AllStored(s, plan) && u in plan.objects
    ensures Runtime.CheckArtifact(Read(s, KeyOf(plan, u)), plan.manifest, u.path) == Ok(u.body)
  {
    hide ByteLength, Sort, UnitLess, FindArtifact;
    assert u in Uploads(plan) && StoredExactly(s, plan, u);
    UploadFacts(plan, u);
    var i :| 0 <= i < |plan.objects| && plan.objects[i] == u;
    assert ArtifactsOf(plan.objects)[i] == ArtifactOf(u);
    assert ArtifactOf(u) in plan.manifest.objects;
    var found := FindArtifact(plan.manifest.objects, u.path);
    assert found.Some?;
    ManifestLists(plan, found.value);
    var j :| 0 <= j < |plan.objects| && found.value == ArtifactOf(plan.objects[j]);
    assert i == j;
  }

  lemma {:induction false} ManifestLoads(s: Store, plan: Plan, pointer: SitePointer)
    requires IsPlan(plan) && AllStored(s, plan)
    requires pointer.siteId == plan.manifest.siteId && Names(pointer, plan.manifest.releaseId, ManifestHash(plan.manifest))
    ensures CheckManifest(ArtifactAt(s, pointer, MANIFEST_PATH), pointer) == Ok(plan.manifest)
  {
    hide Sort, UnitLess, ByteLength;
    assert plan.manifestObject in Uploads(plan) && StoredExactly(s, plan, plan.manifestObject);
  }

  /** The state a request works with once the site's current release is loaded. */
  ghost function CurrentState(s: Store, plan: Plan, index: RouteIndex): SiteState
    requires SiteCell(s, plan.manifest.siteId).Some?
  {
    var cell := SiteCell(s, plan.manifest.siteId).value;
    SiteState(plan.manifest, cell.content, cell.etag, index)
  }

  /** The reader finds the plan's manifest and the compiled route index. */
  lemma {:induction false} SiteLoads(s: Store, input: BuildInput, plan: Plan, domain: string)
    requires Planned(input) == Ok(plan) && Deployed(s, plan, domain)
    requires IsRouteIndex(input.output.routeIndex)
    requires input.output.routeIndex.siteId == input.siteId && input.output.routeIndex.canonicalDomain == domain
    ensures plan.manifest.siteId == input.siteId && plan.manifest.releaseId == input.releaseId
    ensures SiteAt(s, input.siteId, domain, Etag(SiteCell(s, input.siteId)))
         == Ok(CurrentState(s, plan, input.output.routeIndex))
  {
    hide IsPlan, AllStored, CheckManifest, IsRouteIndex, IsIdentifier, Candidates, Planned, TableAt, ChooseSite, EtagsAgree, Runtime.CheckArtifact;
    PlannedIsPlan(input);
    var cell := SiteCell(s, input.siteId).value;
    var history := SiteHistory(s, input.siteId);
    assert EtagsAgree(history) && cell in history;
    ContentIs(history, cell);
    ManifestLoads(s, plan, cell.content);
    RoutesObject(input, plan);
    var k := |input.output.documents|;
    assert plan.objects[k] in plan.objects;
    PlannedArtifact(s, plan, plan.objects[k]);
  }

  lemma {:induction false} RoutesObject(input: BuildInput, plan: Plan)
    requires Planned(input) == Ok(plan)
    ensures var k := |input.output.documents|;
      k < |plan.objects| && plan.objects[k] == ObjectOf(ROUTES_PATH, RoutesJson(input.output.routeIndex, ""), JSON_CONTENT_TYPE)
  {
    hide Planned, DocumentObjects, MediaObjects, IsPlan, IsIdentifier, ByteLength;
    PlannedIsPlan(input);
    assert Candidates(input)[|input.output.documents|] == SiteObjects(input)[0];
  }

  /** The reader finds the compiled page under its route's key. */
  lemma {:induction false} PageLoads(s: Store, input: BuildInput, plan: Plan, state: SiteState, i: nat, route: Route)
    requires Planned(input) == Ok(plan) && AllStored(s, plan) && i < |input.output.documents|
    requires state.manifest == plan.manifest && state.pointer.siteId == input.siteId && state.pointer.releaseId == input.releaseId
    requires FindRoute(input.output.routeIndex.routes, input.output.documents[i].pathname) == Some(route) && !route.status.Gone?
    requires input.output.documents[i].page.siteId == input.siteId
    requires input.output.documents[i].page.pathname == input.output.documents[i].pathname
    ensures PageAt(s, state, route) == Ok(input.output.documents[i].page)
  {
    hide Planned, IsPlan, AllStored, IsIdentifier, ByteLength, Runtime.CheckArtifact, FindRoute, IsArtifactPath, SiteObjects, MediaObjects;
    PlannedIsPlan(input);
    var d := input.output.documents[i];
    assert Candidates(input)[i] == DocumentObject(input.output.routeIndex.routes, d);
    assert plan.objects[i] == ObjectOf(route.objectKey, DocumentBody(d), JSON_CONTENT_TYPE);
    assert plan.objects[i] in plan.objects;
    PlannedArtifact(s, plan, plan.objects[i]);
  }

  // ---------- the answers ----------

  /** The release was planned from this compilation. */
  ghost predicate Built(tools: Tools, req: CompileRequest, input: BuildInput, plan: Plan) {
    Compiled(tools, req) == Ok(input.output) && input.siteId == req.siteId && Planned(input) == Ok(plan)
  }

  ghost predicate IndexFits(req: CompileRequest, input: BuildInput) {
    var index := input.output.routeIndex;
    IsRouteIndex(index) && index.siteId == input.siteId == req.siteId && index.canonicalDomain == req.canonicalDomain
  }

  /** What a request for this pathname of the site's own domain is answered now. */
  function AnswerAt(s: Store, req: CompileRequest, pathname: string): Outcome {
    Now(s, Request(Some(req.canonicalDomain), Some(pathname)))
  }

  /** Every host of the site is answered like its own domain. */
  lemma {:induction false} HostsAgree(s: Store, req: CompileRequest, plan: Plan, host: string, pathname: string)
    requires Deployed(s, plan, req.canonicalDomain) && plan.manifest.siteId == req.siteId && IsHostOf(s, host, req.siteId)
    ensures Now(s, Request(Some(host), Some(pathname))) == AnswerAt(s, req, pathname)
  {
    hide Deployed, IsHostOf, SiteAt, ServeFrom, Now, RoutingCell, SiteCell, CacheAgreement.Routed;
    OwnHost(s, plan, req.canonicalDomain);
    HostRouted(s, plan, req.canonicalDomain, host, pathname);
    HostRouted(s, plan, req.canonicalDomain, req.canonicalDomain, pathname);
    assert RoutingCell(s).Some? by { DeployedRoutes(s, plan, req.canonicalDomain); }
    NowFromSite(s, Request(Some(host), Some(pathname)), RoutingCell(s).value.etag, req.siteId, req.canonicalDomain);
    NowFromSite(s, Request(Some(req.canonicalDomain), Some(pathname)), RoutingCell(s).value.etag, req.siteId, req.canonicalDomain);
  }

  lemma DeployedRoutes(s: Store, plan: Plan, domain: string)
    requires Deployed(s, plan, domain)
    ensures RoutingCell(s).Some?
  {
  }

  /** With the release deployed, the answer is the one from the site's current state. */
  lemma {:induction false} NowIsServed(s: Store, req: CompileRequest, input: BuildInput, plan: Plan, pathname: string)
    requires Planned(input) == Ok(plan) && Deployed(s, plan, req.canonicalDomain) && IndexFits(req, input)
    ensures plan.manifest.siteId == input.siteId && plan.manifest.releaseId == input.releaseId
    ensures AnswerAt(s, req, pathname) == ServeFrom(s, CurrentState(s, plan, input.output.routeIndex), pathname)
    ensures var pointer := CurrentState(s, plan, input.output.routeIndex).pointer;
      pointer.siteId == input.siteId && pointer.releaseId == input.releaseId
  {
    hide Planned, IsRouteIndex, TableAt, ChooseSite, SiteAt, ServeFrom, Now, AllStored, LawfulEtags, RoutingCell, SiteCell;
    OwnHost(s, plan, req.canonicalDomain);
    SiteLoads(s, input, plan, req.canonicalDomain);
    HostRouted(s, plan, req.canonicalDomain, req.canonicalDomain, pathname);
    NowFromSite(s, Request(Some(req.canonicalDomain), Some(pathname)), RoutingCell(s).value.etag, input.siteId, req.canonicalDomain);
  }

  /** What compilation makes of a document: a redirect, or a page. */
  function AnswerFor(siteId: string, releaseId: string, d: Document): Outcome {
    if d.pageType == "redirect" then RedirectResult(siteId, releaseId, d.page, d.page.targetUrl)
    else PageResult(siteId, releaseId, d.page)
  }

  predicate Unrouted(index: RouteIndex, pathname: string) {
    forall i :: 0 <= i < |index.routes| ==> index.routes[i].pathname != pathname
  }

  lemma {:induction false} BuiltFacts(tools: Tools, req: CompileRequest, input: BuildInput, plan: Plan)
    requires Built(tools, req, input, plan)
    ensures IndexFits(req, input) && Planned(input) == Ok(plan)
    ensures forall d :: d in input.output.documents ==> WellMade(req, d) && RouteOf(HeadOf(d)) in input.output.routeIndex.routes
    ensures forall pathname :: pathname in req.gonePathnames ==> GoneRoute(pathname) in input.output.routeIndex.routes
    ensures exists k :: 0 <= k < |input.output.documents| && input.output.documents[k].pageType == "not-found"
  {
    hide Compiled, Planned, IsRouteIndex, Indexed, Attempts, WellMade, Claims, NoClash, TargetsAllowed, WellFormed, RouteOf;
    CompiledOutput(tools, req);
    var out := input.output;
    var heads := IndexInputOf(tools, req, out.documents).documents;
    forall d | d in out.documents ensures RouteOf(HeadOf(d)) in out.routeIndex.routes {
      var i :| 0 <= i < |out.documents| && out.documents[i] == d;
      assert heads[i] == HeadOf(d) && HeadOf(d) in heads;
    }
    var k :| 0 <= k < |heads| && heads[k].pageType == "not-found";
    assert out.documents[k].pageType == "not-found";
  }

  lemma {:induction false} DocumentAnswer(s: Store, req: CompileRequest, input: BuildInput, plan: Plan, i: nat)
    requires Planned(input) == Ok(plan) && Deployed(s, plan, req.canonicalDomain) && IndexFits(req, input)
    requires i < |input.output.documents| && WellMade(req, input.output.documents[i])
    requires RouteOf(HeadOf(input.output.documents[i])) in input.output.routeIndex.routes
    ensures AnswerAt(s, req, input.output.documents[i].pathname) == AnswerFor(req.siteId, input.releaseId, input.output.documents[i])
  {
    hide Planned, IsRouteIndex, FindRoute, FindNotFound, PageAt, AllStored, TableAt, ChooseSite, LawfulEtags, Now;
    var d, index := input.output.documents[i], input.output.routeIndex;
    var route := RouteOf(HeadOf(d));
    RouteIs(index, route);
    NowIsServed(s, req, input, plan, d.pathname);
    PageLoads(s, input, plan, CurrentState(s, plan, index), i, route);
  }

  lemma {:induction false} GoneAnswer(s: Store, req: CompileRequest, input: BuildInput, plan: Plan, pathname: string)
    requires Planned(input) == Ok(plan) && Deployed(s, plan, req.canonicalDomain) && IndexFits(req, input)
    requires GoneRoute(pathname) in input.output.routeIndex.routes
    ensures AnswerAt(s, req, pathname) == GoneResult(req.siteId, input.releaseId)
  {
    hide Planned, Deployed, IsRouteIndex, FindRoute, FindNotFound, PageAt, Now;
    RouteIs(input.output.routeIndex, GoneRoute(pathname));
    NowIsServed(s, req, input, plan, pathname);
  }

  lemma {:induction false} MissingAnswer(s: Store, req: CompileRequest, input: BuildInput, plan: Plan, k: nat, pathname: string)
    requires Planned(input) == Ok(plan) && Deployed(s, plan, req.canonicalDomain) && IndexFits(req, input)
    requires k < |input.output.documents| && WellMade(req, input.output.documents[k])
    requires RouteOf(HeadOf(input.output.documents[k])) in input.output.routeIndex.routes
    requires input.output.documents[k].pageType == "not-found" && Unrouted(input.output.routeIndex, pathname)
    ensures AnswerAt(s, req, pathname) == NotFoundResult(req.siteId, input.releaseId, input.output.documents[k].page)
  {
    hide Planned, IsRouteIndex, FindRoute, FindNotFound, PageAt, AllStored, TableAt, ChooseSite, LawfulEtags, Now;
    var d, index := input.output.documents[k], input.output.routeIndex;
    var route := RouteOf(HeadOf(d));
    RouteIs(index, route);
    NotFoundIs(index, route);
    UnroutedFinds(index, pathname);
    NowIsServed(s, req, input, plan, pathname);
    PageLoads(s, input, plan, CurrentState(s, plan, index), k, route);
  }

  lemma UnroutedFinds(index: RouteIndex, pathname: string)
    requires Unrouted(index, pathname)
    ensures FindRoute(index.routes, pathname).None?
  {
  }

  ghost predicate ServesDocuments(s: Store, req: CompileRequest, input: BuildInput) {
    forall d :: d in input.output.documents ==> AnswerAt(s, req, d.pathname) == AnswerFor(req.siteId, input.releaseId, d)
  }

  ghost predicate ServesGone(s: Store, req: CompileRequest, input: BuildInput) {
    forall pathname :: pathname in req.gonePathnames ==> AnswerAt(s, req, pathname) == GoneResult(req.siteId, input.releaseId)
  }

  ghost predicate ServesMissing(s: Store, req: CompileRequest, input: BuildInput, page: Page) {
    forall pathname :: Unrouted(input.output.routeIndex, pathname) ==>
      AnswerAt(s, req, pathname) == NotFoundResult(req.siteId, input.releaseId, page)
  }

  /**
   200 with the compiled page at every active pathname and at the not-found page's own, 301 at every
   redirect, 410 at every gone pathname, and 404 with the compiled not-found page everywhere else.
   */
  ghost predicate ServesCompilation(s: Store, req: CompileRequest, input: BuildInput) {
    && ServesDocuments(s, req, input) && ServesGone(s, req, input)
    && exists d :: d in input.output.documents && d.pageType == "not-found" && ServesMissing(s, req, input, d.page)
  }

  lemma {:induction false} DeployedServes(s: Store, tools: Tools, req: CompileRequest, input: BuildInput, plan: Plan)
    requires Built(tools, req, input, plan) && Deployed(s, plan, req.canonicalDomain)
    ensures ServesCompilation(s, req, input)
  {
    hide Built, Planned, Deployed, IndexFits, AnswerAt, WellMade, RouteOf, Unrouted;
    BuiltFacts(tools, req, input, plan);
    var documents := input.output.documents;
    forall d | d in documents ensures AnswerAt(s, req, d.pathname) == AnswerFor(req.siteId, input.releaseId, d) {
      var i :| 0 <= i < |documents| && documents[i] == d;
      DocumentAnswer(s, req, input, plan, i);
    }
    forall pathname | pathname in req.gonePathnames
      ensures AnswerAt(s, req, pathname) == GoneResult(req.siteId, input.releaseId)
    {
      GoneAnswer(s, req, input, plan, pathname);
    }
    var k :| 0 <= k < |documents| && documents[k].pageType == "not-found";
    assert documents[k] in documents;
    forall pathname | Unrouted(input.output.routeIndex, pathname)
      ensures AnswerAt(s, req, pathname) == NotFoundResult(req.siteId, input.releaseId, documents[k].page)
    {
      MissingAnswer(s, req, input, plan, k, pathname);
    }
    assert ServesMissing(s, req, input, documents[k].page);
  }

  // ---------- redirects ----------

  /** Where following a redirect leads on this site, if it stays here. */
  function LandsAt(tools: Tools, req: CompileRequest, rule: RedirectRule): Option<string> {
    match TargetOf(IndexInputOf(tools, req, []), rule.targetUrl)
    case Ok(Internal(pathname)) => Some(pathname)
    case _ => None
  }

  /** Each redirect of the request is compiled, and if it stays on the site it lands on an active page. */
  lemma {:induction false} RedirectLands(tools: Tools, req: CompileRequest, rule: RedirectRule)
    requires Compiled(tools, req).Ok? && rule in req.redirects
    ensures var documents := Compiled(tools, req).value.documents;
      && (exists d :: d in documents && d.pathname == rule.fromPathname && d.pageType == "redirect"
                      && ResolveTarget(tools, req.canonicalDomain, rule) == Ok(d.page.targetUrl))
      && (LandsAt(tools, req, rule).Some? ==>
            exists d :: d in documents && d.pathname == LandsAt(tools, req, rule).value && IsActiveType(d.pageType))
  {
    hide Compiled, Attempts, OrderIndependence.AllOk, OrderIndependence.Values, OrderIndependence.Once, DistinctBy, Indexable, Assembled, Sort, Covers, IsRouteIndex, Indexed, WellMade, ResolveTarget, LandsAt;
    CompiledOutput(tools, req);
    OrderIndependence.RedirectEmitted(tools, req, rule);
    var documents := Compiled(tools, req).value.documents;
    OrderIndependence.SameMembers(documents, OrderIndependence.Values(Attempts(tools, req)));
    var d := RedirectAttempt(tools, req, rule).value;
    assert d in documents;
    OrderIndependence.CompiledFacts(tools, req);
    OrderIndependence.SourcesDistinct(tools, req);
    LandsOnActive(tools, req, documents, rule);
  }

  lemma {:induction false} LandsOnActive(tools: Tools, req: CompileRequest, documents: seq<Document>, rule: RedirectRule)
    requires Indexable(IndexInputOf(tools, req, documents)) && rule in req.redirects
    requires DistinctBy(req.redirects, RulePath)
    ensures LandsAt(tools, req, rule).Some? ==>
              exists d :: d in documents && d.pathname == LandsAt(tools, req, rule).value && IsActiveType(d.pageType)
  {
    hide Claims, DistinctPaths, NoClash, WellFormed, DistinctBy, OneNotFound, HasRedirect;
    var input := IndexInputOf(tools, req, documents);
    assert [] + req.redirects == req.redirects;
    OrderIndependence.TargetsAreRules([], req.redirects);
    assert RouteIndexing.CheckTarget(input, req.redirects, rule).None?;
    if LandsAt(tools, req, rule).Some? {
      var pathname := LandsAt(tools, req, rule).value;
      var i :| 0 <= i < |input.documents| && input.documents[i].pathname == pathname && IsActiveType(input.documents[i].pageType);
      assert input.documents[i] == HeadOf(documents[i]) && documents[i] in documents;
    }
  }

  /** A deployed redirect is answered with 301, and its target on this site, if it has one, with a page at once. */
  lemma {:induction false} RedirectIsOneHop(
    s: Store, tools: Tools, req: CompileRequest, input: BuildInput, plan: Plan, rule: RedirectRule)
    requires Built(tools, req, input, plan) && Deployed(s, plan, req.canonicalDomain) && rule in req.redirects
    ensures AnswerAt(s, req, rule.fromPathname).RedirectResult?
    ensures ResolveTarget(tools, req.canonicalDomain, rule) == Ok(AnswerAt(s, req, rule.fromPathname).targetUrl)
    ensures LandsAt(tools, req, rule).Some? ==> AnswerAt(s, req, LandsAt(tools, req, rule).value).PageResult?
  {
    hide Planned, Deployed, AnswerAt, ResolveTarget, LandsAt, ServesGone, ServesMissing, Compiled;
    DeployedServes(s, tools, req, input, plan);
    RedirectLands(tools, req, rule);
  }

  // ---------- from the runs that deploy it ----------

  /** The routing table has the site's own domain as its canonical host. */
  predicate TableFits(table: RoutingTable, req: CompileRequest) {
    Host(req.canonicalDomain, req.siteId, true) in table.hosts
  }

  /** A solo publish of the plan and a solo publish of the routing table deploy it. */
  lemma {:induction false} RunsDeploy(s: Store, publisher: Publisher, plan: Plan, r: RoutingRequest, domain: string)
    requires Sound(s) && IsPlan(plan) && Matches(publisher, plan)
    requires PublishRuns.SoloPublish(s, publisher, plan).1.Published?
    requires SoloRuns.SoloRouting(PublishRuns.SoloPublish(s, publisher, plan).0, r).1.Routed?
    requires Host(domain, plan.manifest.siteId, true) in r.table.hosts
    ensures Deployed(SoloRuns.SoloRouting(PublishRuns.SoloPublish(s, publisher, plan).0, r).0, plan, domain)
  {
    hide IsPlan, PublishRuns.SoloPublish, SoloRuns.SoloRouting, IsIdentifier, IsRoutingTable, Sort;
    var (t, end) := PublishRuns.SoloPublish(s, publisher, plan);
    var (u, routed) := SoloRuns.SoloRouting(t, r);
    PublishRuns.SoloPublishSucceeds(s, publisher, plan);
    SoloRuns.SoloRoutingSucceeds(t, r);
    SoloRuns.RoutingKeepsSound(t, r);
    assert SiteCell(u, plan.manifest.siteId) == SiteCell(t, plan.manifest.siteId);
    UploadsStay(t, u, plan);
    PointerOfSite(t, plan.manifest.siteId);
    TableLoads(u, r);
    SortedIsTable(r.table);
  }

  lemma {:induction false} PointerOfSite(s: Store, siteId: string)
    requires Sound(s) && SiteCell(s, siteId).Some?
    ensures SiteCell(s, siteId).value.content.siteId == siteId
  {
    hide Complete, LawfulEtags, ObjectsSound;
    var history := SiteHistory(s, siteId);
    assert history[|history| - 1].content.siteId == siteId;
  }

  lemma {:induction false} TableLoads(s: Store, r: RoutingRequest)
    requires Sound(s) && RoutingCell(s).Some? && RoutingCell(s).value.content == RoutingPointerOf(r)
    requires RoutingKey(r.routingId) in s.objects && s.objects[RoutingKey(r.routingId)].body == RoutingBody(r.table)
    requires IsRoutingTable(r.table)
    ensures TableAt(s, RoutingCell(s).value.etag) == Ok(SortedTable(r.table))
  {
    hide PointersSound, IsRoutingTable;
    SortedIsTable(r.table);
    var cell := RoutingCell(s).value;
    assert EtagsAgree(s.routing) && cell in s.routing;
    ContentIs(s.routing, cell);
  }

  /** Every request to a host of the site, at any time and through any sound caches, is answered like this. */
  ghost predicate ServesThroughCaches(s: Store, req: CompileRequest) {
    forall c: Config, caches: Caches, now: int, host: string, pathname: string ::
      CacheAgreement.CachesOk(s, caches) && IsHostOf(s, host, req.siteId) ==>
        var end := RunRequest(s, c, caches, now, Request(Some(host), Some(pathname)), Arriving).1;
        end.Resolved? && end.outcome == AnswerAt(s, req, pathname)
  }

  lemma {:induction false} DeployedServesThroughCaches(s: Store, req: CompileRequest, plan: Plan)
    requires Deployed(s, plan, req.canonicalDomain) && plan.manifest.siteId == req.siteId
    ensures ServesThroughCaches(s, req)
  {
    hide RunRequest, Now, CacheAgreement.CachesOk, IsHostOf, AllStored, TableAt, RoutingCell, SiteCell;
    forall c: Config, caches: Caches, now: int, host: string, pathname: string
      | CacheAgreement.CachesOk(s, caches) && IsHostOf(s, host, req.siteId)
      ensures var end := RunRequest(s, c, caches, now, Request(Some(host), Some(pathname)), Arriving).1;
        end.Resolved? && end.outcome == AnswerAt(s, req, pathname)
    {
      UninterruptedResolve(s, c, caches, now, Request(Some(host), Some(pathname)));
      HostsAgree(s, req, plan, host, pathname);
    }
  }

  /**
   What is served is what was compiled: compile, plan, publish and publish routing, each by itself
   and with success, and the runtime answers every request to a host that the table has for the site
   from the compilation, with any caches that are sound.
   */
  lemma {:induction false} ServedIsCompiled(
    s: Store, tools: Tools, req: CompileRequest, input: BuildInput, plan: Plan, publisher: Publisher, r: RoutingRequest)
    requires Sound(s) && Built(tools, req, input, plan) && TableFits(r.table, req) && Matches(publisher, plan)
    requires PublishRuns.SoloPublish(s, publisher, plan).1.Published?
    requires SoloRuns.SoloRouting(PublishRuns.SoloPublish(s, publisher, plan).0, r).1.Routed?
    ensures var t := SoloRuns.SoloRouting(PublishRuns.SoloPublish(s, publisher, plan).0, r).0;
      && ServesCompilation(t, req, input) && ServesThroughCaches(t, req)
      && (forall h :: h in r.table.hosts && h.siteId == req.siteId ==> IsHostOf(t, h.host, req.siteId))
  {
    hide Sound, Compiled, Planned, PublishRuns.SoloPublish, SoloRuns.SoloRouting, IsPlan, IsIdentifier, ServesThroughCaches,
      ServesCompilation, Deployed, IsHostOf;
    PlannedIsPlan(input);
    RunsDeploy(s, publisher, plan, r, req.canonicalDomain);
    var t := SoloRuns.SoloRouting(PublishRuns.SoloPublish(s, publisher, plan).0, r).0;
    DeployedServes(t, tools, req, input, plan);
    DeployedServesThroughCaches(t, req, plan);
    RoutedHosts(PublishRuns.SoloPublish(s, publisher, plan).0, r, req.siteId) by {
      PublishRuns.SoloPublishSucceeds(s, publisher, plan);
    }
  }

  /** The hosts of the table that was published are the hosts of the site. */
  lemma {:induction false} RoutedHosts(s: Store, r: RoutingRequest, siteId: string)
    requires Sound(s) && SoloRuns.SoloRouting(s, r).1.Routed?
    ensures forall h :: h in r.table.hosts && h.siteId == siteId ==> IsHostOf(SoloRuns.SoloRouting(s, r).0, h.host, siteId)
  {
    hide Sound, SoloRuns.SoloRouting, IsRoutingTable, TableAt, Sort;
    SoloRuns.SoloRoutingSucceeds(s, r);
    SoloRuns.RoutingKeepsSound(s, r);
    TableLoads(SoloRuns.SoloRouting(s, r).0, r);
    SortedIsTable(r.table);
  }

  /**
   The same of every store that any interleaving of publishes, rollbacks and routing publishes can
   reach: as long as the site's pointer names the release and the current routing manifest has the
   domain as the site's canonical host, requests to its hosts are answered from the compilation.
   */
  lemma {:induction false} CurrentIsServed(
    run: seq<ReleaseProtocol.Event>, tools: Tools, req: CompileRequest, input: BuildInput, plan: Plan,
    cell: Cell<SitePointer>, routing: Cell<RoutingPointer>)
    requires ReleaseProtocol.Possible(EMPTY_WORLD, run) && Built(tools, req, input, plan)
    requires var s := ReleaseSafety.Store0(run);
      && SiteCell(s, req.siteId) == Some(cell) && Names(cell.content, input.releaseId, ManifestHash(plan.manifest))
      && RoutingCell(s) == Some(routing) && TableAt(s, routing.etag).Ok? && TableFits(TableAt(s, routing.etag).value, req)
    ensures var s := ReleaseSafety.Store0(run); ServesCompilation(s, req, input) && ServesThroughCaches(s, req)
  {
    hide ReleaseProtocol.Possible, ReleaseProtocol.After, Compiled, Planned, IsPlan, IsIdentifier, ServesThroughCaches,
      ServesCompilation, TableAt, AllStored, ReleaseProtocol.ClientInv;
    PlannedIsPlan(input);
    ReleaseSafety.ReachableHolds(run);
    var s := ReleaseSafety.Store0(run);
    assert Sound(s);
    ReplayReceipts.NamedIsStored(s, plan, cell);
    PointerOfSite(s, req.siteId);
    assert Deployed(s, plan, req.canonicalDomain);
    DeployedServes(s, tools, req, input, plan);
    DeployedServesThroughCaches(s, req, plan);
  }
}
