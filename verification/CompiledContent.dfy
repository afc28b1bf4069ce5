/**
 What a compilation holds: one document for each article, each page of each listing, each redirect
 and the not-found page, and nothing else.
 */
module CompiledContent {
  import opened Wrappers
  import opened Documents
  import opened Pagination
  import opened RouteIndexing
  import opened SiteCompiler
  import opened Sorting
  import opened Text
  import OrderIndependence

  // ---------- the documents, one by one ----------

  predicate IsPageOf(
    req: CompileRequest, d: Document, pathname: string, pageType: string, indexed: bool, modifiedAt: string, targetUrl: string)
  {
    d == Document(pathname, pageType, indexed, modifiedAt, Page(req.siteId, pathname, pageType, targetUrl, d.page.content))
  }

  function RelatedTo(req: CompileRequest, e: Edition): Option<string> {
    if e.editionId in req.related then Some(req.related[e.editionId]) else None
  }

  /** `title` is that of the last of these listings at a pathname. */
  ghost predicate IsLastTitle(listings: seq<Listing>, pathname: string, title: string) {
    exists i ::
      && 0 <= i < |listings| && listings[i].pathname == pathname && listings[i].title == title
      && forall j :: i < j < |listings| ==> listings[j].pathname != pathname
  }

  /** The article listing comes first, then the categories, then the tags. */
  ghost predicate IsTitleAt(req: CompileRequest, pathname: string, title: string) {
    IsLastTitle([Listing(req.articlesPathname, "", "Articles")] + req.categories + req.tags, pathname, title)
  }

  /** The titles for breadcrumbs. */
  ghost predicate AreTitles(req: CompileRequest, titles: map<string, string>) {
    forall pathname, title :: pathname in titles && titles[pathname] == title <==> IsTitleAt(req, pathname, title)
  }

  ghost predicate ShowsEdition(tools: Tools, req: CompileRequest, d: Document, e: Edition) {
    && IsPageOf(req, d, e.pathname, "article", true, e.modifiedAt, "")
    && exists titles :: AreTitles(req, titles) && tools.article(e, RelatedTo(req, e), titles) == Some(d.page.content)
  }

  /** The listings of a site: all articles, every category and every tag. */
  predicate IsSection(req: CompileRequest, kind: string, l: Listing) {
    || (kind == "article-list" && l == Listing(req.articlesPathname, "", "Articles"))
    || (kind == "category" && l in req.categories)
    || (kind == "tag" && l in req.tags)
  }

  predicate Carries(kind: string, l: Listing, e: Edition) {
    || kind == "article-list"
    || (kind == "category" && l.slug in e.categories)
    || (kind == "tag" && l.slug in e.tags)
  }

  /** What a listing shows of an edition. */
  predicate ShowsItem(x: Item, e: Edition) {
    && x.pathname == e.pathname && x.title == e.title && x.description == e.summary
    && x.publishedAt == e.publishedAt && x.modifiedAt == e.modifiedAt
    && x.pageId == "page-" + NatText(e.editionId)
  }

  /** Exactly the editions that belong to a listing, each once, in order of pathname. */
  ghost predicate Lists(tools: Tools, req: CompileRequest, kind: string, l: Listing, items: seq<Item>) {
    && (forall i, j :: 0 <= i < j < |items| ==> tools.before(items[i].pathname, items[j].pathname))
    && forall x :: x in items <==> exists e :: e in req.editions && Carries(kind, l, e) && ShowsItem(x, e)
  }

  ghost predicate ShowsPage(
    tools: Tools, req: CompileRequest, d: Document, kind: string, l: Listing, items: seq<Item>, page: ListingPage<Item>)
  {
    && req.pageSize >= 1 && IsPageOfListing(l.pathname, items, req.pageSize, page)
    && IsPageOf(req, d, page.pathname, kind, true, req.now, "")
    && tools.listing(kind, l.title, page) == Some(d.page.content)
  }

  /** The target that a redirect's document names: an absolute https URL that is not the redirect's own. */
  predicate IsTarget(tools: Tools, domain: string, rule: RedirectRule, target: string) {
    && rule.targetUrl != "" && "/" <= rule.fromPathname && target != "https://" + domain + rule.fromPathname
    && if "/" <= rule.targetUrl then target == "https://" + domain + rule.targetUrl
       else target == rule.targetUrl && tools.parseUrl(target).Some? && tools.parseUrl(target).value.protocol == "https:"
  }

  predicate ShowsRedirect(tools: Tools, req: CompileRequest, d: Document, rule: RedirectRule) {
    && IsTarget(tools, req.canonicalDomain, rule, d.page.targetUrl)
    && IsPageOf(req, d, rule.fromPathname, "redirect", false, req.now, d.page.targetUrl)
    && tools.redirect(rule.fromPathname, d.page.targetUrl) == Some(d.page.content)
  }

  predicate ShowsNotFound(tools: Tools, req: CompileRequest, d: Document) {
    && IsPageOf(req, d, req.notFoundPathname, "not-found", false, req.now, "")
    && tools.notFound(req.notFoundPathname) == Some(d.page.content)
  }

  ghost predicate IsArticle(tools: Tools, req: CompileRequest, d: Document) {
    exists e :: e in req.editions && ShowsEdition(tools, req, d, e)
  }

  ghost predicate IsListingPage(tools: Tools, req: CompileRequest, d: Document) {
    exists kind, l, items, page ::
      IsSection(req, kind, l) && Lists(tools, req, kind, l, items) && ShowsPage(tools, req, d, kind, l, items, page)
  }

  ghost predicate IsRedirect(tools: Tools, req: CompileRequest, d: Document) {
    exists rule :: rule in req.redirects && ShowsRedirect(tools, req, d, rule)
  }

  // ---------- attempts and what they were made for ----------

  lemma {:induction false} ValuesExact(attempts: seq<Attempt>, d: Document)
    requires OrderIndependence.AllOk(attempts)
    ensures d in OrderIndependence.Values(attempts) <==> Ok(d) in attempts
  {
    if attempts != [] {
      assert OrderIndependence.AllOk(attempts[1..]) by {
        forall j | 0 <= j < |attempts| - 1 ensures attempts[1..][j].Ok? { assert attempts[j + 1].Ok?; }
      }
      ValuesExact(attempts[1..], d);
      assert attempts[0].Ok? && attempts == [attempts[0]] + attempts[1..];
    }
  }

  lemma {:induction false} ArticlesExact(
    tools: Tools, req: CompileRequest, titles: map<string, string>, editions: seq<Edition>, a: Attempt)
    ensures a in ArticleAttempts(tools, req, titles, editions)
       <==> exists e :: e in editions && a == ArticleAttempt(tools, req, titles, e)
  {
    hide ArticleAttempt;
    if editions != [] {
      ArticlesExact(tools, req, titles, editions[1..], a);
      assert editions == [editions[0]] + editions[1..];
    }
  }

  lemma {:induction false} PagesExact(
    tools: Tools, req: CompileRequest, kind: string, title: string, pages: seq<ListingPage<Item>>, a: Attempt)
    ensures a in PageAttempts(tools, req, kind, title, pages)
       <==> exists page :: page in pages && a == PageAttempt(tools, req, kind, title, page)
  {
    hide PageAttempt;
    if pages != [] {
      PagesExact(tools, req, kind, title, pages[1..], a);
      assert pages == [pages[0]] + pages[1..];
    }
  }

  function ItemsFor(kind: string, l: Listing, editions: seq<Edition>): seq<Item> {
    ItemsOf(WithSlug(kind, l.slug, editions))
  }

  lemma {:induction false} SectionsExact(
    tools: Tools, req: CompileRequest, kind: string, listings: seq<Listing>, editions: seq<Edition>, a: Attempt)
    ensures a in SectionsAttempts(tools, req, kind, listings, editions)
       <==> exists l :: l in listings && a in SectionAttempts(tools, req, kind, l.pathname, l.title, ItemsFor(kind, l, editions))
  {
    hide SectionAttempts;
    if listings != [] {
      SectionsExact(tools, req, kind, listings[1..], editions, a);
      assert listings == [listings[0]] + listings[1..];
    }
  }

  lemma {:induction false} RedirectsExact(tools: Tools, req: CompileRequest, rules: seq<RedirectRule>, a: Attempt)
    ensures a in RedirectAttempts(tools, req, rules) <==> exists rule :: rule in rules && a == RedirectAttempt(tools, req, rule)
  {
    hide RedirectAttempt;
    if rules != [] {
      RedirectsExact(tools, req, rules[1..], a);
      assert rules == [rules[0]] + rules[1..];
    }
  }

  // ---------- the items of a listing ----------

  lemma {:induction false} ItemsAre(editions: seq<Edition>)
    ensures |ItemsOf(editions)| == |editions|
    ensures forall i :: 0 <= i < |editions| ==> ItemsOf(editions)[i] == ItemOf(editions[i])
  {
    if editions != [] {
      ItemsAre(editions[1..]);
    }
  }

  lemma {:induction false} SlugsFilter(kind: string, slug: string, editions: seq<Edition>, before: (string, string) -> bool)
    requires Increasing(editions, EditionPath, before)
    ensures Increasing(WithSlug(kind, slug, editions), EditionPath, before)
    ensures forall e :: e in WithSlug(kind, slug, editions) <==> e in editions && slug in SlugsOf(kind, e)
  {
    if editions != [] {
      assert editions == [editions[0]] + editions[1..];
      assert Increasing(editions[1..], EditionPath, before) by {
        forall i, j | 0 <= i < j < |editions| - 1 ensures before(EditionPath(editions[1..][i]), EditionPath(editions[1..][j])) {
          assert before(EditionPath(editions[i + 1]), EditionPath(editions[j + 1]));
        }
      }
      SlugsFilter(kind, slug, editions[1..], before);
      var rest := WithSlug(kind, slug, editions[1..]);
      forall i | 0 <= i < |rest| ensures before(EditionPath(editions[0]), EditionPath(rest[i])) {
        assert rest[i] in editions[1..];
        var k :| 0 <= k < |editions| - 1 && editions[1..][k] == rest[i];
        assert editions[k + 1] == rest[i];
      }
    }
  }

  lemma {:induction false} ItemsList(tools: Tools, req: CompileRequest, kind: string, l: Listing, chosen: seq<Edition>)
    requires Increasing(chosen, EditionPath, tools.before)
    requires forall e :: e in chosen <==> e in req.editions && Carries(kind, l, e)
    ensures Lists(tools, req, kind, l, ItemsOf(chosen))
  {
    hide Carries, ItemOf, ShowsItem;
    ItemsAre(chosen);
    var items := ItemsOf(chosen);
    forall i, j | 0 <= i < j < |items| ensures tools.before(items[i].pathname, items[j].pathname) {
      ItemAt(chosen[i]);
      ItemAt(chosen[j]);
      assert tools.before(EditionPath(chosen[i]), EditionPath(chosen[j]));
    }
    forall x ensures x in items <==> exists e :: e in req.editions && Carries(kind, l, e) && ShowsItem(x, e) {
      if x in items {
        var i :| 0 <= i < |items| && items[i] == x;
        ItemShows(x, chosen[i]);
        assert chosen[i] in chosen;
      }
      if e :| e in req.editions && Carries(kind, l, e) && ShowsItem(x, e) {
        ItemShows(x, e);
        var i :| 0 <= i < |chosen| && chosen[i] == e;
        assert items[i] == x;
      }
    }
  }

  lemma ItemAt(e: Edition)
    ensures ItemOf(e).pathname == EditionPath(e)
  {
  }

  lemma ItemShows(x: Item, e: Edition)
    ensures ShowsItem(x, e) <==> x == ItemOf(e)
  {
  }

  /** The items a category or tag is compiled from are the ones it lists. */
  lemma {:induction false} SectionLists(tools: Tools, req: CompileRequest, kind: string, l: Listing)
    requires StrictTotalOrder(tools.before) && DistinctBy(req.editions, EditionPath)
    requires kind == "category" || kind == "tag"
    ensures Lists(tools, req, kind, l, ItemsFor(kind, l, Sort(req.editions, EditionPath, tools.before)))
  {
    hide Sort, Lists, ItemsOf, WithSlug, StrictTotalOrder, Increasing, DistinctBy;
    var editions := Sort(req.editions, EditionPath, tools.before);
    SortIncreasing(req.editions, EditionPath, tools.before);
    SlugsFilter(kind, l.slug, editions, tools.before);
    ItemsList(tools, req, kind, l, WithSlug(kind, l.slug, editions));
  }

  lemma {:induction false} ArticlesList(tools: Tools, req: CompileRequest, l: Listing)
    requires StrictTotalOrder(tools.before) && DistinctBy(req.editions, EditionPath)
    ensures Lists(tools, req, "article-list", l, ItemsOf(Sort(req.editions, EditionPath, tools.before)))
  {
    hide Sort, Lists, ItemsOf, StrictTotalOrder, Increasing, DistinctBy;
    SortIncreasing(req.editions, EditionPath, tools.before);
    ItemsList(tools, req, "article-list", l, Sort(req.editions, EditionPath, tools.before));
  }

  /** A listing determines its items. */
  lemma {:induction false} ListsUnique(tools: Tools, req: CompileRequest, kind: string, l: Listing, a: seq<Item>, b: seq<Item>)
    requires StrictTotalOrder(tools.before) && Lists(tools, req, kind, l, a) && Lists(tools, req, kind, l, b)
    ensures a == b
  {
    hide StrictTotalOrder, Carries, ShowsItem;
    IncreasingUnique(a, b, ItemPath, tools.before);
  }

  // ---------- the pages of a listing ----------

  /** Compiling a page sorts its items again, which changes nothing, and finds no repeated pathname. */
  lemma {:induction false} PageShows(
    tools: Tools, req: CompileRequest, kind: string, l: Listing, items: seq<Item>, page: ListingPage<Item>, d: Document)
    requires StrictTotalOrder(tools.before) && Increasing(items, ItemPath, tools.before)
    requires req.pageSize >= 1 && page in Pages(l.pathname, items, req.pageSize)
    ensures PageAttempt(tools, req, kind, l.title, page) == Ok(d) <==> ShowsPage(tools, req, d, kind, l, items, page)
  {
    hide Sort, PageCount, ListingPagePathname, IsPageOfListing, PageAt;
    PageForm(l.pathname, items, req.pageSize, page);
    var i :| 0 <= i < PageCount(|items|, req.pageSize) && page == PageAt(l.pathname, items, req.pageSize, i + 1);
    PagePart(tools, req, items, l.pathname, i + 1);
    SortFixed(page.items, ItemPath, tools.before);
    assert page.(items := Sort(page.items, ItemPath, tools.before)) == page;
    assert DistinctBy(page.items, ItemPath) by {
      forall i, j | 0 <= i < j < |page.items| ensures ItemPath(page.items[i]) != ItemPath(page.items[j]) {
        assert tools.before(ItemPath(page.items[i]), ItemPath(page.items[j]));
      }
    }
  }

  lemma {:induction false} PagePart(tools: Tools, req: CompileRequest, items: seq<Item>, pathname: string, n: nat)
    requires Increasing(items, ItemPath, tools.before) && req.pageSize >= 1 && n >= 1
    ensures Increasing(PageAt(pathname, items, req.pageSize, n).items, ItemPath, tools.before)
  {
    hide PageCount, ListingPagePathname, Increasing, Slice;
    assert (n - 1) * req.pageSize <= n * req.pageSize;
    SlicePart(items, (n - 1) * req.pageSize, n * req.pageSize, tools.before);
  }

  lemma {:induction false} SlicePart(items: seq<Item>, from: nat, to: nat, before: (string, string) -> bool)
    requires from <= to && Increasing(items, ItemPath, before)
    ensures Increasing(Slice(items, from, to), ItemPath, before)
  {
    var part := Slice(items, from, to);
    var start := Min(from, |items|);
    forall i, j | 0 <= i < j < |part| ensures before(ItemPath(part[i]), ItemPath(part[j])) {
      assert part[i] == items[start + i] && part[j] == items[start + j];
    }
  }

  lemma {:induction false} SectionShows(
    tools: Tools, req: CompileRequest, kind: string, l: Listing, items: seq<Item>, d: Document)
    requires StrictTotalOrder(tools.before) && Increasing(items, ItemPath, tools.before)
    ensures Ok(d) in SectionAttempts(tools, req, kind, l.pathname, l.title, items)
       <==> exists page :: ShowsPage(tools, req, d, kind, l, items, page)
  {
    hide PageAttempts, PageAttempt, Pages, StrictTotalOrder, Increasing, IsPageOf, ShowsPage;
    if req.pageSize >= 1 {
      var pages := Pages(l.pathname, items, req.pageSize);
      PagesExact(tools, req, kind, l.title, pages, Ok(d));
      forall page | page in pages
        ensures PageAttempt(tools, req, kind, l.title, page) == Ok(d) <==> ShowsPage(tools, req, d, kind, l, items, page)
      {
        PageShows(tools, req, kind, l, items, page, d);
      }
      if page :| ShowsPage(tools, req, d, kind, l, items, page) {
        ShownIsPage(tools, req, d, kind, l, items, page);
      }
    } else {
      NoPages(tools, req, d, kind, l, items);
    }
  }

  lemma NoPages(tools: Tools, req: CompileRequest, d: Document, kind: string, l: Listing, items: seq<Item>)
    ensures req.pageSize < 1 ==> forall page :: !ShowsPage(tools, req, d, kind, l, items, page)
  {
  }

  lemma ShownIsPage(
    tools: Tools, req: CompileRequest, d: Document, kind: string, l: Listing, items: seq<Item>, page: ListingPage<Item>)
    requires ShowsPage(tools, req, d, kind, l, items, page)
    ensures req.pageSize >= 1 && page in Pages(l.pathname, items, req.pageSize)
  {
    hide IsPageOfListing, Pages;
    PageForm(l.pathname, items, req.pageSize, page);
  }

  // ---------- titles ----------

  lemma {:induction false} TitlesForm(listings: seq<Listing>, pathname: string, title: string)
    ensures pathname in TitlesOf(listings) && TitlesOf(listings)[pathname] == title <==> IsLastTitle(listings, pathname, title)
  {
    if listings != [] {
      var n := |listings| - 1;
      TitlesForm(listings[..n], pathname, title);
      if listings[n].pathname != pathname {
        if IsLastTitle(listings[..n], pathname, title) {
          var i :| 0 <= i < n && listings[..n][i].pathname == pathname && listings[..n][i].title == title
                   && forall j :: i < j < n ==> listings[..n][j].pathname != pathname;
          assert forall j :: i < j < n ==> listings[j] == listings[..n][j];
        }
        if IsLastTitle(listings, pathname, title) {
          var i :| 0 <= i <= n && listings[i].pathname == pathname && listings[i].title == title
                   && forall j :: i < j <= n ==> listings[j].pathname != pathname;
          assert listings[..n][i] == listings[i];
        }
      }
    }
  }

  lemma {:induction false} TitlesAre(req: CompileRequest)
    ensures forall titles :: AreTitles(req, titles) <==> titles == TitlesOf(AllListings(req))
  {
    var all := TitlesOf(AllListings(req));
    forall pathname, title ensures pathname in all && all[pathname] == title <==> IsTitleAt(req, pathname, title) {
      TitlesForm(AllListings(req), pathname, title);
    }
    forall titles | AreTitles(req, titles) ensures titles == all {
      forall pathname ensures pathname in titles <==> pathname in all
        ensures pathname in titles ==> titles[pathname] == all[pathname]
      {
        SameTitle(req, titles, all, pathname);
      }
    }
  }

  lemma SameTitle(req: CompileRequest, a: map<string, string>, b: map<string, string>, pathname: string)
    requires AreTitles(req, a) && AreTitles(req, b)
    ensures pathname in a <==> pathname in b
    ensures pathname in a ==> a[pathname] == b[pathname]
  {
    hide IsTitleAt;
    if pathname in a {
      assert IsTitleAt(req, pathname, a[pathname]);
    }
    if pathname in b {
      assert IsTitleAt(req, pathname, b[pathname]);
    }
  }

  // ---------- the whole site ----------

  lemma EditionShows(tools: Tools, req: CompileRequest, e: Edition, d: Document)
    ensures ArticleAttempt(tools, req, TitlesOf(AllListings(req)), e) == Ok(d) <==> ShowsEdition(tools, req, d, e)
  {
    hide AreTitles, TitlesOf, AllListings;
    TitlesAre(req);
    assert AreTitles(req, TitlesOf(AllListings(req)));
  }

  lemma RuleShows(tools: Tools, req: CompileRequest, rule: RedirectRule, d: Document)
    ensures RedirectAttempt(tools, req, rule) == Ok(d) <==> ShowsRedirect(tools, req, d, rule)
  {
    hide ResolveTarget, IsTarget;
    TargetIs(tools, req.canonicalDomain, rule, d.page.targetUrl);
    var resolved := ResolveTarget(tools, req.canonicalDomain, rule);
    if resolved.Ok? {
      TargetIs(tools, req.canonicalDomain, rule, resolved.value);
    }
  }

  lemma TargetIs(tools: Tools, domain: string, rule: RedirectRule, target: string)
    ensures ResolveTarget(tools, domain, rule) == Ok(target) <==> IsTarget(tools, domain, rule, target)
  {
    assert StartsWith(rule.targetUrl, "/") <==> "/" <= rule.targetUrl;
    assert StartsWith(rule.fromPathname, "/") <==> "/" <= rule.fromPathname;
  }

  lemma {:induction false} ArticlesShow(tools: Tools, req: CompileRequest, d: Document)
    ensures Ok(d) in ArticleAttempts(tools, req, TitlesOf(AllListings(req)), Sort(req.editions, EditionPath, tools.before))
       <==> IsArticle(tools, req, d)
  {
    hide ArticleAttempts, ArticleAttempt, ShowsEdition, TitlesOf, Sort;
    var editions := Sort(req.editions, EditionPath, tools.before);
    ArticlesExact(tools, req, TitlesOf(AllListings(req)), editions, Ok(d));
    forall e ensures ArticleAttempt(tools, req, TitlesOf(AllListings(req)), e) == Ok(d) <==> ShowsEdition(tools, req, d, e) {
      EditionShows(tools, req, e, d);
    }
  }

  lemma {:induction false} RedirectsShow(tools: Tools, req: CompileRequest, d: Document)
    ensures Ok(d) in RedirectAttempts(tools, req, Sort(req.redirects, RulePath, tools.before)) <==> IsRedirect(tools, req, d)
  {
    hide RedirectAttempts, RedirectAttempt, ShowsRedirect, Sort;
    RedirectsExact(tools, req, Sort(req.redirects, RulePath, tools.before), Ok(d));
    forall rule ensures RedirectAttempt(tools, req, rule) == Ok(d) <==> ShowsRedirect(tools, req, d, rule) {
      RuleShows(tools, req, rule, d);
    }
  }

  /** A page of one listing. */
  ghost predicate IsPageIn(tools: Tools, req: CompileRequest, kind: string, l: Listing, d: Document) {
    exists items, page :: Lists(tools, req, kind, l, items) && ShowsPage(tools, req, d, kind, l, items, page)
  }

  lemma {:induction false} ListingShows(tools: Tools, req: CompileRequest, kind: string, l: Listing, items: seq<Item>, d: Document)
    requires StrictTotalOrder(tools.before) && Lists(tools, req, kind, l, items)
    ensures Ok(d) in SectionAttempts(tools, req, kind, l.pathname, l.title, items) <==> IsPageIn(tools, req, kind, l, d)
  {
    hide SectionAttempts, ShowsPage, StrictTotalOrder;
    SectionShows(tools, req, kind, l, items, d);
    if IsPageIn(tools, req, kind, l, d) {
      var other, page :| Lists(tools, req, kind, l, other) && ShowsPage(tools, req, d, kind, l, other, page);
      ListsUnique(tools, req, kind, l, items, other);
    }
  }

  lemma {:induction false} SectionsShow(tools: Tools, req: CompileRequest, kind: string, listings: seq<Listing>, d: Document)
    requires StrictTotalOrder(tools.before) && DistinctBy(req.editions, EditionPath)
    requires kind == "category" || kind == "tag"
    ensures Ok(d) in SectionsAttempts(tools, req, kind, Sort(listings, ListingPath, tools.before), Sort(req.editions, EditionPath, tools.before))
       <==> exists l :: l in listings && IsPageIn(tools, req, kind, l, d)
  {
    hide SectionsAttempts, SectionAttempts, StrictTotalOrder, IsPageIn, Lists, Sort, DistinctBy, ItemsFor;
    var editions := Sort(req.editions, EditionPath, tools.before);
    SectionsExact(tools, req, kind, Sort(listings, ListingPath, tools.before), editions, Ok(d));
    forall l: Listing ensures Ok(d) in SectionAttempts(tools, req, kind, l.pathname, l.title, ItemsFor(kind, l, editions))
                <==> IsPageIn(tools, req, kind, l, d)
    {
      SectionLists(tools, req, kind, l);
      ListingShows(tools, req, kind, l, ItemsFor(kind, l, editions), d);
    }
  }

  lemma {:induction false} AllArticlesShow(tools: Tools, req: CompileRequest, d: Document)
    requires StrictTotalOrder(tools.before) && DistinctBy(req.editions, EditionPath)
    ensures Ok(d) in SectionAttempts(tools, req, "article-list", req.articlesPathname, "Articles",
                                     ItemsOf(Sort(req.editions, EditionPath, tools.before)))
       <==> IsPageIn(tools, req, "article-list", Listing(req.articlesPathname, "", "Articles"), d)
  {
    hide SectionAttempts, StrictTotalOrder, IsPageIn, Lists, Sort, DistinctBy, ItemsOf;
    var l := Listing(req.articlesPathname, "", "Articles");
    ArticlesList(tools, req, l);
    ListingShows(tools, req, "article-list", l, ItemsOf(Sort(req.editions, EditionPath, tools.before)), d);
  }

  lemma {:induction false} AttemptParts(tools: Tools, req: CompileRequest, d: Document)
    requires StrictTotalOrder(tools.before) && DistinctBy(req.editions, EditionPath)
    ensures Ok(d) in Attempts(tools, req)
       <==> IsArticle(tools, req, d) || IsListingPage(tools, req, d) || IsRedirect(tools, req, d) || ShowsNotFound(tools, req, d)
  {
    hide ArticleAttempts, SectionAttempts, SectionsAttempts, RedirectAttempts, ItemsOf, TitlesOf, Sort, StrictTotalOrder, DistinctBy,
      IsArticle, IsRedirect, IsListingPage, IsPageIn;
    ArticlesShow(tools, req, d);
    AllArticlesShow(tools, req, d);
    SectionsShow(tools, req, "category", req.categories, d);
    SectionsShow(tools, req, "tag", req.tags, d);
    RedirectsShow(tools, req, d);
    ListingPageIn(tools, req, d);
  }

  lemma {:induction false} ListingPageIn(tools: Tools, req: CompileRequest, d: Document)
    ensures IsListingPage(tools, req, d) <==>
      || IsPageIn(tools, req, "article-list", Listing(req.articlesPathname, "", "Articles"), d)
      || (exists l :: l in req.categories && IsPageIn(tools, req, "category", l, d))
      || (exists l :: l in req.tags && IsPageIn(tools, req, "tag", l, d))
  {
    hide Lists, ShowsPage;
    if IsListingPage(tools, req, d) {
      var kind, l, items, page :|
        IsSection(req, kind, l) && Lists(tools, req, kind, l, items) && ShowsPage(tools, req, d, kind, l, items, page);
      assert IsPageIn(tools, req, kind, l, d);
    }
    forall kind, l | IsSection(req, kind, l) && IsPageIn(tools, req, kind, l, d) ensures IsListingPage(tools, req, d) {
      var items, page :| Lists(tools, req, kind, l, items) && ShowsPage(tools, req, d, kind, l, items, page);
    }
    assert IsSection(req, "article-list", Listing(req.articlesPathname, "", "Articles"));
    if l :| l in req.categories && IsPageIn(tools, req, "category", l, d) {
      assert IsSection(req, "category", l);
    }
    if l :| l in req.tags && IsPageIn(tools, req, "tag", l, d) {
      assert IsSection(req, "tag", l);
    }
  }

  /**
   The documents of a compilation, in order of pathname and no pathname twice, are exactly the
   articles of the editions, the pages of the listings, the redirects and the not-found page.
   */
  lemma {:induction false} CompiledExactly(tools: Tools, req: CompileRequest)
    requires StrictTotalOrder(tools.before) && Compiled(tools, req).Ok?
    ensures var documents := Compiled(tools, req).value.documents;
      && Increasing(documents, DocumentPath, tools.before)
      && (forall d :: d in documents <==>
            IsArticle(tools, req, d) || IsListingPage(tools, req, d) || IsRedirect(tools, req, d) || ShowsNotFound(tools, req, d))
  {
    hide Attempts, Sort, Indexed, OrderIndependence.Values, OrderIndependence.AllOk, StrictTotalOrder, Increasing, DistinctBy,
      IsArticle, IsListingPage, IsRedirect, ShowsNotFound;
    OrderIndependence.CompiledFacts(tools, req);
    var emitted := OrderIndependence.Values(Attempts(tools, req));
    var documents := Compiled(tools, req).value.documents;
    assert documents == Sort(emitted, DocumentPath, tools.before);
    SortIncreasing(emitted, DocumentPath, tools.before);
    forall d ensures d in documents <==>
      IsArticle(tools, req, d) || IsListingPage(tools, req, d) || IsRedirect(tools, req, d) || ShowsNotFound(tools, req, d)
    {
      ValuesExact(Attempts(tools, req), d);
      AttemptParts(tools, req, d);
    }
  }

  /** The sitemap lists exactly the indexed documents, so no redirect and not the not-found page. */
  lemma {:induction false} SitemapExact(tools: Tools, req: CompileRequest, url: (string, string))
    requires Compiled(tools, req).Ok?
    ensures var out := Compiled(tools, req).value;
      && tools.sitemap(SitemapUrls(out.documents)) == Some(out.sitemap)
      && (url in SitemapUrls(out.documents)
          <==> exists d :: d in out.documents && d.indexed && url == (d.pathname, d.modifiedAt))
  {
    hide Attempts, Sort, Indexed, Gather;
    UrlsExact(Compiled(tools, req).value.documents, url);
  }

  lemma {:induction false} UrlsExact(documents: seq<Document>, url: (string, string))
    ensures url in SitemapUrls(documents) <==> exists d :: d in documents && d.indexed && url == (d.pathname, d.modifiedAt)
  {
    if documents != [] {
      UrlsExact(documents[1..], url);
      assert documents == [documents[0]] + documents[1..];
    }
  }
}
