/** When a site compiles, and what the output holds beside its documents. */
module CompileResults {
  import opened Wrappers
  import opened Documents
  import opened Pagination
  import opened RouteIndexing
  import opened RouteForms
  import opened SiteCompiler
  import opened CompiledContent
  import opened Sorting
  import opened OrderIndependence

  /** Everything that has a document renders: articles, pages of listings, redirects and the not-found page. */
  ghost predicate Renders(tools: Tools, req: CompileRequest) {
    && (forall e :: e in req.editions ==> exists titles ::
          AreTitles(req, titles) && tools.article(e, RelatedTo(req, e), titles).Some?)
    && req.pageSize >= 1
    && (forall kind, l :: IsSection(req, kind, l) ==> SectionRenders(tools, req, kind, l))
    && (forall rule :: rule in req.redirects ==> exists target ::
          IsTarget(tools, req.canonicalDomain, rule, target) && tools.redirect(rule.fromPathname, target).Some?)
    && tools.notFound(req.notFoundPathname).Some?
  }

  ghost predicate SectionRenders(tools: Tools, req: CompileRequest, kind: string, l: Listing) {
    forall items, page :: req.pageSize >= 1 && Lists(tools, req, kind, l, items) && IsPageOfListing(l.pathname, items, req.pageSize, page) ==>
      tools.listing(kind, l.title, page).Some?
  }

  // ---------- each kind of document ----------

  predicate AllOkIn(attempts: seq<Attempt>) {
    forall a :: a in attempts ==> a.Ok?
  }

  lemma AllOkMembers(attempts: seq<Attempt>)
    ensures AllOk(attempts) <==> AllOkIn(attempts)
  {
    if AllOk(attempts) {
      forall a | a in attempts ensures a.Ok? {
        var i :| 0 <= i < |attempts| && attempts[i] == a;
      }
    }
    if AllOkIn(attempts) {
      assert forall i :: 0 <= i < |attempts| ==> attempts[i] in attempts;
    }
  }

  lemma {:induction false} ArticlesRender(tools: Tools, req: CompileRequest)
    ensures AllOkIn(ArticleAttempts(tools, req, TitlesOf(AllListings(req)), Sort(req.editions, EditionPath, tools.before))) <==>
      forall e :: e in req.editions ==> exists titles :: AreTitles(req, titles) && tools.article(e, RelatedTo(req, e), titles).Some?
  {
    hide ArticleAttempts, TitlesOf, AllListings, Sort, AreTitles;
    var editions := Sort(req.editions, EditionPath, tools.before);
    var titles := TitlesOf(AllListings(req));
    CompiledContent.TitlesAre(req);
    assert AreTitles(req, titles);
    forall a ensures a in ArticleAttempts(tools, req, titles, editions)
      <==> exists e :: e in editions && a == ArticleAttempt(tools, req, titles, e)
    {
      ArticlesExact(tools, req, titles, editions, a);
    }
    var attempts := ArticleAttempts(tools, req, titles, editions);
    assert forall e :: e in editions <==> e in req.editions;
    forall e | e in editions
      ensures ArticleAttempt(tools, req, titles, e) in attempts
      ensures ArticleAttempt(tools, req, titles, e).Ok? <==> tools.article(e, RelatedTo(req, e), titles).Some?
    {}
  }

  lemma {:induction false} RedirectsRender(tools: Tools, req: CompileRequest)
    ensures AllOkIn(RedirectAttempts(tools, req, Sort(req.redirects, RulePath, tools.before))) <==>
      forall rule :: rule in req.redirects ==> exists target ::
        IsTarget(tools, req.canonicalDomain, rule, target) && tools.redirect(rule.fromPathname, target).Some?
  {
    hide RedirectAttempts, Sort, IsTarget, ResolveTarget;
    var rules := Sort(req.redirects, RulePath, tools.before);
    forall a ensures a in RedirectAttempts(tools, req, rules) <==> exists rule :: rule in rules && a == RedirectAttempt(tools, req, rule) {
      RedirectsExact(tools, req, rules, a);
    }
    forall rule, target ensures ResolveTarget(tools, req.canonicalDomain, rule) == Ok(target) <==> IsTarget(tools, req.canonicalDomain, rule, target) {
      TargetIs(tools, req.canonicalDomain, rule, target);
    }
    forall rule ensures RedirectAttempt(tools, req, rule).Ok? <==> exists target ::
      IsTarget(tools, req.canonicalDomain, rule, target) && tools.redirect(rule.fromPathname, target).Some?
    {
      var resolved := ResolveTarget(tools, req.canonicalDomain, rule);
      if resolved.Ok? {
        assert resolved == Ok(resolved.value);
      }
    }
    assert forall rule :: rule in rules <==> rule in req.redirects;
    assert forall rule :: rule in rules ==> RedirectAttempt(tools, req, rule) in RedirectAttempts(tools, req, rules);
  }

  lemma {:induction false} PagesRender(
    tools: Tools, req: CompileRequest, kind: string, l: Listing, items: seq<Item>)
    requires StrictTotalOrder(tools.before) && Lists(tools, req, kind, l, items)
    ensures AllOkIn(SectionAttempts(tools, req, kind, l.pathname, l.title, items)) <==>
      req.pageSize >= 1 && SectionRenders(tools, req, kind, l)
  {
    hide StrictTotalOrder, Lists, IsPageOfListing, PageAttempts, PageAttempt, Pages, Increasing;
    ListedIncrease(tools, req, kind, l, items);
    if req.pageSize < 1 {
      assert Err(PaginationInvalid) in SectionAttempts(tools, req, kind, l.pathname, l.title, items);
    } else {
      var pages := Pages(l.pathname, items, req.pageSize);
      forall a ensures a in PageAttempts(tools, req, kind, l.title, pages)
        <==> exists page :: page in pages && a == PageAttempt(tools, req, kind, l.title, page)
      {
        PagesExact(tools, req, kind, l.title, pages, a);
      }
      forall page ensures IsPageOfListing(l.pathname, items, req.pageSize, page) <==> page in pages {
        PageForm(l.pathname, items, req.pageSize, page);
      }
      forall page | page in pages
        ensures PageAttempt(tools, req, kind, l.title, page).Ok? <==> tools.listing(kind, l.title, page).Some?
      {
        PageRenders(tools, req, kind, l, items, page);
      }
      forall other | Lists(tools, req, kind, l, other) ensures other == items {
        ListsUnique(tools, req, kind, l, items, other);
      }
    }
  }

  lemma ListedIncrease(tools: Tools, req: CompileRequest, kind: string, l: Listing, items: seq<Item>)
    requires Lists(tools, req, kind, l, items)
    ensures Increasing(items, ItemPath, tools.before)
  {
  }

  lemma {:induction false} PageRenders(
    tools: Tools, req: CompileRequest, kind: string, l: Listing, items: seq<Item>, page: ListingPage<Item>)
    requires StrictTotalOrder(tools.before) && Increasing(items, ItemPath, tools.before)
    requires req.pageSize >= 1 && page in Pages(l.pathname, items, req.pageSize)
    ensures PageAttempt(tools, req, kind, l.title, page).Ok? <==> tools.listing(kind, l.title, page).Some?
  {
    hide PageAttempt, Pages, Increasing, StrictTotalOrder, IsPageOfListing;
    PageForm(l.pathname, items, req.pageSize, page);
    var attempt := PageAttempt(tools, req, kind, l.title, page);
    if attempt.Ok? {
      PageShows(tools, req, kind, l, items, page, attempt.value);
    }
    var shown := tools.listing(kind, l.title, page);
    if shown.Some? {
      var d := Document(page.pathname, kind, true, req.now, Page(req.siteId, page.pathname, kind, "", shown.value));
      PageShows(tools, req, kind, l, items, page, d);
    }
  }

  lemma {:induction false} SectionsRender(tools: Tools, req: CompileRequest, kind: string, listings: seq<Listing>)
    requires StrictTotalOrder(tools.before) && DistinctBy(req.editions, EditionPath)
    requires kind == "category" || kind == "tag"
    ensures AllOkIn(SectionsAttempts(tools, req, kind, Sort(listings, ListingPath, tools.before), Sort(req.editions, EditionPath, tools.before)))
       <==> forall l :: l in listings ==> req.pageSize >= 1 && SectionRenders(tools, req, kind, l)
  {
    hide SectionsAttempts, SectionAttempts, StrictTotalOrder, SectionRenders, Lists, Sort, DistinctBy, ItemsFor;
    var editions := Sort(req.editions, EditionPath, tools.before);
    var sorted := Sort(listings, ListingPath, tools.before);
    forall a ensures a in SectionsAttempts(tools, req, kind, sorted, editions)
      <==> exists l :: l in sorted && a in SectionAttempts(tools, req, kind, l.pathname, l.title, ItemsFor(kind, l, editions))
    {
      SectionsExact(tools, req, kind, sorted, editions, a);
    }
    forall l: Listing
      ensures AllOkIn(SectionAttempts(tools, req, kind, l.pathname, l.title, ItemsFor(kind, l, editions)))
         <==> req.pageSize >= 1 && SectionRenders(tools, req, kind, l)
    {
      SectionLists(tools, req, kind, l);
      PagesRender(tools, req, kind, l, ItemsFor(kind, l, editions));
    }
    assert forall l :: l in sorted <==> l in listings;
  }

  lemma {:induction false} RendersExact(tools: Tools, req: CompileRequest)
    requires StrictTotalOrder(tools.before) && DistinctBy(req.editions, EditionPath)
    ensures AllOk(Attempts(tools, req)) <==> Renders(tools, req)
  {
    hide ArticleAttempts, SectionAttempts, SectionsAttempts, RedirectAttempts, ItemsOf, TitlesOf, AllListings, Sort, StrictTotalOrder, DistinctBy,
      SectionRenders, AreTitles, IsTarget, Lists;
    AllOkMembers(Attempts(tools, req));
    ArticlesRender(tools, req);
    RedirectsRender(tools, req);
    SectionsRender(tools, req, "category", req.categories);
    SectionsRender(tools, req, "tag", req.tags);
    var l := Listing(req.articlesPathname, "", "Articles");
    var items := ItemsOf(Sort(req.editions, EditionPath, tools.before));
    ArticlesList(tools, req, l);
    PagesRender(tools, req, "article-list", l, items);
    AllOkParts(tools, req);
    assert IsSection(req, "article-list", l);
    assert forall c :: c in req.categories ==> IsSection(req, "category", c);
    assert forall t :: t in req.tags ==> IsSection(req, "tag", t);
  }

  lemma {:induction false} AllOkParts(tools: Tools, req: CompileRequest)
    ensures
      var editions := Sort(req.editions, EditionPath, tools.before);
      AllOkIn(Attempts(tools, req)) <==>
        && AllOkIn(ArticleAttempts(tools, req, TitlesOf(AllListings(req)), editions))
        && AllOkIn(SectionAttempts(tools, req, "article-list", req.articlesPathname, "Articles", ItemsOf(editions)))
        && AllOkIn(SectionsAttempts(tools, req, "category", Sort(req.categories, ListingPath, tools.before), editions))
        && AllOkIn(SectionsAttempts(tools, req, "tag", Sort(req.tags, ListingPath, tools.before), editions))
        && AllOkIn(RedirectAttempts(tools, req, Sort(req.redirects, RulePath, tools.before)))
        && tools.notFound(req.notFoundPathname).Some?
  {
    hide ArticleAttempts, SectionAttempts, SectionsAttempts, RedirectAttempts, ItemsOf, TitlesOf, AllListings, Sort;
    assert NotFoundAttempt(tools, req).Ok? <==> tools.notFound(req.notFoundPathname).Some?;
  }

  // ---------- the output ----------

  /** The route index is built from the documents, the gone pathnames, the sibling domains and the redirects. */
  ghost predicate IsIndexInput(tools: Tools, req: CompileRequest, documents: seq<Document>, input: IndexInput) {
    && input.siteId == req.siteId && input.canonicalDomain == req.canonicalDomain
    && input.gonePathnames == req.gonePathnames && input.knownDomains == req.otherSiteDomains
    && input.redirects == req.redirects && input.parseUrl == tools.parseUrl
    && |input.documents| == |documents|
    && forall i :: 0 <= i < |documents| ==> input.documents[i] == DocumentHead(documents[i].pathname, documents[i].pageType)
  }

  /** One entry for each indexed document, in the order of the documents. */
  ghost predicate IsSitemap(tools: Tools, documents: seq<Document>, urls: seq<(string, string)>) {
    && (forall i, j :: 0 <= i < j < |urls| ==> tools.before(urls[i].0, urls[j].0))
    && forall url :: url in urls <==> exists d :: d in documents && d.indexed && url == (d.pathname, d.modifiedAt)
  }

  ghost predicate IsOutput(tools: Tools, req: CompileRequest, out: CompileOutput) {
    && out.compilerVersion == req.compilerVersion
    && |out.manifest| == |out.documents|
    && (forall i :: 0 <= i < |out.documents| ==>
          var d := out.documents[i];
          out.manifest[i] == (d.pageType, d.pathname, Sha256(PageJson(d.page, ""))))
    && (exists urls :: IsSitemap(tools, out.documents, urls) && tools.sitemap(urls) == Some(out.sitemap))
    && (exists input :: IsIndexInput(tools, req, out.documents, input) && Indexed(input) == Ok(out.routeIndex))
  }

  lemma {:induction false} ManifestForm(documents: seq<Document>)
    ensures |ManifestEntries(documents)| == |documents|
    ensures forall i :: 0 <= i < |documents| ==>
      ManifestEntries(documents)[i] == (documents[i].pageType, documents[i].pathname, Sha256(PageJson(documents[i].page, "")))
  {
    if documents != [] {
      ManifestForm(documents[1..]);
    }
  }

  lemma {:induction false} UrlsForm(tools: Tools, documents: seq<Document>)
    requires Increasing(documents, DocumentPath, tools.before)
    ensures IsSitemap(tools, documents, SitemapUrls(documents))
  {
    var urls := SitemapUrls(documents);
    forall url ensures url in urls <==> exists d :: d in documents && d.indexed && url == (d.pathname, d.modifiedAt) {
      UrlsExact(documents, url);
    }
    if documents != [] {
      var rest := documents[1..];
      assert Increasing(rest, DocumentPath, tools.before) by {
        forall i, j | 0 <= i < j < |rest| ensures tools.before(DocumentPath(rest[i]), DocumentPath(rest[j])) {
          assert tools.before(DocumentPath(documents[i + 1]), DocumentPath(documents[j + 1]));
        }
      }
      UrlsForm(tools, rest);
      var more := SitemapUrls(rest);
      forall i | 0 <= i < |more| ensures tools.before(documents[0].pathname, more[i].0) {
        assert more[i] in more;
        var d :| d in rest && d.indexed && more[i] == (d.pathname, d.modifiedAt);
        var k :| 0 <= k < |rest| && rest[k] == d;
        assert tools.before(DocumentPath(documents[0]), DocumentPath(documents[k + 1]));
      }
    }
  }

  lemma {:induction false} SitemapUnique(tools: Tools, documents: seq<Document>, a: seq<(string, string)>, b: seq<(string, string)>)
    requires StrictTotalOrder(tools.before) && IsSitemap(tools, documents, a) && IsSitemap(tools, documents, b)
    ensures a == b
  {
    hide StrictTotalOrder;
    var key := (url: (string, string)) => url.0;
    assert forall url :: url in a <==> url in b;
    assert Increasing(a, key, tools.before) && Increasing(b, key, tools.before);
    IncreasingUnique(a, b, key, tools.before);
  }

  lemma InputUnique(tools: Tools, req: CompileRequest, documents: seq<Document>, input: IndexInput)
    ensures IsIndexInput(tools, req, documents, input) <==> input == IndexInputOf(tools, req, documents)
  {
  }

  /**
   A site compiles exactly when no two editions have one pathname, every document renders, the emitted
   documents have a route index, and the sitemap renders.
   */
  lemma {:induction false} CompilesWhen(tools: Tools, req: CompileRequest)
    requires StrictTotalOrder(tools.before)
    ensures Compiled(tools, req).Ok? <==>
      && (forall i, j :: 0 <= i < j < |req.editions| ==> req.editions[i].pathname != req.editions[j].pathname)
      && Renders(tools, req)
      && var documents := Sort(Values(Attempts(tools, req)), DocumentPath, tools.before);
         && (forall input :: IsIndexInput(tools, req, documents, input) ==> IndexError(input) == None)
         && (forall urls :: IsSitemap(tools, documents, urls) ==> tools.sitemap(urls).Some?)
    ensures Compiled(tools, req).Ok? ==> IsOutput(tools, req, Compiled(tools, req).value)
  {
    hide Attempts, Sort, Indexed, Values, Renders, AllOk, StrictTotalOrder, Gather, IsIndexInput, IsSitemap, IndexInputOf, IndexError,
      SitemapUrls, ManifestEntries, Increasing;
    assert DistinctBy(req.editions, EditionPath) <==>
      forall i, j :: 0 <= i < j < |req.editions| ==> req.editions[i].pathname != req.editions[j].pathname;
    if DistinctBy(req.editions, EditionPath) {
      RendersExact(tools, req);
      Gathered([], Attempts(tools, req));
      var emitted := Values(Attempts(tools, req));
      assert [] + emitted == emitted;
      var documents := Sort(emitted, DocumentPath, tools.before);
      var input := IndexInputOf(tools, req, documents);
      forall other ensures IsIndexInput(tools, req, documents, other) <==> other == input {
        InputUnique(tools, req, documents, other);
      }
      IndexForm(input);
      if Indexed(input).Ok? {
        IndexedDistinct(tools, req, emitted);
        SortIncreasing(emitted, DocumentPath, tools.before);
        UrlsForm(tools, documents);
        forall urls | IsSitemap(tools, documents, urls) ensures urls == SitemapUrls(documents) {
          SitemapUnique(tools, documents, urls, SitemapUrls(documents));
        }
        ManifestForm(documents);
      }
    }
  }

  /** Documents with an index have different pathnames. */
  lemma {:induction false} IndexedDistinct(tools: Tools, req: CompileRequest, emitted: seq<Document>)
    requires IndexError(IndexInputOf(tools, req, Sort(emitted, DocumentPath, tools.before))) == None
    ensures DistinctBy(emitted, DocumentPath)
  {
    hide Sort, IsFinal, TargetError, FirstError, RoutesAccepted, RedirectsApart;
    var sorted := Sort(emitted, DocumentPath, tools.before);
    var heads := IndexInputOf(tools, req, sorted).documents;
    forall i, j | 0 <= i < j < |sorted| ensures DocumentPath(sorted[i]) != DocumentPath(sorted[j]) {
      assert heads[i].pathname != heads[j].pathname;
    }
    SortMultiset(emitted, DocumentPath, tools.before);
    DistinctByMultiset(sorted, emitted, DocumentPath);
  }
}
