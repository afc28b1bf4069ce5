/**
 Compiling a site: articles, listing pages, redirects and the not-found page, the route index and
 the sitemap. Rendering a document's content is left to the functions of `Tools`.
 */
module SiteCompiler {
  import opened Wrappers
  import opened Documents
  import opened Pagination
  import opened RouteIndexing
  import opened Sorting
  import opened Text

  datatype CompileError =
    | PathDuplicate | PaginationInvalid | DocumentInvalid | RedirectMismatch | SitemapInvalid | RoutesInvalid(cause: RouteError)

  datatype Edition = Edition(
    editionId: nat, pathname: string, categories: seq<string>, tags: seq<string>, title: string, summary: string,
    publishedAt: string, modifiedAt: string, content: string)

  datatype Listing = Listing(pathname: string, slug: string, title: string)

  datatype Item = Item(
    pathname: string, pageId: string, title: string, description: string, publishedAt: string, modifiedAt: string)

  /** `related` holds the related links of an edition, where the release supplies them. */
  datatype CompileRequest = CompileRequest(
    siteId: string, canonicalDomain: string, compilerVersion: string, now: string,
    editions: seq<Edition>, related: map<nat, string>,
    articlesPathname: string, pageSize: int, categories: seq<Listing>, tags: seq<Listing>,
    redirects: seq<RedirectRule>, gonePathnames: seq<string>, notFoundPathname: string, otherSiteDomains: seq<string>)

  /** None is a document that fails its schema or its checks. `before` orders pathnames as localeCompare does. */
  datatype Tools = Tools(
    article: (Edition, Option<string>, map<string, string>) -> Option<string>,
    listing: (string, string, ListingPage<Item>) -> Option<string>,
    redirect: (string, string) -> Option<string>,
    notFound: string -> Option<string>,
    sitemap: seq<(string, string)> -> Option<string>,
    parseUrl: string -> Option<Url>,
    before: (string, string) -> bool)

  datatype Document = Document(pathname: string, pageType: string, indexed: bool, modifiedAt: string, page: Page)

  datatype CompileOutput = CompileOutput(
    compilerVersion: string, documents: seq<Document>, manifest: seq<(string, string, Sha)>,
    routeIndex: RouteIndex, sitemap: string)

  function DocumentBody(document: Document): Body {
    PageJson(document.page, "")
  }

  function EditionPath(e: Edition): string { e.pathname }

  function ListingPath(l: Listing): string { l.pathname }

  function ItemPath(i: Item): string { i.pathname }

  function RulePath(r: RedirectRule): string { r.fromPathname }

  function DocumentPath(d: Document): string { d.pathname }

  // ---------- the attempts to emit documents, in order ----------

  type Attempt = Result<Document, CompileError>

  /** The titles for breadcrumbs; a later listing at the same pathname wins. */
  function TitlesOf(listings: seq<Listing>): map<string, string> {
    if listings == [] then map[]
    else
      var last := listings[|listings| - 1];
      TitlesOf(listings[..|listings| - 1])[last.pathname := last.title]
  }

  function AllListings(req: CompileRequest): seq<Listing> {
    [Listing(req.articlesPathname, "", "Articles")] + req.categories + req.tags
  }

  function ArticleAttempt(tools: Tools, req: CompileRequest, titles: map<string, string>, e: Edition): Attempt {
    var related := if e.editionId in req.related then Some(req.related[e.editionId]) else None;
    match tools.article(e, related, titles)
    case None => Err(DocumentInvalid)
    case Some(content) =>
      Ok(Document(e.pathname, "article", true, e.modifiedAt, Page(req.siteId, e.pathname, "article", "", content)))
  }

  function ArticleAttempts(tools: Tools, req: CompileRequest, titles: map<string, string>, editions: seq<Edition>): seq<Attempt> {
    if editions == [] then [] else [ArticleAttempt(tools, req, titles, editions[0])] + ArticleAttempts(tools, req, titles, editions[1..])
  }

  function ItemOf(e: Edition): Item {
    Item(e.pathname, "page-" + NatText(e.editionId), e.title, e.summary, e.publishedAt, e.modifiedAt)
  }

  function ItemsOf(editions: seq<Edition>): seq<Item> {
    if editions == [] then [] else [ItemOf(editions[0])] + ItemsOf(editions[1..])
  }

  function PageAttempt(tools: Tools, req: CompileRequest, kind: string, title: string, page: ListingPage<Item>): Attempt {
    var items := Sort(page.items, ItemPath, tools.before);
    if !DistinctBy(items, ItemPath) then Err(PathDuplicate)
    else match tools.listing(kind, title, page.(items := items))
      case None => Err(DocumentInvalid)
      case Some(content) =>
        Ok(Document(page.pathname, kind, true, req.now, Page(req.siteId, page.pathname, kind, "", content)))
  }

  function PageAttempts(tools: Tools, req: CompileRequest, kind: string, title: string, pages: seq<ListingPage<Item>>): seq<Attempt> {
    if pages == [] then [] else [PageAttempt(tools, req, kind, title, pages[0])] + PageAttempts(tools, req, kind, title, pages[1..])
  }

  function SectionAttempts(tools: Tools, req: CompileRequest, kind: string, pathname: string, title: string, items: seq<Item>): seq<Attempt> {
    if req.pageSize < 1 then [Err(PaginationInvalid)]
    else PageAttempts(tools, req, kind, title, Pages(pathname, items, req.pageSize))
  }

  function SlugsOf(kind: string, e: Edition): seq<string> {
    if kind == "category" then e.categories else e.tags
  }

  function WithSlug(kind: string, slug: string, editions: seq<Edition>): seq<Edition> {
    if editions == [] then []
    else if slug in SlugsOf(kind, editions[0]) then [editions[0]] + WithSlug(kind, slug, editions[1..])
    else WithSlug(kind, slug, editions[1..])
  }

  function SectionsAttempts(tools: Tools, req: CompileRequest, kind: string, listings: seq<Listing>, editions: seq<Edition>): seq<Attempt> {
    if listings == [] then []
    else
      SectionAttempts(tools, req, kind, listings[0].pathname, listings[0].title, ItemsOf(WithSlug(kind, listings[0].slug, editions)))
      + SectionsAttempts(tools, req, kind, listings[1..], editions)
  }

  /** The absolute target of a redirect, refused when it is empty, not https, or the redirect itself. */
  function ResolveTarget(tools: Tools, domain: string, rule: RedirectRule): Result<string, CompileError> {
    var resolved :=
      if rule.targetUrl == "" then Err(RedirectMismatch)
      else if StartsWith(rule.targetUrl, "/") then Ok("https://" + domain + rule.targetUrl)
      else match tools.parseUrl(rule.targetUrl)
        case None => Err(RedirectMismatch)
        case Some(url) => if url.protocol != "https:" then Err(RedirectMismatch) else Ok(rule.targetUrl);
    if resolved.Err? then resolved
    else if !StartsWith(rule.fromPathname, "/") || resolved.value == "https://" + domain + rule.fromPathname
    then Err(RedirectMismatch)
    else resolved
  }

  function RedirectAttempt(tools: Tools, req: CompileRequest, rule: RedirectRule): Attempt {
    match ResolveTarget(tools, req.canonicalDomain, rule)
    case Err(error) => Err(error)
    case Ok(target) =>
      match tools.redirect(rule.fromPathname, target)
      case None => Err(DocumentInvalid)
      case Some(content) =>
        Ok(Document(rule.fromPathname, "redirect", false, req.now,
                    Page(req.siteId, rule.fromPathname, "redirect", target, content)))
  }

  function RedirectAttempts(tools: Tools, req: CompileRequest, rules: seq<RedirectRule>): seq<Attempt> {
    if rules == [] then [] else [RedirectAttempt(tools, req, rules[0])] + RedirectAttempts(tools, req, rules[1..])
  }

  function NotFoundAttempt(tools: Tools, req: CompileRequest): Attempt {
    match tools.notFound(req.notFoundPathname)
    case None => Err(DocumentInvalid)
    case Some(content) =>
      Ok(Document(req.notFoundPathname, "not-found", false, req.now,
                  Page(req.siteId, req.notFoundPathname, "not-found", "", content)))
  }

  function Attempts(tools: Tools, req: CompileRequest): seq<Attempt> {
    var editions := Sort(req.editions, EditionPath, tools.before);
    ArticleAttempts(tools, req, TitlesOf(AllListings(req)), editions)
    + (SectionAttempts(tools, req, "article-list", req.articlesPathname, "Articles", ItemsOf(editions))
    + (SectionsAttempts(tools, req, "category", Sort(req.categories, ListingPath, tools.before), editions)
    + (SectionsAttempts(tools, req, "tag", Sort(req.tags, ListingPath, tools.before), editions)
    + (RedirectAttempts(tools, req, Sort(req.redirects, RulePath, tools.before))
    + [NotFoundAttempt(tools, req)]))))
  }

  /** Emits until an attempt fails. */
  function Gather(documents: seq<Document>, attempts: seq<Attempt>): Result<seq<Document>, CompileError>
    decreases |attempts|
  {
    if attempts == [] then Ok(documents)
    else match attempts[0]
      case Err(error) => Err(error)
      case Ok(document) => Gather(documents + [document], attempts[1..])
  }

  // ---------- the whole compilation ----------

  function HeadOf(document: Document): DocumentHead {
    DocumentHead(document.pathname, document.pageType)
  }

  function HeadsOf(documents: seq<Document>): (r: seq<DocumentHead>)
    ensures |r| == |documents| && forall i :: 0 <= i < |documents| ==> r[i] == HeadOf(documents[i])
  {
    if documents == [] then [] else [HeadOf(documents[0])] + HeadsOf(documents[1..])
  }

  function SitemapUrls(documents: seq<Document>): seq<(string, string)> {
    if documents == [] then []
    else if documents[0].indexed then [(documents[0].pathname, documents[0].modifiedAt)] + SitemapUrls(documents[1..])
    else SitemapUrls(documents[1..])
  }

  function ManifestEntries(documents: seq<Document>): seq<(string, string, Sha)> {
    if documents == [] then []
    else [(documents[0].pageType, documents[0].pathname, Sha256(DocumentBody(documents[0])))] + ManifestEntries(documents[1..])
  }

  function IndexInputOf(tools: Tools, req: CompileRequest, documents: seq<Document>): IndexInput {
    IndexInput(req.siteId, req.canonicalDomain, HeadsOf(documents), req.gonePathnames, req.otherSiteDomains, req.redirects, tools.parseUrl)
  }

  /** From the emitted documents to the output. */
  function Assembled(tools: Tools, req: CompileRequest, emitted: seq<Document>): Result<CompileOutput, CompileError> {
    var documents := Sort(emitted, DocumentPath, tools.before);
    match Indexed(IndexInputOf(tools, req, documents))
    case Err(cause) => Err(RoutesInvalid(cause))
    case Ok(routeIndex) =>
      match tools.sitemap(SitemapUrls(documents))
      case None => Err(SitemapInvalid)
      case Some(sitemap) =>
        Ok(CompileOutput(req.compilerVersion, documents, ManifestEntries(documents), routeIndex, sitemap))
  }

  function Compiled(tools: Tools, req: CompileRequest): Result<CompileOutput, CompileError> {
    if !DistinctBy(req.editions, EditionPath) then Err(PathDuplicate)
    else match Gather([], Attempts(tools, req))
      case Err(error) => Err(error)
      case Ok(emitted) => Assembled(tools, req, emitted)
  }

  // ---------- the program ----------

  lemma {:induction false} PagesStep(
    tools: Tools, req: CompileRequest, kind: string, title: string, pages: seq<ListingPage<Item>>, i: nat, rest: seq<Attempt>)
    requires i < |pages|
    ensures var todo := PageAttempts(tools, req, kind, title, pages[i..]) + rest;
      && todo != [] && todo[0] == PageAttempt(tools, req, kind, title, pages[i])
      && todo[1..] == PageAttempts(tools, req, kind, title, pages[i + 1..]) + rest
  {
    hide PageAttempt;
    assert pages[i..][0] == pages[i] && pages[i..][1..] == pages[i + 1..];
  }

  /** Emits the pages of one listing; `rest` is what is emitted after them. */
  method EmitListing(
    tools: Tools, req: CompileRequest, kind: string, pathname: string, title: string, items: seq<Item>,
    documents: seq<Document>, ghost rest: seq<Attempt>)
    returns (result: Result<seq<Document>, CompileError>)
    ensures Gather(documents, SectionAttempts(tools, req, kind, pathname, title, items) + rest)
         == match result case Err(error) => Err(error) case Ok(more) => Gather(more, rest)
  {
    hide PageAttempt, Pages;
    var paged := PaginateListing(pathname, items, req.pageSize);
    if paged.Err? {
      return Err(PaginationInvalid);
    }
    var pages, emitted := paged.value, documents;
    var i := 0;
    assert pages[0..] == pages;
    while i < |pages|
      invariant 0 <= i <= |pages|
      invariant Gather(documents, SectionAttempts(tools, req, kind, pathname, title, items) + rest)
             == Gather(emitted, PageAttempts(tools, req, kind, title, pages[i..]) + rest)
    {
      PagesStep(tools, req, kind, title, pages, i, rest);
      var document := PageAttempt(tools, req, kind, title, pages[i]);
      if document.Err? {
        return Err(document.error);
      }
      emitted := emitted + [document.value];
      i := i + 1;
    }
    assert PageAttempts(tools, req, kind, title, pages[i..]) + rest == rest;
    return Ok(emitted);
  }

  lemma {:induction false} SectionsStep(
    tools: Tools, req: CompileRequest, kind: string, listings: seq<Listing>, editions: seq<Edition>, i: nat, rest: seq<Attempt>)
    requires i < |listings|
    ensures SectionsAttempts(tools, req, kind, listings[i..], editions) + rest
         == SectionAttempts(tools, req, kind, listings[i].pathname, listings[i].title,
                            ItemsOf(WithSlug(kind, listings[i].slug, editions)))
            + (SectionsAttempts(tools, req, kind, listings[i + 1..], editions) + rest)
  {
    hide SectionAttempts, ItemsOf, WithSlug;
    assert listings[i..][0] == listings[i] && listings[i..][1..] == listings[i + 1..];
  }

  /** Emits every category's or every tag's listing. */
  method EmitListings(
    tools: Tools, req: CompileRequest, kind: string, listings: seq<Listing>, editions: seq<Edition>,
    documents: seq<Document>, ghost rest: seq<Attempt>)
    returns (result: Result<seq<Document>, CompileError>)
    ensures Gather(documents, SectionsAttempts(tools, req, kind, listings, editions) + rest)
         == match result case Err(error) => Err(error) case Ok(more) => Gather(more, rest)
  {
    hide SectionAttempts, ItemsOf, WithSlug, Gather;
    var emitted := documents;
    var i := 0;
    assert listings[0..] == listings;
    while i < |listings|
      invariant 0 <= i <= |listings|
      invariant Gather(documents, SectionsAttempts(tools, req, kind, listings, editions) + rest)
             == Gather(emitted, SectionsAttempts(tools, req, kind, listings[i..], editions) + rest)
    {
      SectionsStep(tools, req, kind, listings, editions, i, rest);
      var items := ItemsOf(WithSlug(kind, listings[i].slug, editions));
      var more := EmitListing(tools, req, kind, listings[i].pathname, listings[i].title, items, emitted,
                              SectionsAttempts(tools, req, kind, listings[i + 1..], editions) + rest);
      if more.Err? {
        return Err(more.error);
      }
      emitted := more.value;
      i := i + 1;
    }
    assert SectionsAttempts(tools, req, kind, listings[i..], editions) + rest == rest;
    return Ok(emitted);
  }

  method EmitArticles(
    tools: Tools, req: CompileRequest, titles: map<string, string>, editions: seq<Edition>,
    documents: seq<Document>, ghost rest: seq<Attempt>)
    returns (result: Result<seq<Document>, CompileError>)
    ensures Gather(documents, ArticleAttempts(tools, req, titles, editions) + rest)
         == match result case Err(error) => Err(error) case Ok(more) => Gather(more, rest)
  {
    hide ArticleAttempt;
    var emitted := documents;
    var i := 0;
    assert editions[0..] == editions;
    while i < |editions|
      invariant 0 <= i <= |editions|
      invariant Gather(documents, ArticleAttempts(tools, req, titles, editions) + rest)
             == Gather(emitted, ArticleAttempts(tools, req, titles, editions[i..]) + rest)
    {
      ghost var todo := ArticleAttempts(tools, req, titles, editions[i..]) + rest;
      assert editions[i..][0] == editions[i] && editions[i..][1..] == editions[i + 1..];
      assert todo[1..] == ArticleAttempts(tools, req, titles, editions[i + 1..]) + rest;
      var document := ArticleAttempt(tools, req, titles, editions[i]);
      if document.Err? {
        return Err(document.error);
      }
      emitted := emitted + [document.value];
      i := i + 1;
    }
    assert ArticleAttempts(tools, req, titles, editions[i..]) + rest == rest;
    return Ok(emitted);
  }

  method EmitRedirects(
    tools: Tools, req: CompileRequest, rules: seq<RedirectRule>, documents: seq<Document>, ghost rest: seq<Attempt>)
    returns (result: Result<seq<Document>, CompileError>)
    ensures Gather(documents, RedirectAttempts(tools, req, rules) + rest)
         == match result case Err(error) => Err(error) case Ok(more) => Gather(more, rest)
  {
    hide RedirectAttempt;
    var emitted := documents;
    var i := 0;
    assert rules[0..] == rules;
    while i < |rules|
      invariant 0 <= i <= |rules|
      invariant Gather(documents, RedirectAttempts(tools, req, rules) + rest)
             == Gather(emitted, RedirectAttempts(tools, req, rules[i..]) + rest)
    {
      ghost var todo := RedirectAttempts(tools, req, rules[i..]) + rest;
      assert rules[i..][0] == rules[i] && rules[i..][1..] == rules[i + 1..];
      assert todo[1..] == RedirectAttempts(tools, req, rules[i + 1..]) + rest;
      var document := RedirectAttempt(tools, req, rules[i]);
      if document.Err? {
        return Err(document.error);
      }
      emitted := emitted + [document.value];
      i := i + 1;
    }
    assert RedirectAttempts(tools, req, rules[i..]) + rest == rest;
    return Ok(emitted);
  }

  /** Two editions never claim one pathname. */
  method EditionsDistinct(editions: seq<Edition>) returns (distinct: bool)
    ensures distinct <==> DistinctBy(editions, EditionPath)
  {
    var byPathname: map<string, Edition> := map[];
    var i := 0;
    while i < |editions|
      invariant 0 <= i <= |editions|
      invariant byPathname.Keys == set j | 0 <= j < i :: editions[j].pathname
      invariant DistinctBy(editions[..i], EditionPath)
    {
      if editions[i].pathname in byPathname {
        return false;
      }
      byPathname := byPathname[editions[i].pathname := editions[i]];
      i := i + 1;
    }
    assert editions[..i] == editions;
    return true;
  }

  method EmitAll(tools: Tools, req: CompileRequest) returns (result: Result<seq<Document>, CompileError>)
    ensures result == Gather([], Attempts(tools, req))
  {
    hide Sort, TitlesOf, ArticleAttempts, SectionAttempts, SectionsAttempts, RedirectAttempts, NotFoundAttempt, ItemsOf;
    var editions := Sort(req.editions, EditionPath, tools.before);
    var categories := Sort(req.categories, ListingPath, tools.before);
    var tags := Sort(req.tags, ListingPath, tools.before);
    var rules := Sort(req.redirects, RulePath, tools.before);
    ghost var last := [NotFoundAttempt(tools, req)];
    ghost var afterTags := RedirectAttempts(tools, req, rules) + last;
    ghost var afterCategories := SectionsAttempts(tools, req, "tag", tags, editions) + afterTags;
    ghost var afterListing := SectionsAttempts(tools, req, "category", categories, editions) + afterCategories;
    var items := ItemsOf(editions);
    ghost var afterArticles :=
      SectionAttempts(tools, req, "article-list", req.articlesPathname, "Articles", items) + afterListing;
    var step := EmitArticles(tools, req, TitlesOf(AllListings(req)), editions, [], afterArticles);
    if step.Err? {
      return step;
    }
    step := EmitListing(tools, req, "article-list", req.articlesPathname, "Articles", items, step.value, afterListing);
    if step.Err? {
      return step;
    }
    step := EmitListings(tools, req, "category", categories, editions, step.value, afterCategories);
    if step.Err? {
      return step;
    }
    step := EmitListings(tools, req, "tag", tags, editions, step.value, afterTags);
    if step.Err? {
      return step;
    }
    step := EmitRedirects(tools, req, rules, step.value, last);
    if step.Err? {
      return step;
    }
    var notFound := NotFoundAttempt(tools, req);
    if notFound.Err? {
      return Err(notFound.error);
    }
    return Ok(step.value + [notFound.value]);
  }

  method CompileSite(tools: Tools, req: CompileRequest) returns (result: Result<CompileOutput, CompileError>)
    ensures result == Compiled(tools, req)
  {
    hide Attempts, Indexed, Sort, DistinctBy;
    var distinct := EditionsDistinct(req.editions);
    if !distinct {
      return Err(PathDuplicate);
    }
    var emitted := EmitAll(tools, req);
    if emitted.Err? {
      return Err(emitted.error);
    }
    var documents := Sort(emitted.value, DocumentPath, tools.before);
    var routeIndex := BuildRouteIndex(IndexInputOf(tools, req, documents));
    if routeIndex.Err? {
      return Err(RoutesInvalid(routeIndex.error));
    }
    var sitemap := tools.sitemap(SitemapUrls(documents));
    if sitemap.None? {
      return Err(SitemapInvalid);
    }
    return Ok(CompileOutput(req.compilerVersion, documents, ManifestEntries(documents), routeIndex.value, sitemap.value));
  }
}
