/** Reordering the input of a compilation changes nothing: it fails both times or gives the same output. */
module OrderIndependence {
  import opened Wrappers
  import opened Documents
  import opened Pagination
  import opened RouteIndexing
  import opened Runtime
  import opened SiteCompiler
  import opened Sorting

  /** The same request up to the order of its lists. */
  ghost predicate Reordered(a: CompileRequest, b: CompileRequest) {
    && b == a.(editions := b.editions, categories := b.categories, tags := b.tags,
               redirects := b.redirects, gonePathnames := b.gonePathnames)
    && multiset(a.editions) == multiset(b.editions)
    && multiset(a.categories) == multiset(b.categories)
    && multiset(a.tags) == multiset(b.tags)
    && multiset(a.redirects) == multiset(b.redirects)
    && multiset(a.gonePathnames) == multiset(b.gonePathnames)
  }

  // ---------- keys, counted ----------

  function KeysIn<T(!new)>(s: seq<T>, key: T -> string): multiset<string> {
    if s == [] then multiset{} else multiset{key(s[0])} + KeysIn(s[1..], key)
  }

  ghost predicate Once(keys: multiset<string>) {
    forall k :: keys[k] <= 1
  }

  lemma {:induction false} KeysConcat<T(!new)>(s: seq<T>, t: seq<T>, key: T -> string)
    ensures KeysIn(s + t, key) == KeysIn(s, key) + KeysIn(t, key)
  {
    if s == [] {
      assert s + t == t;
    } else {
      assert (s + t)[1..] == s[1..] + t;
      KeysConcat(s[1..], t, key);
    }
  }

  lemma {:induction false} KeyInKeys<T(!new)>(s: seq<T>, key: T -> string, i: nat)
    requires i < |s|
    ensures key(s[i]) in KeysIn(s, key)
  {
    if i > 0 {
      KeyInKeys(s[1..], key, i - 1);
    }
  }

  lemma {:induction false} KeyAbsent<T(!new)>(s: seq<T>, key: T -> string, k: string)
    requires forall i :: 0 <= i < |s| ==> key(s[i]) != k
    ensures k !in KeysIn(s, key)
  {
    if s != [] {
      KeyAbsent(s[1..], key, k);
    }
  }

  /** Distinct keys are keys that each occur once. */
  lemma {:induction false} OnceExact<T(!new)>(s: seq<T>, key: T -> string)
    ensures Once(KeysIn(s, key)) <==> DistinctBy(s, key)
  {
    if s != [] {
      OnceExact(s[1..], key);
      assert s == [s[0]] + s[1..];
      if DistinctBy(s, key) {
        assert DistinctBy(s[1..], key) by {
          forall i, j | 0 <= i < j < |s| - 1 ensures key(s[1..][i]) != key(s[1..][j]) {
            assert key(s[i + 1]) != key(s[j + 1]);
          }
        }
        KeyAbsent(s[1..], key, key(s[0]));
      }
      if Once(KeysIn(s, key)) {
        assert Once(KeysIn(s[1..], key)) by {
          forall k ensures KeysIn(s[1..], key)[k] <= 1 { assert KeysIn(s, key)[k] <= 1; }
        }
        forall i, j | 0 <= i < j < |s| ensures key(s[i]) != key(s[j]) {
          if i == 0 {
            KeyInKeys(s[1..], key, j - 1);
            assert KeysIn(s, key)[key(s[0])] <= 1;
          } else {
            assert key(s[1..][i - 1]) != key(s[1..][j - 1]);
          }
        }
      }
    }
  }

  lemma {:induction false} WithoutOne<T(!new)>(t: seq<T>, key: T -> string, k: nat)
    requires k < |t|
    ensures multiset(t) == multiset(t[..k] + t[k + 1..]) + multiset{t[k]}
    ensures KeysIn(t, key) == KeysIn(t[..k] + t[k + 1..], key) + multiset{key(t[k])}
  {
    var front, back := t[..k], t[k + 1..];
    assert t == front + ([t[k]] + back);
    KeysConcat(front, [t[k]] + back, key);
    KeysConcat(front, back, key);
    assert ([t[k]] + back)[1..] == back;
  }

  lemma Cancel<T(!new)>(a: multiset<T>, b: multiset<T>, x: T)
    requires a + multiset{x} == b + multiset{x}
    ensures a == b
  {
    forall y ensures a[y] == b[y] {
      assert (a + multiset{x})[y] == (b + multiset{x})[y];
    }
  }

  lemma {:induction false} KeysPermuted<T(!new)>(s: seq<T>, t: seq<T>, key: T -> string)
    requires multiset(s) == multiset(t)
    ensures KeysIn(s, key) == KeysIn(t, key)
  {
    hide KeysIn;
    if s == [] {
      assert |multiset(t)| == 0;
      assert t == [];
    } else {
      assert s[0] in multiset(t);
      var k :| 0 <= k < |t| && t[k] == s[0];
      var rest := t[..k] + t[k + 1..];
      WithoutOne(t, key, k);
      WithoutOne(s, key, 0);
      assert s[..0] + s[1..] == s[1..];
      Cancel(multiset(s[1..]), multiset(rest), s[0]);
      KeysPermuted(s[1..], rest, key);
    }
  }

  lemma {:induction false} OnceBelow(small: multiset<string>, large: multiset<string>)
    requires small <= large && Once(large)
    ensures Once(small)
  {
    forall k ensures small[k] <= 1 { assert large[k] <= 1; }
  }

  // ---------- the pathnames a compilation emits ----------

  function AttemptPaths(attempts: seq<Attempt>): multiset<string> {
    if attempts == [] then multiset{}
    else (if attempts[0].Ok? then multiset{attempts[0].value.pathname} else multiset{}) + AttemptPaths(attempts[1..])
  }

  predicate AllOk(attempts: seq<Attempt>) {
    forall i :: 0 <= i < |attempts| ==> attempts[i].Ok?
  }

  lemma {:induction false} PathsConcat(a: seq<Attempt>, b: seq<Attempt>)
    ensures AttemptPaths(a + b) == AttemptPaths(a) + AttemptPaths(b)
  {
    if a == [] {
      assert a + b == b;
    } else {
      assert (a + b)[1..] == a[1..] + b;
      PathsConcat(a[1..], b);
    }
  }

  /** The documents of the attempts that succeed. */
  function Values(attempts: seq<Attempt>): seq<Document> {
    if attempts == [] then []
    else if attempts[0].Ok? then [attempts[0].value] + Values(attempts[1..])
    else Values(attempts[1..])
  }

  lemma {:induction false} Gathered(documents: seq<Document>, attempts: seq<Attempt>)
    ensures Gather(documents, attempts).Ok? <==> AllOk(attempts)
    ensures AllOk(attempts) ==> Gather(documents, attempts).value == documents + Values(attempts)
    decreases |attempts|
  {
    if attempts == [] {
      assert documents + [] == documents;
    } else {
      OkParts([attempts[0]], attempts[1..]);
      assert attempts == [attempts[0]] + attempts[1..];
      if attempts[0].Ok? {
        var next := documents + [attempts[0].value];
        Gathered(next, attempts[1..]);
        assert next + Values(attempts[1..]) == documents + Values(attempts);
      }
    }
  }

  lemma {:induction false} ValuePaths(attempts: seq<Attempt>)
    ensures KeysIn(Values(attempts), DocumentPath) == AttemptPaths(attempts)
  {
    if attempts != [] {
      ValuePaths(attempts[1..]);
      if attempts[0].Ok? {
        assert Values(attempts)[1..] == Values(attempts[1..]);
      }
    }
  }

  lemma OkParts(a: seq<Attempt>, b: seq<Attempt>)
    ensures AllOk(a + b) <==> AllOk(a) && AllOk(b)
  {
    assert forall i :: 0 <= i < |a| ==> (a + b)[i] == a[i];
    assert forall i :: 0 <= i < |b| ==> (a + b)[|a| + i] == b[i];
  }

  /** A listing always has a page at its own pathname. */
  lemma {:induction false} SectionPath(tools: Tools, req: CompileRequest, kind: string, pathname: string, title: string, items: seq<Item>)
    requires AllOk(SectionAttempts(tools, req, kind, pathname, title, items))
    ensures pathname in AttemptPaths(SectionAttempts(tools, req, kind, pathname, title, items))
  {
    hide PageCount, Slice;
    var attempts := SectionAttempts(tools, req, kind, pathname, title, items);
    assert attempts[0].Ok?;
  }

  lemma {:induction false} SectionsPaths(tools: Tools, req: CompileRequest, kind: string, listings: seq<Listing>, editions: seq<Edition>)
    requires AllOk(SectionsAttempts(tools, req, kind, listings, editions))
    ensures KeysIn(listings, ListingPath) <= AttemptPaths(SectionsAttempts(tools, req, kind, listings, editions))
  {
    hide SectionAttempts, ItemsOf, WithSlug;
    if listings != [] {
      var items := ItemsOf(WithSlug(kind, listings[0].slug, editions));
      var first := SectionAttempts(tools, req, kind, listings[0].pathname, listings[0].title, items);
      var rest := SectionsAttempts(tools, req, kind, listings[1..], editions);
      OkParts(first, rest);
      SectionPath(tools, req, kind, listings[0].pathname, listings[0].title, items);
      SectionsPaths(tools, req, kind, listings[1..], editions);
      PathsConcat(first, rest);
    }
  }

  lemma {:induction false} RedirectPaths(tools: Tools, req: CompileRequest, rules: seq<RedirectRule>)
    requires AllOk(RedirectAttempts(tools, req, rules))
    ensures AttemptPaths(RedirectAttempts(tools, req, rules)) == KeysIn(rules, RulePath)
  {
    hide ResolveTarget;
    if rules != [] {
      var attempts := RedirectAttempts(tools, req, rules);
      assert attempts[0].Ok?;
      OkParts([attempts[0]], attempts[1..]);
      assert attempts == [attempts[0]] + attempts[1..];
      RedirectPaths(tools, req, rules[1..]);
    }
  }

  /** When all documents have different pathnames, so have the listings and the redirects behind them. */
  lemma {:induction false} SourcesDistinct(tools: Tools, req: CompileRequest)
    requires AllOk(Attempts(tools, req)) && Once(AttemptPaths(Attempts(tools, req)))
    ensures DistinctBy(AllListings(req), ListingPath) && DistinctBy(req.categories, ListingPath)
    ensures DistinctBy(req.tags, ListingPath) && DistinctBy(req.redirects, RulePath)
  {
    hide Sort, ArticleAttempts, SectionAttempts, SectionsAttempts, RedirectAttempts, NotFoundAttempt, ItemsOf, TitlesOf, DistinctBy, AllOk, Once, KeysIn;
    var editions := Sort(req.editions, EditionPath, tools.before);
    var categories, tags := Sort(req.categories, ListingPath, tools.before), Sort(req.tags, ListingPath, tools.before);
    var rules := Sort(req.redirects, RulePath, tools.before);
    var p1 := ArticleAttempts(tools, req, TitlesOf(AllListings(req)), editions);
    var p2 := SectionAttempts(tools, req, "article-list", req.articlesPathname, "Articles", ItemsOf(editions));
    var p3 := SectionsAttempts(tools, req, "category", categories, editions);
    var p4 := SectionsAttempts(tools, req, "tag", tags, editions);
    var p5 := RedirectAttempts(tools, req, rules);
    var p6 := [NotFoundAttempt(tools, req)];
    OkParts(p1, p2 + (p3 + (p4 + (p5 + p6)))); OkParts(p2, p3 + (p4 + (p5 + p6)));
    OkParts(p3, p4 + (p5 + p6)); OkParts(p4, p5 + p6); OkParts(p5, p6);
    PathsConcat(p1, p2 + (p3 + (p4 + (p5 + p6)))); PathsConcat(p2, p3 + (p4 + (p5 + p6)));
    PathsConcat(p3, p4 + (p5 + p6)); PathsConcat(p4, p5 + p6); PathsConcat(p5, p6);
    SectionPath(tools, req, "article-list", req.articlesPathname, "Articles", ItemsOf(editions));
    SectionsPaths(tools, req, "category", categories, editions);
    SectionsPaths(tools, req, "tag", tags, editions);
    RedirectPaths(tools, req, rules);
    var all := AttemptPaths(Attempts(tools, req));
    SortedKeys(req.categories, ListingPath, tools.before);
    SortedKeys(req.tags, ListingPath, tools.before);
    SortedKeys(req.redirects, RulePath, tools.before);
    ListingKeys(req);
    OnceBelow(KeysIn(AllListings(req), ListingPath), all);
    OnceBelow(KeysIn(req.categories, ListingPath), all);
    OnceBelow(KeysIn(req.tags, ListingPath), all);
    OnceBelow(KeysIn(req.redirects, RulePath), all);
    OnceExact(AllListings(req), ListingPath);
    OnceExact(req.categories, ListingPath);
    OnceExact(req.tags, ListingPath);
    OnceExact(req.redirects, RulePath);
  }

  lemma {:induction false} SortedKeys<T(!new)>(s: seq<T>, key: T -> string, before: (string, string) -> bool)
    ensures KeysIn(Sort(s, key, before), key) == KeysIn(s, key)
  {
    SortMultiset(s, key, before);
    KeysPermuted(Sort(s, key, before), s, key);
  }

  lemma {:induction false} ListingKeys(req: CompileRequest)
    ensures KeysIn(AllListings(req), ListingPath)
         == multiset{req.articlesPathname} + KeysIn(req.categories, ListingPath) + KeysIn(req.tags, ListingPath)
  {
    var first := [Listing(req.articlesPathname, "", "Articles")];
    KeysConcat(first + req.categories, req.tags, ListingPath);
    KeysConcat(first, req.categories, ListingPath);
  }

  // ---------- what depends on an order ----------

  lemma {:induction false} TitlesAre(listings: seq<Listing>)
    requires DistinctBy(listings, ListingPath)
    ensures forall l :: l in listings ==> l.pathname in TitlesOf(listings) && TitlesOf(listings)[l.pathname] == l.title
    ensures forall p :: p in TitlesOf(listings) ==> exists l :: l in listings && l.pathname == p
  {
    if listings != [] {
      var n := |listings| - 1;
      var rest, last := listings[..n], listings[n];
      assert listings == rest + [last];
      assert DistinctBy(rest, ListingPath) by {
        forall i, j | 0 <= i < j < n ensures ListingPath(rest[i]) != ListingPath(rest[j]) {
          assert ListingPath(listings[i]) != ListingPath(listings[j]);
        }
      }
      TitlesAre(rest);
      forall l | l in listings ensures l.pathname in TitlesOf(listings) && TitlesOf(listings)[l.pathname] == l.title {
        if l != last {
          var i :| 0 <= i < |listings| && listings[i] == l;
          assert ListingPath(listings[i]) != ListingPath(listings[n]);
          assert l in rest;
        }
      }
      forall p | p in TitlesOf(listings) ensures exists l :: l in listings && l.pathname == p {
        if p == last.pathname {
          assert last in listings;
        } else {
          var l :| l in rest && l.pathname == p;
          assert l in listings;
        }
      }
    }
  }

  lemma SameMembers<T(!new)>(a: seq<T>, b: seq<T>)
    requires multiset(a) == multiset(b)
    ensures forall x :: x in a <==> x in b
  {
    assert forall x :: x in a <==> x in multiset(a);
    assert forall x :: x in b <==> x in multiset(b);
  }

  lemma {:induction false} TitlesPermuted(a: seq<Listing>, b: seq<Listing>)
    requires multiset(a) == multiset(b) && DistinctBy(a, ListingPath)
    ensures TitlesOf(a) == TitlesOf(b)
  {
    hide TitlesOf, DistinctBy;
    DistinctByMultiset(a, b, ListingPath);
    TitlesAre(a);
    TitlesAre(b);
    SameMembers(a, b);
    assert forall p :: p in TitlesOf(a) <==> p in TitlesOf(b);
    forall p | p in TitlesOf(a) ensures TitlesOf(a)[p] == TitlesOf(b)[p] {
      var l :| l in a && l.pathname == p;
      assert l in b;
    }
  }

  lemma {:induction false} AttemptsPermuted(tools: Tools, a: CompileRequest, b: CompileRequest)
    requires StrictTotalOrder(tools.before) && Reordered(a, b)
    requires DistinctBy(a.editions, EditionPath) && DistinctBy(AllListings(a), ListingPath)
    requires DistinctBy(a.categories, ListingPath) && DistinctBy(a.tags, ListingPath) && DistinctBy(a.redirects, RulePath)
    ensures Attempts(tools, a) == Attempts(tools, b)
  {
    hide Sort, DistinctBy, TitlesOf, StrictTotalOrder, ItemsOf;
    SortPermutation(a.editions, b.editions, EditionPath, tools.before);
    SortPermutation(a.categories, b.categories, ListingPath, tools.before);
    SortPermutation(a.tags, b.tags, ListingPath, tools.before);
    SortPermutation(a.redirects, b.redirects, RulePath, tools.before);
    TitlesPermuted(AllListings(a), AllListings(b));
    var editions := Sort(a.editions, EditionPath, tools.before);
    SameArticles(tools, a, b, TitlesOf(AllListings(a)), editions);
    SameSection(tools, a, b, "article-list", a.articlesPathname, "Articles", ItemsOf(editions));
    SameSections(tools, a, b, "category", Sort(a.categories, ListingPath, tools.before), editions);
    SameSections(tools, a, b, "tag", Sort(a.tags, ListingPath, tools.before), editions);
    SameRedirects(tools, a, b, Sort(a.redirects, RulePath, tools.before));
    hide ArticleAttempts, SectionAttempts, SectionsAttempts, RedirectAttempts;
  }

  lemma {:induction false} SameArticles(tools: Tools, a: CompileRequest, b: CompileRequest, titles: map<string, string>, editions: seq<Edition>)
    requires Reordered(a, b)
    ensures ArticleAttempts(tools, a, titles, editions) == ArticleAttempts(tools, b, titles, editions)
  {
    if editions != [] {
      SameArticles(tools, a, b, titles, editions[1..]);
    }
  }

  lemma {:induction false} SamePages(tools: Tools, a: CompileRequest, b: CompileRequest, kind: string, title: string, pages: seq<ListingPage<Item>>)
    requires Reordered(a, b)
    ensures PageAttempts(tools, a, kind, title, pages) == PageAttempts(tools, b, kind, title, pages)
  {
    hide Sort, DistinctBy;
    if pages != [] {
      SamePages(tools, a, b, kind, title, pages[1..]);
    }
  }

  lemma {:induction false} SameSection(tools: Tools, a: CompileRequest, b: CompileRequest, kind: string, pathname: string, title: string, items: seq<Item>)
    requires Reordered(a, b)
    ensures SectionAttempts(tools, a, kind, pathname, title, items) == SectionAttempts(tools, b, kind, pathname, title, items)
  {
    hide PageAttempts, Pages;
    if a.pageSize >= 1 {
      SamePages(tools, a, b, kind, title, Pages(pathname, items, a.pageSize));
    }
  }

  lemma {:induction false} SameSections(tools: Tools, a: CompileRequest, b: CompileRequest, kind: string, listings: seq<Listing>, editions: seq<Edition>)
    requires Reordered(a, b)
    ensures SectionsAttempts(tools, a, kind, listings, editions) == SectionsAttempts(tools, b, kind, listings, editions)
  {
    hide SectionAttempts, ItemsOf, WithSlug;
    if listings != [] {
      SameSection(tools, a, b, kind, listings[0].pathname, listings[0].title, ItemsOf(WithSlug(kind, listings[0].slug, editions)));
      SameSections(tools, a, b, kind, listings[1..], editions);
    }
  }

  lemma {:induction false} SameRedirects(tools: Tools, a: CompileRequest, b: CompileRequest, rules: seq<RedirectRule>)
    requires Reordered(a, b)
    ensures RedirectAttempts(tools, a, rules) == RedirectAttempts(tools, b, rules)
  {
    hide ResolveTarget;
    if rules != [] {
      SameRedirects(tools, a, b, rules[1..]);
    }
  }

  // ---------- the route index ----------

  lemma {:induction false} PutNew(targets: seq<RedirectRule>, rule: RedirectRule)
    requires forall i :: 0 <= i < |targets| ==> targets[i].fromPathname != rule.fromPathname
    ensures Put(targets, rule) == targets + [rule]
  {
    if targets != [] {
      PutNew(targets[1..], rule);
    }
  }

  lemma {:induction false} TargetsAreRules(targets: seq<RedirectRule>, more: seq<RedirectRule>)
    requires DistinctBy(targets + more, RulePath)
    ensures FinalTargets(targets, more) == targets + more
    decreases |more|
  {
    if more == [] {
      assert targets + more == targets;
    } else {
      forall i | 0 <= i < |targets| ensures targets[i].fromPathname != more[0].fromPathname {
        assert RulePath((targets + more)[i]) != RulePath((targets + more)[|targets|]);
      }
      PutNew(targets, more[0]);
      assert (targets + [more[0]]) + more[1..] == targets + more;
      TargetsAreRules(targets + [more[0]], more[1..]);
    }
  }

  /** Redirects whose documents were emitted add no routes. */
  lemma {:induction false} NothingAdded(routes: seq<Route>, rules: seq<RedirectRule>)
    requires forall i :: 0 <= i < |rules| ==> FindRoute(routes, rules[i].fromPathname).Some?
    ensures Added(routes, rules) == routes
  {
    hide FindRoute;
    if rules != [] {
      NothingAdded(routes, rules[1..]);
    }
  }

  /** Inputs that differ in the order of redirects and gone pathnames. */
  ghost predicate SameInput(a: IndexInput, b: IndexInput) {
    && a.siteId == b.siteId && a.canonicalDomain == b.canonicalDomain && a.documents == b.documents
    && a.knownDomains == b.knownDomains && a.parseUrl == b.parseUrl
    && multiset(a.gonePathnames) == multiset(b.gonePathnames)
    && multiset(a.redirects) == multiset(b.redirects)
  }

  lemma {:induction false} GoneDistinct(input: IndexInput)
    requires DistinctPaths(Claims(input))
    ensures DistinctBy(input.gonePathnames, Same)
  {
    hide RouteOf, Sort;
    var sorted := Sort(input.gonePathnames, Same, UnitLess);
    var gone := GoneRoutes(sorted);
    var n := |input.documents|;
    forall i, j | 0 <= i < j < |sorted| ensures Same(sorted[i]) != Same(sorted[j]) {
      assert Claims(input)[n + i] == gone[i] && Claims(input)[n + j] == gone[j];
    }
    SortMultiset(input.gonePathnames, Same, UnitLess);
    DistinctByMultiset(sorted, input.gonePathnames, Same);
  }

  lemma {:induction false} ClaimsPermuted(a: IndexInput, b: IndexInput)
    requires SameInput(a, b) && DistinctPaths(Claims(a))
    ensures Claims(a) == Claims(b)
  {
    hide UnitLess, Sort, DocumentRoutes, GoneRoutes;
    UnitLessIsOrder();
    assert DistinctBy(a.gonePathnames, Same) by { GoneDistinct(a); }
    SortPermutation(a.gonePathnames, b.gonePathnames, Same, UnitLess);
  }

  lemma {:induction false} IndexPermuted(a: IndexInput, b: IndexInput)
    requires SameInput(a, b) && Indexed(a).Ok? && DistinctBy(a.redirects, RulePath)
    requires forall i :: 0 <= i < |a.redirects| ==> FindRoute(Claims(a), a.redirects[i].fromPathname).Some?
    ensures Indexed(b) == Indexed(a)
  {
    hide Claims, NoClash, Covers, IsRouteIndex, FinalTargets, OneNotFound, Sort, UnitLess, Increasing, DistinctPaths, DistinctBy, Indexed, Added, FindRoute, TargetsAllowed, IsRoute, IsHost, IsIdentifier;
    IndexExact(a);
    IndexExact(b);
    ClaimsPermuted(a, b);
    SameMembers(a.redirects, b.redirects);
    DistinctByMultiset(a.redirects, b.redirects, RulePath);
    assert TargetsAllowed(b) && NoClash(Claims(b), b.redirects) by { RulesPermuted(a, b); }
    NothingAdded(Claims(a), a.redirects);
    assert forall i :: 0 <= i < |b.redirects| ==> b.redirects[i] in a.redirects;
    NothingAdded(Claims(b), b.redirects);
    assert Indexed(a).value == RouteIndex(a.siteId, a.canonicalDomain, Sort(Claims(a), RoutePath, UnitLess));
    assert Indexed(b).value == RouteIndex(b.siteId, b.canonicalDomain, Sort(Claims(b), RoutePath, UnitLess));
  }

  lemma {:induction false} RulesPermuted(a: IndexInput, b: IndexInput)
    requires SameInput(a, b) && TargetsAllowed(a) && NoClash(Claims(a), a.redirects) && Claims(a) == Claims(b)
    requires DistinctBy(a.redirects, RulePath) && DistinctBy(b.redirects, RulePath)
    ensures TargetsAllowed(b) && NoClash(Claims(b), b.redirects)
  {
    hide Claims, DistinctBy, IsActivePath, FinalTargets;
    SameMembers(a.redirects, b.redirects);
    assert [] + a.redirects == a.redirects && [] + b.redirects == b.redirects;
    TargetsAreRules([], a.redirects);
    TargetsAreRules([], b.redirects);
    var s, t := a.redirects, b.redirects;
    forall rule | rule in t ensures CheckTarget(b, t, rule).None? {
      assert CheckTarget(a, s, rule).None?;
      SameRedirectSources(s, t);
    }
  }

  lemma {:induction false} SameRedirectSources(s: seq<RedirectRule>, t: seq<RedirectRule>)
    requires forall x :: x in s <==> x in t
    ensures forall pathname :: HasRedirect(s, pathname) == HasRedirect(t, pathname)
  {
    forall pathname ensures HasRedirect(s, pathname) == HasRedirect(t, pathname) {
      if HasRedirect(s, pathname) {
        var i :| 0 <= i < |s| && s[i].fromPathname == pathname;
        assert s[i] in t;
      }
      if HasRedirect(t, pathname) {
        var i :| 0 <= i < |t| && t[i].fromPathname == pathname;
        assert t[i] in s;
      }
    }
  }

  // ---------- the whole compilation ----------

  /** What a successful compilation says about its input. */
  lemma {:induction false} CompiledFacts(tools: Tools, req: CompileRequest)
    requires Compiled(tools, req).Ok?
    ensures AllOk(Attempts(tools, req))
    ensures var emitted := Values(Attempts(tools, req));
      && Assembled(tools, req, emitted) == Compiled(tools, req)
      && Indexed(IndexInputOf(tools, req, Sort(emitted, DocumentPath, tools.before))).Ok?
      && DistinctBy(emitted, DocumentPath)
      && Once(AttemptPaths(Attempts(tools, req)))
  {
    hide Attempts, Sort, Indexed, Values, Once, DistinctBy, Claims, DistinctPaths, TargetsAllowed, NoClash, OneNotFound, Covers;
    var attempts := Attempts(tools, req);
    Gathered([], attempts);
    var emitted := Values(attempts);
    assert [] + emitted == emitted;
    var sorted := Sort(emitted, DocumentPath, tools.before);
    IndexExact(IndexInputOf(tools, req, sorted));
    HeadsDistinct(tools, req, sorted);
    SortMultiset(emitted, DocumentPath, tools.before);
    DistinctByMultiset(sorted, emitted, DocumentPath);
    OnceExact(emitted, DocumentPath);
    ValuePaths(attempts);
  }

  lemma {:induction false} HeadsDistinct(tools: Tools, req: CompileRequest, documents: seq<Document>)
    requires DistinctPaths(Claims(IndexInputOf(tools, req, documents)))
    ensures DistinctBy(documents, DocumentPath)
  {
    var input := IndexInputOf(tools, req, documents);
    DocumentsDistinct(input);
    hide DistinctPaths, Claims;
    forall i, j | 0 <= i < j < |documents| ensures DocumentPath(documents[i]) != DocumentPath(documents[j]) {
      assert input.documents[i].pathname != input.documents[j].pathname;
    }
  }

  /** Every redirect's source has a route, its own document's. */
  lemma {:induction false} RedirectsRouted(tools: Tools, req: CompileRequest, documents: seq<Document>, i: nat)
    requires AllOk(Attempts(tools, req)) && i < |req.redirects|
    requires multiset(documents) == multiset(Values(Attempts(tools, req)))
    ensures FindRoute(Claims(IndexInputOf(tools, req, documents)), req.redirects[i].fromPathname).Some?
  {
    hide Attempts, Values, Sort, Indexed, AllOk, FindRoute, Claims, IndexInputOf;
    var rule := req.redirects[i];
    RedirectEmitted(tools, req, rule);
    SameMembers(documents, Values(Attempts(tools, req)));
    var d :| d in documents && d.pathname == rule.fromPathname;
    var k :| 0 <= k < |documents| && documents[k] == d;
    DocumentClaimed(tools, req, documents, k);
  }

  lemma {:induction false} DocumentClaimed(tools: Tools, req: CompileRequest, documents: seq<Document>, k: nat)
    requires k < |documents|
    ensures FindRoute(Claims(IndexInputOf(tools, req, documents)), documents[k].pathname).Some?
  {
    hide Sort, FindRoute;
    var input := IndexInputOf(tools, req, documents);
    assert input.documents[k].pathname == documents[k].pathname;
    assert Claims(input)[k] == RouteOf(input.documents[k]);
    assert Claims(input)[k].pathname == documents[k].pathname;
  }

  /** The document of each redirect is among those emitted. */
  lemma {:induction false} RedirectEmitted(tools: Tools, req: CompileRequest, rule: RedirectRule)
    requires AllOk(Attempts(tools, req)) && rule in req.redirects
    ensures RedirectAttempt(tools, req, rule).Ok?
    ensures RedirectAttempt(tools, req, rule).value in Values(Attempts(tools, req))
    ensures RedirectAttempt(tools, req, rule).value.pathname == rule.fromPathname
  {
    hide Sort, ArticleAttempts, SectionAttempts, SectionsAttempts, NotFoundAttempt, ItemsOf, TitlesOf, AllOk, ResolveTarget;
    var rules := Sort(req.redirects, RulePath, tools.before);
    assert rule in rules;
    var k :| 0 <= k < |rules| && rules[k] == rule;
    RedirectAttemptAt(tools, req, rules, k);
    var attempt := RedirectAttempt(tools, req, rule);
    assert attempt in RedirectAttempts(tools, req, rules);
    hide RedirectAttempts, RedirectAttempt;
    assert attempt in Attempts(tools, req);
    ValueIn(Attempts(tools, req), attempt);
    RedirectPath(tools, req, rule);
  }

  lemma {:induction false} RedirectPath(tools: Tools, req: CompileRequest, rule: RedirectRule)
    ensures RedirectAttempt(tools, req, rule).Ok? ==> RedirectAttempt(tools, req, rule).value.pathname == rule.fromPathname
  {
    hide ResolveTarget;
  }

  lemma {:induction false} RedirectAttemptAt(tools: Tools, req: CompileRequest, rules: seq<RedirectRule>, k: nat)
    requires k < |rules|
    ensures |RedirectAttempts(tools, req, rules)| == |rules|
    ensures RedirectAttempts(tools, req, rules)[k] == RedirectAttempt(tools, req, rules[k])
  {
    hide RedirectAttempt;
    if k > 0 {
      RedirectAttemptAt(tools, req, rules[1..], k - 1);
    } else if |rules| > 1 {
      RedirectAttemptAt(tools, req, rules[1..], 0);
    }
  }

  lemma {:induction false} ValueIn(attempts: seq<Attempt>, attempt: Attempt)
    requires AllOk(attempts) && attempt in attempts
    ensures attempt.Ok? && attempt.value in Values(attempts)
  {
    var i :| 0 <= i < |attempts| && attempts[i] == attempt;
    assert AllOk(attempts[1..]) by {
      forall j | 0 <= j < |attempts| - 1 ensures attempts[1..][j].Ok? { assert attempts[j + 1].Ok?; }
    }
    if i > 0 {
      assert attempts[1..][i - 1] == attempt;
      ValueIn(attempts[1..], attempt);
    }
  }

  lemma {:induction false} ReorderedOnce(tools: Tools, a: CompileRequest, b: CompileRequest)
    requires StrictTotalOrder(tools.before) && Reordered(a, b) && Compiled(tools, a).Ok?
    ensures Compiled(tools, b) == Compiled(tools, a)
  {
    hide Sort, DistinctBy, Attempts, Assembled, Values, Once, AllOk, StrictTotalOrder;
    assert DistinctBy(a.editions, EditionPath);
    CompiledFacts(tools, a);
    SourcesDistinct(tools, a);
    AttemptsPermuted(tools, a, b);
    DistinctByMultiset(a.editions, b.editions, EditionPath);
    Gathered([], Attempts(tools, b));
    var emitted := Values(Attempts(tools, b));
    assert [] + emitted == emitted;
    AssembledPermuted(tools, a, b, emitted);
  }

  lemma {:induction false} AssembledPermuted(tools: Tools, a: CompileRequest, b: CompileRequest, emitted: seq<Document>)
    requires Reordered(a, b) && AllOk(Attempts(tools, a)) && emitted == Values(Attempts(tools, a))
    requires Indexed(IndexInputOf(tools, a, Sort(emitted, DocumentPath, tools.before))).Ok?
    requires DistinctBy(a.redirects, RulePath)
    ensures Assembled(tools, a, emitted) == Assembled(tools, b, emitted)
  {
    hide Sort, DistinctBy, Attempts, Values, AllOk, Indexed, FindRoute, Claims, HeadsOf;
    var documents := Sort(emitted, DocumentPath, tools.before);
    SortMultiset(emitted, DocumentPath, tools.before);
    var x, y := IndexInputOf(tools, a, documents), IndexInputOf(tools, b, documents);
    forall i | 0 <= i < |x.redirects| ensures FindRoute(Claims(x), x.redirects[i].fromPathname).Some? {
      RedirectsRouted(tools, a, documents, i);
    }
    IndexPermuted(x, y);
  }

  /**
   Reordering editions, categories, tags, redirects or gone pathnames leaves the compilation failing
   both times or giving the same documents, route index, sitemap and manifest, whenever localeCompare
   is a strict total order of the pathnames.
   */
  lemma {:induction false} CompilationIgnoresOrder(tools: Tools, a: CompileRequest, b: CompileRequest)
    requires StrictTotalOrder(tools.before) && Reordered(a, b)
    ensures Compiled(tools, a) == Compiled(tools, b) || (Compiled(tools, a).Err? && Compiled(tools, b).Err?)
  {
    hide Compiled, StrictTotalOrder;
    if Compiled(tools, a).Ok? {
      ReorderedOnce(tools, a, b);
    } else if Compiled(tools, b).Ok? {
      assert Reordered(b, a);
      ReorderedOnce(tools, b, a);
    }
  }
}
