/** Listings cut into pages, and the renderer's check of a page's pagination. */
module Pagination {
  import opened Wrappers
  import opened Text

  datatype ListingPage<+T> = ListingPage(
    pathname: string, page: nat, pageCount: nat, totalItems: nat, items: seq<T>,
    nextPathname: Option<string>, previousPathname: Option<string>)

  function ListingPagePathname(basePathname: string, page: nat): string {
    if page == 1 then basePathname
    else (if basePathname == "/" then "" else basePathname) + "/page/" + NatText(page)
  }

  /** Math.max(1, Math.ceil(count / pageSize)) */
  function PageCount(count: nat, pageSize: nat): (n: nat)
    requires pageSize >= 1
    ensures n >= 1
    ensures count <= n * pageSize
    ensures n > 1 ==> (n - 1) * pageSize < count
  {
    var up := (count + pageSize - 1) / pageSize;
    CeilingFacts(count, pageSize);
    if up < 1 then 1 else up
  }

  lemma CeilingFacts(count: nat, pageSize: nat)
    requires pageSize >= 1
    ensures var up := (count + pageSize - 1) / pageSize;
      count <= up * pageSize && (up >= 1 ==> (up - 1) * pageSize < count)
  {
    var up := (count + pageSize - 1) / pageSize;
    assert (count + pageSize - 1) == up * pageSize + (count + pageSize - 1) % pageSize;
    assert (up - 1) * pageSize == up * pageSize - pageSize;
  }

  function Min(a: int, b: int): int {
    if a < b then a else b
  }

  /** Array.prototype.slice with its bounds clamped. */
  function Slice<T>(s: seq<T>, from: nat, to: nat): seq<T>
    requires from <= to
  {
    s[Min(from, |s|)..Min(to, |s|)]
  }

  function PageAt<T>(basePathname: string, items: seq<T>, pageSize: nat, page: nat): ListingPage<T>
    requires pageSize >= 1 && page >= 1
  {
    var pageCount := PageCount(|items|, pageSize);
    assert (page - 1) * pageSize <= page * pageSize;
    ListingPage(
      ListingPagePathname(basePathname, page), page, pageCount, |items|,
      Slice(items, (page - 1) * pageSize, page * pageSize),
      if page < pageCount then Some(ListingPagePathname(basePathname, page + 1)) else None,
      if page > 1 then Some(ListingPagePathname(basePathname, page - 1)) else None)
  }

  function Pages<T>(basePathname: string, items: seq<T>, pageSize: nat): (pages: seq<ListingPage<T>>)
    requires pageSize >= 1
    ensures |pages| == PageCount(|items|, pageSize)
  {
    seq(PageCount(|items|, pageSize), i requires i >= 0 => PageAt(basePathname, items, pageSize, i + 1))
  }

  method Bounds(page: nat, pageSize: nat) returns (from: nat, to: nat)
    requires page >= 1 && pageSize >= 1
    ensures from == (page - 1) * pageSize && to == page * pageSize && from <= to
  {
    from, to := (page - 1) * pageSize, page * pageSize;
  }

  /** Err is PAGINATION_INVALID. */
  method PaginateListing<T>(basePathname: string, items: seq<T>, pageSize: int)
    returns (result: Result<seq<ListingPage<T>>, ()>)
    ensures result == if pageSize < 1 then Err(()) else Ok(Pages(basePathname, items, pageSize))
  {
    if pageSize < 1 {
      return Err(());
    }
    hide PageCount, ListingPagePathname, Slice, Pages, PageAt;
    var pageCount := PageCount(|items|, pageSize);
    var pages: seq<ListingPage<T>> := [];
    var page := 1;
    PagesFrom(basePathname, items, pageSize);
    while page <= pageCount
      invariant 1 <= page <= pageCount + 1
      invariant pages == Pages(basePathname, items, pageSize)[..page - 1]
    {
      var from, to := Bounds(page, pageSize);
      PageIs(basePathname, items, pageSize, page, from, to);
      pages := pages + [ListingPage(
        ListingPagePathname(basePathname, page), page, pageCount, |items|, Slice(items, from, to),
        if page < pageCount then Some(ListingPagePathname(basePathname, page + 1)) else None,
        if page > 1 then Some(ListingPagePathname(basePathname, page - 1)) else None)];
      page := page + 1;
    }
    assert pages == Pages(basePathname, items, pageSize);
    return Ok(pages);
  }

  lemma PagesFrom<T>(basePathname: string, items: seq<T>, pageSize: nat)
    requires pageSize >= 1
    ensures forall i :: 1 <= i <= PageCount(|items|, pageSize) ==>
      Pages(basePathname, items, pageSize)[i - 1] == PageAt(basePathname, items, pageSize, i)
  {
    hide PageCount, PageAt;
  }

  lemma PageIs<T>(basePathname: string, items: seq<T>, pageSize: nat, page: nat, from: nat, to: nat)
    requires pageSize >= 1 && page >= 1 && from == (page - 1) * pageSize && to == page * pageSize && from <= to
    ensures var pageCount := PageCount(|items|, pageSize);
      PageAt(basePathname, items, pageSize, page) == ListingPage(
        ListingPagePathname(basePathname, page), page, pageCount, |items|, Slice(items, from, to),
        if page < pageCount then Some(ListingPagePathname(basePathname, page + 1)) else None,
        if page > 1 then Some(ListingPagePathname(basePathname, page - 1)) else None)
  {
    hide PageCount, ListingPagePathname, Slice;
  }

  // ---------- the pages partition the items ----------

  function AllItems<T>(pages: seq<ListingPage<T>>): seq<T> {
    if pages == [] then [] else pages[0].items + AllItems(pages[1..])
  }

  lemma {:induction false} ItemsFrom<T>(basePathname: string, items: seq<T>, pageSize: nat, from: nat)
    requires pageSize >= 1 && from <= PageCount(|items|, pageSize)
    ensures AllItems(Pages(basePathname, items, pageSize)[from..]) == items[Min(from * pageSize, |items|)..]
    decreases PageCount(|items|, pageSize) - from
  {
    hide PageCount, ListingPagePathname;
    var pages := Pages(basePathname, items, pageSize);
    if from == |pages| {
    } else {
      ItemsFrom(basePathname, items, pageSize, from + 1);
      assert pages[from..][1..] == pages[from + 1..];
      var start, end := from * pageSize, (from + 1) * pageSize;
      assert end == start + pageSize;
      SliceSplits(items, start, end);
      assert pages[from] == PageAt(basePathname, items, pageSize, from + 1);
      assert pages[from].items == Slice(items, start, end);
    }
  }

  lemma SliceSplits<T>(items: seq<T>, from: nat, to: nat)
    requires from <= to
    ensures Slice(items, from, to) + items[Min(to, |items|)..] == items[Min(from, |items|)..]
  {
  }

  /** Concatenating the pages gives back the items; every page but the last is full. */
  lemma {:induction false} PagesPartition<T>(basePathname: string, items: seq<T>, pageSize: nat)
    requires pageSize >= 1
    ensures var pages := Pages(basePathname, items, pageSize);
      && AllItems(pages) == items
      && (forall i :: 0 <= i < |pages| - 1 ==> |pages[i].items| == pageSize)
      && |pages[|pages| - 1].items| <= pageSize
      && (items != [] ==> pages[|pages| - 1].items != [])
  {
    hide PageCount, ListingPagePathname;
    var pages := Pages(basePathname, items, pageSize);
    ItemsFrom(basePathname, items, pageSize, 0);
    assert pages[0..] == pages;
    forall i | 0 <= i < |pages| - 1 ensures |pages[i].items| == pageSize {
      PageLength(basePathname, items, pageSize, i);
    }
    PageLength(basePathname, items, pageSize, |pages| - 1);
  }

  lemma {:induction false} PageLength<T>(basePathname: string, items: seq<T>, pageSize: nat, i: nat)
    requires pageSize >= 1 && i < PageCount(|items|, pageSize)
    ensures var page := PageAt(basePathname, items, pageSize, i + 1);
      && (i + 1 < PageCount(|items|, pageSize) ==> |page.items| == pageSize)
      && |page.items| <= pageSize
      && (items != [] ==> page.items != [])
  {
    hide ListingPagePathname, PageCount;
    var n := PageCount(|items|, pageSize);
    assert (i + 1) * pageSize == i * pageSize + pageSize;
    if i + 1 < n {
      assert (i + 1) * pageSize <= (n - 1) * pageSize;
    } else {
      assert i == n - 1;
    }
  }

  // ---------- the chain of pathnames ----------

  lemma {:induction false} PathnamesDistinct(basePathname: string, m: nat, n: nat)
    requires 1 <= m < n
    ensures ListingPagePathname(basePathname, m) != ListingPagePathname(basePathname, n)
  {
    var stem := if basePathname == "/" then "" else basePathname;
    var there := stem + "/page/" + NatText(n);
    if m == 1 {
      assert |there| > |basePathname|;
    } else if stem + "/page/" + NatText(m) == there {
      var k := |stem + "/page/"|;
      assert (stem + "/page/" + NatText(m))[k..] == NatText(m) && there[k..] == NatText(n);
      NatTextInjective(m, n);
    }
  }

  /** A page links to exactly its neighbours. */
  predicate LinksNeighbours<T>(pages: seq<ListingPage<T>>, i: nat)
    requires i < |pages|
  {
    && pages[i].nextPathname == (if i + 1 < |pages| then Some(pages[i + 1].pathname) else None)
    && pages[i].previousPathname == (if i > 0 then Some(pages[i - 1].pathname) else None)
  }

  /** The pages have different pathnames, start at the base, and form one chain. */
  lemma {:induction false} PagesChain<T>(basePathname: string, items: seq<T>, pageSize: nat)
    requires pageSize >= 1
    ensures var pages := Pages(basePathname, items, pageSize);
      && pages[0].pathname == basePathname
      && (forall i, j :: 0 <= i < j < |pages| ==> pages[i].pathname != pages[j].pathname)
      && (forall i :: 0 <= i < |pages| ==> LinksNeighbours(pages, i))
  {
    hide PageAt, PageCount, ListingPagePathname;
    var pages := Pages(basePathname, items, pageSize);
    PageLinks(basePathname, items, pageSize, 0);
    FirstPathname(basePathname);
    forall i | 0 <= i < |pages| ensures LinksNeighbours(pages, i) {
      PageLinks(basePathname, items, pageSize, i);
      if i + 1 < |pages| {
        PageLinks(basePathname, items, pageSize, i + 1);
      }
      if i > 0 {
        PageLinks(basePathname, items, pageSize, i - 1);
      }
    }
    forall i, j | 0 <= i < j < |pages| ensures pages[i].pathname != pages[j].pathname {
      PageLinks(basePathname, items, pageSize, i);
      PageLinks(basePathname, items, pageSize, j);
      PathnamesDistinct(basePathname, i + 1, j + 1);
    }
  }

  lemma FirstPathname(basePathname: string)
    ensures ListingPagePathname(basePathname, 1) == basePathname
  {
  }

  lemma {:induction false} PageLinks<T>(basePathname: string, items: seq<T>, pageSize: nat, i: nat)
    requires pageSize >= 1 && i < |Pages(basePathname, items, pageSize)|
    ensures var pages := Pages(basePathname, items, pageSize);
      && pages[i].pathname == ListingPagePathname(basePathname, i + 1)
      && pages[i].nextPathname == (if i + 1 < |pages| then Some(ListingPagePathname(basePathname, i + 2)) else None)
      && pages[i].previousPathname == (if i > 0 then Some(ListingPagePathname(basePathname, i)) else None)
  {
    hide PageCount, ListingPagePathname, Slice;
  }

  // ---------- the renderer ----------

  /** validatePagination of a document with this pagination. */
  method ValidatePagination<T>(p: ListingPage<T>, pageSize: nat) returns (ok: bool)
    requires pageSize >= 1 && p.page >= 1
    ensures ok <==> PaginationValid(p, pageSize)
  {
    var expected := PageCount(p.totalItems, pageSize);
    if p.pageCount != expected || p.page > p.pageCount {
      return false;
    }
    if (p.page == 1 && p.previousPathname.Some?) || (p.page > 1 && p.previousPathname.None?) {
      return false;
    }
    if (p.page == p.pageCount && p.nextPathname.Some?) || (p.page < p.pageCount && p.nextPathname.None?) {
      return false;
    }
    return true;
  }

  /** The totals fit, and there is a previous page exactly after the first and a next one exactly before the last. */
  predicate PaginationValid<T>(p: ListingPage<T>, pageSize: nat)
    requires pageSize >= 1
  {
    && p.pageCount == PageCount(p.totalItems, pageSize)
    && 1 <= p.page <= p.pageCount
    && (p.previousPathname.Some? <==> p.page > 1)
    && (p.nextPathname.Some? <==> p.page < p.pageCount)
  }

  /** The renderer accepts every page that the compiler emits. */
  lemma {:induction false} EmittedPagesValid<T>(basePathname: string, items: seq<T>, pageSize: nat, i: nat)
    requires pageSize >= 1 && i < |Pages(basePathname, items, pageSize)|
    ensures PaginationValid(Pages(basePathname, items, pageSize)[i], pageSize)
  {
    assert Pages(basePathname, items, pageSize)[i] == PageAt(basePathname, items, pageSize, i + 1);
  }

  // ---------- a page, field by field ----------

  predicate IsPagePathname(basePathname: string, page: nat, pathname: string) {
    pathname ==
      if page == 1 then basePathname
      else if basePathname == "/" then "/page/" + NatText(page)
      else basePathname + "/page/" + NatText(page)
  }

  /** One of the pages of a listing: as few pages as hold the items, all full but the last. */
  predicate IsPageOfListing<T(==)>(basePathname: string, items: seq<T>, pageSize: nat, page: ListingPage<T>) {
    var from := (page.page - 1) * pageSize;
    && 1 <= page.page <= page.pageCount && page.totalItems == |items|
    && |items| <= page.pageCount * pageSize && (page.pageCount > 1 ==> (page.pageCount - 1) * pageSize < |items|)
    && IsPagePathname(basePathname, page.page, page.pathname)
    && |page.items| == (if page.page < page.pageCount then pageSize else |items| - from)
    && (forall k :: 0 <= k < |page.items| && from + k < |items| ==> page.items[k] == items[from + k])
    && (page.nextPathname.Some? <==> page.page < page.pageCount)
    && (page.nextPathname.Some? ==> IsPagePathname(basePathname, page.page + 1, page.nextPathname.value))
    && (page.previousPathname.Some? <==> page.page > 1)
    && (page.previousPathname.Some? ==> IsPagePathname(basePathname, page.page - 1, page.previousPathname.value))
  }

  lemma PathnameForm(basePathname: string, page: nat, pathname: string)
    ensures pathname == ListingPagePathname(basePathname, page) <==> IsPagePathname(basePathname, page, pathname)
  {
    assert "" + "/page/" == "/page/";
  }

  lemma TimesGrows(a: nat, b: nat, k: nat)
    requires a <= b
    ensures a * k <= b * k
  {
    assert b * k == a * k + (b - a) * k;
  }

  lemma {:induction false} CountForm(count: nat, pageSize: nat, n: nat)
    requires pageSize >= 1
    ensures n == PageCount(count, pageSize) <==> n >= 1 && count <= n * pageSize && (n > 1 ==> (n - 1) * pageSize < count)
  {
    var m := PageCount(count, pageSize);
    hide PageCount;
    if n >= 1 && count <= n * pageSize && (n > 1 ==> (n - 1) * pageSize < count) {
      if n < m {
        TimesGrows(n, m - 1, pageSize);
      } else if m < n {
        TimesGrows(m, n - 1, pageSize);
      }
    }
  }

  lemma {:induction false} PartForm<T>(items: seq<T>, pageSize: nat, page: nat, pageCount: nat, part: seq<T>)
    requires pageSize >= 1 && 1 <= page <= pageCount
    requires |items| <= pageCount * pageSize && (pageCount > 1 ==> (pageCount - 1) * pageSize < |items|)
    ensures (page - 1) * pageSize <= |items| && (page - 1) * pageSize <= page * pageSize
    ensures part == Slice(items, (page - 1) * pageSize, page * pageSize) <==>
      && |part| == (if page < pageCount then pageSize else |items| - (page - 1) * pageSize)
      && forall k :: 0 <= k < |part| && (page - 1) * pageSize + k < |items| ==> part[k] == items[(page - 1) * pageSize + k]
  {
    var from, to := (page - 1) * pageSize, page * pageSize;
    assert to == from + pageSize;
    TimesGrows(page - 1, pageCount - 1, pageSize);
    if page < pageCount {
      TimesGrows(page, pageCount - 1, pageSize);
    }
    SliceForm(items, from, to, part);
  }

  lemma {:induction false} SliceForm<T>(items: seq<T>, from: nat, to: nat, part: seq<T>)
    requires from <= |items| && from <= to
    ensures part == Slice(items, from, to) <==>
      |part| == Min(to, |items|) - from && forall k :: 0 <= k < |part| && from + k < |items| ==> part[k] == items[from + k]
  {
  }

  /** The pages that the loop makes are exactly these. */
  lemma {:induction false} PageForm<T>(basePathname: string, items: seq<T>, pageSize: nat, page: ListingPage<T>)
    requires pageSize >= 1
    ensures IsPageOfListing(basePathname, items, pageSize, page) <==> page in Pages(basePathname, items, pageSize)
  {
    hide PageCount, ListingPagePathname, IsPagePathname, Slice;
    var n := page.page;
    CountForm(|items|, pageSize, page.pageCount);
    PathnameForm(basePathname, n, page.pathname);
    if page.nextPathname.Some? {
      PathnameForm(basePathname, n + 1, page.nextPathname.value);
    }
    if n > 1 && page.previousPathname.Some? {
      PathnameForm(basePathname, n - 1, page.previousPathname.value);
    }
    if 1 <= n <= page.pageCount && page.pageCount == PageCount(|items|, pageSize) {
      PartForm(items, pageSize, n, page.pageCount, page.items);
      assert IsPageOfListing(basePathname, items, pageSize, page) <==> page == PageAt(basePathname, items, pageSize, n);
      assert Pages(basePathname, items, pageSize)[n - 1] == PageAt(basePathname, items, pageSize, n);
    }
    if page in Pages(basePathname, items, pageSize) {
      var i :| 0 <= i < |Pages(basePathname, items, pageSize)| && Pages(basePathname, items, pageSize)[i] == page;
      assert page == PageAt(basePathname, items, pageSize, i + 1);
    }
  }
}
