/** The breadcrumbs that the compiler emits, and the renderer's check of them. */
module Breadcrumbs {
  import opened Wrappers
  import opened Text

  datatype Breadcrumb = Breadcrumb(pathname: string, title: string)

  // ---------- emitting ----------

  function NonEmpty(parts: seq<string>): (r: seq<string>)
    ensures forall i :: 0 <= i < |r| ==> r[i] != ""
  {
    if parts == [] then []
    else if parts[0] == "" then NonEmpty(parts[1..])
    else [parts[0]] + NonEmpty(parts[1..])
  }

  function Segments(pathname: string): (r: seq<string>)
    ensures forall i :: 0 <= i < |r| ==> r[i] != ""
  {
    NonEmpty(Split(pathname, '/'))
  }

  function PathOf(segments: seq<string>): string {
    "/" + Join(segments, '/')
  }

  /** A leading slash, no empty segment, no trailing slash. */
  predicate IsNormal(pathname: string) {
    pathname == PathOf(Segments(pathname))
  }

  /** `capitalize` upper-cases the first letter of a segment. */
  function AncestorCrumb(segments: seq<string>, i: nat, titles: map<string, string>, capitalize: string -> string): Breadcrumb
    requires i < |segments|
  {
    var pathname := PathOf(segments[..i + 1]);
    Breadcrumb(pathname, if pathname in titles then titles[pathname] else capitalize(segments[i]))
  }

  function ArticleBreadcrumbs(
    titles: map<string, string>, pathname: string, siteName: string, title: string, capitalize: string -> string)
    : seq<Breadcrumb>
  {
    var segments := Segments(pathname);
    var ancestors := if segments == [] then 0 else |segments| - 1;
    [Breadcrumb("/", siteName)]
    + seq(ancestors, i requires 0 <= i < ancestors => AncestorCrumb(segments, i, titles, capitalize))
    + [Breadcrumb(pathname, title)]
  }

  /** The breadcrumbs of listing pages and of the not-found page. */
  function ListingBreadcrumbs(pathname: string, siteName: string, title: string): seq<Breadcrumb> {
    [Breadcrumb("/", siteName), Breadcrumb(pathname, title)]
  }

  // ---------- checking ----------

  predicate IsRouteAncestor(pathname: string, routePathname: string) {
    pathname == "/" || pathname == routePathname || StartsWith(routePathname, pathname + "/")
  }

  /** From the root, all different, all ancestors of the route or the route itself. */
  predicate BreadcrumbsValid(crumbs: seq<Breadcrumb>, routePathname: string) {
    && crumbs != [] && crumbs[0].pathname == "/"
    && (forall i :: 0 <= i < |crumbs| ==> IsRouteAncestor(crumbs[i].pathname, routePathname))
    && (forall i, j :: 0 <= i < j < |crumbs| ==> crumbs[i].pathname != crumbs[j].pathname)
  }

  method ValidateBreadcrumbs(crumbs: seq<Breadcrumb>, routePathname: string) returns (ok: bool)
    ensures ok <==> BreadcrumbsValid(crumbs, routePathname)
  {
    if crumbs == [] || crumbs[0].pathname != "/" {
      return false;
    }
    var pathnames: set<string> := {};
    var i := 0;
    while i < |crumbs|
      invariant 0 <= i <= |crumbs|
      invariant pathnames == set j | 0 <= j < i :: crumbs[j].pathname
      invariant forall j :: 0 <= j < i ==> IsRouteAncestor(crumbs[j].pathname, routePathname)
      invariant forall j, k :: 0 <= j < k < i ==> crumbs[j].pathname != crumbs[k].pathname
    {
      if crumbs[i].pathname in pathnames || !IsRouteAncestor(crumbs[i].pathname, routePathname) {
        return false;
      }
      pathnames := pathnames + {crumbs[i].pathname};
      i := i + 1;
    }
    return true;
  }

  // ---------- the renderer accepts what the compiler emits ----------

  /** A path begins with each of its ancestors and a slash. */
  lemma {:induction false} AncestorPrefix(segments: seq<string>, i: nat)
    requires 0 < i < |segments|
    ensures StartsWith(PathOf(segments), PathOf(segments[..i]) + "/")
    ensures |PathOf(segments)| == |PathOf(segments[..i])| + 1 + |Join(segments[i..], '/')|
  {
    assert segments == segments[..i] + segments[i..];
    JoinConcat(segments[..i], segments[i..], '/');
    var whole, front := PathOf(segments), PathOf(segments[..i]) + "/";
    assert whole == front + Join(segments[i..], '/');
    assert whole[..|front|] == front;
  }

  /** Longer ancestors have longer pathnames. */
  lemma {:induction false} AncestorsGrow(segments: seq<string>, i: nat, j: nat)
    requires i < j <= |segments| && forall k :: 0 <= k < |segments| ==> segments[k] != ""
    ensures |PathOf(segments[..i])| < |PathOf(segments[..j])|
  {
    var upper := segments[..j];
    assert upper[..i] == segments[..i];
    if i == 0 {
      assert upper == [segments[0]] + upper[1..];
      assert segments[..0] == [];
      assert |Join(upper, '/')| >= |upper[0]|;
    } else {
      AncestorPrefix(upper, i);
    }
  }

  /** For a normal pathname the renderer accepts an article's breadcrumbs exactly when it is not the root. */
  lemma {:induction false} ArticleBreadcrumbsValid(
    titles: map<string, string>, pathname: string, siteName: string, title: string, capitalize: string -> string)
    requires IsNormal(pathname)
    ensures BreadcrumbsValid(ArticleBreadcrumbs(titles, pathname, siteName, title, capitalize), pathname)
       <==> pathname != "/"
  {
    hide PathOf, Segments, StartsWith;
    var segments := Segments(pathname);
    var crumbs := ArticleBreadcrumbs(titles, pathname, siteName, title, capitalize);
    assert crumbs[|crumbs| - 1].pathname == pathname;
    if pathname != "/" {
      RootIsEmpty(pathname);
      var n := |segments|;
      assert segments[..n] == segments && segments[..0] == [];
      RootPath();
      assert forall i :: 0 <= i <= n ==> crumbs[i].pathname == PathOf(segments[..i]);
      forall i | 0 <= i < |crumbs| ensures IsRouteAncestor(crumbs[i].pathname, pathname) {
        if 0 < i < n {
          AncestorPrefix(segments, i);
        }
      }
      forall i, j | 0 <= i < j < |crumbs| ensures crumbs[i].pathname != crumbs[j].pathname {
        AncestorsGrow(segments, i, j);
      }
    }
  }

  lemma RootPath()
    ensures PathOf([]) == "/"
  {
  }

  lemma RootIsEmpty(pathname: string)
    requires IsNormal(pathname) && pathname != "/"
    ensures Segments(pathname) != []
  {
  }

  /** A listing page or the not-found page is accepted exactly when it is not at the root. */
  lemma {:induction false} ListingBreadcrumbsValid(pathname: string, siteName: string, title: string)
    ensures BreadcrumbsValid(ListingBreadcrumbs(pathname, siteName, title), pathname) <==> pathname != "/"
  {
    var crumbs := ListingBreadcrumbs(pathname, siteName, title);
    assert crumbs[0].pathname == "/" && crumbs[1].pathname == pathname;
  }

  // ---------- the trail of an article, one segment at a time ----------

  /** `pathname` is one segment longer than `above`, where the root counts as nothing. */
  ghost predicate Extends(above: string, segment: string, pathname: string) {
    segment != "" && '/' !in segment && pathname == (if above == "/" then "" else above) + "/" + segment
  }

  lemma {:induction false} NonEmptyFree(parts: seq<string>)
    requires NoneHas(parts, '/')
    ensures NoneHas(NonEmpty(parts), '/')
  {
    if parts != [] {
      assert parts[0] in parts && NoneHas(parts[1..], '/');
      NonEmptyFree(parts[1..]);
    }
  }

  lemma {:induction false} PathExtends(segments: seq<string>, i: nat)
    requires i < |segments| && NoneHas(segments, '/') && forall k :: 0 <= k < |segments| ==> segments[k] != ""
    ensures Extends(PathOf(segments[..i]), segments[i], PathOf(segments[..i + 1]))
  {
    assert segments[i] in segments;
    assert segments[..i + 1] == segments[..i] + [segments[i]];
    if i == 0 {
      assert segments[..0] == [];
    } else {
      JoinConcat(segments[..i], [segments[i]], '/');
      assert segments[..i] == [segments[0]] + segments[..i][1..];
      assert |Join(segments[..i], '/')| >= |segments[0]| > 0;
    }
  }

  ghost predicate IsParent(above: string, pathname: string) {
    exists segment :: Extends(above, segment, pathname)
  }

  /** A crumb has its listing's title, or else its own capitalised segment. */
  ghost predicate Titled(above: string, crumb: Breadcrumb, titles: map<string, string>, capitalize: string -> string) {
    exists segment ::
      && Extends(above, segment, crumb.pathname)
      && crumb.title == if crumb.pathname in titles then titles[crumb.pathname] else capitalize(segment)
  }

  /** From the site's name at the root through every ancestor to the article's own title. */
  lemma {:induction false} ArticleTrail(
    titles: map<string, string>, pathname: string, siteName: string, title: string, capitalize: string -> string)
    requires IsNormal(pathname) && pathname != "/"
    ensures var crumbs := ArticleBreadcrumbs(titles, pathname, siteName, title, capitalize);
      var n := |crumbs| - 1;
      && n >= 1 && crumbs[0] == Breadcrumb("/", siteName) && crumbs[n] == Breadcrumb(pathname, title)
      && (forall i :: 0 < i < n ==> Titled(crumbs[i - 1].pathname, crumbs[i], titles, capitalize))
      && IsParent(crumbs[n - 1].pathname, pathname)
  {
    hide PathOf, Segments, Extends, Titled, AncestorCrumb;
    var segments := Segments(pathname);
    var crumbs := ArticleBreadcrumbs(titles, pathname, siteName, title, capitalize);
    RootIsEmpty(pathname);
    RootPath();
    SegmentsFree(pathname);
    var n := |segments|;
    assert segments[..n] == segments && segments[..0] == [];
    forall i | 0 <= i < n ensures crumbs[i].pathname == PathOf(segments[..i]) {
      if i > 0 {
        AncestorTitled(segments, i - 1, titles, capitalize);
      }
    }
    forall i | 0 < i < n ensures Titled(crumbs[i - 1].pathname, crumbs[i], titles, capitalize) {
      AncestorTitled(segments, i - 1, titles, capitalize);
    }
    PathExtends(segments, n - 1);
  }

  lemma {:induction false} AncestorTitled(segments: seq<string>, i: nat, titles: map<string, string>, capitalize: string -> string)
    requires i < |segments| && NoneHas(segments, '/') && forall k :: 0 <= k < |segments| ==> segments[k] != ""
    ensures AncestorCrumb(segments, i, titles, capitalize).pathname == PathOf(segments[..i + 1])
    ensures Titled(PathOf(segments[..i]), AncestorCrumb(segments, i, titles, capitalize), titles, capitalize)
  {
    hide PathOf, Extends;
    PathExtends(segments, i);
  }

  lemma SegmentsFree(pathname: string)
    ensures NoneHas(Segments(pathname), '/')
  {
    SplitFree(pathname, '/');
    NonEmptyFree(Split(pathname, '/'));
  }
}
