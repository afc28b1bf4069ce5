/**
 The documents of a release and their hashes. A body is known by what reading its bytes as JSON
 gives. SHA-256 is the free constructor `Sha256`: an injective function with no other law.
 */
module Documents {
  import opened Wrappers
  import opened Text
  import opened Sorting

  datatype Sha = Sha256(body: Body)

  datatype Body =
    | CanonicalManifest(manifest: Manifest)
    | LooseManifest(manifest: Manifest, layout: string)
    | RoutesJson(index: RouteIndex, layout: string)
    | PageJson(page: Page, layout: string)
    | RoutingJson(table: RoutingTable, layout: string)
    | Octets(text: string)

  datatype Artifact = Artifact(path: string, bytes: nat, contentType: string, sha256: Sha)

  datatype Manifest = Manifest(
    siteId: string, releaseId: string, compilerVersion: string, createdAt: string,
    objects: seq<Artifact>, sourceVersionIds: seq<string>)

  datatype RouteStatus = Active | Redirect | Gone | NotFound

  /** `objectKey` and `pageType` are empty for a gone route, which has no document. */
  datatype Route = Route(pathname: string, status: RouteStatus, objectKey: string, pageType: string)

  datatype RouteIndex = RouteIndex(siteId: string, canonicalDomain: string, routes: seq<Route>)

  datatype Page = Page(siteId: string, pathname: string, pageType: string, targetUrl: string, content: string)

  datatype Host = Host(host: string, siteId: string, canonical: bool)

  datatype RoutingTable = RoutingTable(hosts: seq<Host>)

  /** A site's current-release pointer. */
  datatype SitePointer = SitePointer(
    siteId: string, releaseId: string, manifestSha256: Sha, actor: string, updatedAt: string)

  /** The global routing pointer. */
  datatype RoutingPointer = RoutingPointer(routingId: string, manifestSha256: Sha, updatedAt: string)

  const JSON_CONTENT_TYPE := "application/json"
  const XML_CONTENT_TYPE := "application/xml"
  const MANIFEST_PATH := "manifest.json"

  // ---------- byte lengths ----------

  function TextsLength(texts: seq<string>): nat {
    if texts == [] then 0 else |texts[0]| + 3 + TextsLength(texts[1..])
  }

  /** An artifact entry: its strings, a 64-digit hash, and the punctuation of its four fields. */
  function ArtifactsLength(artifacts: seq<Artifact>): nat {
    if artifacts == [] then 0
    else |artifacts[0].path| + |artifacts[0].contentType| + 64 + 60 + ArtifactsLength(artifacts[1..])
  }

  function ManifestLength(m: Manifest): nat {
    |m.siteId| + |m.releaseId| + |m.compilerVersion| + |m.createdAt| + 120
    + ArtifactsLength(m.objects) + TextsLength(m.sourceVersionIds)
  }

  function ByteLength(body: Body): nat {
    match body
    case CanonicalManifest(m) => ManifestLength(m)
    case LooseManifest(_, layout) => |layout|
    case RoutesJson(index, layout) => |index.siteId| + |index.canonicalDomain| + 100 * |index.routes| + |layout|
    case PageJson(page, layout) => |page.pathname| + |page.pageType| + |page.content| + |layout|
    case RoutingJson(table, layout) => 100 * |table.hosts| + |layout|
    case Octets(text) => |text|
  }

  /** Reading a body as a release manifest; None is a parse or schema failure. */
  function ManifestOf(body: Body): Option<Manifest> {
    match body
    case CanonicalManifest(m) => Some(m)
    case LooseManifest(m, _) => Some(m)
    case _ => None
  }

  // ---------- formats ----------

  predicate IsSeparator(c: char) {
    c == '-' || c == '_'
  }

  /** Lower-case letters and digits, with single separators between them. */
  predicate IsIdentifier(s: string) {
    && s != "" && !IsSeparator(s[0]) && !IsSeparator(s[|s| - 1])
    && (forall i :: 0 <= i < |s| ==> 'a' <= s[i] <= 'z' || '0' <= s[i] <= '9' || IsSeparator(s[i]))
    && (forall i :: 0 < i < |s| ==> !(IsSeparator(s[i - 1]) && IsSeparator(s[i])))
  }

  predicate IsAlphanumeric(c: char) {
    'a' <= c <= 'z' || 'A' <= c <= 'Z' || '0' <= c <= '9'
  }

  /** One segment of an artifact path: letters, digits, dots, underscores and dashes, not at its ends. */
  predicate IsArtifactPart(part: string) {
    && part != "" && IsAlphanumeric(part[0]) && IsAlphanumeric(part[|part| - 1])
    && forall i :: 0 <= i < |part| ==> IsAlphanumeric(part[i]) || part[i] == '.' || part[i] == '_' || part[i] == '-'
  }

  predicate IsArtifactPath(path: string) {
    && |path| <= 1024 && path != MANIFEST_PATH
    && forall part :: part in Split(path, '/') ==> IsArtifactPart(part)
  }

  predicate IsPathname(pathname: string) {
    pathname != "" && pathname[0] == '/' && '?' !in pathname && '#' !in pathname
  }

  predicate IsHostLabel(name: string) {
    && 1 <= |name| <= 63 && name[0] != '-' && name[|name| - 1] != '-'
    && forall i :: 0 <= i < |name| ==> 'a' <= name[i] <= 'z' || '0' <= name[i] <= '9' || name[i] == '-'
  }

  predicate IsHost(host: string) {
    |Split(host, '.')| >= 2 && forall name :: name in Split(host, '.') ==> IsHostLabel(name)
  }

  /** A route as the schema accepts it. */
  predicate IsRoute(route: Route) {
    IsPathname(route.pathname) && (!route.status.Gone? ==> IsArtifactPath(route.objectKey))
  }

  /** The schema of a route index: well-formed routes, every pathname once, exactly one not-found route. */
  predicate IsRouteIndex(index: RouteIndex) {
    && IsIdentifier(index.siteId) && IsHost(index.canonicalDomain)
    && (forall i :: 0 <= i < |index.routes| ==> IsRoute(index.routes[i]))
    && (forall i, j :: 0 <= i < j < |index.routes| ==> index.routes[i].pathname != index.routes[j].pathname)
    && (exists i :: 0 <= i < |index.routes| && index.routes[i].status.NotFound?)
    && (forall i, j :: 0 <= i < j < |index.routes| ==>
          !(index.routes[i].status.NotFound? && index.routes[j].status.NotFound?))
  }

  function RoutesOf(body: Body): Option<RouteIndex> {
    match body
    case RoutesJson(index, _) => if IsRouteIndex(index) then Some(index) else None
    case _ => None
  }

  function PageOf(body: Body): Option<Page> {
    match body
    case PageJson(page, _) => Some(page)
    case _ => None
  }

  function HostName(h: Host): string { h.host }

  /** The schema of a routing manifest: well-formed hosts, every host once, one canonical host for every site. */
  predicate IsRoutingTable(table: RoutingTable) {
    && (forall i :: 0 <= i < |table.hosts| ==> IsHost(table.hosts[i].host) && IsIdentifier(table.hosts[i].siteId))
    && DistinctBy(table.hosts, HostName)
    && (forall i :: 0 <= i < |table.hosts| ==> HasCanonical(table.hosts, table.hosts[i].siteId))
    && (forall i, j :: 0 <= i < j < |table.hosts| && table.hosts[i].canonical && table.hosts[j].canonical
          ==> table.hosts[i].siteId != table.hosts[j].siteId)
  }

  predicate HasCanonical(hosts: seq<Host>, siteId: string) {
    exists i :: 0 <= i < |hosts| && hosts[i].siteId == siteId && hosts[i].canonical
  }

  /** Parsing and printing put the hosts in order. */
  function SortedTable(table: RoutingTable): RoutingTable {
    RoutingTable(Sort(table.hosts, HostName, UnitLess))
  }

  function RoutingOf(body: Body): Option<RoutingTable> {
    match body
    case RoutingJson(table, _) => if IsRoutingTable(table) then Some(SortedTable(table)) else None
    case _ => None
  }

  /** The hash that verifyManifest records: of the manifest's canonical serialisation. */
  function ManifestHash(m: Manifest): Sha {
    Sha256(CanonicalManifest(m))
  }

  /** The serialised routing manifest. */
  function RoutingBody(table: RoutingTable): Body {
    RoutingJson(SortedTable(table), "")
  }

  lemma {:induction false} SortedIsTable(table: RoutingTable)
    requires IsRoutingTable(table)
    ensures IsRoutingTable(SortedTable(table)) && SortedTable(SortedTable(table)) == SortedTable(table)
    ensures forall h :: h in SortedTable(table).hosts <==> h in table.hosts
  {
    hide IsHost, IsIdentifier, UnitLess, Sort;
    var a, b := table.hosts, SortedTable(table).hosts;
    UnitLessIsOrder();
    SortMultiset(a, HostName, UnitLess);
    DistinctByMultiset(a, b, HostName);
    SortIncreasing(a, HostName, UnitLess);
    SortFixed(b, HostName, UnitLess);
    forall i | 0 <= i < |b|
      ensures IsHost(b[i].host) && IsIdentifier(b[i].siteId) && HasCanonical(b, b[i].siteId)
    {
      assert b[i] in a;
      var k :| 0 <= k < |a| && a[k] == b[i];
      var j :| 0 <= j < |a| && a[j].siteId == a[k].siteId && a[j].canonical;
      assert a[j] in b;
      var m :| 0 <= m < |b| && b[m] == a[j];
    }
    OneCanonicalSorted(a, b);
  }

  lemma {:induction false} OneCanonicalSorted(a: seq<Host>, b: seq<Host>)
    requires DistinctBy(a, HostName) && DistinctBy(b, HostName) && forall h :: h in a <==> h in b
    requires forall i, j :: 0 <= i < j < |a| && a[i].canonical && a[j].canonical ==> a[i].siteId != a[j].siteId
    ensures forall i, j :: 0 <= i < j < |b| && b[i].canonical && b[j].canonical ==> b[i].siteId != b[j].siteId
  {
    forall i, j | 0 <= i < j < |b| && b[i].canonical && b[j].canonical ensures b[i].siteId != b[j].siteId {
      assert b[i] in a && b[j] in a;
      var k :| 0 <= k < |a| && a[k] == b[i];
      var m :| 0 <= m < |a| && a[m] == b[j];
      assert HostName(b[i]) != HostName(b[j]);
    }
  }
}
