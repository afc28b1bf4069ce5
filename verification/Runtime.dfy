/**
 The serving runtime: what a request checks at each read, and what a resolver without caches would
 answer from the routing pointer and the site pointer that a request observed.
 */
module Runtime {
  import opened Wrappers
  import opened Documents
  import opened ReleasePlans
  import opened ReleaseStore
  import opened Text

  datatype Code = StorageUnavailable | RoutingInvalid | SiteReleaseInvalid | ArtifactInvalid | RequestInvalid

  /** `Rejected` is a failure that escapes resolve: the call of notFound is returned, not awaited, in its try block. */
  datatype Outcome =
    | UnknownHost
    | Unavailable(code: Code)
    | Rejected(code: Code)
    | GoneResult(siteId: string, releaseId: string)
    | PageResult(siteId: string, releaseId: string, document: Page)
    | RedirectResult(siteId: string, releaseId: string, document: Page, targetUrl: string)
    | NotFoundResult(siteId: string, releaseId: string, document: Page)

  datatype RoutingState = RoutingState(table: RoutingTable, pointerEtag: ETag)

  datatype SiteState = SiteState(manifest: Manifest, pointer: SitePointer, pointerEtag: ETag, routes: RouteIndex)

  const ROUTES_PATH := "routes.json"

  // ---------- cache keys ----------

  function SitePrefix(siteId: string): string {
    siteId + "\0"
  }

  function PageKey(siteId: string, releaseId: string, pathname: string): string {
    siteId + "\0" + releaseId + "\0" + pathname
  }

  /** Two parts, the first without the separator, are determined by their joined text. */
  lemma {:induction false} PartsAgree(a: string, rest: string, b: string, other: string)
    requires IsIdentifier(a) && IsIdentifier(b)
    requires a + "\0" + rest == b + "\0" + other
    ensures a == b && rest == other
  {
    var x := a + "\0" + rest;
    assert x[|a|] == '\0' && forall i :: 0 <= i < |a| ==> x[i] == a[i] != '\0';
    assert x == b + "\0" + other;
    assert x[|b|] == '\0' && forall i :: 0 <= i < |b| ==> x[i] == b[i] != '\0';
    assert |a| == |b|;
    assert x[..|a|] == a && x[..|a|] == b;
    assert x[|a| + 1..] == rest && x[|a| + 1..] == other;
  }

  lemma {:induction false} PageKeyInjective(a: string, r: string, p: string, b: string, t: string, q: string)
    requires IsIdentifier(a) && IsIdentifier(r) && IsIdentifier(b) && IsIdentifier(t)
    requires PageKey(a, r, p) == PageKey(b, t, q)
    ensures a == b && r == t && p == q
  {
    hide IsIdentifier;
    assert PageKey(a, r, p) == a + "\0" + (r + "\0" + p);
    assert PageKey(b, t, q) == b + "\0" + (t + "\0" + q);
    PartsAgree(a, r + "\0" + p, b, t + "\0" + q);
    PartsAgree(r, p, t, q);
  }

  // ---------- the checks of each read ----------

  function FindHost(hosts: seq<Host>, hostname: string): (r: Option<Host>)
    ensures r.Some? ==> r.value in hosts && r.value.host == hostname
    ensures r.None? ==> forall h :: h in hosts ==> h.host != hostname
  {
    if hosts == [] then None
    else if hosts[0].host == hostname then Some(hosts[0])
    else FindHost(hosts[1..], hostname)
  }

  function FindCanonical(hosts: seq<Host>, siteId: string): (r: Option<Host>)
    ensures r.Some? ==> r.value in hosts && r.value.siteId == siteId && r.value.canonical
    ensures r.None? ==> forall h :: h in hosts && h.canonical ==> h.siteId != siteId
  {
    if hosts == [] then None
    else if hosts[0].siteId == siteId && hosts[0].canonical then Some(hosts[0])
    else FindCanonical(hosts[1..], siteId)
  }

  datatype Choice = Nobody | Failure(code: Code) | Site(siteId: string, canonicalDomain: string)

  /** The site of a hostname, with the host its release must be for. */
  function ChooseSite(table: RoutingTable, hostname: string): Choice {
    match FindHost(table.hosts, hostname)
    case None => Nobody
    case Some(host) =>
      match FindCanonical(table.hosts, host.siteId)
      case None => Failure(RoutingInvalid)
      case Some(canonical) => if IsIdentifier(host.siteId) then Site(host.siteId, canonical.host) else Failure(RoutingInvalid)
  }

  function CheckTable(stored: Option<StoredObject>, pointer: RoutingPointer): Result<RoutingTable, Code> {
    if stored.None? || stored.value.contentType != JSON_CONTENT_TYPE then Err(RoutingInvalid)
    else if Sha256(stored.value.body) != pointer.manifestSha256 then Err(RoutingInvalid)
    else match RoutingOf(stored.value.body)
      case None => Err(RoutingInvalid)
      case Some(table) => Ok(table)
  }

  function CheckPointer(pointer: SitePointer, siteId: string): Result<SitePointer, Code> {
    if IsIdentifier(pointer.siteId) && IsIdentifier(pointer.releaseId) && pointer.siteId == siteId then Ok(pointer)
    else Err(SiteReleaseInvalid)
  }

  function CheckManifest(stored: Option<StoredObject>, pointer: SitePointer): Result<Manifest, Code> {
    if stored.None? || stored.value.contentType != JSON_CONTENT_TYPE then Err(SiteReleaseInvalid)
    else match ManifestOf(stored.value.body)
      case None => Err(SiteReleaseInvalid)
      case Some(m) =>
        if Sha256(stored.value.body) == pointer.manifestSha256 && ManifestHash(m) == pointer.manifestSha256
           && m.siteId == pointer.siteId && m.releaseId == pointer.releaseId
        then Ok(m) else Err(SiteReleaseInvalid)
  }

  function FindArtifact(artifacts: seq<Artifact>, path: string): (r: Option<Artifact>)
    ensures r.Some? ==> r.value in artifacts && r.value.path == path
    ensures r.None? ==> forall a :: a in artifacts ==> a.path != path
  {
    if artifacts == [] then None
    else if artifacts[0].path == path then Some(artifacts[0])
    else FindArtifact(artifacts[1..], path)
  }

  /** A release object is used only when the manifest lists it with this length, type and hash. */
  function CheckArtifact(stored: Option<StoredObject>, m: Manifest, path: string): Result<Body, Code> {
    match FindArtifact(m.objects, path)
    case None => Err(ArtifactInvalid)
    case Some(expected) =>
      if && stored.Some? && ByteLength(stored.value.body) == expected.bytes
         && stored.value.contentType == expected.contentType && Sha256(stored.value.body) == expected.sha256
      then Ok(stored.value.body)
      else Err(ArtifactInvalid)
  }

  function CheckRoutes(stored: Option<StoredObject>, m: Manifest, canonicalDomain: string): Result<RouteIndex, Code> {
    match CheckArtifact(stored, m, ROUTES_PATH)
    case Err(code) => Err(code)
    case Ok(body) =>
      match RoutesOf(body)
      case None => Err(ArtifactInvalid)
      case Some(index) =>
        if index.siteId == m.siteId && index.canonicalDomain == canonicalDomain then Ok(index) else Err(ArtifactInvalid)
  }

  function CheckPage(stored: Option<StoredObject>, m: Manifest, route: Route): Result<Page, Code> {
    match CheckArtifact(stored, m, route.objectKey)
    case Err(code) => Err(code)
    case Ok(body) =>
      match PageOf(body)
      case None => Err(ArtifactInvalid)
      case Some(page) =>
        if page.siteId == m.siteId && page.pathname == route.pathname then Ok(page) else Err(ArtifactInvalid)
  }

  // ---------- choosing a route and answering ----------

  function FindRoute(routes: seq<Route>, pathname: string): (r: Option<Route>)
    ensures r.Some? ==> r.value in routes && r.value.pathname == pathname
    ensures r.None? ==> forall i :: 0 <= i < |routes| ==> routes[i].pathname != pathname
  {
    if routes == [] then None
    else if routes[0].pathname == pathname then Some(routes[0])
    else FindRoute(routes[1..], pathname)
  }

  function FindNotFound(routes: seq<Route>): (r: Option<Route>)
    ensures r.Some? ==> r.value in routes && r.value.status.NotFound?
  {
    if routes == [] then None
    else if routes[0].status.NotFound? then Some(routes[0])
    else FindNotFound(routes[1..])
  }

  /** `Load` names the document to read, and whether it stands in for a missing route. */
  datatype Reply = Answer(outcome: Outcome) | Load(route: Route, missing: bool)

  function PlanRequest(state: SiteState, pathname: string): Reply {
    match FindRoute(state.routes.routes, pathname)
    case Some(route) =>
      if route.status.Gone? then Answer(GoneResult(state.pointer.siteId, state.pointer.releaseId))
      else Load(route, false)
    case None =>
      match FindNotFound(state.routes.routes)
      case None => Answer(Rejected(ArtifactInvalid))
      case Some(route) => Load(route, true)
  }

  function Finish(pointer: SitePointer, route: Route, missing: bool, document: Page): Outcome {
    if missing then
      if document.pageType == "not-found" then NotFoundResult(pointer.siteId, pointer.releaseId, document)
      else Rejected(ArtifactInvalid)
    else if document.pageType != route.pageType then Unavailable(ArtifactInvalid)
    else if route.status.Redirect? then
      if document.pageType == "redirect"
      then RedirectResult(pointer.siteId, pointer.releaseId, document, document.targetUrl)
      else Unavailable(ArtifactInvalid)
    else PageResult(pointer.siteId, pointer.releaseId, document)
  }

  function Failed(missing: bool, code: Code): Outcome {
    if missing then Rejected(code) else Unavailable(code)
  }

  // ---------- the resolver without caches ----------

  function ContentAt<P>(history: seq<Cell<P>>, etag: ETag): Option<P> {
    if history == [] then None
    else if history[0].etag == etag then Some(history[0].content)
    else ContentAt(history[1..], etag)
  }

  function TableAt(s: Store, etag: ETag): Result<RoutingTable, Code> {
    match ContentAt(s.routing, etag)
    case None => Err(RoutingInvalid)
    case Some(pointer) => CheckTable(Read(s, RoutingKey(pointer.routingId)), pointer)
  }

  function ArtifactAt(s: Store, pointer: SitePointer, path: string): Option<StoredObject> {
    Read(s, ReleaseKey(pointer.siteId, pointer.releaseId, path))
  }

  function SiteAt(s: Store, siteId: string, canonicalDomain: string, etag: ETag): Result<SiteState, Code> {
    match ContentAt(SiteHistory(s, siteId), etag)
    case None => Err(SiteReleaseInvalid)
    case Some(found) =>
      match CheckPointer(found, siteId)
      case Err(code) => Err(code)
      case Ok(pointer) =>
        match CheckManifest(ArtifactAt(s, pointer, MANIFEST_PATH), pointer)
        case Err(code) => Err(code)
        case Ok(m) =>
          match CheckRoutes(ArtifactAt(s, pointer, ROUTES_PATH), m, canonicalDomain)
          case Err(code) => Err(code)
          case Ok(routes) => Ok(SiteState(m, pointer, etag, routes))
  }

  function PageAt(s: Store, state: SiteState, route: Route): Result<Page, Code> {
    CheckPage(ArtifactAt(s, state.pointer, route.objectKey), state.manifest, route)
  }

  function ServeFrom(s: Store, state: SiteState, pathname: string): Outcome {
    match PlanRequest(state, pathname)
    case Answer(outcome) => outcome
    case Load(route, missing) =>
      match PageAt(s, state, route)
      case Err(code) => Failed(missing, code)
      case Ok(document) => Finish(state.pointer, route, missing, document)
  }

  /** What a request answers when nothing is cached and it sees these two pointers. */
  function Uncached(s: Store, routingEtag: ETag, siteEtag: ETag, hostname: string, pathname: string): Outcome {
    match TableAt(s, routingEtag)
    case Err(code) => Unavailable(code)
    case Ok(table) =>
      match ChooseSite(table, hostname)
      case Nobody => UnknownHost
      case Failure(code) => Unavailable(code)
      case Site(siteId, canonicalDomain) =>
        match SiteAt(s, siteId, canonicalDomain, siteEtag)
        case Err(code) => Unavailable(code)
        case Ok(state) => ServeFrom(s, state, pathname)
  }

  predicate Succeeds(outcome: Outcome) {
    !outcome.Unavailable? && !outcome.Rejected?
  }

  // ---------- what the answers stay true of ----------

  lemma {:induction false} ContentStays<P>(h: seq<Cell<P>>, k: seq<Cell<P>>, etag: ETag)
    requires h <= k && ContentAt(h, etag).Some?
    ensures ContentAt(k, etag) == ContentAt(h, etag)
  {
    if h[0].etag != etag {
      ContentStays(h[1..], k[1..], etag);
    }
  }

  lemma {:induction false} ContentIs<P>(h: seq<Cell<P>>, cell: Cell<P>)
    requires EtagsAgree(h) && cell in h
    ensures ContentAt(h, cell.etag) == Some(cell.content)
  {
    var i :| 0 <= i < |h| && h[i] == cell;
    if h[0].etag != cell.etag {
      assert cell == h[1..][i - 1];
      assert EtagsAgree(h[1..]) by {
        forall a, b | 0 <= a < |h| - 1 && 0 <= b < |h| - 1 && h[1..][a].etag == h[1..][b].etag
          ensures h[1..][a].content == h[1..][b].content
        {
          assert h[1..][a] == h[a + 1] && h[1..][b] == h[b + 1];
        }
      }
      ContentIs(h[1..], cell);
    }
  }

  lemma ReadStays(s: Store, t: Store, key: Key)
    requires Grows(s, t) && Read(s, key).Some?
    ensures Read(t, key) == Read(s, key)
  {
  }

  lemma {:induction false} TableStays(s: Store, t: Store, etag: ETag)
    requires Grows(s, t) && TableAt(s, etag).Ok?
    ensures TableAt(t, etag) == TableAt(s, etag)
  {
    ContentStays(s.routing, t.routing, etag);
    var pointer := ContentAt(s.routing, etag).value;
    ReadStays(s, t, RoutingKey(pointer.routingId));
  }

  lemma {:induction false} SiteAtStays(s: Store, t: Store, siteId: string, canonicalDomain: string, etag: ETag)
    requires Grows(s, t) && SiteAt(s, siteId, canonicalDomain, etag).Ok?
    ensures SiteAt(t, siteId, canonicalDomain, etag) == SiteAt(s, siteId, canonicalDomain, etag)
  {
    hide IsIdentifier, RoutesOf;
    assert SiteHistory(s, siteId) <= SiteHistory(t, siteId);
    ContentStays(SiteHistory(s, siteId), SiteHistory(t, siteId), etag);
    var pointer := ContentAt(SiteHistory(s, siteId), etag).value;
    ReadStays(s, t, ReleaseKey(pointer.siteId, pointer.releaseId, MANIFEST_PATH));
    ReadStays(s, t, ReleaseKey(pointer.siteId, pointer.releaseId, ROUTES_PATH));
  }

  lemma {:induction false} PageStays(s: Store, t: Store, state: SiteState, route: Route)
    requires Grows(s, t) && PageAt(s, state, route).Ok?
    ensures PageAt(t, state, route) == PageAt(s, state, route)
  {
    ReadStays(s, t, ReleaseKey(state.pointer.siteId, state.pointer.releaseId, route.objectKey));
  }

  /** A success is the answer from those two pointers for ever. */
  lemma {:induction false} UncachedStays(s: Store, t: Store, routingEtag: ETag, siteEtag: ETag, hostname: string, pathname: string)
    requires Grows(s, t) && Succeeds(Uncached(s, routingEtag, siteEtag, hostname, pathname))
    ensures Uncached(t, routingEtag, siteEtag, hostname, pathname) == Uncached(s, routingEtag, siteEtag, hostname, pathname)
  {
    hide Grows, SiteAt, TableAt, PageAt, ChooseSite, PlanRequest, Finish;
    TableStays(s, t, routingEtag);
    match ChooseSite(TableAt(s, routingEtag).value, hostname)
    case Site(siteId, canonicalDomain) =>
      SiteAtStays(s, t, siteId, canonicalDomain, siteEtag);
      var state := SiteAt(s, siteId, canonicalDomain, siteEtag).value;
      match PlanRequest(state, pathname) {
        case Load(route, missing) => PageStays(s, t, state, route);
        case Answer(_) =>
      }
    case _ =>
  }

  // ---------- one release ----------

  function DocumentOf(outcome: Outcome): Option<Page> {
    match outcome
    case PageResult(_, _, document) => Some(document)
    case RedirectResult(_, _, document, _) => Some(document)
    case NotFoundResult(_, _, document) => Some(document)
    case _ => None
  }

  /** The document is the content of an object that this release's manifest lists. */
  ghost predicate BelongsTo(s: Store, siteId: string, releaseId: string, document: Page) {
    exists m: Manifest, a: Artifact ::
      && a in m.objects && m.siteId == siteId && m.releaseId == releaseId
      && Read(s, ReleaseKey(siteId, releaseId, MANIFEST_PATH)).Some?
      && ManifestOf(Read(s, ReleaseKey(siteId, releaseId, MANIFEST_PATH)).value.body) == Some(m)
      && Read(s, ReleaseKey(siteId, releaseId, a.path)).Some?
      && Sha256(Read(s, ReleaseKey(siteId, releaseId, a.path)).value.body) == a.sha256
      && PageOf(Read(s, ReleaseKey(siteId, releaseId, a.path)).value.body) == Some(document)
      && document.siteId == siteId
  }

  lemma {:induction false} UncachedBelongs(s: Store, routingEtag: ETag, siteEtag: ETag, hostname: string, pathname: string)
    ensures var outcome := Uncached(s, routingEtag, siteEtag, hostname, pathname);
      DocumentOf(outcome).Some? ==> BelongsTo(s, outcome.siteId, outcome.releaseId, DocumentOf(outcome).value)
  {
    hide TableAt, ChooseSite, ContentAt, RoutesOf, PlanRequest, IsIdentifier;
    var outcome := Uncached(s, routingEtag, siteEtag, hostname, pathname);
    if DocumentOf(outcome).Some? && TableAt(s, routingEtag).Ok? {
      var choice := ChooseSite(TableAt(s, routingEtag).value, hostname);
      if choice.Site? {
        var state := SiteAt(s, choice.siteId, choice.canonicalDomain, siteEtag).value;
        PageBelongs(s, state, pathname);
      }
    }
  }

  lemma {:induction false} PageBelongs(s: Store, state: SiteState, pathname: string)
    requires CheckManifest(ArtifactAt(s, state.pointer, MANIFEST_PATH), state.pointer) == Ok(state.manifest)
    ensures var outcome := ServeFrom(s, state, pathname);
      DocumentOf(outcome).Some? ==> BelongsTo(s, outcome.siteId, outcome.releaseId, DocumentOf(outcome).value)
  {
    hide FindRoute, FindNotFound;
    var outcome := ServeFrom(s, state, pathname);
    match PlanRequest(state, pathname)
    case Load(route, missing) =>
      if DocumentOf(outcome).Some? {
        var a := FindArtifact(state.manifest.objects, route.objectKey).value;
        assert a in state.manifest.objects;
      }
    case Answer(_) =>
  }
}
