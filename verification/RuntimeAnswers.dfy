/**
 What the runtime answers, said of the stored objects alone: which of them a document needs, what
 they must say of each other, and which answer there is when one of them is missing or wrong.
 */
module RuntimeAnswers {
  import opened Wrappers
  import opened Documents
  import opened ReleaseStore
  import opened Runtime
  import opened HostChoice
  import opened RuntimeSteps
  import ResolveRuns

  /** The routing pointer with this ETag names this table, by its hash. */
  ghost predicate TableLoads(s: Store, etag: ETag, table: RoutingTable) {
    exists pointer: RoutingPointer, raw: RoutingTable, layout: string ::
      && Cell(etag, pointer) in s.routing
      && IsRoutingTable(raw) && table == SortedTable(raw)
      && pointer.manifestSha256 == Sha256(RoutingJson(raw, layout))
      && RoutingKey(pointer.routingId) in s.objects
      && s.objects[RoutingKey(pointer.routingId)] == StoredObject(RoutingJson(raw, layout), "application/json")
  }

  /** The object at this path is stored as the manifest lists it. */
  ghost predicate ObjectLoads(s: Store, m: Manifest, path: string, body: Body) {
    var key := ReleaseKey(m.siteId, m.releaseId, path);
    && key in s.objects && s.objects[key].body == body
    && exists i :: 0 <= i < |m.objects|
         && m.objects[i] == Artifact(path, ByteLength(body), s.objects[key].contentType, Sha256(body))
         && forall j :: 0 <= j < i ==> m.objects[j].path != path
  }

  /** The site pointer with this ETag names this manifest, by its ids and the hash of its canonical text. */
  ghost predicate ManifestLoads(s: Store, siteId: string, etag: ETag, pointer: SitePointer, m: Manifest) {
    var key := ReleaseKey(siteId, pointer.releaseId, "manifest.json");
    && Cell(etag, pointer) in SiteHistory(s, siteId)
    && pointer.siteId == siteId && IsIdentifier(siteId) && IsIdentifier(pointer.releaseId)
    && m.siteId == siteId && m.releaseId == pointer.releaseId
    && pointer.manifestSha256 == Sha256(CanonicalManifest(m))
    && key in s.objects && s.objects[key] == StoredObject(CanonicalManifest(m), "application/json")
  }

  /** That manifest lists a route index for this site and domain. */
  ghost predicate RoutesLoad(s: Store, m: Manifest, domain: string, index: RouteIndex) {
    && (exists layout :: ObjectLoads(s, m, "routes.json", RoutesJson(index, layout)))
    && IsRouteIndex(index) && index.siteId == m.siteId && index.canonicalDomain == domain
  }

  ghost predicate SiteLoads(s: Store, siteId: string, domain: string, etag: ETag, state: SiteState) {
    && state.pointerEtag == etag
    && ManifestLoads(s, siteId, etag, state.pointer, state.manifest)
    && RoutesLoad(s, state.manifest, domain, state.routes)
  }

  /** That manifest lists the route's document, and the document is this site's and this pathname's. */
  ghost predicate PageLoads(s: Store, m: Manifest, route: Route, page: Page) {
    && (exists layout :: ObjectLoads(s, m, route.objectKey, PageJson(page, layout)))
    && page.siteId == m.siteId && page.pathname == route.pathname
  }

  // ---------- the loads ----------

  lemma {:induction false} CellIs<P>(history: seq<Cell<P>>, etag: ETag)
    requires EtagsAgree(history)
    ensures forall content :: ContentAt(history, etag) == Some(content) <==> Cell(etag, content) in history
  {
    if c :| c in history && c.etag == etag {
      ContentIs(history, c);
      assert forall d :: d in history && d.etag == etag ==> d.content == c.content;
    }
    ContentFound(history, etag);
  }

  lemma {:induction false} ContentFound<P>(history: seq<Cell<P>>, etag: ETag)
    ensures ContentAt(history, etag).Some? ==> Cell(etag, ContentAt(history, etag).value) in history
  {
    if history != [] && history[0].etag != etag {
      ContentFound(history[1..], etag);
      assert history == [history[0]] + history[1..];
    }
  }

  lemma {:induction false} TableExact(s: Store, etag: ETag)
    requires EtagsAgree(s.routing)
    ensures forall table :: TableAt(s, etag) == Ok(table) <==> TableLoads(s, etag, table)
    ensures TableAt(s, etag).Err? ==> TableAt(s, etag) == Err(RoutingInvalid)
  {
    hide IsRoutingTable, SortedTable, EtagsAgree, ContentAt;
    CellIs(s.routing, etag);
    forall table | TableAt(s, etag) == Ok(table) ensures TableLoads(s, etag, table) {
      var pointer := ContentAt(s.routing, etag).value;
      var body := s.objects[RoutingKey(pointer.routingId)].body;
      assert body == RoutingJson(body.table, body.layout);
    }
  }

  lemma {:induction false} ArtifactFirst(artifacts: seq<Artifact>, path: string, a: Artifact)
    ensures FindArtifact(artifacts, path) == Some(a) <==>
      exists i :: 0 <= i < |artifacts| && artifacts[i] == a && a.path == path && forall j :: 0 <= j < i ==> artifacts[j].path != path
  {
    if artifacts != [] {
      ArtifactFirst(artifacts[1..], path, a);
      if artifacts[0].path != path {
        if i :| 0 <= i < |artifacts| && artifacts[i] == a && a.path == path && forall j :: 0 <= j < i ==> artifacts[j].path != path {
          assert i > 0 && artifacts[1..][i - 1] == a;
          assert forall j :: 0 <= j < i - 1 ==> artifacts[1..][j] == artifacts[j + 1];
        }
        if i :| 0 <= i < |artifacts[1..]| && artifacts[1..][i] == a && a.path == path && forall j :: 0 <= j < i ==> artifacts[1..][j].path != path {
          assert artifacts[i + 1] == a;
          assert forall j :: 0 <= j < i + 1 ==> j == 0 || artifacts[j] == artifacts[1..][j - 1];
        }
      }
    }
  }

  lemma {:induction false} ArtifactExact(s: Store, m: Manifest, path: string)
    ensures
      var read := CheckArtifact(Read(s, ReleaseKey(m.siteId, m.releaseId, path)), m, path);
      && (forall body :: read == Ok(body) <==> ObjectLoads(s, m, path, body))
      && (read.Err? ==> read == Err(ArtifactInvalid))
  {
    hide FindArtifact;
    var found := FindArtifact(m.objects, path);
    if found.Some? {
      ArtifactFirst(m.objects, path, found.value);
    }
    forall body | ObjectLoads(s, m, path, body)
      ensures CheckArtifact(Read(s, ReleaseKey(m.siteId, m.releaseId, path)), m, path) == Ok(body)
    {
      var a := Artifact(path, ByteLength(body), s.objects[ReleaseKey(m.siteId, m.releaseId, path)].contentType, Sha256(body));
      ArtifactFirst(m.objects, path, a);
    }
  }

  lemma {:induction false} SiteExact(s: Store, siteId: string, domain: string, etag: ETag)
    requires EtagsAgree(SiteHistory(s, siteId))
    ensures forall state :: SiteAt(s, siteId, domain, etag) == Ok(state) <==> SiteLoads(s, siteId, domain, etag, state)
    ensures SiteAt(s, siteId, domain, etag).Err? ==>
      SiteAt(s, siteId, domain, etag)
      == Err(if exists pointer, m :: ManifestLoads(s, siteId, etag, pointer, m) then ArtifactInvalid else SiteReleaseInvalid)
  {
    hide IsIdentifier, EtagsAgree, ContentAt, CheckRoutes, RoutesLoad, SiteHistory;
    CellIs(SiteHistory(s, siteId), etag);
    forall pointer, m
      ensures ManifestLoads(s, siteId, etag, pointer, m) <==>
        && ContentAt(SiteHistory(s, siteId), etag) == Some(pointer) && CheckPointer(pointer, siteId).Ok?
        && CheckManifest(ArtifactAt(s, pointer, MANIFEST_PATH), pointer) == Ok(m)
    {
    }
    var found := ContentAt(SiteHistory(s, siteId), etag);
    if found.Some? && CheckPointer(found.value, siteId).Ok? {
      var checked := CheckManifest(ArtifactAt(s, found.value, MANIFEST_PATH), found.value);
      if checked.Ok? {
        RoutesExact(s, checked.value, domain);
      }
    }
  }

  lemma {:induction false} RoutesExact(s: Store, m: Manifest, domain: string)
    ensures
      var read := CheckRoutes(Read(s, ReleaseKey(m.siteId, m.releaseId, "routes.json")), m, domain);
      && (forall index :: read == Ok(index) <==> RoutesLoad(s, m, domain, index))
      && (read.Err? ==> read == Err(ArtifactInvalid))
  {
    hide IsRouteIndex, ObjectLoads, CheckArtifact;
    ArtifactExact(s, m, "routes.json");
    var read := CheckArtifact(Read(s, ReleaseKey(m.siteId, m.releaseId, ROUTES_PATH)), m, ROUTES_PATH);
    if read.Ok? && read.value.RoutesJson? {
      assert read.value == RoutesJson(read.value.index, read.value.layout);
    }
  }

  lemma {:induction false} PageExact(s: Store, state: SiteState, route: Route)
    requires state.pointer.siteId == state.manifest.siteId && state.pointer.releaseId == state.manifest.releaseId
    ensures forall page :: PageAt(s, state, route) == Ok(page) <==> PageLoads(s, state.manifest, route, page)
    ensures PageAt(s, state, route).Err? ==> PageAt(s, state, route) == Err(ArtifactInvalid)
  {
    hide ObjectLoads, CheckArtifact;
    var m := state.manifest;
    ArtifactExact(s, m, route.objectKey);
    var read := CheckArtifact(Read(s, ReleaseKey(m.siteId, m.releaseId, route.objectKey)), m, route.objectKey);
    if read.Ok? && read.value.PageJson? {
      assert read.value == PageJson(read.value.page, read.value.layout);
    }
  }

  // ---------- the answer ----------

  /** The answer for a route, given its document if it loads. */
  ghost predicate RouteAnswer(s: Store, state: SiteState, route: Route, outcome: Outcome) {
    var siteId, releaseId := state.pointer.siteId, state.pointer.releaseId;
    if route.status == Gone then outcome == GoneResult(siteId, releaseId)
    else if exists page :: PageLoads(s, state.manifest, route, page) then
      exists page :: PageLoads(s, state.manifest, route, page) &&
        outcome ==
          if page.pageType != route.pageType then Unavailable(ArtifactInvalid)
          else if route.status != Redirect then PageResult(siteId, releaseId, page)
          else if page.pageType == "redirect" then RedirectResult(siteId, releaseId, page, page.targetUrl)
          else Unavailable(ArtifactInvalid)
    else outcome == Unavailable(ArtifactInvalid)
  }

  /** The answer for a pathname without a route, given the document of the not-found route if it loads. */
  ghost predicate MissingAnswer(s: Store, state: SiteState, route: Route, outcome: Outcome) {
    if exists page :: PageLoads(s, state.manifest, route, page) && page.pageType == "not-found" then
      exists page :: PageLoads(s, state.manifest, route, page) && page.pageType == "not-found"
        && outcome == NotFoundResult(state.pointer.siteId, state.pointer.releaseId, page)
    else outcome == Rejected(ArtifactInvalid)
  }

  ghost predicate SiteAnswer(s: Store, state: SiteState, pathname: string, outcome: Outcome) {
    if exists route :: route in state.routes.routes && route.pathname == pathname then
      exists route :: route in state.routes.routes && route.pathname == pathname && RouteAnswer(s, state, route, outcome)
    else
      exists route :: route in state.routes.routes && route.status == NotFound && MissingAnswer(s, state, route, outcome)
  }

  lemma {:induction false} SiteAnswered(s: Store, state: SiteState, pathname: string)
    requires IsRouteIndex(state.routes)
    requires state.pointer.siteId == state.manifest.siteId && state.pointer.releaseId == state.manifest.releaseId
    ensures SiteAnswer(s, state, pathname, ServeFrom(s, state, pathname))
  {
    hide IsRouteIndex, PageAt, PageLoads, FindRoute, FindNotFound;
    var outcome := ServeFrom(s, state, pathname);
    var found := FindRoute(state.routes.routes, pathname);
    if found.Some? {
      PageExact(s, state, found.value);
      assert RouteAnswer(s, state, found.value, outcome);
    } else {
      NotFoundFound(state.routes);
      var route := FindNotFound(state.routes.routes).value;
      PageExact(s, state, route);
      assert MissingAnswer(s, state, route, outcome);
    }
  }

  lemma {:induction false} NotFoundFound(index: RouteIndex)
    requires IsRouteIndex(index)
    ensures FindNotFound(index.routes).Some?
  {
    var i :| 0 <= i < |index.routes| && index.routes[i].status.NotFound?;
    NotFoundAt(index.routes, i);
  }

  lemma {:induction false} NotFoundAt(routes: seq<Route>, i: nat)
    requires i < |routes| && routes[i].status.NotFound?
    ensures FindNotFound(routes).Some?
  {
    if i > 0 {
      NotFoundAt(routes[1..], i - 1);
    }
  }

  /** Which answer a request gets from the pointers with these two ETags. */
  ghost predicate Justified(s: Store, routingEtag: ETag, siteEtag: ETag, hostname: string, pathname: string, outcome: Outcome) {
    if !exists table :: TableLoads(s, routingEtag, table) then outcome == Unavailable(RoutingInvalid)
    else exists table :: TableLoads(s, routingEtag, table) && TableAnswer(s, siteEtag, table, hostname, pathname, outcome)
  }

  ghost predicate TableAnswer(s: Store, siteEtag: ETag, table: RoutingTable, hostname: string, pathname: string, outcome: Outcome) {
    if !exists host :: host in table.hosts && host.host == hostname then outcome == UnknownHost
    else exists host, canonical ::
      && host in table.hosts && host.host == hostname
      && canonical in table.hosts && canonical.siteId == host.siteId && canonical.canonical
      && HostAnswer(s, siteEtag, host.siteId, canonical.host, pathname, outcome)
  }

  ghost predicate HostAnswer(s: Store, siteEtag: ETag, siteId: string, domain: string, pathname: string, outcome: Outcome) {
    if exists state :: SiteLoads(s, siteId, domain, siteEtag, state) then
      exists state :: SiteLoads(s, siteId, domain, siteEtag, state) && SiteAnswer(s, state, pathname, outcome)
    else if exists pointer, m :: ManifestLoads(s, siteId, siteEtag, pointer, m) then outcome == Unavailable(ArtifactInvalid)
    else outcome == Unavailable(SiteReleaseInvalid)
  }

  lemma {:induction false} HostAnswered(s: Store, siteEtag: ETag, siteId: string, domain: string, pathname: string)
    requires EtagsAgree(SiteHistory(s, siteId))
    ensures
      var outcome := match SiteAt(s, siteId, domain, siteEtag)
                     case Err(code) => Unavailable(code)
                     case Ok(state) => ServeFrom(s, state, pathname);
      HostAnswer(s, siteEtag, siteId, domain, pathname, outcome)
  {
    hide SiteAt, ServeFrom, SiteAnswer, ManifestLoads, RoutesLoad;
    SiteExact(s, siteId, domain, siteEtag);
    if SiteAt(s, siteId, domain, siteEtag).Ok? {
      var state := SiteAt(s, siteId, domain, siteEtag).value;
      assert SiteLoads(s, siteId, domain, siteEtag, state);
      LoadedFacts(s, siteId, domain, siteEtag, state);
      SiteAnswered(s, state, pathname);
    }
  }

  lemma LoadedFacts(s: Store, siteId: string, domain: string, etag: ETag, state: SiteState)
    requires SiteLoads(s, siteId, domain, etag, state)
    ensures IsRouteIndex(state.routes)
    ensures state.pointer.siteId == state.manifest.siteId && state.pointer.releaseId == state.manifest.releaseId
  {
  }

  lemma {:induction false} UncachedJustified(s: Store, routingEtag: ETag, siteEtag: ETag, hostname: string, pathname: string)
    requires EtagsAgree(s.routing) && forall siteId :: EtagsAgree(SiteHistory(s, siteId))
    ensures Justified(s, routingEtag, siteEtag, hostname, pathname, Uncached(s, routingEtag, siteEtag, hostname, pathname))
  {
    hide EtagsAgree, TableAt, SiteAt, ServeFrom, HostAnswer, TableLoads, ChooseSite;
    TableExact(s, routingEtag);
    var outcome := Uncached(s, routingEtag, siteEtag, hostname, pathname);
    if TableAt(s, routingEtag).Ok? {
      var table := TableAt(s, routingEtag).value;
      assert TableLoads(s, routingEtag, table);
      UnknownExactly(table, hostname);
      if host :| host in table.hosts && host.host == hostname {
        LoadedIsTable(s, routingEtag, table);
        var canonical := CanonicalOf(table, host);
        ListedHostChosen(table, host, canonical);
        HostAnswered(s, siteEtag, host.siteId, canonical.host, pathname);
      }
      assert TableAnswer(s, siteEtag, table, hostname, pathname, outcome);
    }
  }

  lemma LoadedIsTable(s: Store, etag: ETag, table: RoutingTable)
    requires TableLoads(s, etag, table)
    ensures IsRoutingTable(table)
  {
    var pointer: RoutingPointer, raw: RoutingTable, layout: string :|
      && Cell(etag, pointer) in s.routing
      && IsRoutingTable(raw) && table == SortedTable(raw)
      && pointer.manifestSha256 == Sha256(RoutingJson(raw, layout));
    SortedIsTable(raw);
  }

  ghost function CanonicalOf(table: RoutingTable, host: Host): (canonical: Host)
    requires IsRoutingTable(table) && host in table.hosts
    ensures canonical in table.hosts && canonical.siteId == host.siteId && canonical.canonical
  {
    var i :| 0 <= i < |table.hosts| && table.hosts[i] == host;
    assert HasCanonical(table.hosts, table.hosts[i].siteId);
    var j :| 0 <= j < |table.hosts| && table.hosts[j].siteId == host.siteId && table.hosts[j].canonical;
    table.hosts[j]
  }

  /** An uninterrupted request: the answer from the current routing pointer and the current pointer of the site. */
  lemma {:induction false} NowJustified(s: Store, r: Request)
    requires EtagsAgree(s.routing) && forall siteId :: EtagsAgree(SiteHistory(s, siteId))
    ensures
      var outcome := ResolveRuns.Now(s, r);
      var cell := RoutingCell(s);
      if r.hostname.None? then outcome == UnknownHost
      else if r.pathname.None? then outcome == Unavailable(RequestInvalid)
      else if cell.None? then outcome == Unavailable(RoutingInvalid)
      else
        exists siteEtag ::
          && Justified(s, cell.value.etag, siteEtag, r.hostname.value, r.pathname.value, outcome)
          && forall table, host ::
               TableLoads(s, cell.value.etag, table) && host in table.hosts && host.host == r.hostname.value ==>
                 if SiteCell(s, host.siteId).Some? then siteEtag == SiteCell(s, host.siteId).value.etag
                 else outcome == Unavailable(SiteReleaseInvalid)
  {
    if r.hostname.Some? && r.pathname.Some? && RoutingCell(s).Some? {
      hide EtagsAgree, TableAt, TableLoads, Justified, Uncached, ChooseSite, SiteCell;
      var routingEtag, hostname, pathname := RoutingCell(s).value.etag, r.hostname.value, r.pathname.value;
      var loaded := TableAt(s, routingEtag);
      var choice := if loaded.Ok? then ChooseSite(loaded.value, hostname) else Nobody;
      var siteEtag := if choice.Site? then ResolveRuns.Etag(SiteCell(s, choice.siteId)) else 0;
      var outcome := ResolveRuns.Now(s, r);
      assert outcome == Uncached(s, routingEtag, siteEtag, hostname, pathname);
      UncachedJustified(s, routingEtag, siteEtag, hostname, pathname);
      TableExact(s, routingEtag);
      forall table, host | TableLoads(s, routingEtag, table) && host in table.hosts && host.host == hostname
        ensures
          if SiteCell(s, host.siteId).Some? then siteEtag == SiteCell(s, host.siteId).value.etag
          else outcome == Unavailable(SiteReleaseInvalid)
      {
        LoadedIsTable(s, routingEtag, table);
        ListedHostChosen(table, host, CanonicalOf(table, host));
        assert choice == ChooseSite(table, hostname);
        if SiteCell(s, host.siteId).None? {
          NoRelease(s, routingEtag, table, hostname, pathname, host.siteId);
        }
      }
    }
  }

  lemma NoRelease(s: Store, routingEtag: ETag, table: RoutingTable, hostname: string, pathname: string, siteId: string)
    requires TableAt(s, routingEtag) == Ok(table)
    requires ChooseSite(table, hostname).Site? && ChooseSite(table, hostname).siteId == siteId && SiteCell(s, siteId).None?
    ensures forall siteEtag :: Uncached(s, routingEtag, siteEtag, hostname, pathname) == Unavailable(SiteReleaseInvalid)
  {
    hide TableAt, ChooseSite;
    assert SiteHistory(s, siteId) == [];
  }
}
