/** Routing safety at the reader: what a request finds for a site that a routing publish listed. */
module ListedSites {
  import opened Wrappers
  import opened Documents
  import opened ReleasePlans
  import opened ReleaseStore
  import opened ReleaseSteps
  import opened ReleaseProtocol
  import opened ReleaseSafety
  import opened Runtime
  import opened RuntimeSteps
  import opened ResolveRuns
  import CacheAgreement
  import HostChoice
  import Served

  /** The pointer, the manifest it names and everything that manifest lists pass the reader's checks. */
  ghost predicate Loads(s: Store, siteId: string) {
    SiteCell(s, siteId).Some? &&
    var pointer := SiteCell(s, siteId).value.content;
    && CheckPointer(pointer, siteId) == Ok(pointer)
    && exists m :: LoadsManifest(s, pointer, m)
  }

  ghost predicate LoadsManifest(s: Store, pointer: SitePointer, m: Manifest) {
    && CheckManifest(ArtifactAt(s, pointer, MANIFEST_PATH), pointer) == Ok(m)
    && forall a :: a in m.objects ==> Runtime.CheckArtifact(ArtifactAt(s, pointer, a.path), m, a.path).Ok?
  }

  lemma {:induction false} CompleteLoads(s: Store, pointer: SitePointer)
    requires Complete(s, pointer)
    ensures exists m :: LoadsManifest(s, pointer, m)
  {
    var m :| ReleaseStored(s, m) && m.siteId == pointer.siteId && m.releaseId == pointer.releaseId && ManifestHash(m) == pointer.manifestSha256;
    forall a | a in m.objects ensures Runtime.CheckArtifact(ArtifactAt(s, pointer, a.path), m, a.path).Ok? {
      var found := FindArtifact(m.objects, a.path);
      assert found.Some? && found.value in m.objects;
      assert ArtifactStored(s, m, found.value);
    }
    assert LoadsManifest(s, pointer, m);
  }

  lemma {:induction false} CurrentTableLoads(s: Store)
    requires Sound(s) && RoutingCell(s).Some?
    ensures TableAt(s, RoutingCell(s).value.etag).Ok?
  {
    var cell := s.routing[|s.routing| - 1];
    assert RoutingComplete(s, cell.content);
    hide PointersSound, ObjectsSound;
    assert cell in s.routing && EtagsAgree(s.routing);
    ContentIs(s.routing, cell);
  }

  /**
   In every state that a run can reach, and for every site that any routing publish of the run listed:
   the current routing manifest passes its checks, and so do the site's current pointer, the manifest
   it names and every object which that lists.
   */
  lemma {:induction false} ListedSitesLoad(run: seq<Event>, i: nat, siteId: string)
    requires Possible(EMPTY_WORLD, run)
    requires i < |After(EMPTY_WORLD, run).listed| && siteId in After(EMPTY_WORLD, run).listed[i] && IsIdentifier(siteId)
    ensures var s := Store0(run);
      && RoutingCell(s).Some? && TableAt(s, RoutingCell(s).value.etag).Ok?
      && SiteCell(s, siteId).Some?
      && (IsIdentifier(SiteCell(s, siteId).value.content.releaseId) ==> Loads(s, siteId))
  {
    hide Possible, After, Sound, TableAt, IsIdentifier, Complete, ClientInv, LoadsManifest;
    ReachableHolds(run);
    assert run + [] == run;
    var s := Store0(run);
    assert |After(EMPTY_WORLD, run).listed| == |s.routing|;
    RoutingSafety(run, [], i);
    CurrentTableLoads(s);
    CompleteLoads(s, SiteCell(s, siteId).value.content);
  }

  /** A failure that is not about a pointer, a manifest or a missing object. */
  predicate IsContentFailure(outcome: Outcome) {
    (outcome.Unavailable? || outcome.Rejected?) ==> outcome.code == ArtifactInvalid
  }

  /**
   A request whose host the current routing manifest gives to such a site never fails for a pointer, a
   manifest or the store: only a route index or a page that is not what it should be is left to fail on.
   */
  lemma {:induction false} ListedHostsAnswer(run: seq<Event>, i: nat, host: Host, r: Request)
    requires Possible(EMPTY_WORLD, run)
    requires i < |After(EMPTY_WORLD, run).listed| && host.siteId in After(EMPTY_WORLD, run).listed[i]
    requires r.hostname == Some(host.host) && r.pathname.Some?
    requires RoutingCell(Store0(run)).Some? && TableAt(Store0(run), RoutingCell(Store0(run)).value.etag).Ok?
    requires host in TableAt(Store0(run), RoutingCell(Store0(run)).value.etag).value.hosts
    requires SiteCell(Store0(run), host.siteId).Some?
      ==> IsIdentifier(SiteCell(Store0(run), host.siteId).value.content.releaseId)
    ensures IsContentFailure(Now(Store0(run), r))
    ensures !Now(Store0(run), r).UnknownHost?
  {
    hide Possible, After, Sound, IsIdentifier, TableAt, Now, Loads, IsRoutingTable, ChooseSite;
    var s := Store0(run);
    var siteId, table := host.siteId, TableAt(s, RoutingCell(s).value.etag).value;
    Served.LoadedTable(s, RoutingCell(s).value.etag);
    var canonical := CanonicalOf(table, host);
    HostChoice.ListedHostChosen(table, host, canonical);
    var domain := canonical.host;
    ChosenIsIdentifier(table, r.hostname.value);
    ListedSitesLoad(run, i, siteId);
    assert LawfulEtags(s) by {
      ReachableHolds(run);
      assert Sound(s) by { hide ClientInv, SitesExist; }
      SoundLaw(s);
    }
    LoadedSiteAt(s, siteId, domain);
    NowFromSite(s, r, RoutingCell(s).value.etag, siteId, domain);
    ServedContent(s, siteId, domain, r.pathname.value);
  }

  lemma {:induction false} CanonicalOf(table: RoutingTable, host: Host) returns (canonical: Host)
    requires IsRoutingTable(table) && host in table.hosts
    ensures canonical in table.hosts && canonical.siteId == host.siteId && canonical.canonical
  {
    hide IsHost, IsIdentifier;
    var i :| 0 <= i < |table.hosts| && table.hosts[i] == host;
    assert HasCanonical(table.hosts, table.hosts[i].siteId);
    var j :| 0 <= j < |table.hosts| && table.hosts[j].siteId == host.siteId && table.hosts[j].canonical;
    canonical := table.hosts[j];
  }

  lemma SoundLaw(s: Store)
    requires Sound(s)
    ensures LawfulEtags(s)
  {
  }

  lemma ChosenIsIdentifier(table: RoutingTable, hostname: string)
    ensures ChooseSite(table, hostname).Site? ==> IsIdentifier(ChooseSite(table, hostname).siteId)
  {
    hide IsIdentifier;
  }

  /** What is left to go wrong is the route index. */
  lemma {:induction false} LoadedSiteAt(s: Store, siteId: string, domain: string)
    requires LawfulEtags(s) && Loads(s, siteId)
    ensures var state := SiteAt(s, siteId, domain, SiteCell(s, siteId).value.etag);
      state.Err? ==> state.error == ArtifactInvalid
  {
    hide CheckPointer, CheckManifest, Runtime.CheckArtifact, RoutesOf;
    var h := SiteHistory(s, siteId);
    assert EtagsAgree(h) && h[|h| - 1] in h;
    ContentIs(h, h[|h| - 1]);
    var m :| LoadsManifest(s, h[|h| - 1].content, m);
    RoutesFailure(ArtifactAt(s, h[|h| - 1].content, ROUTES_PATH), m, domain);
  }

  lemma RoutesFailure(stored: Option<StoredObject>, m: Manifest, domain: string)
    ensures var routes := CheckRoutes(stored, m, domain); routes.Err? ==> routes.error == ArtifactInvalid
  {
    hide RoutesOf;
  }

  lemma {:induction false} ServedContent(s: Store, siteId: string, domain: string, pathname: string)
    ensures var state := SiteAt(s, siteId, domain, Etag(SiteCell(s, siteId)));
      state.Ok? ==> IsContentFailure(ServeFrom(s, state.value, pathname)) && !ServeFrom(s, state.value, pathname).UnknownHost?
  {
    hide SiteAt, FindRoute, FindNotFound;
  }
}
