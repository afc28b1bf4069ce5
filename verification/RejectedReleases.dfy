/** A release that makes requests for missing pathnames reject, and why compiled releases never do. */
module RejectedReleases {
  import opened Wrappers
  import opened Documents
  import opened ReleasePlans
  import opened ReleaseStore
  import opened ReleaseSteps
  import opened ReleaseProtocol
  import opened LruCache
  import opened Runtime
  import opened RuntimeSteps
  import opened ResolveRuns
  import opened Rejections
  import CacheAgreement
  import PublishRuns
  import Served
  import SiteCompiler
  import ReleasePlanning
  import SoloRuns
  import Text

  // ---------- never for a compiled release ----------

  /** With a compiled release deployed, no request to the site's own domain is rejected. */
  lemma {:induction false} DeployedNeverRejects(
    s: Store, tools: SiteCompiler.Tools, req: SiteCompiler.CompileRequest, input: ReleasePlanning.BuildInput, plan: Plan,
    c: Config, caches: Caches, now: int, pathname: Option<string>)
    requires Served.Built(tools, req, input, plan) && Served.Deployed(s, plan, req.canonicalDomain)
    requires CacheAgreement.CachesOk(s, caches)
    ensures var end := RunRequest(s, c, caches, now, Request(Some(req.canonicalDomain), pathname), Arriving).1;
      end.Resolved? && !end.outcome.Rejected?
  {
    hide Served.Built, Served.Deployed, CacheAgreement.CachesOk, RunRequest, Now, Served.ServesDocuments, Served.ServesGone, ServeFrom,
      FindRoute, IsRouteIndex;
    var r := Request(Some(req.canonicalDomain), pathname);
    assert LawfulEtags(s) by { DeployedLaw(s, plan, req.canonicalDomain); }
    UninterruptedResolve(s, c, caches, now, r);
    if pathname.None? {
      NowRefused(s, r);
    } else {
      Served.BuiltFacts(tools, req, input, plan);
      Served.NowIsServed(s, req, input, plan, pathname.value);
      DeployedLaw(s, plan, req.canonicalDomain);
      ServeRejects(s, Served.CurrentState(s, plan, input.output.routeIndex), pathname.value);
      if FindRoute(input.output.routeIndex.routes, pathname.value).None? {
        Served.DeployedServes(s, tools, req, input, plan);
        assert Served.Unrouted(input.output.routeIndex, pathname.value);
      }
    }
  }

  lemma DeployedLaw(s: Store, plan: Plan, domain: string)
    requires Served.Deployed(s, plan, domain)
    ensures LawfulEtags(s) && SiteCell(s, plan.manifest.siteId).Some?
  {
  }

  // ---------- a rejection ----------

  /** A release whose manifest lists its route index, but not the page of its not-found route. */
  const INDEX := RouteIndex("acme", "acme.org", [Route("/404", NotFound, "404.json", "not-found")])

  function BarePlan(): Plan {
    var objects := [ObjectOf(ROUTES_PATH, RoutesJson(INDEX, ""), JSON_CONTENT_TYPE)];
    var m := Manifest("acme", "r1", "1.0.0", "2026-01-01T00:00:00.000Z", ArtifactsOf(objects), ["v1"]);
    Plan(m, objects, ObjectOf(MANIFEST_PATH, CanonicalManifest(m), JSON_CONTENT_TYPE))
  }

  lemma BareIsPlan()
    ensures IsPlan(BarePlan())
  {
    var plan := BarePlan();
    assert ArtifactsOf(plan.objects) == [ArtifactOf(plan.objects[0])];
    assert ROUTES_PATH[0] != MANIFEST_PATH[0];
  }

  lemma {:induction false} IndexIsValid()
    ensures IsRouteIndex(INDEX)
  {
    hide IsIdentifier, IsHost, IsRoute;
    Identifier();
    HostIsValid();
    RouteIsValid();
    assert INDEX.routes == [INDEX.routes[0]] && INDEX.routes[0].status.NotFound?;
  }

  lemma RouteIsValid()
    ensures IsRoute(INDEX.routes[0])
  {
    hide IsArtifactPath;
    PathIsValid();
    assert IsPathname("/404");
  }

  lemma {:induction false} HostIsValid()
    ensures IsHost("acme.org")
  {
    hide IsHostLabel;
    Text.SplitNone("acme", '.');
    Text.SplitNone("org", '.');
    Text.SplitConcat("acme", "org", '.');
    assert "acme.org" == "acme" + ['.'] + "org";
    LabelsAreValid();
    hide Text.Split;
    assert ["acme"] + ["org"] == ["acme", "org"];
  }

  lemma LabelsAreValid()
    ensures IsHostLabel("acme") && IsHostLabel("org")
  {
  }

  lemma {:induction false} PathIsValid()
    ensures IsArtifactPath("404.json")
  {
    Text.SplitNone("404.json", '/');
    assert IsArtifactPart("404.json");
    assert "404.json"[0] != MANIFEST_PATH[0];
  }

  const TABLE := RoutingTable([Host("acme.org", "acme", true)])

  function BareRouting(): RoutingRequest {
    RoutingRequest(TABLE, "t1", ["acme"], [ManifestKey("acme", "r1")], "2026-01-01T00:00:00.000Z")
  }

  function BarePublisher(): Publisher {
    Publisher("ann", VerifyManifest(BarePlan().manifest))
  }

  /** The store after publishing that release and routing its domain to it, from nothing. */
  function BareStore(): Store {
    SoloRuns.SoloRouting(PublishRuns.SoloPublish(EMPTY_STORE, BarePublisher(), BarePlan()).0, BareRouting()).0
  }

  lemma {:induction false} BareDeploys()
    ensures Served.Deployed(BareStore(), BarePlan(), "acme.org")
  {
    hide IsPlan, PublishRuns.SoloPublish, SoloRuns.SoloRouting, ReleaseStored, AllStored, Grows, IsIdentifier, Sound;
    var plan, publisher, r := BarePlan(), BarePublisher(), BareRouting();
    BareIsPlan();
    assert Sound(EMPTY_STORE) by { EmptyHolds(); EmptyIsSound(); }
    NothingStored(plan);
    PublishRuns.SoloPublishSucceeds(EMPTY_STORE, publisher, plan);
    var t := PublishRuns.SoloPublish(EMPTY_STORE, publisher, plan).0;
    OnlyRelease(publisher, plan);
    assert ManifestKey("acme", "r1") in t.objects by { ManifestThere(t, plan); }
    SoloRuns.SoloRoutingSucceeds(t, r);
    assert IsIdentifier("acme") by { Identifier(); }
    TableIsValid();
    Served.RunsDeploy(EMPTY_STORE, publisher, plan, r, "acme.org");
  }

  lemma {:induction false} TableIsValid()
    ensures IsRoutingTable(TABLE) && IsIdentifier("t1")
  {
    hide IsHost;
    HostIsValid();
    Identifier();
    assert IsIdentifier("t1");
    assert TABLE.hosts[0].canonical;
  }

  lemma Identifier()
    ensures IsIdentifier("acme") && IsIdentifier("r1")
  {
  }

  lemma EmptyIsSound()
    requires ReleaseProtocol.Inv(EMPTY_WORLD)
    ensures Sound(EMPTY_STORE)
  {
  }

  lemma NothingStored(plan: Plan)
    ensures PublishRuns.StoreFits(EMPTY_STORE, plan)
  {
  }

  lemma ManifestThere(t: Store, plan: Plan)
    requires ReleaseStored(t, plan.manifest)
    ensures ManifestKey(plan.manifest.siteId, plan.manifest.releaseId) in t.objects
  {
  }

  /** A publish stores release objects only. */
  lemma {:induction false} OnlyRelease(publisher: Publisher, plan: Plan)
    ensures forall key :: key in PublishRuns.SoloPublish(EMPTY_STORE, publisher, plan).0.objects ==> key.ReleaseKey?
  {
    RunOnlyRelease(EMPTY_STORE, publisher, plan, Uploading(Uploads(plan)));
  }

  lemma {:induction false} RunOnlyRelease(s: Store, publisher: Publisher, plan: Plan, at: PublishAt)
    requires forall key :: key in s.objects ==> key.ReleaseKey?
    ensures forall key :: key in PublishRuns.RunPublish(s, publisher, plan, at).0.objects ==> key.ReleaseKey?
    decreases PublishRuns.Rank(plan, at)
  {
    hide Uploads, SiteHistory, PublishRuns.FreshEtag;
    if !at.Published? && !at.PublishFailed? {
      var (t, next) := PublishRuns.NextPublish(s, publisher, plan, at);
      RunOnlyRelease(t, publisher, plan, next);
    }
  }

  lemma {:induction false} BareSiteLoads(s: Store)
    requires Served.Deployed(s, BarePlan(), "acme.org")
    ensures SiteAt(s, "acme", "acme.org", Etag(SiteCell(s, "acme"))) == Ok(Served.CurrentState(s, BarePlan(), INDEX))
  {
    hide IsPlan, AllStored, TableAt, ChooseSite, ByteLength, IsRouteIndex, RoutingCell, CheckManifest, Runtime.CheckArtifact, IsIdentifier;
    var plan := BarePlan();
    BareIsPlan();
    IndexIsValid();
    Identifier();
    var h := SiteHistory(s, "acme");
    var cell := h[|h| - 1];
    assert EtagsAgree(h) && cell in h;
    ContentIs(h, cell);
    Served.ManifestLoads(s, plan, cell.content);
    Served.PlannedArtifact(s, plan, plan.objects[0]);
  }

  /**
   A rejection from the empty store: the release is published and routed, and a request for a pathname
   without a route finds that the manifest does not list the not-found page.
   */
  lemma {:induction false} UnlistedPageRejects()
    ensures Sound(EMPTY_STORE)
    ensures Now(BareStore(), Request(Some("acme.org"), Some("/no"))) == Rejected(ArtifactInvalid)
  {
    hide BareStore, BarePlan, SiteAt, TableAt, IsIdentifier, ChooseSite, Runtime.CheckArtifact, SiteCell, RoutingCell, Sound;
    EmptyHolds();
    EmptyIsSound();
    BareDeploys();
    var s := BareStore();
    BareSiteLoads(s);
    var r := Request(Some("acme.org"), Some("/no"));
    BareRouted(s, r);
    NowFromSite(s, r, RoutingCell(s).value.etag, "acme", "acme.org");
    DeployedLaw(s, BarePlan(), "acme.org");
    assert BarePlan().manifest.siteId == "acme" by { BareNames(); }
    BarePageFails(s);
  }

  lemma BareNames()
    ensures BarePlan().manifest.siteId == "acme"
  {
  }

  lemma BareRouted(s: Store, r: Request)
    requires Served.Deployed(s, BarePlan(), "acme.org") && r.hostname == Some("acme.org") && r.pathname.Some?
    ensures RoutingCell(s).Some? && CacheAgreement.Routed(s, r, RoutingCell(s).value.etag, "acme", "acme.org")
  {
    hide TableAt, ChooseSite, AllStored, LawfulEtags, Served.IsHostOf;
    Served.OwnHost(s, BarePlan(), "acme.org");
    Served.HostRouted(s, BarePlan(), "acme.org", "acme.org", r.pathname.value);
  }

  lemma {:induction false} BarePageFails(s: Store)
    requires SiteCell(s, "acme").Some?
    ensures ServeFrom(s, Served.CurrentState(s, BarePlan(), INDEX), "/no") == Rejected(ArtifactInvalid)
  {
    hide ByteLength;
    var plan := BarePlan();
    var route := INDEX.routes[0];
    assert FindRoute(INDEX.routes, "/no").None? by { assert "/404"[1] != "/no"[1]; }
    assert FindNotFound(INDEX.routes) == Some(route);
    assert ArtifactsOf(plan.objects) == [ArtifactOf(plan.objects[0])];
    assert FindArtifact(plan.manifest.objects, "404.json").None? by { assert "404.json"[0] != ROUTES_PATH[0]; }
  }
}
