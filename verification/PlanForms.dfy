/** A planned release, field by field: every object, the manifest, and why there is no plan. */
module PlanForms {
  import opened Wrappers
  import opened Documents
  import opened ReleasePlans
  import opened ReleasePlanning
  import opened Runtime
  import opened SiteCompiler
  import opened Sorting
  import opened KeyOrder

  /** An object with its true length and hash. */
  predicate IsObject(u: PlannedObject, path: string, body: Body, contentType: string) {
    u.path == path && u.body == body && u.contentType == contentType && u.bytes == ByteLength(body) && u.sha256 == Sha256(body)
  }

  /** The route of a pathname: the first one. */
  ghost predicate IsRouteAt(routes: seq<Route>, pathname: string, route: Route) {
    exists i :: 0 <= i < |routes| && routes[i] == route && route.pathname == pathname
                && forall j :: 0 <= j < i ==> routes[j].pathname != pathname
  }

  lemma {:induction false} RouteFound(routes: seq<Route>, pathname: string)
    ensures forall route :: FindRoute(routes, pathname) == Some(route) <==> IsRouteAt(routes, pathname, route)
  {
    hide IsRouteAt;
    if routes == [] {
      NoRoute(pathname);
    } else {
      RouteFound(routes[1..], pathname);
      forall route ensures FindRoute(routes, pathname) == Some(route) <==> IsRouteAt(routes, pathname, route) {
        RouteAtRest(routes, pathname, route);
      }
    }
  }

  lemma NoRoute(pathname: string)
    ensures forall route :: !IsRouteAt([], pathname, route)
  {
  }

  lemma RouteAtRest(routes: seq<Route>, pathname: string, route: Route)
    requires routes != []
    ensures IsRouteAt(routes, pathname, route) <==>
      if routes[0].pathname == pathname then route == routes[0] else IsRouteAt(routes[1..], pathname, route)
  {
    var rest := routes[1..];
    if routes[0].pathname == pathname {
      assert routes[0].pathname == pathname;
    } else {
      if IsRouteAt(routes, pathname, route) {
        var i :| 0 <= i < |routes| && routes[i] == route && route.pathname == pathname && forall j :: 0 <= j < i ==> routes[j].pathname != pathname;
        assert rest[i - 1] == route;
        assert forall j :: 0 <= j < i - 1 ==> rest[j] == routes[j + 1];
      }
      if IsRouteAt(rest, pathname, route) {
        var i :| 0 <= i < |rest| && rest[i] == route && route.pathname == pathname && forall j :: 0 <= j < i ==> rest[j].pathname != pathname;
        assert routes[i + 1] == route;
        assert forall j :: 0 < j < i + 1 ==> routes[j] == rest[j - 1];
      }
    }
  }

  /** The `i`-th part of a release: a document, one of the three objects of the site, or a medium. */
  ghost predicate IsPartOf(input: BuildInput, i: nat, part: Result<PlannedObject, PlanError>) {
    var routes, documents := input.output.routeIndex.routes, input.output.documents;
    var n := |documents|;
    if i < n then
      var d := documents[i];
      if exists route :: IsRouteAt(routes, d.pathname, route) && route.status != Gone then
        exists route :: IsRouteAt(routes, d.pathname, route) && route.status != Gone &&
          if IsArtifactPath(route.objectKey) then part.Ok? && IsObject(part.value, route.objectKey, PageJson(d.page, ""), "application/json")
          else part == Err(PathUnsafe)
      else part == Err(ManifestInvalid)
    else if i == n then part.Ok? && IsObject(part.value, "routes.json", RoutesJson(input.output.routeIndex, ""), "application/json")
    else if i == n + 1 then part.Ok? && IsObject(part.value, "sitemap.xml", Octets(input.output.sitemap), "application/xml")
    else if i == n + 2 then
      if IsRoutingTable(input.routing)
      then part.Ok? && IsObject(part.value, "routing-candidate.json", RoutingJson(SortedTable(input.routing), ""), "application/json")
      else part == Err(TableInvalid)
    else
      i - n - 3 < |input.media| &&
      var media := input.media[i - n - 3];
      if IsArtifactPath(media.path) then part.Ok? && IsObject(part.value, media.path, Octets(media.content), media.contentType)
      else part == Err(PathUnsafe)
  }

  lemma {:induction false} PartForm(input: BuildInput, i: nat)
    requires i < |Candidates(input)|
    ensures |Candidates(input)| == |input.output.documents| + 3 + |input.media|
    ensures IsPartOf(input, i, Candidates(input)[i])
  {
    hide FindRoute, IsRouteAt, IsArtifactPath, ByteLength, IsRoutingTable, SortedTable;
    var routes, documents := input.output.routeIndex.routes, input.output.documents;
    var n := |documents|;
    if i < n {
      RouteFound(routes, documents[i].pathname);
      assert Candidates(input)[i] == DocumentObject(routes, documents[i]);
    } else if i < n + 3 {
      assert Candidates(input)[i] == SiteObjects(input)[i - n];
    } else {
      assert Candidates(input)[i] == MediaObjectOf(input.media[i - n - 3]);
    }
  }

  /** The first part that fails or repeats a path. */
  ghost predicate StopsAt(parts: seq<Result<PlannedObject, PlanError>>, i: nat) {
    && i < |parts|
    && (parts[i].Err? || exists j :: 0 <= j < i && parts[j].Ok? && parts[j].value.path == parts[i].value.path)
  }

  lemma {:induction false} AddedUntil(objects: seq<PlannedObject>, more: seq<Candidate>, parts: seq<Candidate>)
    requires |parts| == |objects| + |more| && parts[|objects|..] == more
    requires forall i :: 0 <= i < |objects| ==> parts[i] == Ok(objects[i])
    ensures match AddAll(objects, more)
      case Ok(added) =>
        && |added| == |parts| && (forall i :: 0 <= i < |parts| ==> parts[i] == Ok(added[i]))
        && forall i: nat :: |objects| <= i ==> !StopsAt(parts, i)
      case Err(error) =>
        exists i: nat :: |objects| <= i && StopsAt(parts, i) && (forall j: nat :: |objects| <= j < i ==> !StopsAt(parts, j))
          && error == if parts[i].Err? then parts[i].error else ObjectPathDuplicate
    decreases |more|
  {
    var n := |objects|;
    if more != [] {
      assert parts[n] == more[0];
      assert parts[n].Ok? ==> (HasPath(objects, parts[n].value.path) <==>
        exists j :: 0 <= j < n && parts[j].Ok? && parts[j].value.path == parts[n].value.path) by {
        if parts[n].Ok? && HasPath(objects, parts[n].value.path) {
          var j :| 0 <= j < n && objects[j].path == parts[n].value.path;
          assert parts[j] == Ok(objects[j]);
        }
      }
      if !StopsAt(parts, n) {
        var next := objects + [more[0].value];
        assert parts[n + 1..] == more[1..];
        AddedUntil(next, more[1..], parts);
      }
    }
  }

  /** The manifest of a plan: its own fields, and every object and source version in order. */
  ghost predicate IsManifestOf(input: BuildInput, plan: Plan) {
    var m := plan.manifest;
    && m.siteId == input.siteId && m.releaseId == input.releaseId && m.createdAt == input.createdAt
    && m.compilerVersion == input.output.compilerVersion
    && (forall i, j :: 0 <= i < j < |m.objects| ==> Before(Units(m.objects[i].path), Units(m.objects[j].path)))
    && (forall a :: a in m.objects <==>
          exists u :: u in plan.objects && a.path == u.path && a.bytes == u.bytes && a.contentType == u.contentType && a.sha256 == u.sha256)
    && (forall i, j :: 0 <= i < j < |m.sourceVersionIds| ==> Before(Units(m.sourceVersionIds[i]), Units(m.sourceVersionIds[j])))
    && (forall id :: id in m.sourceVersionIds <==> id in input.sourceVersionIds)
    && IsObject(plan.manifestObject, "manifest.json", CanonicalManifest(m), "application/json")
  }

  /** Planning: the checks in their order, then the parts in theirs. */
  ghost predicate PlanIs(input: BuildInput, result: Result<Plan, PlanError>, parts: seq<Candidate>) {
    var ids := input.sourceVersionIds;
    if !IsIdentifier(input.siteId) || !IsIdentifier(input.releaseId) then result == Err(InputInvalid)
    else if !CompilerSupported(input.output.compilerVersion) then result == Err(CompilerUnsupported)
    else if exists id :: id in ids && !IsIdentifier(id) then result == Err(InputInvalid)
    else if exists i: nat :: StopsAt(parts, i) then
      exists i: nat :: StopsAt(parts, i) && (forall j: nat :: j < i ==> !StopsAt(parts, j))
        && result == Err(if parts[i].Err? then parts[i].error else ObjectPathDuplicate)
    else if ids == [] || exists i, j :: 0 <= i < j < |ids| && ids[i] == ids[j] then result == Err(ManifestInvalid)
    else
      && result.Ok? && |result.value.objects| == |parts|
      && (forall i :: 0 <= i < |parts| ==> parts[i] == Ok(result.value.objects[i]))
      && IsManifestOf(input, result.value)
  }

  lemma {:induction false} ArtifactsForm(objects: seq<PlannedObject>, a: Artifact)
    ensures a in ArtifactsOf(objects) <==>
      exists u :: u in objects && a.path == u.path && a.bytes == u.bytes && a.contentType == u.contentType && a.sha256 == u.sha256
  {
    var all := ArtifactsOf(objects);
    if a in all {
      var i :| 0 <= i < |all| && all[i] == a;
      assert objects[i] in objects;
    }
    if u :| u in objects && a.path == u.path && a.bytes == u.bytes && a.contentType == u.contentType && a.sha256 == u.sha256 {
      var i :| 0 <= i < |objects| && objects[i] == u;
      assert all[i] == a;
    }
  }

  lemma {:induction false} SortedByUnits<T(!new)>(s: seq<T>, key: T -> string, sorted: seq<T>)
    requires DistinctBy(s, key) && sorted == Sort(s, key, UnitLess)
    ensures forall i, j :: 0 <= i < j < |sorted| ==> Before(Units(key(sorted[i])), Units(key(sorted[j])))
  {
    hide UnitLess, Sort, Before;
    UnitLessIsOrder();
    SortIncreasing(s, key, UnitLess);
    forall i, j | 0 <= i < j < |sorted| ensures Before(Units(key(sorted[i])), Units(key(sorted[j]))) {
      assert UnitLess(key(sorted[i]), key(sorted[j]));
      UnitLessExact(key(sorted[i]), key(sorted[j]));
    }
  }

  lemma {:induction false} ManifestForm(input: BuildInput, objects: seq<PlannedObject>)
    requires DistinctObjects(objects) && DistinctBy(input.sourceVersionIds, Same)
    ensures var m := ManifestFor(input, objects);
      IsManifestOf(input, Plan(m, objects, ObjectOf(MANIFEST_PATH, CanonicalManifest(m), JSON_CONTENT_TYPE)))
  {
    hide UnitLess, Sort, Before, ByteLength, ArtifactsOf;
    var m := ManifestFor(input, objects);
    var all := ArtifactsOf(objects);
    assert DistinctBy(all, (a: Artifact) => a.path);
    SortedByUnits(all, (a: Artifact) => a.path, m.objects);
    SortedByUnits(input.sourceVersionIds, Same, m.sourceVersionIds);
    forall a ensures a in m.objects <==>
      exists u :: u in objects && a.path == u.path && a.bytes == u.bytes && a.contentType == u.contentType && a.sha256 == u.sha256
    {
      ArtifactsForm(objects, a);
    }
  }

  /** What planning answers, for every input. */
  lemma {:induction false} PlanForm(input: BuildInput) returns (parts: seq<Candidate>)
    ensures |parts| == |input.output.documents| + 3 + |input.media|
    ensures forall i :: 0 <= i < |parts| ==> IsPartOf(input, i, parts[i])
    ensures PlanIs(input, Planned(input), parts)
  {
    hide CompilerSupported, IsIdentifier, DistinctBy, ManifestFor, IsManifestOf, IsPartOf, StopsAt, Candidates, ObjectOf;
    parts := Candidates(input);
    PartsForm(input);
    AddedUntil([], parts, parts);
    AddedAll([], parts);
    var ids := input.sourceVersionIds;
    assert AllIdentifiers(ids) <==> !exists id :: id in ids && !IsIdentifier(id) by {
      assert forall i :: 0 <= i < |ids| ==> ids[i] in ids;
    }
    SameDistinct(ids);
    if AddAll([], parts).Ok? && DistinctBy(ids, Same) {
      ManifestForm(input, AddAll([], parts).value);
    }
  }

  lemma SameDistinct(ids: seq<string>)
    ensures DistinctBy(ids, Same) <==> !exists i, j :: 0 <= i < j < |ids| && ids[i] == ids[j]
  {
    if DistinctBy(ids, Same) {
      forall i, j | 0 <= i < j < |ids| ensures ids[i] != ids[j] {
        assert Same(ids[i]) != Same(ids[j]);
      }
    }
  }

  lemma {:induction false} PartsForm(input: BuildInput)
    ensures |Candidates(input)| == |input.output.documents| + 3 + |input.media|
    ensures forall i :: 0 <= i < |Candidates(input)| ==> IsPartOf(input, i, Candidates(input)[i])
  {
    hide Candidates, IsPartOf;
    CandidateCount(input);
    forall i | 0 <= i < |Candidates(input)| ensures IsPartOf(input, i, Candidates(input)[i]) {
      PartForm(input, i);
    }
  }

  lemma CandidateCount(input: BuildInput)
    ensures |Candidates(input)| == |input.output.documents| + 3 + |input.media|
  {
  }
}
