/** Registries with a redirect to a dead page: a run that makes one, and exactly which runs do. */
module RetiredTargets {
  import opened Wrappers
  import opened RedirectGraph
  import opened UrlRegistry
  import opened UrlEffects

  // ---------- a run ----------

  /** A page is published, renamed, and its new address is marked gone. */
  function RetiringRun(tenantId: string, siteId: string, locale: string, old0: string, new0: string, host: string): seq<Op> {
    [Reserve(0, "page-1", "content-1", tenantId, siteId, locale, old0),
     Publish(1, "page-1", host),
     Rename(2, "page-1", "page-2", tenantId, siteId, locale, new0, host),
     MarkGone(3, "page-2")]
  }

  /** Addresses that the registry takes. */
  predicate AreAddresses(norms: Norms, reserved: seq<string>, locale: string, old0: string, new0: string, host: string) {
    && norms.locale(locale).Some? && norms.hostname(host).Some?
    && norms.pathname(old0).Some? && norms.pathname(new0).Some?
    && norms.pathname(old0).value !in reserved && norms.pathname(new0).value !in reserved
    && norms.pathname(old0) != norms.pathname(new0)
  }

  lemma {:induction false} PublishedOne(
    norms: Norms, reserved: seq<string>, tenantId: string, siteId: string, locale: string, old0: string, new0: string, host: string)
    requires AreAddresses(norms, reserved, locale, old0, new0, host)
    ensures var ops := RetiringRun(tenantId, siteId, locale, old0, new0, host);
      var r := After(norms, Registry(reserved, 0, []), ops[..2]);
      && Inv(r) && r.revision == 2 && r.reservedPathnames == reserved && |r.routes| == 1
      && r.routes[0].id == "page-1" && r.routes[0].state.Active? && r.routes[0].tenantId == tenantId
      && r.routes[0].siteId == siteId && r.routes[0].pathname == norms.pathname(old0).value
  {
    hide UniqueKey, Attempt, Inv;
    var ops := RetiringRun(tenantId, siteId, locale, old0, new0, host);
    var r0 := Registry(reserved, 0, []);
    NewRegistryHolds(reserved);
    AttemptExact(norms, r0, ops[0]);
    AttemptKeeps(norms, r0, ops[0]);
    var r1 := Apply(norms, r0, ops[0]);
    assert r1.routes[0].id == "page-1" && r1.routes[0].state.Reserved?;
    AttemptExact(norms, r1, ops[1]);
    AttemptKeeps(norms, r1, ops[1]);
    assert ops[..2] == [ops[0], ops[1]];
    TwoOps(norms, r0, ops[0], ops[1]);
  }

  /** From a new registry, and for any normalisers, the run ends with a redirect to a dead page. */
  lemma {:induction false} RetiringRunKills(
    norms: Norms, reserved: seq<string>, tenantId: string, siteId: string, locale: string, old0: string, new0: string, host: string)
    requires AreAddresses(norms, reserved, locale, old0, new0, host)
    ensures var r := After(norms, Registry(reserved, 0, []), RetiringRun(tenantId, siteId, locale, old0, new0, host));
      HasDeadRedirect(r.routes) && r.revision == 4
  {
    hide UniqueKey, Attempt, Inv, After;
    var ops := RetiringRun(tenantId, siteId, locale, old0, new0, host);
    var r0 := Registry(reserved, 0, []);
    PublishedOne(norms, reserved, tenantId, siteId, locale, old0, new0, host);
    var r2 := After(norms, r0, ops[..2]);
    var rename, retire := ops[2], ops[3];
    assert OwnsActive(r2, "page-1", tenantId, siteId) by { assert r2.routes[0].id == "page-1"; }
    assert "page-1"[5] != "page-2"[5];
    AttemptExact(norms, r2, rename);
    AttemptKeeps(norms, r2, rename);
    var r3 := Apply(norms, r2, rename);
    assert r3.routes[0].state == Redirected("page-2") && r3.routes[1].id == "page-2" && r3.routes[1].state.Active?;
    AttemptExact(norms, r3, retire);
    AttemptKeeps(norms, r3, retire);
    var r4 := Apply(norms, r3, retire);
    assert r4.routes[0].state == Redirected(r4.routes[1].id) && r4.routes[1].state.Gone?;
    assert ops == ops[..2] + [rename, retire];
    RunsJoin(norms, r0, ops[..2], [rename, retire]);
    TwoOps(norms, r2, rename, retire);
  }

  lemma {:induction false} TwoOps(norms: Norms, r: Registry, a: Op, b: Op)
    ensures After(norms, r, [a, b]) == Apply(norms, Apply(norms, r, a), b)
  {
    hide Apply;
    var last := Apply(norms, Apply(norms, r, a), b);
    assert [a, b][1..] == [b] && [b][1..] == [];
    assert After(norms, last, []) == last;
    assert After(norms, Apply(norms, r, a), [b]) == last;
  }

  lemma {:induction false} RunsJoin(norms: Norms, r: Registry, first: seq<Op>, second: seq<Op>)
    ensures After(norms, r, first + second) == After(norms, After(norms, r, first), second)
    decreases |first|
  {
    hide Apply;
    if first == [] {
      assert first + second == second;
    } else {
      assert (first + second)[1..] == first[1..] + second;
      RunsJoin(norms, Apply(norms, r, first[0]), first[1..], second);
    }
  }

  /** Normalisers that take every text as it is. */
  const PLAIN := Norms(s => Some(s), s => Some(s), s => Some(s), (host, pathname) => "https://" + host + pathname)

  /** On concrete input: the registry then refuses every rename, after whatever else is tried. */
  lemma {:induction false} DeadRedirectHappens(ops: seq<Op>, rename: Op)
    requires rename.Rename?
    ensures var r := After(PLAIN, Registry([], 0, []), RetiringRun("acme", "blog", "en", "/old", "/new", "acme.org"));
      HasDeadRedirect(r.routes) && RenameUrl(PLAIN, After(PLAIN, r, ops), rename).Err?
  {
    hide Inv, After, RenameUrl, HasDeadRedirect;
    assert "/old"[1] != "/new"[1];
    RetiringRunKills(PLAIN, [], "acme", "blog", "en", "/old", "/new", "acme.org");
    var run := RetiringRun("acme", "blog", "en", "/old", "/new", "acme.org");
    NewRegistryHolds([]);
    RunKeeps(PLAIN, Registry([], 0, []), run);
    RenamesStayBlocked(PLAIN, After(PLAIN, Registry([], 0, []), run), ops, rename);
  }

  // ---------- exactly which runs ----------

  /** From a registry whose redirects all lead to active routes, a run leaves one to a dead page exactly when it retires a target. */
  lemma {:induction false} DeadExactly(norms: Norms, r: Registry, ops: seq<Op>)
    requires Inv(r) && TargetsActive(r.routes)
    ensures HasDeadRedirect(After(norms, r, ops).routes) <==> !SparesTargets(norms, r, ops)
    decreases |ops|
  {
    hide Inv, Attempt, TargetsActive, RetiresTarget, HasDeadRedirect, Extends;
    if SparesTargets(norms, r, ops) {
      TargetsStayActive(norms, r, ops);
      if HasDeadRedirect(After(norms, r, ops).routes) {
        DeadIsInactive(After(norms, r, ops).routes);
      }
    } else {
      var next := Apply(norms, r, ops[0]);
      if RetiresTarget(norms, r, ops[0]) {
        RetiredIsDead(norms, r, ops[0]);
        AttemptKeeps(norms, r, ops[0]);
        RunKeeps(norms, next, ops[1..]);
        DeadStays(next, After(norms, next, ops[1..]));
      } else {
        if Attempt(norms, r, ops[0]).Ok? {
          AttemptKeeps(norms, r, ops[0]);
          AttemptKeepsActive(norms, r, ops[0]);
        }
        DeadExactly(norms, next, ops[1..]);
      }
    }
  }

  lemma {:induction false} RetiredIsDead(norms: Norms, r: Registry, op: Op)
    requires Inv(r) && RetiresTarget(norms, r, op)
    ensures Attempt(norms, r, op).Ok? && HasDeadRedirect(Attempt(norms, r, op).value.routes)
  {
    hide UniqueKey, Inv, FindRoute, Replace;
    AttemptExact(norms, r, op);
    var next := Attempt(norms, r, op).value.routes;
    var k :| 0 <= k < |r.routes| && r.routes[k].id == op.urlId && r.routes[k].state.Active? && next == WithState(r, k, Gone);
    var i :| 0 <= i < |r.routes| && r.routes[i].state == Redirected(op.urlId);
    assert next[i].state == Redirected(next[k].id) && next[k].state.Gone?;
  }
}
