/** Which site a hostname belongs to: said of the hosts of a routing manifest alone. */
module HostChoice {
  import opened Wrappers
  import opened Documents
  import opened Runtime
  import opened Sorting

  /**
   Any listed host, canonical or alias, is answered for the site of its entry, with the release that is
   for the canonical host of that site.
   */
  lemma {:induction false} ListedHostChosen(table: RoutingTable, host: Host, canonical: Host)
    requires IsRoutingTable(table) && host in table.hosts
    requires canonical in table.hosts && canonical.siteId == host.siteId && canonical.canonical
    ensures ChooseSite(table, host.host) == Site(host.siteId, canonical.host)
  {
    hide IsIdentifier, IsHost, FindHost, FindCanonical;
    var found := FindHost(table.hosts, host.host).value;
    var i :| 0 <= i < |table.hosts| && table.hosts[i] == host;
    var j :| 0 <= j < |table.hosts| && table.hosts[j] == found;
    assert HostName(found) == HostName(host);
    assert i == j;
    var first := FindCanonical(table.hosts, host.siteId).value;
    var k :| 0 <= k < |table.hosts| && table.hosts[k] == canonical;
    var m :| 0 <= m < |table.hosts| && table.hosts[m] == first;
    assert k == m;
  }

  /** Nobody is answered for exactly a hostname that no entry has. */
  lemma {:induction false} UnknownExactly(table: RoutingTable, hostname: string)
    ensures ChooseSite(table, hostname).Nobody? <==> forall host :: host in table.hosts ==> host.host != hostname
  {
    hide IsIdentifier, FindHost, FindCanonical;
  }

  /** With a table that its schema accepts, nothing else happens: a hostname has a site, or nobody has it. */
  lemma {:induction false} ChoiceIsTotal(table: RoutingTable, hostname: string)
    requires IsRoutingTable(table)
    ensures !ChooseSite(table, hostname).Failure?
  {
    hide IsIdentifier, IsHost, FindHost, FindCanonical;
    var found := FindHost(table.hosts, hostname);
    if found.Some? {
      var i :| 0 <= i < |table.hosts| && table.hosts[i] == found.value;
      assert HasCanonical(table.hosts, table.hosts[i].siteId);
      var j :| 0 <= j < |table.hosts| && table.hosts[j].siteId == found.value.siteId && table.hosts[j].canonical;
      assert table.hosts[j] in table.hosts;
    }
  }
}
