/**
 * Which part each host plays: `h1` publishes, the last host `h{host_count+1}`
 * runs the DNS server, and every other host subscribes.
 */
module Roles {
  import opened Identity
  import opened Topology

  const PUBLISHER_HOST_NAME := "h1"

  datatype Role = Publisher | Subscriber | DnsServer

  /** The DNS host, `f"h{host_count+1}"`: the one host beyond the `host_count` workload hosts. */
  function DnsHostName(hostCount: nat): string
  {
    HostName(hostCount + 1)
  }

  /** The role the script's per-host loops give a host. */
  function RoleOf(name: string, dnsHost: string): Role
  {
    if name == PUBLISHER_HOST_NAME then Publisher
    else if name == dnsHost then DnsServer
    else Subscriber
  }

  function CountRole(hosts: seq<string>, dnsHost: string, role: Role): nat
  {
    if hosts == [] then 0
    else CountRole(hosts[..|hosts| - 1], dnsHost, role) + (if RoleOf(hosts[|hosts| - 1], dnsHost) == role then 1 else 0)
  }

  lemma PublisherIsFirstHost()
    ensures PUBLISHER_HOST_NAME == HostName(1)
  {
    assert Numerals.Decimal(1) == "1";
  }

  /** The k-th of the `host_count + 1` hosts: h1 publishes, the last serves DNS, the rest subscribe. */
  lemma RoleOfHost(hostCount: nat, k: nat)
    requires 1 <= hostCount && 1 <= k <= hostCount + 1
    ensures RoleOf(HostName(k), DnsHostName(hostCount)) ==
      if k == 1 then Publisher else if k == hostCount + 1 then DnsServer else Subscriber
  {
    PublisherIsFirstHost();
    if HostName(k) == PUBLISHER_HOST_NAME { HostNameInjective(k, 1); }
    if HostName(k) == DnsHostName(hostCount) { HostNameInjective(k, hostCount + 1); }
  }

  /** Role counts among the first m of the `host_count + 1` hosts. */
  lemma {:induction false} RoleCountsUpTo(hostCount: nat, m: nat)
    requires 1 <= hostCount && m <= hostCount + 1
    ensures CountRole(HostNames(m), DnsHostName(hostCount), Publisher) == (if m >= 1 then 1 else 0)
    ensures CountRole(HostNames(m), DnsHostName(hostCount), DnsServer) == (if m == hostCount + 1 then 1 else 0)
    ensures CountRole(HostNames(m), DnsHostName(hostCount), Subscriber) ==
      m - (if m >= 1 then 1 else 0) - (if m == hostCount + 1 then 1 else 0)
  {
    if m > 0 {
      assert HostNames(m)[..m - 1] == HostNames(m - 1);
      RoleCountsUpTo(hostCount, m - 1);
      RoleOfHost(hostCount, m);
    }
  }

  /**
   * With the topology built for `host_count + 1` hosts there is exactly one
   * publisher (h1), exactly one DNS host (the last) and `host_count - 1`
   * subscribers: the contributor count the statistics writer is started with.
   */
  lemma RolePartition(hostCount: nat)
    requires 1 <= hostCount
    ensures var hosts := HostNames(hostCount + 1);
      && hosts[0] == PUBLISHER_HOST_NAME
      && hosts[hostCount] == DnsHostName(hostCount)
      && CountRole(hosts, DnsHostName(hostCount), Publisher) == 1
      && CountRole(hosts, DnsHostName(hostCount), DnsServer) == 1
      && CountRole(hosts, DnsHostName(hostCount), Subscriber) == hostCount - 1
  {
    PublisherIsFirstHost();
    HostNamesAt(hostCount + 1);
    RoleCountsUpTo(hostCount, hostCount + 1);
  }
}
