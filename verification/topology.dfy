/**
 * The emulated network: one switch `s1` and hosts `h1`..`hn`, each with one
 * link to the switch. `SimpleTopo` keeps the node and link lists that
 * Mininet's `Topo` accumulates as `build` adds to it.
 */
module Topology {
  import opened Identity

  /** A link and the traffic-control parameters it is created with. */
  datatype Link = Link(node1: string, node2: string, bw: nat, delay: string, loss: nat, maxQueueSize: nat)

  const SWITCH_NAME := "s1"

  /** The link every host gets: 1000 Mbit/s, no delay, no loss, a 99999-packet queue. */
  function SwitchLink(host: string, switch: string): Link
  {
    Link(host, switch, 1000, "0ms", 0, 99999)
  }

  /** `h1`..`hn` in creation order. */
  function HostNames(n: nat): (hs: seq<string>)
    ensures |hs| == n
  {
    if n == 0 then [] else HostNames(n - 1) + [HostName(n)]
  }

  /** The i-th host created is `h{i+1}`. */
  lemma {:induction false} HostNamesAt(n: nat)
    ensures forall i :: 0 <= i < n ==> HostNames(n)[i] == HostName(i + 1)
  {
    if n > 0 {
      HostNamesAt(n - 1);
      assert forall i :: 0 <= i < n - 1 ==> HostNames(n)[i] == HostNames(n - 1)[i];
    }
  }

  /** No host name is given twice. */
  lemma HostNamesDistinct(n: nat)
    ensures forall i, j :: 0 <= i < j < n ==> HostNames(n)[i] != HostNames(n)[j]
  {
    HostNamesAt(n);
    forall i, j | 0 <= i < j < n
      ensures HostNames(n)[i] != HostNames(n)[j]
    {
      if HostNames(n)[i] == HostNames(n)[j] {
        HostNameInjective(i + 1, j + 1);
      }
    }
  }

  /** No host created after `h<k>` repeats its name. */
  lemma HostNamesLater(n: nat, k: nat)
    requires k <= n
    ensures HostName(k) !in HostNames(n)[k..]
  {
    HostNamesAt(n);
    if HostName(k) in HostNames(n)[k..] {
      var j :| 0 <= j < n - k && HostNames(n)[k..][j] == HostName(k);
      HostNameInjective(k + j + 1, k);
    }
  }

  /** The links `build` adds: one per host, host first, switch second. */
  function SwitchLinks(hosts: seq<string>, switch: string): (ls: seq<Link>)
    ensures |ls| == |hosts|
    ensures forall i :: 0 <= i < |hosts| ==> ls[i] == SwitchLink(hosts[i], switch)
  {
    if hosts == [] then [] else SwitchLinks(hosts[..|hosts| - 1], switch) + [SwitchLink(hosts[|hosts| - 1], switch)]
  }

  /** How many links have `node` at one end. */
  function LinkCount(links: seq<Link>, node: string): nat
  {
    if links == [] then 0
    else
      var last := links[|links| - 1];
      LinkCount(links[..|links| - 1], node) + (if last.node1 == node || last.node2 == node then 1 else 0)
  }

  function LinksBetween(links: seq<Link>, a: string, b: string): nat
  {
    if links == [] then 0
    else
      var last := links[|links| - 1];
      LinksBetween(links[..|links| - 1], a, b) + (if last.node1 == a && last.node2 == b then 1 else 0)
  }

  lemma HostIsNotSwitch(k: nat)
    ensures HostName(k) != SWITCH_NAME
  {
    HostNameChars(k);
    assert SWITCH_NAME[0] == 's';
  }

  predicate Distinct(names: seq<string>)
  {
    forall i, j :: 0 <= i < j < |names| ==> names[i] != names[j]
  }

  /** `h<k>` is one of the first n hosts exactly when 1 <= k <= n. */
  lemma HostNamesMembers(n: nat, k: nat)
    ensures HostName(k) in HostNames(n) <==> 1 <= k <= n
  {
    HostNamesAt(n);
    if 1 <= k <= n {
      assert HostNames(n)[k - 1] == HostName(k);
    }
    if HostName(k) in HostNames(n) {
      var i :| 0 <= i < n && HostNames(n)[i] == HostName(k);
      HostNameInjective(i + 1, k);
    }
  }

  /** One more link, counted at one node. */
  lemma CountSnoc(links: seq<Link>, link: Link, node: string, switch: string)
    ensures LinkCount(links + [link], node)
         == LinkCount(links, node) + (if link.node1 == node || link.node2 == node then 1 else 0)
    ensures LinksBetween(links + [link], node, switch)
         == LinksBetween(links, node, switch) + (if link.node1 == node && link.node2 == switch then 1 else 0)
  {
    assert (links + [link])[..|links|] == links;
  }

  lemma SwitchLinksSnoc(hosts: seq<string>, switch: string)
    requires hosts != []
    ensures SwitchLinks(hosts, switch)
         == SwitchLinks(hosts[..|hosts| - 1], switch) + [SwitchLink(hosts[|hosts| - 1], switch)]
  {
  }

  /** The hosts and links `build` has after one more round of its loop. */
  lemma NextHost(i: nat)
    ensures HostNames(i + 1) == HostNames(i) + [HostName(i + 1)]
    ensures SwitchLinks(HostNames(i + 1), SWITCH_NAME)
         == SwitchLinks(HostNames(i), SWITCH_NAME) + [SwitchLink(HostName(i + 1), SWITCH_NAME)]
  {
    SwitchLinksSnoc(HostNames(i + 1), SWITCH_NAME);
    assert HostNames(i + 1)[..i] == HostNames(i);
  }

  /** A node that is neither the switch nor one of the hosts has no link. */
  lemma {:induction false} NoLinkOutside(hosts: seq<string>, switch: string, node: string)
    requires node !in hosts && node != switch
    ensures LinkCount(SwitchLinks(hosts, switch), node) == 0
    ensures LinksBetween(SwitchLinks(hosts, switch), node, switch) == 0
    decreases |hosts|
  {
    if hosts != [] {
      var init, last := hosts[..|hosts| - 1], hosts[|hosts| - 1];
      SwitchLinksSnoc(hosts, switch);
      NoLinkOutside(init, switch, node);
      CountSnoc(SwitchLinks(init, switch), SwitchLink(last, switch), node, switch);
    }
  }

  /** Each of distinct hosts has one link, to the switch. */
  lemma {:induction false} OneLinkEach(hosts: seq<string>, switch: string, k: nat)
    requires Distinct(hosts) && switch !in hosts && k < |hosts|
    ensures LinkCount(SwitchLinks(hosts, switch), hosts[k]) == 1
    ensures LinksBetween(SwitchLinks(hosts, switch), hosts[k], switch) == 1
    decreases |hosts|
  {
    var init, last := hosts[..|hosts| - 1], hosts[|hosts| - 1];
    SwitchLinksSnoc(hosts, switch);
    CountSnoc(SwitchLinks(init, switch), SwitchLink(last, switch), hosts[k], switch);
    if k == |hosts| - 1 {
      assert last !in init;
      NoLinkOutside(init, switch, last);
    } else {
      assert init[k] == hosts[k] != last;
      OneLinkEach(init, switch, k);
    }
  }

  /** The switch has one link per host. */
  lemma {:induction false} SwitchLinkCount(hosts: seq<string>, switch: string)
    requires switch !in hosts
    ensures LinkCount(SwitchLinks(hosts, switch), switch) == |hosts|
    decreases |hosts|
  {
    if hosts != [] {
      var init, last := hosts[..|hosts| - 1], hosts[|hosts| - 1];
      SwitchLinksSnoc(hosts, switch);
      SwitchLinkCount(init, switch);
      CountSnoc(SwitchLinks(init, switch), SwitchLink(last, switch), switch, switch);
    }
  }

  lemma SwitchIsNoHost(n: nat)
    ensures SWITCH_NAME !in HostNames(n)
  {
    HostNamesAt(n);
    forall i | 0 <= i < n
      ensures HostNames(n)[i] != SWITCH_NAME
    {
      HostIsNotSwitch(i + 1);
    }
  }

  /**
   * In the topology `build(n)` produces, every host has exactly one link, and
   * that link goes to the switch; the switch has one link per host.
   */
  lemma OneLinkPerHost(n: nat, k: nat)
    requires 1 <= k <= n
    ensures LinkCount(SwitchLinks(HostNames(n), SWITCH_NAME), HostName(k)) == 1
    ensures LinksBetween(SwitchLinks(HostNames(n), SWITCH_NAME), HostName(k), SWITCH_NAME) == 1
    ensures LinkCount(SwitchLinks(HostNames(n), SWITCH_NAME), SWITCH_NAME) == n
  {
    HostNamesAt(n);
    HostNamesDistinct(n);
    SwitchIsNoHost(n);
    OneLinkEach(HostNames(n), SWITCH_NAME, k - 1);
    SwitchLinkCount(HostNames(n), SWITCH_NAME);
  }

  /** Hosts not yet created have no link. */
  lemma NoLinkBeyond(m: nat, k: nat)
    requires m < k
    ensures LinkCount(SwitchLinks(HostNames(m), SWITCH_NAME), HostName(k)) == 0
    ensures LinksBetween(SwitchLinks(HostNames(m), SWITCH_NAME), HostName(k), SWITCH_NAME) == 0
  {
    HostNamesAt(m);
    forall i | 0 <= i < m
      ensures HostNames(m)[i] != HostName(k)
    {
      if HostName(i + 1) == HostName(k) {
        HostNameInjective(i + 1, k);
      }
    }
    HostIsNotSwitch(k);
    NoLinkOutside(HostNames(m), SWITCH_NAME, HostName(k));
  }

  lemma AppendOne<T>(a: seq<T>, b: seq<T>, x: T)
    ensures a + b + [x] == a + (b + [x])
  {
  }

  /** Mininet's `Topo`, reduced to the node and link lists `build` fills. */
  class SimpleTopo {
    var switches: seq<string>
    var hosts: seq<string>
    var links: seq<Link>

    /** `simple_topo(n = ...)`: an empty topology, then `build(n)`. */
    constructor (n: nat)
      ensures switches == [SWITCH_NAME]
      ensures hosts == HostNames(n)
      ensures links == SwitchLinks(HostNames(n), SWITCH_NAME)
    {
      switches, hosts, links := [], [], [];
      new;
      Build(n);
    }

    method AddSwitch(name: string) returns (node: string)
      modifies this
      ensures node == name
      ensures switches == old(switches) + [name] && hosts == old(hosts) && links == old(links)
    {
      switches := switches + [name];
      node := name;
    }

    method AddHost(name: string) returns (node: string)
      modifies this
      ensures node == name
      ensures hosts == old(hosts) + [name] && switches == old(switches) && links == old(links)
    {
      hosts := hosts + [name];
      node := name;
    }

    method AddLink(link: Link)
      modifies this
      ensures links == old(links) + [link] && switches == old(switches) && hosts == old(hosts)
    {
      links := links + [link];
    }

    /** Adds switch `s1`, then hosts `h1`..`hn`, each linked to `s1`. */
    method Build(n: nat)
      modifies this
      ensures switches == old(switches) + [SWITCH_NAME]
      ensures hosts == old(hosts) + HostNames(n)
      ensures links == old(links) + SwitchLinks(HostNames(n), SWITCH_NAME)
    {
      var switch := AddSwitch(SWITCH_NAME);
      ghost var hosts0, links0 := hosts, links;
      for i := 0 to n
        invariant switches == old(switches) + [SWITCH_NAME]
        invariant hosts == hosts0 + HostNames(i)
        invariant links == links0 + SwitchLinks(HostNames(i), SWITCH_NAME)
      {
        var host := AddHost(HostName(i + 1));
        AddLink(SwitchLink(host, switch));
        NextHost(i);
        AppendOne(hosts0, HostNames(i), host);
        AppendOne(links0, SwitchLinks(HostNames(i), SWITCH_NAME), SwitchLink(host, switch));
      }
    }
  }
}
