/**
 * The script's main program: one evaluation run. It checks out the vsomeip
 * branch of the chosen variant, records the subscriber count in vsomeip,
 * builds it, starts the statistics writer, builds the network of
 * `host_count + 1` hosts on one switch, points vsomeip at the DNS host, gives
 * every host its configuration and certificate, starts the publisher and the
 * subscribers, waits, and tears everything down again.
 *
 * What the run does to the outside world is a sequence of `Step`s; what it
 * does to the project's files is the state of a `Project`.
 */
module Evaluation {
  import opened Wrappers
  import opened Identity
  import opened Topology
  import opened Roles
  import opened Sed
  import opened HostConfig
  import opened Workspace
  import Variants
  import Defines

  /** One externally visible action of the run, in the order the script takes them. */
  datatype Step =
    | CheckoutBranch(branch: string)
    | RecordSubscriberCount(count: nat)
    | BuildVsomeip
    | StartStatisticsWriter(contributors: nat)
    | StartNetwork(hosts: seq<string>)
    | MakeSwitchTraditional(switch: string)
    | ResetZoneFiles
    | PointVsomeipAtDns(host: string)
    | StartDnsServer(host: string)
    | CreatePublisherConfig(host: string)
    | CreateServiceCertificate(host: string)
    | AddDefaultRoute(host: string)
    | CreateSubscriberConfig(host: string)
    | CreateClientCertificate(host: string)
    | StartPublisher(host: string)
    | StartSubscriber(host: string)
    | WaitStatisticsWriter
    | OpenCli
    | StopSubscriber(host: string)
    | StopPublisher(host: string)
    | StopDnsServer(host: string)
    | StopNetwork
    | StopStatisticsWriter
    | RemoveRunFiles

  /** `make_switch_traditional` for each switch, in order. */
  function SwitchSteps(switches: seq<string>): seq<Step>
  {
    if switches == [] then []
    else SwitchSteps(switches[..|switches| - 1]) + [MakeSwitchTraditional(switches[|switches| - 1])]
  }

  /** The provisioning loop: a default route for every host; a config and a client certificate for every subscriber. */
  function ProvisionSteps(hosts: seq<string>, dnsHost: string): seq<Step>
  {
    if hosts == [] then [] else ProvisionSteps(hosts[..|hosts| - 1], dnsHost) + ProvisionFor(hosts[|hosts| - 1], dnsHost)
  }

  function ProvisionFor(h: string, dnsHost: string): seq<Step>
  {
    [AddDefaultRoute(h)]
      + (if RoleOf(h, dnsHost) == Subscriber then [CreateSubscriberConfig(h), CreateClientCertificate(h)] else [])
  }

  /** The start loop: one subscriber app on every host that is neither the publisher nor the DNS host. */
  function StartSteps(hosts: seq<string>, dnsHost: string): seq<Step>
  {
    if hosts == [] then []
    else
      var h := hosts[|hosts| - 1];
      StartSteps(hosts[..|hosts| - 1], dnsHost) + (if RoleOf(h, dnsHost) == Subscriber then [StartSubscriber(h)] else [])
  }

  /** What the stop loop does for one host: nothing on the DNS host, the publisher app on `h1`, a subscriber app elsewhere. */
  function StopFor(h: string, dnsHost: string): seq<Step>
  {
    if h != dnsHost then
      if h != PUBLISHER_HOST_NAME then [StopSubscriber(h)] else [StopPublisher(h)]
    else []
  }

  function StopSteps(hosts: seq<string>, dnsHost: string): seq<Step>
  {
    if hosts == [] then [] else StopSteps(hosts[..|hosts| - 1], dnsHost) + StopFor(hosts[|hosts| - 1], dnsHost)
  }

  /** From recording the subscriber count to pointing vsomeip at the DNS host. */
  function SetUpSteps(hostCount: nat): seq<Step>
    requires hostCount >= 1
  {
    [RecordSubscriberCount(hostCount - 1)]
      + [BuildVsomeip, StartStatisticsWriter(hostCount - 1)] + [StartNetwork(HostNames(hostCount + 1))]
      + SwitchSteps([SWITCH_NAME]) + [ResetZoneFiles] + [PointVsomeipAtDns(DnsHostName(hostCount))]
  }

  /** Everything up to and including pointing vsomeip at the DNS host. */
  function Launch(hostCount: nat, v: Variants.Variant): seq<Step>
    requires hostCount >= 1
  {
    [CheckoutBranch(Variants.Branch(v))] + SetUpSteps(hostCount)
  }

  /** From starting the DNS server to the clean-up. */
  function Workload(hostCount: nat): seq<Step>
  {
    var hosts, dnsHost := HostNames(hostCount + 1), DnsHostName(hostCount);
    [StartDnsServer(dnsHost)] + [CreatePublisherConfig(PUBLISHER_HOST_NAME), CreateServiceCertificate(PUBLISHER_HOST_NAME)]
      + ProvisionSteps(hosts, dnsHost) + [StartPublisher(PUBLISHER_HOST_NAME)]
      + StartSteps(hosts, dnsHost) + [WaitStatisticsWriter, OpenCli]
      + StopSteps(hosts, dnsHost) + [StopDnsServer(dnsHost), StopNetwork, ResetZoneFiles, StopStatisticsWriter]
      + [RemoveRunFiles]
  }

  /** A complete run with `hostCount` workload hosts evaluating variant `v`. */
  function Plan(hostCount: nat, v: Variants.Variant): seq<Step>
    requires hostCount >= 1
  {
    Launch(hostCount, v) + Workload(hostCount)
  }

  /** The `int(name[1:])` of every host parses, so each host has an application id. */
  predicate HasIds(hosts: seq<string>)
  {
    forall i {:trigger ApplicationId(hosts[i])} :: 0 <= i < |hosts| ==> ApplicationId(hosts[i]).Some?
  }

  lemma {:induction false} HostNamesHaveIds(n: nat)
    ensures HasIds(HostNames(n))
  {
    HostNamesAt(n);
    forall i | 0 <= i < n
      ensures ApplicationId(HostNames(n)[i]).Some?
    {
      HostSuffixOfName(i + 1);
    }
  }

  /**
   * The files once a host's config has been copied from `template`, filled in
   * by `create_host_config` and pointed at the host's certificate.
   */
  function Configured(files: map<string, seq<string>>, template: string, host: string, address: string,
                      kind: CertificateKind): map<string, seq<string>>
    requires ApplicationId(host).Some?
  {
    var path := ConfigPath(host);
    var filled := ApplyFile(CopyFile(files, template, path), path, HostConfigRules(host, address, ApplicationId(host).value));
    ApplyFile(filled, path, CertificateRules(host, kind))
  }

  /** The lines of a host's config made from the template's lines. */
  function ConfigText(template: seq<string>, host: string, address: string, kind: CertificateKind): seq<string>
    requires ApplicationId(host).Some?
  {
    Apply(Apply(template, HostConfigRules(host, address, ApplicationId(host).value)), CertificateRules(host, kind))
  }

  /** Configuring a host adds its config, made from the template, and leaves every other file alone. */
  lemma {:induction false} ConfiguredAt(files: map<string, seq<string>>, template: string, host: string, address: string, kind: CertificateKind)
    requires ApplicationId(host).Some? && template in files && ConfigPath(host) != template
    ensures var r := Configured(files, template, host, address, kind);
      && r.Keys == files.Keys + {ConfigPath(host)}
      && r[ConfigPath(host)] == ConfigText(files[template], host, address, kind)
      && forall p :: p in files && p != ConfigPath(host) ==> r[p] == files[p]
  {
    var path, id := ConfigPath(host), ApplicationId(host).value;
    ConfigFromTemplate(files, template, host, HostConfigRules(host, address, id));
    ApplyFileAt(ApplyFile(CopyFile(files, template, path), path, HostConfigRules(host, address, id)), path, CertificateRules(host, kind));
  }

  /** The files after the provisioning loop has configured every subscriber host. */
  function Provisioned(files: map<string, seq<string>>, hosts: seq<string>, addresses: seq<string>,
                       dnsHost: string): map<string, seq<string>>
    requires |addresses| == |hosts| && HasIds(hosts)
  {
    if hosts == [] then files
    else
      var n := |hosts| - 1;
      var before := Provisioned(files, hosts[..n], addresses[..n], dnsHost);
      if RoleOf(hosts[n], dnsHost) == Subscriber
      then Configured(before, SUBSCRIBER_TEMPLATE, hosts[n], addresses[n], ClientCertificate)
      else before
  }

  /** The configs the provisioning loop writes. */
  function SubscriberConfigs(hosts: seq<string>, dnsHost: string): set<string>
  {
    if hosts == [] then {}
    else
      var h := hosts[|hosts| - 1];
      SubscriberConfigs(hosts[..|hosts| - 1], dnsHost) + (if RoleOf(h, dnsHost) == Subscriber then {ConfigPath(h)} else {})
  }

  lemma {:induction false} InSubscriberConfigs(hosts: seq<string>, dnsHost: string, i: nat)
    requires i < |hosts| && RoleOf(hosts[i], dnsHost) == Subscriber
    ensures ConfigPath(hosts[i]) in SubscriberConfigs(hosts, dnsHost)
    decreases |hosts|
  {
    var n := |hosts| - 1;
    if i < n {
      InSubscriberConfigs(hosts[..n], dnsHost, i);
    }
  }

  lemma {:induction false} OutsideSubscriberConfigs(hosts: seq<string>, dnsHost: string, p: string)
    requires forall i :: 0 <= i < |hosts| && RoleOf(hosts[i], dnsHost) == Subscriber ==> ConfigPath(hosts[i]) != p
    ensures p !in SubscriberConfigs(hosts, dnsHost)
    decreases |hosts|
  {
    if hosts != [] {
      var n := |hosts| - 1;
      assert forall i :: 0 <= i < n ==> hosts[..n][i] == hosts[i];
      OutsideSubscriberConfigs(hosts[..n], dnsHost, p);
    }
  }

  /**
   * The provisioning loop adds exactly the subscribers' configs and leaves
   * every other file, the subscriber template among them, as it was.
   */
  lemma {:induction false} ProvisionedFrame(files: map<string, seq<string>>, hosts: seq<string>, addresses: seq<string>, dnsHost: string)
    requires |addresses| == |hosts| && HasIds(hosts)
    requires SUBSCRIBER_TEMPLATE in files && SUBSCRIBER_TEMPLATE !in SubscriberConfigs(hosts, dnsHost)
    ensures var r := Provisioned(files, hosts, addresses, dnsHost);
      && r.Keys == files.Keys + SubscriberConfigs(hosts, dnsHost)
      && forall p :: p in files && p !in SubscriberConfigs(hosts, dnsHost) ==> r[p] == files[p]
    decreases |hosts|
  {
    if hosts != [] {
      var n := |hosts| - 1;
      var h := hosts[n];
      ProvisionedFrame(files, hosts[..n], addresses[..n], dnsHost);
      if RoleOf(h, dnsHost) == Subscriber {
        var before := Provisioned(files, hosts[..n], addresses[..n], dnsHost);
        ConfiguredAt(before, SUBSCRIBER_TEMPLATE, h, addresses[n], ClientCertificate);
      }
    }
  }

  /** Each subscriber that appears once among the hosts after it ends up with its config made from the subscriber template. */
  lemma {:induction false} ProvisionedConfig(files: map<string, seq<string>>, hosts: seq<string>, addresses: seq<string>,
                                             dnsHost: string, i: nat)
    requires |addresses| == |hosts| && HasIds(hosts)
    requires SUBSCRIBER_TEMPLATE in files && SUBSCRIBER_TEMPLATE !in SubscriberConfigs(hosts, dnsHost)
    requires i < |hosts| && RoleOf(hosts[i], dnsHost) == Subscriber && hosts[i] !in hosts[i + 1..]
    ensures ConfigPath(hosts[i]) in Provisioned(files, hosts, addresses, dnsHost)
    ensures Provisioned(files, hosts, addresses, dnsHost)[ConfigPath(hosts[i])]
         == ConfigText(files[SUBSCRIBER_TEMPLATE], hosts[i], addresses[i], ClientCertificate)
    decreases |hosts|, 1
  {
    if i == |hosts| - 1 {
      ProvisionedLast(files, hosts, addresses, dnsHost);
    } else {
      ProvisionedEarlier(files, hosts, addresses, dnsHost, i);
    }
  }

  /** The last host, a subscriber, gets its config from the subscriber template as it was before the loop. */
  lemma {:induction false} ProvisionedLast(files: map<string, seq<string>>, hosts: seq<string>, addresses: seq<string>,
                                           dnsHost: string)
    requires |addresses| == |hosts| && HasIds(hosts) && hosts != []
    requires SUBSCRIBER_TEMPLATE in files && SUBSCRIBER_TEMPLATE !in SubscriberConfigs(hosts, dnsHost)
    requires RoleOf(hosts[|hosts| - 1], dnsHost) == Subscriber
    ensures var h := hosts[|hosts| - 1];
      && ConfigPath(h) in Provisioned(files, hosts, addresses, dnsHost)
      && Provisioned(files, hosts, addresses, dnsHost)[ConfigPath(h)]
         == ConfigText(files[SUBSCRIBER_TEMPLATE], h, addresses[|hosts| - 1], ClientCertificate)
  {
    var n := |hosts| - 1;
    var h := hosts[n];
    IdsOfPrefix(hosts, n);
    ProvisionedFrame(files, hosts[..n], addresses[..n], dnsHost);
    InSubscriberConfigs(hosts, dnsHost, n);
    ConfiguredAt(Provisioned(files, hosts[..n], addresses[..n], dnsHost), SUBSCRIBER_TEMPLATE, h, addresses[n], ClientCertificate);
  }

  /** An earlier subscriber keeps the config the loop gave it, as the last host's config is another file. */
  lemma {:induction false} ProvisionedEarlier(files: map<string, seq<string>>, hosts: seq<string>, addresses: seq<string>,
                                              dnsHost: string, i: nat)
    requires |addresses| == |hosts| && HasIds(hosts)
    requires SUBSCRIBER_TEMPLATE in files && SUBSCRIBER_TEMPLATE !in SubscriberConfigs(hosts, dnsHost)
    requires i < |hosts| - 1 && RoleOf(hosts[i], dnsHost) == Subscriber && hosts[i] !in hosts[i + 1..]
    ensures ConfigPath(hosts[i]) in Provisioned(files, hosts, addresses, dnsHost)
    ensures Provisioned(files, hosts, addresses, dnsHost)[ConfigPath(hosts[i])]
         == ConfigText(files[SUBSCRIBER_TEMPLATE], hosts[i], addresses[i], ClientCertificate)
    decreases |hosts|, 0
  {
    var n := |hosts| - 1;
    var h := hosts[n];
    IdsOfPrefix(hosts, n);
    var before := Provisioned(files, hosts[..n], addresses[..n], dnsHost);
    assert hosts[..n][i] == hosts[i] && addresses[..n][i] == addresses[i];
    assert hosts[i + 1..] == hosts[..n][i + 1..] + [h];
    ProvisionedConfig(files, hosts[..n], addresses[..n], dnsHost, i);
    if RoleOf(h, dnsHost) == Subscriber {
      ProvisionedFrame(files, hosts[..n], addresses[..n], dnsHost);
      InSubscriberConfigs(hosts, dnsHost, n);
      if ConfigPath(h) == ConfigPath(hosts[i]) {
        ConfigPathInjective(h, hosts[i]);
      }
      ConfiguredAt(before, SUBSCRIBER_TEMPLATE, h, addresses[n], ClientCertificate);
    }
  }

  /** The files once `h1` has its config from the publisher template and its service certificate. */
  function Published(files: map<string, seq<string>>, address: string): map<string, seq<string>>
  {
    PublisherIsFirstHost();
    HostSuffixOfName(1);
    Configured(files, PUBLISHER_TEMPLATE, PUBLISHER_HOST_NAME, address, ServiceCertificate)
  }

  /** Configuring the publisher adds `h1`'s config and leaves every other file, both templates among them, alone. */
  lemma {:induction false} PublishedAt(files: map<string, seq<string>>, address: string)
    requires PUBLISHER_TEMPLATE in files
    ensures ApplicationId(PUBLISHER_HOST_NAME).Some?
    ensures ConfigPath(PUBLISHER_HOST_NAME) != PUBLISHER_TEMPLATE && ConfigPath(PUBLISHER_HOST_NAME) != SUBSCRIBER_TEMPLATE
    ensures var r := Published(files, address);
      && r.Keys == files.Keys + {ConfigPath(PUBLISHER_HOST_NAME)}
      && r[ConfigPath(PUBLISHER_HOST_NAME)] == ConfigText(files[PUBLISHER_TEMPLATE], PUBLISHER_HOST_NAME, address, ServiceCertificate)
      && forall p :: p in files && p != ConfigPath(PUBLISHER_HOST_NAME) ==> r[p] == files[p]
  {
    PublisherIsFirstHost();
    HostSuffixOfName(1);
    HostConfigIsNoTemplate(1);
    ConfiguredAt(files, PUBLISHER_TEMPLATE, PUBLISHER_HOST_NAME, address, ServiceCertificate);
  }

  /**
   * The files while the apps run: the publisher's config made from the
   * publisher template, then every subscriber's from the subscriber template.
   * `addresses[i]` is the address Mininet gave the i-th host.
   */
  function Deployed(files: map<string, seq<string>>, hostCount: nat, addresses: seq<string>): map<string, seq<string>>
    requires |addresses| == hostCount + 1
  {
    HostNamesHaveIds(hostCount + 1);
    Provisioned(Published(files, addresses[0]), HostNames(hostCount + 1), addresses, DnsHostName(hostCount))
  }

  /** The DNS host is not `h1`, so it does not share the publisher's config. */
  lemma {:induction false} DnsConfigIsNotPublishers(hostCount: nat)
    requires hostCount >= 1
    ensures ConfigPath(DnsHostName(hostCount)) != ConfigPath(PUBLISHER_HOST_NAME)
  {
    HostOfRun(hostCount, hostCount + 1);
    if ConfigPath(DnsHostName(hostCount)) == ConfigPath(PUBLISHER_HOST_NAME) {
      ConfigPathInjective(DnsHostName(hostCount), PUBLISHER_HOST_NAME);
    }
  }

  /** No config of the topology's hosts is a template, and the publisher's and the DNS host's are not written by the loop. */
  lemma {:induction false} SubscriberConfigsOfRun(hostCount: nat)
    requires hostCount >= 1
    ensures var configs := SubscriberConfigs(HostNames(hostCount + 1), DnsHostName(hostCount));
      && PUBLISHER_TEMPLATE !in configs && SUBSCRIBER_TEMPLATE !in configs
      && ConfigPath(PUBLISHER_HOST_NAME) !in configs && ConfigPath(DnsHostName(hostCount)) !in configs
  {
    var hosts, dnsHost := HostNames(hostCount + 1), DnsHostName(hostCount);
    HostNamesAt(hostCount + 1);
    forall i | 0 <= i < |hosts|
      ensures ConfigPath(hosts[i]) != PUBLISHER_TEMPLATE && ConfigPath(hosts[i]) != SUBSCRIBER_TEMPLATE
    {
      HostConfigIsNoTemplate(i + 1);
    }
    OutsideSubscriberConfigs(hosts, dnsHost, PUBLISHER_TEMPLATE);
    OutsideSubscriberConfigs(hosts, dnsHost, SUBSCRIBER_TEMPLATE);
    forall i | 0 <= i < |hosts| && RoleOf(hosts[i], dnsHost) == Subscriber
      ensures ConfigPath(hosts[i]) != ConfigPath(PUBLISHER_HOST_NAME) && ConfigPath(hosts[i]) != ConfigPath(dnsHost)
    {
      if ConfigPath(hosts[i]) == ConfigPath(PUBLISHER_HOST_NAME) { ConfigPathInjective(hosts[i], PUBLISHER_HOST_NAME); }
      if ConfigPath(hosts[i]) == ConfigPath(dnsHost) { ConfigPathInjective(hosts[i], dnsHost); }
    }
    OutsideSubscriberConfigs(hosts, dnsHost, ConfigPath(PUBLISHER_HOST_NAME));
    OutsideSubscriberConfigs(hosts, dnsHost, ConfigPath(dnsHost));
  }

  /** While the apps run, the files are the publisher's plus the subscribers' configs, everything else as before. */
  lemma {:induction false} DeployedFrame(files: map<string, seq<string>>, hostCount: nat, addresses: seq<string>)
    requires hostCount >= 1 && |addresses| == hostCount + 1
    requires PUBLISHER_TEMPLATE in files && SUBSCRIBER_TEMPLATE in files
    ensures var d, published := Deployed(files, hostCount, addresses), Published(files, addresses[0]);
      var configs := SubscriberConfigs(HostNames(hostCount + 1), DnsHostName(hostCount));
      && d.Keys == published.Keys + configs
      && forall p :: p in published && p !in configs ==> d[p] == published[p]
  {
    HostNamesHaveIds(hostCount + 1);
    PublishedAt(files, addresses[0]);
    SubscriberConfigsOfRun(hostCount);
    ProvisionedFrame(Published(files, addresses[0]), HostNames(hostCount + 1), addresses, DnsHostName(hostCount));
  }

  /**
   * While the apps run, `h1` has the publisher template filled in for it with
   * its service certificate, both templates are as they were, and the DNS
   * host's config is whatever it was before the run.
   */
  lemma {:induction false} DeployedPublisher(files: map<string, seq<string>>, hostCount: nat, addresses: seq<string>)
    requires hostCount >= 1 && |addresses| == hostCount + 1
    requires PUBLISHER_TEMPLATE in files && SUBSCRIBER_TEMPLATE in files
    ensures ApplicationId(PUBLISHER_HOST_NAME).Some?
    ensures var d := Deployed(files, hostCount, addresses);
      && PUBLISHER_TEMPLATE in d && d[PUBLISHER_TEMPLATE] == files[PUBLISHER_TEMPLATE]
      && SUBSCRIBER_TEMPLATE in d && d[SUBSCRIBER_TEMPLATE] == files[SUBSCRIBER_TEMPLATE]
      && ConfigPath(PUBLISHER_HOST_NAME) in d
      && d[ConfigPath(PUBLISHER_HOST_NAME)]
         == ConfigText(files[PUBLISHER_TEMPLATE], PUBLISHER_HOST_NAME, addresses[0], ServiceCertificate)
      && (ConfigPath(DnsHostName(hostCount)) in d <==> ConfigPath(DnsHostName(hostCount)) in files)
      && (ConfigPath(DnsHostName(hostCount)) in files ==>
            d[ConfigPath(DnsHostName(hostCount))] == files[ConfigPath(DnsHostName(hostCount))])
  {
    PublishedAt(files, addresses[0]);
    SubscriberConfigsOfRun(hostCount);
    DeployedFrame(files, hostCount, addresses);
    DnsConfigIsNotPublishers(hostCount);
  }

  /** `h{k}`, for k from 2 to `host_count`, is the k-th of the run's distinct hosts and a subscriber. */
  lemma {:induction false} SubscriberOfRun(hostCount: nat, k: nat)
    requires 2 <= k <= hostCount
    ensures var hosts, dnsHost := HostNames(hostCount + 1), DnsHostName(hostCount);
      && HasIds(hosts) && SUBSCRIBER_TEMPLATE !in SubscriberConfigs(hosts, dnsHost)
      && hosts[k - 1] == HostName(k) && HostName(k) !in hosts[k..] && RoleOf(HostName(k), dnsHost) == Subscriber
  {
    HostNamesHaveIds(hostCount + 1);
    HostNamesLater(hostCount + 1, k);
    SubscriberConfigsOfRun(hostCount);
    HostNamesAt(hostCount + 1);
    RoleOfHost(hostCount, k);
  }

  /** The provisioning loop of a run gives each subscriber `h2`..`h{host_count}` the subscriber template, filled in. */
  lemma {:induction false} ProvisionedSubscriber(files: map<string, seq<string>>, hostCount: nat, addresses: seq<string>, k: nat)
    requires 2 <= k <= hostCount && |addresses| == hostCount + 1 && SUBSCRIBER_TEMPLATE in files
    ensures HasIds(HostNames(hostCount + 1)) && ApplicationId(HostName(k)).Some?
    ensures var r := Provisioned(files, HostNames(hostCount + 1), addresses, DnsHostName(hostCount));
      && ConfigPath(HostName(k)) in r
      && r[ConfigPath(HostName(k))] == ConfigText(files[SUBSCRIBER_TEMPLATE], HostName(k), addresses[k - 1], ClientCertificate)
  {
    SubscriberOfRun(hostCount, k);
    ProvisionedConfig(files, HostNames(hostCount + 1), addresses, DnsHostName(hostCount), k - 1);
  }

  /** While the apps run, every subscriber `h2`..`h{host_count}` has the subscriber template filled in for it. */
  lemma {:induction false} DeployedSubscriber(files: map<string, seq<string>>, hostCount: nat, addresses: seq<string>, k: nat)
    requires 2 <= k <= hostCount && |addresses| == hostCount + 1
    requires PUBLISHER_TEMPLATE in files && SUBSCRIBER_TEMPLATE in files
    ensures ApplicationId(HostName(k)).Some?
    ensures var d := Deployed(files, hostCount, addresses);
      && ConfigPath(HostName(k)) in d
      && d[ConfigPath(HostName(k))] == ConfigText(files[SUBSCRIBER_TEMPLATE], HostName(k), addresses[k - 1], ClientCertificate)
  {
    PublishedAt(files, addresses[0]);
    ProvisionedSubscriber(Published(files, addresses[0]), hostCount, addresses, k);
  }

  /** After the clean-up no host's config is left, and both templates are as they were before the run. */
  lemma {:induction false} RunLeavesTemplates(files: map<string, seq<string>>, hostCount: nat, addresses: seq<string>, k: nat)
    requires hostCount >= 1 && |addresses| == hostCount + 1
    requires PUBLISHER_TEMPLATE in files && SUBSCRIBER_TEMPLATE in files
    ensures var c := Cleaned(Deployed(files, hostCount, addresses));
      && ConfigPath(HostName(k)) !in c
      && PUBLISHER_TEMPLATE in c && c[PUBLISHER_TEMPLATE] == files[PUBLISHER_TEMPLATE]
      && SUBSCRIBER_TEMPLATE in c && c[SUBSCRIBER_TEMPLATE] == files[SUBSCRIBER_TEMPLATE]
  {
    var d := Deployed(files, hostCount, addresses);
    DeployedPublisher(files, hostCount, addresses);
    CleanupRemovesHostConfig(d, k);
    CleanupKeepsTemplates(d);
  }

  /** The subscribers started are exactly the subscriber hosts, each once, and there are as many as the role count says. */
  lemma {:induction false} StartStepsCount(hosts: seq<string>, dnsHost: string, h: string)
    requires Distinct(hosts)
    ensures multiset(StartSteps(hosts, dnsHost))[StartSubscriber(h)]
         == if h in hosts && RoleOf(h, dnsHost) == Subscriber then 1 else 0
    ensures |StartSteps(hosts, dnsHost)| == CountRole(hosts, dnsHost, Subscriber)
    decreases |hosts|
  {
    if hosts != [] {
      var n := |hosts| - 1;
      InSnoc(hosts, h);
      StartStepsCount(hosts[..n], dnsHost, h);
    }
  }

  /** One round of the stop loop stops at most one app, and only on a host other than the DNS host. */
  lemma {:induction false} StopForCount(last: string, dnsHost: string, h: string)
    ensures var m := multiset(StopFor(last, dnsHost));
      && m[StopSubscriber(h)] + m[StopPublisher(h)] == (if h == last && h != dnsHost then 1 else 0)
      && (m[StopPublisher(h)] > 0 ==> h == PUBLISHER_HOST_NAME)
      && (m[StopSubscriber(h)] > 0 ==> h != PUBLISHER_HOST_NAME)
    ensures |StopFor(last, dnsHost)| == if last != dnsHost then 1 else 0
  {
  }

  /** A host is in a non-empty sequence when it is in the front part or is the last one. */
  lemma {:induction false} InSnoc(hosts: seq<string>, h: string)
    requires hosts != []
    ensures h in hosts <==> h in hosts[..|hosts| - 1] || h == hosts[|hosts| - 1]
    ensures Distinct(hosts) ==> Distinct(hosts[..|hosts| - 1]) && hosts[|hosts| - 1] !in hosts[..|hosts| - 1]
  {
    assert hosts == hosts[..|hosts| - 1] + [hosts[|hosts| - 1]];
  }

  /** Every host but the DNS host is stopped once: the publisher app on `h1`, a subscriber app elsewhere. */
  lemma {:induction false} StopStepsCount(hosts: seq<string>, dnsHost: string, h: string)
    requires Distinct(hosts)
    ensures var m := multiset(StopSteps(hosts, dnsHost));
      && m[StopSubscriber(h)] + m[StopPublisher(h)] == (if h in hosts && h != dnsHost then 1 else 0)
      && (m[StopPublisher(h)] > 0 ==> h == PUBLISHER_HOST_NAME)
      && (m[StopSubscriber(h)] > 0 ==> h != PUBLISHER_HOST_NAME)
    decreases |hosts|
  {
    if hosts != [] {
      var n := |hosts| - 1;
      InSnoc(hosts, h);
      StopStepsCount(hosts[..n], dnsHost, h);
      StopForCount(hosts[n], dnsHost, h);
    }
  }

  /** The stop loop stops one app per host, except on the DNS host. */
  lemma {:induction false} StopStepsLength(hosts: seq<string>, dnsHost: string)
    requires Distinct(hosts)
    ensures |StopSteps(hosts, dnsHost)| == |hosts| - (if dnsHost in hosts then 1 else 0)
    decreases |hosts|
  {
    if hosts != [] {
      var n := |hosts| - 1;
      InSnoc(hosts, dnsHost);
      StopStepsLength(hosts[..n], dnsHost);
      StopForCount(hosts[n], dnsHost, dnsHost);
    }
  }

  /** Each host gets one default route; exactly the subscribers get a config and a client certificate. */
  lemma {:induction false} ProvisionStepsCount(hosts: seq<string>, dnsHost: string, h: string)
    requires Distinct(hosts)
    ensures var m := multiset(ProvisionSteps(hosts, dnsHost));
      && m[AddDefaultRoute(h)] == (if h in hosts then 1 else 0)
      && m[CreateSubscriberConfig(h)] == (if h in hosts && RoleOf(h, dnsHost) == Subscriber then 1 else 0)
      && m[CreateClientCertificate(h)] == m[CreateSubscriberConfig(h)]
    decreases |hosts|
  {
    if hosts != [] {
      var n := |hosts| - 1;
      InSnoc(hosts, h);
      ProvisionStepsCount(hosts[..n], dnsHost, h);
      ProvisionForCount(hosts[n], dnsHost, h);
    }
  }

  lemma {:induction false} ProvisionForCount(last: string, dnsHost: string, h: string)
    ensures var m := multiset(ProvisionFor(last, dnsHost));
      && m[AddDefaultRoute(h)] == (if h == last then 1 else 0)
      && m[CreateSubscriberConfig(h)] == (if h == last && RoleOf(h, dnsHost) == Subscriber then 1 else 0)
      && m[CreateClientCertificate(h)] == m[CreateSubscriberConfig(h)]
  {
  }

  /** `h1` publishes and `h{hostCount+1}` serves DNS; no other host plays either part. */
  lemma {:induction false} HostOfRun(hostCount: nat, k: nat)
    requires hostCount >= 1
    ensures HostName(k) == PUBLISHER_HOST_NAME <==> k == 1
    ensures HostName(k) == DnsHostName(hostCount) <==> k == hostCount + 1
    ensures HostName(k) in HostNames(hostCount + 1) <==> 1 <= k <= hostCount + 1
  {
    PublisherIsFirstHost();
    HostSuffixOfName(k);
    HostSuffixOfName(1);
    HostSuffixOfName(hostCount + 1);
    HostNamesMembers(hostCount + 1, k);
  }

  /**
   * In a run with `hostCount` workload hosts, `h2`..`h{hostCount}` each start
   * one subscriber app and no other host does.
   */
  lemma {:induction false} SubscribersOfRun(hostCount: nat, k: nat)
    requires hostCount >= 1
    ensures multiset(StartSteps(HostNames(hostCount + 1), DnsHostName(hostCount)))[StartSubscriber(HostName(k))]
         == if 2 <= k <= hostCount then 1 else 0
  {
    HostNamesDistinct(hostCount + 1);
    HostOfRun(hostCount, k);
    StartStepsCount(HostNames(hostCount + 1), DnsHostName(hostCount), HostName(k));
  }

  /**
   * The statistics writer is started for `hostCount - 1` contributors, the
   * number recorded in vsomeip, which is exactly the number of subscriber
   * apps the run starts.
   */
  lemma {:induction false} ContributorsOfRun(hostCount: nat, v: Variants.Variant)
    requires hostCount >= 1
    ensures Plan(hostCount, v)[1] == RecordSubscriberCount(hostCount - 1)
    ensures Plan(hostCount, v)[3] == StartStatisticsWriter(hostCount - 1)
    ensures |StartSteps(HostNames(hostCount + 1), DnsHostName(hostCount))| == hostCount - 1
  {
    HostNamesDistinct(hostCount + 1);
    StartStepsCount(HostNames(hostCount + 1), DnsHostName(hostCount), PUBLISHER_HOST_NAME);
    RolePartition(hostCount);
  }

  /**
   * In a run, `h1`..`h{hostCount}` are each stopped once, `h1` as the
   * publisher and the others as subscribers; the DNS host runs no app and is
   * not stopped.
   */
  lemma {:induction false} StopsOfRun(hostCount: nat, k: nat)
    requires hostCount >= 1
    ensures var m := multiset(StopSteps(HostNames(hostCount + 1), DnsHostName(hostCount)));
      && m[StopSubscriber(HostName(k))] == (if 2 <= k <= hostCount then 1 else 0)
      && m[StopPublisher(HostName(k))] == (if k == 1 then 1 else 0)
    ensures |StopSteps(HostNames(hostCount + 1), DnsHostName(hostCount))| == hostCount
  {
    HostNamesDistinct(hostCount + 1);
    HostOfRun(hostCount, k);
    HostOfRun(hostCount, hostCount + 1);
    StopStepsCount(HostNames(hostCount + 1), DnsHostName(hostCount), HostName(k));
    StopStepsLength(HostNames(hostCount + 1), DnsHostName(hostCount));
  }

  /** Every subscriber app started in a run finds its config in place. */
  lemma {:induction false} StartedSubscribersConfigured(files: map<string, seq<string>>, hostCount: nat, addresses: seq<string>)
    requires hostCount >= 1 && |addresses| == hostCount + 1
    requires PUBLISHER_TEMPLATE in files && SUBSCRIBER_TEMPLATE in files
    ensures forall h :: StartSubscriber(h) in StartSteps(HostNames(hostCount + 1), DnsHostName(hostCount)) ==>
      ConfigPath(h) in Deployed(files, hostCount, addresses)
  {
    var hosts, dnsHost := HostNames(hostCount + 1), DnsHostName(hostCount);
    HostNamesDistinct(hostCount + 1);
    DeployedFrame(files, hostCount, addresses);
    forall h | StartSubscriber(h) in StartSteps(hosts, dnsHost)
      ensures ConfigPath(h) in Deployed(files, hostCount, addresses)
    {
      StartStepsCount(hosts, dnsHost, h);
      var i :| 0 <= i < |hosts| && hosts[i] == h;
      InSubscriberConfigs(hosts, dnsHost, i);
    }
  }

  /** The loop over `net.switches`. */
  method MakeSwitchesTraditional(switches: seq<string>) returns (steps: seq<Step>)
    ensures steps == SwitchSteps(switches)
  {
    steps := [];
    for i := 0 to |switches|
      invariant steps == SwitchSteps(switches[..i])
    {
      steps := steps + [MakeSwitchTraditional(switches[i])];
      assert switches[..i + 1][..i] == switches[..i];
    }
    assert switches[..|switches|] == switches;
  }

  /** The loop that starts the subscriber apps. */
  method StartSubscribers(hosts: seq<string>, dnsHost: string) returns (steps: seq<Step>)
    ensures steps == StartSteps(hosts, dnsHost)
  {
    steps := [];
    for i := 0 to |hosts|
      invariant steps == StartSteps(hosts[..i], dnsHost)
    {
      var h := hosts[i];
      if h != PUBLISHER_HOST_NAME && h != dnsHost {
        steps := steps + [StartSubscriber(h)];
      }
      assert hosts[..i + 1][..i] == hosts[..i];
    }
    assert hosts[..|hosts|] == hosts;
  }

  /** The loop that stops the publisher and subscriber apps. */
  method StopApps(hosts: seq<string>, dnsHost: string) returns (steps: seq<Step>)
    ensures steps == StopSteps(hosts, dnsHost)
  {
    steps := [];
    for i := 0 to |hosts|
      invariant steps == StopSteps(hosts[..i], dnsHost)
    {
      var h := hosts[i];
      if h != dnsHost {
        if h != PUBLISHER_HOST_NAME {
          steps := steps + [StopSubscriber(h)];
        } else {
          steps := steps + [StopPublisher(h)];
        }
      }
      assert hosts[..i + 1][..i] == hosts[..i];
    }
    assert hosts[..|hosts|] == hosts;
  }

  lemma {:induction false} IdsOfPrefix(hosts: seq<string>, i: nat)
    requires i <= |hosts| && HasIds(hosts)
    ensures HasIds(hosts[..i])
  {
    assert forall j :: 0 <= j < i ==> hosts[..i][j] == hosts[j];
  }

  /** One more round of the provisioning loop, on the files. */
  lemma {:induction false} ProvisionedRound(files: map<string, seq<string>>, hosts: seq<string>, addresses: seq<string>, dnsHost: string, i: nat)
    requires i < |hosts| && |addresses| == |hosts| && HasIds(hosts[..i + 1])
    ensures HasIds(hosts[..i])
    ensures var before := Provisioned(files, hosts[..i], addresses[..i], dnsHost);
      Provisioned(files, hosts[..i + 1], addresses[..i + 1], dnsHost)
      == if RoleOf(hosts[i], dnsHost) == Subscriber
         then Configured(before, SUBSCRIBER_TEMPLATE, hosts[i], addresses[i], ClientCertificate)
         else before
  {
    assert hosts[..i + 1][..i] == hosts[..i] && addresses[..i + 1][..i] == addresses[..i];
  }

  /** One more round of the provisioning loop, on the steps. */
  lemma {:induction false} ProvisionStepsRound(hosts: seq<string>, dnsHost: string, i: nat)
    requires i < |hosts|
    ensures var h := hosts[i];
      ProvisionSteps(hosts[..i + 1], dnsHost)
      == if RoleOf(h, dnsHost) == Subscriber
         then ProvisionSteps(hosts[..i], dnsHost) + [AddDefaultRoute(h)] + [CreateSubscriberConfig(h), CreateClientCertificate(h)]
         else ProvisionSteps(hosts[..i], dnsHost) + [AddDefaultRoute(h)]
  {
    assert hosts[..i + 1][..i] == hosts[..i];
  }

  /** The loop that gives every host its default route and every subscriber its config and certificate. */
  method ProvisionHosts(project: Project, hosts: seq<string>, dnsHost: string, addresses: seq<string>)
    returns (steps: seq<Step>)
    requires |addresses| == |hosts| && HasIds(hosts)
    modifies project
    ensures steps == ProvisionSteps(hosts, dnsHost)
    ensures project.files == Provisioned(old(project.files), hosts, addresses, dnsHost)
    ensures project.dnsParameters == old(project.dnsParameters)
    ensures project.serviceDiscovery == old(project.serviceDiscovery)
  {
    steps := [];
    for i := 0 to |hosts|
      invariant steps == ProvisionSteps(hosts[..i], dnsHost)
      invariant project.files == Provisioned(old(project.files), hosts[..i], addresses[..i], dnsHost)
      invariant project.dnsParameters == old(project.dnsParameters)
      invariant project.serviceDiscovery == old(project.serviceDiscovery)
    {
      var h := hosts[i];
      IdsOfPrefix(hosts, i + 1);
      ProvisionedRound(old(project.files), hosts, addresses, dnsHost, i);
      ProvisionStepsRound(hosts, dnsHost, i);
      steps := steps + [AddDefaultRoute(h)];
      if h != PUBLISHER_HOST_NAME && h != dnsHost {
        var configured := project.CreateSubscriberConfig(h, addresses[i]);
        project.WireCertificate(h, ClientCertificate);
        steps := steps + [CreateSubscriberConfig(h), CreateClientCertificate(h)];
      }
    }
    assert hosts[..|hosts|] == hosts && addresses[..|addresses|] == addresses;
  }

  /** From starting the DNS server to the clean-up, on the topology's hosts `h1`..`h{hostCount+1}`. */
  method RunWorkload(project: Project, hostCount: nat, hosts: seq<string>, addresses: seq<string>)
    returns (steps: seq<Step>)
    requires hosts == HostNames(hostCount + 1) && |addresses| == hostCount + 1
    requires ConfigsOnly(project.files)
    modifies project
    ensures steps == Workload(hostCount)
    ensures project.files == Cleaned(Deployed(old(project.files), hostCount, addresses))
    ensures project.dnsParameters == old(project.dnsParameters)
    ensures project.serviceDiscovery == old(project.serviceDiscovery)
  {
    var dnsHost := DnsHostName(hostCount);
    steps := [StartDnsServer(dnsHost)];
    PublisherIsFirstHost();
    HostSuffixOfName(1);
    var published := project.CreatePublisherConfig(PUBLISHER_HOST_NAME, addresses[0]);
    project.WireCertificate(PUBLISHER_HOST_NAME, ServiceCertificate);
    steps := steps + [CreatePublisherConfig(PUBLISHER_HOST_NAME), CreateServiceCertificate(PUBLISHER_HOST_NAME)];
    assert project.files == Published(old(project.files), addresses[0]);
    HostNamesHaveIds(hostCount + 1);
    var provisioning := ProvisionHosts(project, hosts, dnsHost, addresses);
    assert project.files == Deployed(old(project.files), hostCount, addresses);
    steps := steps + provisioning + [StartPublisher(PUBLISHER_HOST_NAME)];
    var starts := StartSubscribers(hosts, dnsHost);
    steps := steps + starts + [WaitStatisticsWriter, OpenCli];
    var stops := StopApps(hosts, dnsHost);
    steps := steps + stops + [StopDnsServer(dnsHost), StopNetwork, ResetZoneFiles, StopStatisticsWriter];
    project.CleanUp();
    steps := steps + [RemoveRunFiles];
  }

  /**
   * Setting up vsomeip, the statistics writer, the network and the DNS
   * address. It fails, raising in the script, when the subscriber count
   * cannot be read or the DNS host's address cannot be packed; `dnsAddress`
   * is the address Mininet gave the DNS host.
   */
  method SetUp(project: Project, hostCount: nat, dnsAddress: string)
    returns (ok: bool, steps: seq<Step>, hosts: seq<string>)
    requires hostCount >= 1 && ConfigsOnly(project.files)
    modifies project
    ensures var counted := Defines.SetSubscriberCount(old(project.serviceDiscovery), hostCount - 1);
      var pointed := Defines.SetDnsServerIp(old(project.dnsParameters), dnsAddress);
      && (ok <==> counted.Some? && pointed.Some?)
      && steps == (if counted.Some? then SetUpSteps(hostCount) else [RecordSubscriberCount(hostCount - 1)])
      && project.serviceDiscovery == counted.GetOr(old(project.serviceDiscovery))
      && project.dnsParameters == (if counted.Some? then pointed.GetOr(old(project.dnsParameters))
                                   else old(project.dnsParameters))
    ensures project.files == old(project.files)
    ensures ok ==> hosts == HostNames(hostCount + 1)
  {
    hosts := [];
    var counted := project.SetSubscriberCountToRecord(hostCount - 1);
    steps := [RecordSubscriberCount(hostCount - 1)];
    if !counted {
      return false, steps, hosts;
    }
    steps := steps + [BuildVsomeip, StartStatisticsWriter(hostCount - 1)];
    var topo := new SimpleTopo(hostCount + 1);
    hosts := topo.hosts;
    steps := steps + [StartNetwork(hosts)];
    var switching := MakeSwitchesTraditional(topo.switches);
    steps := steps + switching + [ResetZoneFiles];
    // The DNS host `h{host_count+1}` is the last host of the topology.
    ok := project.SetDnsServerIp(dnsAddress);
    steps := steps + [PointVsomeipAtDns(DnsHostName(hostCount))];
  }

  /** The steps a run has taken when it stops early are a proper prefix of the plan. */
  lemma {:induction false} PlanPrefixes(hostCount: nat, v: Variants.Variant)
    requires hostCount >= 1
    ensures var checkedOut := [CheckoutBranch(Variants.Branch(v))];
      var counted := checkedOut + [RecordSubscriberCount(hostCount - 1)];
      var launched := Launch(hostCount, v);
      && checkedOut <= Plan(hostCount, v) && |checkedOut| < |Plan(hostCount, v)|
      && counted <= Plan(hostCount, v) && |counted| < |Plan(hostCount, v)|
      && launched <= Plan(hostCount, v) && |launched| < |Plan(hostCount, v)|
  {
    var plan := Plan(hostCount, v);
    var launched := Launch(hostCount, v);
    assert plan[..|launched|] == launched;
    assert launched[..1] == [CheckoutBranch(Variants.Branch(v))];
    assert launched[..2] == [CheckoutBranch(Variants.Branch(v))] + [RecordSubscriberCount(hostCount - 1)];
  }

  /**
   * One run of the script with `--hosts hostCount --evaluate v`. The result
   * of `git checkout` and the addresses Mininet hands out come in as
   * parameters. A run stops with exit code 1 at the first failure: the
   * checkout, or an exception raised while reading the subscriber count or
   * packing the DNS host's address.
   */
  method Evaluate(project: Project, hostCount: nat, v: Variants.Variant, checkoutStatus: int, addresses: seq<string>)
    returns (exitCode: int, steps: seq<Step>)
    requires 2 <= hostCount <= 0xffff && |addresses| == hostCount + 1
    requires ConfigsOnly(project.files)
    modifies project
    ensures exitCode == 0 || exitCode == 1
    ensures steps <= Plan(hostCount, v)
    ensures exitCode == 0 <==> steps == Plan(hostCount, v)
    ensures checkoutStatus != 0 ==> exitCode == 1 && steps == [CheckoutBranch(Variants.Branch(v))]
    ensures var counted := Defines.SetSubscriberCount(old(project.serviceDiscovery), hostCount - 1);
      var pointed := Defines.SetDnsServerIp(old(project.dnsParameters), addresses[hostCount]);
      && (exitCode == 0 <==> checkoutStatus == 0 && counted.Some? && pointed.Some?)
      && project.serviceDiscovery == (if checkoutStatus == 0 then counted.GetOr(old(project.serviceDiscovery))
                                      else old(project.serviceDiscovery))
      && project.dnsParameters == (if checkoutStatus == 0 && counted.Some? then pointed.GetOr(old(project.dnsParameters))
                                   else old(project.dnsParameters))
    ensures project.files == if exitCode == 0 then Cleaned(Deployed(old(project.files), hostCount, addresses))
                             else old(project.files)
  {
    PlanPrefixes(hostCount, v);
    steps := [CheckoutBranch(Variants.Branch(v))];
    if checkoutStatus != 0 {
      return 1, steps;
    }
    var ready, setUp, hosts := SetUp(project, hostCount, addresses[hostCount]);
    steps := steps + setUp;
    if !ready {
      return 1, steps;
    }
    var workload := RunWorkload(project, hostCount, hosts, addresses);
    steps := steps + workload;
    exitCode := 0;
  }
}
