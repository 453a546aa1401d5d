/**
 * The files the script edits in place, as a map from path to lines: the DNS
 * parameters header and the service discovery source of vsomeip, the two JSON
 * config templates, and the per-host configs copied from them. `sed -i` and
 * `cp` on a path that does not exist leave the files as they are.
 */
module Workspace {
  import opened Wrappers
  import opened Numerals
  import opened Strings
  import opened Sed
  import opened Identity
  import opened HostConfig
  import Defines

  const PROJECT_PATH := "/home/mehmet" + "/vscode-workspaces" + "/mininet-vsomeip"
  const CONFIG_DIRECTORY := PROJECT_PATH + "/vsomeip-configs/"
  const PUBLISHER_TEMPLATE := CONFIG_DIRECTORY + "vsomeip-udp-mininet-publisher.json"
  const SUBSCRIBER_TEMPLATE := CONFIG_DIRECTORY + "vsomeip-udp-mininet-subscriber.json"

  /** `vsomeip-configs/<host>.json` */
  function ConfigPath(host: string): string
  {
    CONFIG_DIRECTORY + host + ".json"
  }

  /** Distinct hosts get distinct config files. */
  lemma ConfigPathInjective(a: string, b: string)
    requires ConfigPath(a) == ConfigPath(b)
    ensures a == b
  {
    var n := |CONFIG_DIRECTORY|;
    assert |a| == |b|;
    assert ConfigPath(a)[n..n + |a|] == a;
    assert ConfigPath(b)[n..n + |b|] == b;
  }

  /** The config of a host `h<k>` is neither template: its name starts with 'h', theirs with 'v'. */
  lemma HostConfigIsNoTemplate(k: nat)
    ensures ConfigPath(HostName(k)) != PUBLISHER_TEMPLATE
    ensures ConfigPath(HostName(k)) != SUBSCRIBER_TEMPLATE
  {
    var n := |CONFIG_DIRECTORY|;
    HostNameChars(k);
    assert ConfigPath(HostName(k))[n] == HostName(k)[0] == 'h';
    assert PUBLISHER_TEMPLATE[n] == "vsomeip-udp-mininet-publisher.json"[0] == 'v';
    assert SUBSCRIBER_TEMPLATE[n] == "vsomeip-udp-mininet-subscriber.json"[0] == 'v';
  }

  /** `sed -i` on one path. */
  function SedFile(files: map<string, seq<string>>, path: string, rule: Rule): map<string, seq<string>>
  {
    if path in files then files[path := Subst(files[path], rule)] else files
  }

  /** Several `sed -i` calls on one path. */
  function ApplyFile(files: map<string, seq<string>>, path: string, rules: seq<Rule>): map<string, seq<string>>
  {
    if path in files then files[path := Apply(files[path], rules)] else files
  }

  /** `cp src dst` */
  function CopyFile(files: map<string, seq<string>>, src: string, dst: string): map<string, seq<string>>
  {
    if src in files then files[dst := files[src]] else files
  }

  /** A series of file substitutions affects its own path only, as the series on its lines. */
  lemma ApplyFileAt(files: map<string, seq<string>>, path: string, rules: seq<Rule>)
    ensures ApplyFile(files, path, rules).Keys == files.Keys
    ensures path in files ==> ApplyFile(files, path, rules)[path] == Apply(files[path], rules)
    ensures forall p :: p in files && p != path ==> ApplyFile(files, path, rules)[p] == files[p]
  {
  }

  lemma ApplyFileNone(files: map<string, seq<string>>, path: string, rules: seq<Rule>)
    requires rules == []
    ensures ApplyFile(files, path, rules) == files
  {
    if path in files {
      assert files[path := files[path]] == files;
    }
  }

  /** Running the first i+1 substitutions is running the first i, then one more `sed -i`. */
  lemma ApplyFileStep(files: map<string, seq<string>>, path: string, rules: seq<Rule>, i: nat)
    requires i < |rules|
    ensures ApplyFile(files, path, rules[..i + 1]) == SedFile(ApplyFile(files, path, rules[..i]), path, rules[i])
  {
    if path in files {
      assert rules[..i + 1] == rules[..i] + [rules[i]];
      ApplyConcat(files[path], rules[..i], [rules[i]]);
      assert Apply(Apply(files[path], rules[..i]), [rules[i]]) == Subst(Apply(files[path], rules[..i]), rules[i]);
    }
  }

  /** Two series of `sed -i` calls on one path, back to back, are one series. */
  lemma ApplyFileConcat(files: map<string, seq<string>>, path: string, a: seq<Rule>, b: seq<Rule>)
    ensures ApplyFile(ApplyFile(files, path, a), path, b) == ApplyFile(files, path, a + b)
  {
    if path in files {
      ApplyConcat(files[path], a, b);
    }
  }

  /** An application id is "0x" and hex digits. */
  lemma AppIdIsText(name: string)
    requires ApplicationId(name).Some?
    ensures AppIdText(ApplicationId(name).value)
  {
    var id := ApplicationId(name).value;
    forall i | 0 <= i < |id|
      ensures id[i] == 'x' || '0' <= id[i] <= '9' || 'a' <= id[i] <= 'f'
    {
      if i < 2 {
        assert id[i] == id[..2][i];
      } else {
        assert id[i] == id[2..][i - 2];
      }
    }
  }

  /** Host names the topology hands out are 'h' and digits. */
  lemma HostNameIsText(k: nat)
    ensures HostText(HostName(k))
  {
    HostNameChars(k);
  }

  /**
   * A line of the template that holds one of the six fields ends up holding
   * the host-derived value once `create_host_config` has run; the file keeps
   * its number of lines.
   */
  lemma HostConfigFieldLine(template: seq<string>, k: nat, f: Field, host: string, address: string)
    requires k < |template| && FieldLine(template[k], f)
    requires HostText(host) && AddressText(address) && ApplicationId(host).Some?
    ensures var id := ApplicationId(host).value;
      var result := Apply(template, HostConfigRules(host, address, id));
      |result| == |template|
      && result[k] == Replacement(f, host, address, id) + Tail(template[k], FieldRule(f, host, address, id))
  {
    var id := ApplicationId(host).value;
    AppIdIsText(host);
    ApplyLineWise(template, HostConfigRules(host, address, id));
    FieldCarriesValue(template[k], f, host, address, id);
  }

  /** A template line that mentions none of the six fields is copied as it is. */
  lemma HostConfigOtherLine(template: seq<string>, k: nat, host: string, address: string, appId: string)
    requires k < |template| && forall g: Field :: !Contains(template[k], Key(g))
    ensures var result := Apply(template, HostConfigRules(host, address, appId));
      |result| == |template| && result[k] == template[k]
  {
    ApplyLineWise(template, HostConfigRules(host, address, appId));
    OtherLineUnchanged(template[k], host, address, appId);
  }

  /**
   * A host config made from a template: the host's file holds the template
   * run through the substitutions, the template itself and every other file
   * are as they were.
   */
  lemma ConfigFromTemplate(files: map<string, seq<string>>, template: string, host: string, rules: seq<Rule>)
    requires template in files && ConfigPath(host) != template
    ensures var r := ApplyFile(CopyFile(files, template, ConfigPath(host)), ConfigPath(host), rules);
      && r.Keys == files.Keys + {ConfigPath(host)}
      && r[ConfigPath(host)] == Apply(files[template], rules)
      && forall p :: p in files && p != ConfigPath(host) ==> r[p] == files[p]
  {
    ApplyFileAt(CopyFile(files, template, ConfigPath(host)), ConfigPath(host), rules);
  }

  /**
   * A path that `rm -f <dir><prefix>*<suffix>` removes: a name directly in
   * `dir`, not hidden, that starts with `prefix` and ends with `suffix`.
   */
  predicate GlobMatch(p: string, dir: string, prefix: string, suffix: string)
  {
    && |p| > |dir| && p[..|dir|] == dir
    && var name := p[|dir|..];
    && |name| >= |prefix| + |suffix|
    && name[..|prefix|] == prefix && name[|name| - |suffix|..] == suffix
    && '/' !in name && name[0] != '.'
  }

  /** `rm -f <dir><prefix>*<suffix>`: the matching files are gone, every other file is kept. */
  function RemoveGlob(files: map<string, seq<string>>, dir: string, prefix: string, suffix: string): (r: map<string, seq<string>>)
    ensures forall p :: p in r <==> p in files && !GlobMatch(p, dir, prefix, suffix)
    ensures forall p :: p in r ==> r[p] == files[p]
  {
    map p | p in files && !GlobMatch(p, dir, prefix, suffix) :: files[p]
  }

  /**
   * The clean-up at the end of a run: vsomeip's runtime files, the hosts'
   * logs, the host configs and the certificates, in that order.
   */
  function Cleaned(files: map<string, seq<string>>): map<string, seq<string>>
  {
    var runtime := RemoveGlob(files, PROJECT_PATH + "/", "vsomeip-h", "");
    var logs := RemoveGlob(runtime, "/var/log/", "h", ".log");
    var configs := RemoveGlob(logs, CONFIG_DIRECTORY, "h", ".json");
    RemoveGlob(configs, PROJECT_PATH + "/certificates/", "", "")
  }

  /** Every host's config file matches `vsomeip-configs/h*.json`. */
  lemma HostConfigMatchesGlob(k: nat)
    ensures GlobMatch(ConfigPath(HostName(k)), CONFIG_DIRECTORY, "h", ".json")
  {
    var p, n := ConfigPath(HostName(k)), |CONFIG_DIRECTORY|;
    var name := HostName(k) + ".json";
    HostNameChars(k);
    assert p[..n] == CONFIG_DIRECTORY && p[n..] == name;
    forall i | 0 <= i < |name|
      ensures name[i] != '/'
    {
      if i >= |HostName(k)| {
        assert name[i] == ".json"[i - |HostName(k)|];
      }
    }
    assert name[..1] == "h" && name[|name| - 5..] == ".json";
  }

  /** The clean-up removes every host's config. */
  lemma CleanupRemovesHostConfig(files: map<string, seq<string>>, k: nat)
    ensures ConfigPath(HostName(k)) !in Cleaned(files)
  {
    HostConfigMatchesGlob(k);
  }

  /** A path that differs from `dir` inside it is not in `dir`. */
  lemma OutsideDir(p: string, dir: string, prefix: string, suffix: string, i: nat)
    requires i < |dir| && i < |p| && p[i] != dir[i]
    ensures !GlobMatch(p, dir, prefix, suffix)
  {
  }

  /** A name that does not start with `prefix` does not match. */
  lemma OtherPrefix(p: string, dir: string, prefix: string, suffix: string, i: nat)
    requires i < |prefix| && |dir| + i < |p| && p[|dir| + i] != prefix[i]
    ensures !GlobMatch(p, dir, prefix, suffix)
  {
    assert p[|dir|..][i] == p[|dir| + i];
  }

  /** A path with a '/' below `dir` is in a subdirectory, which the pattern does not reach. */
  lemma InSubdirectory(p: string, dir: string, prefix: string, suffix: string, i: nat)
    requires |dir| <= i < |p| && p[i] == '/'
    ensures !GlobMatch(p, dir, prefix, suffix)
  {
    assert p[|dir|..][i - |dir|] == '/';
  }

  /** A template path is no match for any of the clean-up's patterns. */
  lemma TemplateMatchesNoGlob(name: string)
    requires |name| > 0 && name[0] == 'v'
    ensures var p := CONFIG_DIRECTORY + name;
      && !GlobMatch(p, PROJECT_PATH + "/", "vsomeip-h", "")
      && !GlobMatch(p, "/var/log/", "h", ".log")
      && !GlobMatch(p, CONFIG_DIRECTORY, "h", ".json")
      && !GlobMatch(p, PROJECT_PATH + "/certificates/", "", "")
  {
    var p, n := CONFIG_DIRECTORY + name, |PROJECT_PATH|;
    assert CONFIG_DIRECTORY[n + 16] == "/vsomeip-configs/"[16] == '/';
    assert p[n + 16] == CONFIG_DIRECTORY[n + 16];
    InSubdirectory(p, PROJECT_PATH + "/", "vsomeip-h", "", n + 16);
    assert PROJECT_PATH[1] == 'h';
    assert CONFIG_DIRECTORY[1] == PROJECT_PATH[1];
    assert p[1] == CONFIG_DIRECTORY[1];
    assert "/var/log/"[1] == 'v';
    OutsideDir(p, "/var/log/", "h", ".log", 1);
    OtherPrefix(p, CONFIG_DIRECTORY, "h", ".json", 0);
    assert CONFIG_DIRECTORY[n + 1] == "/vsomeip-configs/"[1] == 'v';
    assert p[n + 1] == CONFIG_DIRECTORY[n + 1];
    assert (PROJECT_PATH + "/certificates/")[n + 1] == "/certificates/"[1] == 'c';
    OutsideDir(p, PROJECT_PATH + "/certificates/", "", "", n + 1);
  }

  /** The clean-up keeps both templates as they are. */
  lemma CleanupKeepsTemplates(files: map<string, seq<string>>)
    ensures PUBLISHER_TEMPLATE in files ==>
      PUBLISHER_TEMPLATE in Cleaned(files) && Cleaned(files)[PUBLISHER_TEMPLATE] == files[PUBLISHER_TEMPLATE]
    ensures SUBSCRIBER_TEMPLATE in files ==>
      SUBSCRIBER_TEMPLATE in Cleaned(files) && Cleaned(files)[SUBSCRIBER_TEMPLATE] == files[SUBSCRIBER_TEMPLATE]
  {
    TemplateMatchesNoGlob("vsomeip-udp-mininet-publisher.json");
    TemplateMatchesNoGlob("vsomeip-udp-mininet-subscriber.json");
  }

  /**
   * The files a run tracks all lie in the configuration directory. The other
   * files the script's commands write (the DNS server's configuration and
   * zones, the certificates, the build, the apps' runtime files) are changed
   * by programs outside this model.
   */
  predicate ConfigsOnly(files: map<string, seq<string>>)
  {
    forall p :: p in files ==> InConfigDirectory(p)
  }

  predicate InConfigDirectory(p: string)
  {
    CONFIG_DIRECTORY < p
  }

  /**
   * The files of the project checkout, as the script changes them: the two
   * vsomeip sources that hold its `#define` settings
   * (`vsomeip/implementation/dnssec/include/someip_dns_parameters.hpp` and
   * `vsomeip/implementation/service_discovery/src/service_discovery_impl.cpp`),
   * and other files by path; a run keeps to the configuration directory
   * (`ConfigsOnly`).
   */
  class Project {
    var dnsParameters: seq<string>
    var serviceDiscovery: seq<string>
    var files: map<string, seq<string>>

    constructor (dnsParameters: seq<string>, serviceDiscovery: seq<string>, files: map<string, seq<string>>)
      ensures this.dnsParameters == dnsParameters && this.serviceDiscovery == serviceDiscovery
      ensures this.files == files
    {
      this.dnsParameters := dnsParameters;
      this.serviceDiscovery := serviceDiscovery;
      this.files := files;
    }

    /** `sed -i -E 's/<pattern>/<replacement>/' <path>` */
    method Sed(path: string, rule: Rule)
      modifies this
      ensures files == SedFile(old(files), path, rule)
      ensures dnsParameters == old(dnsParameters) && serviceDiscovery == old(serviceDiscovery)
    {
      if path in files {
        files := files[path := Subst(files[path], rule)];
      }
    }

    /** `cp <src> <dst>` */
    method Copy(src: string, dst: string)
      modifies this
      ensures files == CopyFile(old(files), src, dst)
      ensures dnsParameters == old(dnsParameters) && serviceDiscovery == old(serviceDiscovery)
    {
      if src in files {
        files := files[dst := files[src]];
      }
    }

    /**
     * `set_dns_server_ip_in_vsomeip`: pack the address (`false` where Python
     * raises), read the current value, and rewrite the define only when it
     * differs.
     */
    method SetDnsServerIp(address: string) returns (ok: bool)
      modifies this
      ensures var r := Defines.SetDnsServerIp(old(dnsParameters), address);
        ok == r.Some? && dnsParameters == r.GetOr(old(dnsParameters))
      ensures serviceDiscovery == old(serviceDiscovery) && files == old(files)
    {
      var literal := PackAddress(address);
      if literal.None? {
        return false;
      }
      var current := Defines.ReadDefine(dnsParameters, Defines.DNS_SERVER_IP);
      if current != literal.value {
        dnsParameters := Subst(dnsParameters, Defines.DefineRule(Defines.DNS_SERVER_IP, literal.value));
      }
      assert dnsParameters == Defines.SetDefine(old(dnsParameters), Defines.DNS_SERVER_IP, literal.value);
      return true;
    }

    /**
     * `set_subscriber_count_to_record_in_vsomeip`: read and parse the current
     * count (`false` where `int()` raises), and rewrite the define only when
     * the number differs.
     */
    method SetSubscriberCountToRecord(count: nat) returns (ok: bool)
      modifies this
      ensures var r := Defines.SetSubscriberCount(old(serviceDiscovery), count);
        ok == r.Some? && serviceDiscovery == r.GetOr(old(serviceDiscovery))
      ensures dnsParameters == old(dnsParameters) && files == old(files)
    {
      var current := Parse(Defines.ReadDefine(serviceDiscovery, Defines.SUBSCRIBER_COUNT_TO_RECORD), 10);
      if current.None? {
        return false;
      }
      if current.value != count {
        serviceDiscovery := Subst(serviceDiscovery, Defines.DefineRule(Defines.SUBSCRIBER_COUNT_TO_RECORD, Decimal(count)));
      }
      return true;
    }

    /** `rm -f <dir><prefix>*<suffix>` */
    method RemoveFiles(dir: string, prefix: string, suffix: string)
      modifies this
      ensures files == RemoveGlob(old(files), dir, prefix, suffix)
      ensures dnsParameters == old(dnsParameters) && serviceDiscovery == old(serviceDiscovery)
    {
      files := RemoveGlob(files, dir, prefix, suffix);
    }

    /** The four `rm -f` commands that end a run. */
    method CleanUp()
      modifies this
      ensures files == Cleaned(old(files))
      ensures dnsParameters == old(dnsParameters) && serviceDiscovery == old(serviceDiscovery)
    {
      RemoveFiles(PROJECT_PATH + "/", "vsomeip-h", "");
      RemoveFiles("/var/log/", "h", ".log");
      RemoveFiles(CONFIG_DIRECTORY, "h", ".json");
      RemoveFiles(PROJECT_PATH + "/certificates/", "", "");
    }

    /** A series of `sed -i` commands on one path, in order. */
    method SedSeries(path: string, rules: seq<Rule>)
      modifies this
      ensures files == ApplyFile(old(files), path, rules)
      ensures dnsParameters == old(dnsParameters) && serviceDiscovery == old(serviceDiscovery)
    {
      ghost var start := files;
      ApplyFileNone(start, path, rules[..0]);
      for i := 0 to |rules|
        invariant files == ApplyFile(start, path, rules[..i])
        invariant dnsParameters == old(dnsParameters) && serviceDiscovery == old(serviceDiscovery)
      {
        Sed(path, rules[i]);
        ApplyFileStep(start, path, rules, i);
      }
      assert rules[..|rules|] == rules;
    }

    /**
     * `create_host_config`: the network, unicast, file and name fields are
     * rewritten; then the application id is computed from the host name
     * (`false` where Python raises, which leaves those four rewrites in
     * place); then the id and routing fields.
     */
    method CreateHostConfig(host: string, address: string) returns (ok: bool)
      modifies this
      ensures ok <==> ApplicationId(host).Some?
      ensures ok ==> files == ApplyFile(old(files), ConfigPath(host), HostConfigRules(host, address, ApplicationId(host).value))
      ensures !ok ==> files == ApplyFile(old(files), ConfigPath(host), LeadingRules(host, address))
      ensures dnsParameters == old(dnsParameters) && serviceDiscovery == old(serviceDiscovery)
    {
      var path := ConfigPath(host);
      SedSeries(path, LeadingRules(host, address));
      var appId := ApplicationId(host);
      if appId.None? {
        return false;
      }
      var trailing := [FieldRule(Id, host, address, appId.value), FieldRule(Routing, host, address, appId.value)];
      SedSeries(path, trailing);
      ApplyFileConcat(old(files), path, LeadingRules(host, address), trailing);
      LeadingRulesPrefix(host, address, appId.value);
      return true;
    }

    /** `create_publisher_config`: copy the publisher template to the host's config, then fill it in. */
    method CreatePublisherConfig(host: string, address: string) returns (ok: bool)
      modifies this
      ensures ok <==> ApplicationId(host).Some?
      ensures ok ==> files == ApplyFile(CopyFile(old(files), PUBLISHER_TEMPLATE, ConfigPath(host)), ConfigPath(host),
                                        HostConfigRules(host, address, ApplicationId(host).value))
      ensures !ok ==> files == ApplyFile(CopyFile(old(files), PUBLISHER_TEMPLATE, ConfigPath(host)), ConfigPath(host),
                                         LeadingRules(host, address))
      ensures dnsParameters == old(dnsParameters) && serviceDiscovery == old(serviceDiscovery)
    {
      Copy(PUBLISHER_TEMPLATE, ConfigPath(host));
      ok := CreateHostConfig(host, address);
    }

    /** `create_subscriber_config`: copy the subscriber template to the host's config, then fill it in. */
    method CreateSubscriberConfig(host: string, address: string) returns (ok: bool)
      modifies this
      ensures ok <==> ApplicationId(host).Some?
      ensures ok ==> files == ApplyFile(CopyFile(old(files), SUBSCRIBER_TEMPLATE, ConfigPath(host)), ConfigPath(host),
                                        HostConfigRules(host, address, ApplicationId(host).value))
      ensures !ok ==> files == ApplyFile(CopyFile(old(files), SUBSCRIBER_TEMPLATE, ConfigPath(host)), ConfigPath(host),
                                         LeadingRules(host, address))
      ensures dnsParameters == old(dnsParameters) && serviceDiscovery == old(serviceDiscovery)
    {
      Copy(SUBSCRIBER_TEMPLATE, ConfigPath(host));
      ok := CreateHostConfig(host, address);
    }

    /**
     * The config half of `create_service_certificate` and
     * `create_client_certificate`: point the certificate and private key paths
     * of the host's config at the files the generator writes for it.
     */
    method WireCertificate(host: string, kind: CertificateKind)
      modifies this
      ensures files == ApplyFile(old(files), ConfigPath(host), CertificateRules(host, kind))
      ensures dnsParameters == old(dnsParameters) && serviceDiscovery == old(serviceDiscovery)
    {
      SedSeries(ConfigPath(host), CertificateRules(host, kind));
    }
  }
}
