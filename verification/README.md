# A verified model of the mininet-vsomeip evaluation driver

`topo-1sw-Nhosts.py` runs one evaluation of vsomeip (SOME/IP) with or
without security mechanisms on an emulated Mininet network. It builds a
topology of one switch `s1` and hosts `h1`..`hN`, and picks one of ten
evaluation variants (A–J), each a git branch plus a set of compile
definitions. It rewrites two `#define` settings in the vsomeip sources. It
gives every host a JSON configuration made from a template by a series of
`sed -i` substitutions, and then starts, waits for, stops and cleans up a
publisher (`h1`), the subscribers and a DNS server (the last host).

This project models that logic in Dafny:

- **Numerals, Strings, Identity.** Python's `str(n)`, `'{:0Nx}'`, `int()`,
  `str.split`, `str.strip` and awk field splitting, as far as the script
  uses them. On top of them sit the host names `h<k>`, the application id
  `0x` plus four hex digits, and the DNS address packed into a
  `0x`-prefixed hex literal with its inverse.
- **Variants.** The catalog from the letter A–J to a branch and a set of
  compile definitions.
- **Topology, Roles.** `simple_topo.build(n)` as a class that appends
  hosts and links in a loop. Which host publishes, which serves DNS and
  which subscribe.
- **Sed, HostConfig, Defines.** `sed -i -E 's/<prefix>.*,/…/'` and
  `s/<prefix>.*/…/` on lines of text, and the six substitutions of
  `create_host_config`. The certificate substitutions. The compare-then-
  rewrite of a `#define` (grep, awk `$3`, strip, compare, sed).
- **Workspace.** The project checkout as a class `Project`: the two
  vsomeip sources and the files of the configuration directory
  (`vsomeip-configs/`) by path. Its methods are the file
  operations the script performs (`cp`, `sed -i`, `rm -f` globs) and the
  helpers built from them.
- **Evaluation.** The main program. The externally visible actions are a
  sequence of `Step`s, and the file effects are the state of a `Project`.
  Methods with loops follow the script's loops. Each is proved against a
  function (`Plan`, `Workload`, `Deployed`, `Cleaned`), and the lemmas
  about those functions state what a run guarantees:
  - every subscriber gets its config from the subscriber template before
    it starts;
  - `h1` gets the publisher template and a service certificate;
  - `host_count - 1` subscribers are started, the number recorded in
    vsomeip and given to the statistics writer;
  - every host but the DNS host is stopped once;
  - the clean-up removes every host config and keeps the templates.

The script always builds `host_count + 1` hosts, whatever the variant, and
always treats the last one as the DNS host. It runs the workload once,
waits for the statistics writer once, and exits with 0 whatever the
writer's return code. It has no retry loop and waits for no readiness
marker, and the DNS host is added for every variant, DNS-based or not.

## Model

| member | source | states |
|---|---|---|
| Numerals.DecimalRoundTrip | topo-1sw-Nhosts.py:53 | `int(str(n)) == n`: the decimal numeral of a host number parses back to it |
| Numerals.DecimalInjective | topo-1sw-Nhosts.py:53 | distinct numbers have distinct decimal numerals |
| Numerals.ToBaseValue | topo-1sw-Nhosts.py:137 | the minimal numeral of `v` in base 10 or 16 denotes `v` |
| Numerals.PaddedRoundTrip | topo-1sw-Nhosts.py:137 | a zero-padded numeral (`{:04x}`) parses back to its number, whatever the width |
| Numerals.PaddedLength | topo-1sw-Nhosts.py:137 | a number below base^width is padded to exactly `width` digits |
| Numerals.PaddedInjective | topo-1sw-Nhosts.py:137 | distinct numbers give distinct padded numerals |
| Numerals.LeadingZerosValue | topo-1sw-Nhosts.py:137 | leading zeros do not change a numeral's value |
| Numerals.ToBase | topo-1sw-Nhosts.py:53 | the numeral is non-empty, all digits of the base, without a leading zero |
| Numerals.DigitChar | topo-1sw-Nhosts.py:91 | the digit character for d reads back as d |
| Numerals.Padded | topo-1sw-Nhosts.py:137 | `'{:0Nx}'` yields at least N digits of the base |
| Identity.HostSuffixOfName | topo-1sw-Nhosts.py:137 | `int(name[1:])` of `'h{}'.format(k)` is `k` |
| Identity.HostNameInjective | topo-1sw-Nhosts.py:53 | distinct host numbers give distinct host names |
| Identity.HostNameChars | topo-1sw-Nhosts.py:53 | a host name is 'h' followed by at least one decimal digit |
| Identity.ApplicationId | topo-1sw-Nhosts.py:137 | the id exists exactly when the suffix parses; it is "0x" and at least four hex digits that read back as the suffix |
| Identity.ApplicationIdOfHost | topo-1sw-Nhosts.py:137 | for `h1`..`h65535` the id is "0x" and exactly four lower-case hex digits naming the host |
| Identity.ApplicationIdInjective | topo-1sw-Nhosts.py:137 | distinct hosts get distinct application ids |
| Identity.Octets | topo-1sw-Nhosts.py:90-91 | `[int(x) for x in parts]` succeeds exactly when every part parses, element by element |
| Identity.PackAddress | topo-1sw-Nhosts.py:89-92 | the literal exists when every dot-separated part parses and is missing when one does not; it is "0x" and hex digits; for octets below 256 the digits come two per octet, in address order, and read back as the octets |
| Identity.HexPairsLayout | topo-1sw-Nhosts.py:91-92 | octets take two hex digits each, in address order |
| Identity.HexPairsRoundTrip | topo-1sw-Nhosts.py:91-92 | reading the pairs back gives the octets |
| Identity.HexOctet | topo-1sw-Nhosts.py:91 | `'{:02x}'` of an octet is two hex digits that read back as the octet |
| Identity.Decimals | topo-1sw-Nhosts.py:90 | the decimal texts of an address's octets, element by element |
| Identity.OctetsOfDecimals | topo-1sw-Nhosts.py:91 | parsing the decimal texts of numbers gives the numbers |
| Identity.DottedAddressOctets | topo-1sw-Nhosts.py:90-91 | splitting a dotted quad at '.' and parsing gives its octets |
| Identity.PackDottedAddress | topo-1sw-Nhosts.py:89-92 | for a dotted quad the literal is "0x" and 8 lower-case hex digits, two per octet in order, and unpacks to the octets |
| Identity.PackAddressInjective | topo-1sw-Nhosts.py:89-92 | distinct addresses give distinct packed literals |
| Strings.Split | topo-1sw-Nhosts.py:90 | `str.split` is never empty, has no separator in its parts and joins back to the text |
| Strings.SplitJoin | topo-1sw-Nhosts.py:90 | splitting a join of separator-free parts gives the parts |
| Strings.LeadingWord | topo-1sw-Nhosts.py:93 | the characters before the first blank: a blank-free prefix ending at a blank or the end |
| Strings.FieldsSplitAtBlank | topo-1sw-Nhosts.py:93 | a blank separates fields: the fields of `a + blank + b` are those of `a` followed by those of `b` (with FieldsOfWords: the line's blank-free words, in order) |
| Strings.FieldsOfWords | topo-1sw-Nhosts.py:93 | awk's fields of blank-free words joined by spaces are the words |
| Strings.Strip | topo-1sw-Nhosts.py:94 | `strip()` is the slice of the text after its leading white space with only white space after it, and has no white space at either end |
| Strings.StripWord | topo-1sw-Nhosts.py:94 | stripping a word followed by white space gives the word |
| Variants.ParseVariant | topo-1sw-Nhosts.py:191 | exactly the ten letters A–J name a variant |
| Variants.ParseLetter | topo-1sw-Nhosts.py:191 | each variant's letter parses back to it |
| Variants.Branch | topo-1sw-Nhosts.py:214-224 | A–D use `VANILLA`, E–J use `DNS_AND_DANE` |
| Variants.Definitions | topo-1sw-Nhosts.py:204-213 | A and E have none; each definition is carried by exactly the variants listed; encryption comes only with client authentication; no duplicates |
| Variants.DefinitionsTextWords | topo-1sw-Nhosts.py:204-213 | the catalog's text splits back into the definition names; it is empty exactly for A and E |
| Variants.NameIsWord | topo-1sw-Nhosts.py:33-37 | each definition name is a non-empty word |
| Variants.Names | topo-1sw-Nhosts.py:225 | the names of a list of definitions, in order |
| Topology.HostNames | topo-1sw-Nhosts.py:52-53 | `build(n)` names `n` hosts |
| Topology.HostNamesAt | topo-1sw-Nhosts.py:52-53 | the i-th host is `h{i+1}` |
| Topology.HostNamesDistinct | topo-1sw-Nhosts.py:53 | no host name is given twice |
| Topology.HostNamesLater | topo-1sw-Nhosts.py:53 | no host after `h<k>` repeats its name |
| Topology.HostNamesMembers | topo-1sw-Nhosts.py:52-53 | `h<k>` is among the first n hosts exactly when 1 <= k <= n |
| Topology.SwitchLinks | topo-1sw-Nhosts.py:54 | one link per host, host to switch, with the fixed TCLink parameters |
| Topology.OneLinkEach | topo-1sw-Nhosts.py:52-54 | each of distinct hosts has exactly one link, and it goes to the switch |
| Topology.SwitchLinkCount | topo-1sw-Nhosts.py:52-54 | the switch has one link per host |
| Topology.NoLinkOutside | topo-1sw-Nhosts.py:52-54 | a node that is neither a host nor the switch has no link |
| Topology.SwitchIsNoHost | topo-1sw-Nhosts.py:49-53 | `s1` is not a host name |
| Topology.HostIsNotSwitch | topo-1sw-Nhosts.py:49-53 | no host is named like the switch |
| Topology.OneLinkPerHost | topo-1sw-Nhosts.py:49-54 | in `build(n)` every host has exactly one link, to `s1`, and `s1` has n links |
| Topology.NoLinkBeyond | topo-1sw-Nhosts.py:52-54 | hosts not yet created have no link |
| Topology.SimpleTopo.constructor | topo-1sw-Nhosts.py:235 | `simple_topo(n=…)` holds switch `s1`, hosts `h1`..`hn` and their links |
| Topology.SimpleTopo.Build | topo-1sw-Nhosts.py:45-54 | the loop appends `s1`, then `h1`..`hn`, each with its link |
| Topology.SimpleTopo.AddSwitch | topo-1sw-Nhosts.py:49 | appends one switch, nothing else changes |
| Topology.SimpleTopo.AddHost | topo-1sw-Nhosts.py:53 | appends one host, nothing else changes |
| Topology.SimpleTopo.AddLink | topo-1sw-Nhosts.py:54 | appends one link, nothing else changes |
| Roles.PublisherIsFirstHost | topo-1sw-Nhosts.py:22 | `PUBLISHER_HOST_NAME` is the first host's name |
| Roles.RoleOfHost | topo-1sw-Nhosts.py:242-251 | of `h1`..`h{host_count+1}`, `h1` publishes, the last serves DNS, the others subscribe |
| Roles.RoleCountsUpTo | topo-1sw-Nhosts.py:248-253 | role counts among the first m hosts |
| Roles.RolePartition | topo-1sw-Nhosts.py:230-253 | one publisher, one DNS host and `host_count - 1` subscribers, the count given to vsomeip and the statistics writer |
| Sed.FirstMatch | topo-1sw-Nhosts.py:133 | the leftmost position at which the pattern matches, or none |
| Sed.LastComma | topo-1sw-Nhosts.py:133 | the position of the last comma, -1 when there is none |
| Sed.SubstLine | topo-1sw-Nhosts.py:133-139 | an unmatched line is kept; otherwise the text before the leftmost match, the replacement, and what `.*,` leaves after the last comma |
| Sed.Subst | topo-1sw-Nhosts.py:133-139 | `sed -i` keeps the line count and rewrites line by line |
| Sed.NoMatchWithoutPrefix | topo-1sw-Nhosts.py:133 | a line without the pattern's literal prefix has no match |
| Sed.SubstKeepsOtherLines | topo-1sw-Nhosts.py:133-139 | lines without the prefix, and the line count, are unchanged |
| Sed.LeftmostMatch | topo-1sw-Nhosts.py:133 | a match with none before it is the one sed rewrites |
| Sed.SubstLineIdempotent | topo-1sw-Nhosts.py:133-139 | a substitution whose replacement matches its own pattern changes nothing the second time |
| Sed.SubstIdempotent | topo-1sw-Nhosts.py:133-139 | the same for a whole file |
| Sed.RewriteKeepsHead | topo-1sw-Nhosts.py:133 | the text up to the end of the matched prefix is unchanged |
| Sed.RewriteNoEarlierMatch | topo-1sw-Nhosts.py:133 | the rewrite creates no match further left |
| Sed.ApplyLineWise | topo-1sw-Nhosts.py:133-139 | a series of `sed -i` keeps the line count and works line by line |
| Sed.ApplyConcat | topo-1sw-Nhosts.py:133-139 | two series back to back are one series |
| Sed.ApplyLineUnmatched | topo-1sw-Nhosts.py:133-139 | rules that do not match a line leave it alone |
| Sed.ApplyLineOneMatch | topo-1sw-Nhosts.py:133-139 | a series in which only one rule matches, before and after, gives that rule's result |
| HostConfig.Position | topo-1sw-Nhosts.py:133-139 | each field has its place in the order of the six substitutions |
| HostConfig.HostConfigRules | topo-1sw-Nhosts.py:133-139 | six rules in the script's order, each keyed on its field, up to the comma except for `id`, each writing a line its own pattern matches again; the first four do not depend on the application id |
| HostConfig.LeadingRulesPrefix | topo-1sw-Nhosts.py:133-139 | the four rules before the id is computed are the start of the series, then id, then routing |
| HostConfig.FieldRuleSelfMatching | topo-1sw-Nhosts.py:133-139 | each replacement begins with its own pattern (and ends in a comma for `.*,`) |
| HostConfig.FieldSubstIdempotent | topo-1sw-Nhosts.py:133-139 | repeating any of the six substitutions changes nothing |
| HostConfig.RewriteOwnField | topo-1sw-Nhosts.py:133-139 | a field's rule rewrites its line from the first character |
| HostConfig.ReplacementLacksMarker | topo-1sw-Nhosts.py:133-139 | no replacement contains a character that marks a later field's pattern |
| HostConfig.NoMatchAfterRewrite | topo-1sw-Nhosts.py:133-139 | a rule cannot match a rewritten field that lacks one of its pattern's characters |
| HostConfig.LaterRuleMisses | topo-1sw-Nhosts.py:133-139 | a later field's substitution finds nothing in an already rewritten field |
| HostConfig.EarlierRuleMisses | topo-1sw-Nhosts.py:133-139 | an earlier field's substitution finds nothing in a field's template line |
| HostConfig.FieldCarriesValue | topo-1sw-Nhosts.py:133-139 | after `create_host_config` a field's line holds its host-derived value and what followed its last comma |
| HostConfig.OtherLineUnchanged | topo-1sw-Nhosts.py:133-139 | a line with none of the six fields is copied unchanged |
| HostConfig.CertificateRulesSelfMatching | topo-1sw-Nhosts.py:147-160 | both certificate substitutions can be repeated without change |
| Defines.GrepConcat | topo-1sw-Nhosts.py:93 | `grep` keeps a line exactly when it contains the pattern, in file order and with repetitions: grep of `a + b` is grep of `a`, then grep of `b` |
| Defines.ThirdFieldOfDefine | topo-1sw-Nhosts.py:93 | awk's `$3` of `#define NAME value` is the value |
| Defines.ReadDefinedValue | topo-1sw-Nhosts.py:93-94 | a setting defined once is read back as its value |
| Defines.DefiningLines | topo-1sw-Nhosts.py:93 | every line that mentions the setting is its defining line |
| Defines.RewriteDefineLine | topo-1sw-Nhosts.py:96 | the defining line gets the new value; other lines are kept |
| Defines.GrepAfterRewrite | topo-1sw-Nhosts.py:93-96 | after the rewrite grep finds as many lines, each with the new value |
| Defines.SetDefine | topo-1sw-Nhosts.py:95-96 | the line count is kept, and the file is untouched when the value read already is the target |
| Defines.SetDefineKeepsOtherLines | topo-1sw-Nhosts.py:96 | lines that do not mention the setting are unchanged |
| Defines.DefineRuleKeepsOtherLines | topo-1sw-Nhosts.py:102 | the `sed` of a setting changes no line that does not mention the setting |
| Defines.SetDefineIdempotent | topo-1sw-Nhosts.py:95-96 | setting a value twice is setting it once |
| Defines.SetDefineSettles | topo-1sw-Nhosts.py:93-96 | the setting ends up defined once with the target value, which is read back; a second call writes nothing |
| Defines.SetDnsServerIp | topo-1sw-Nhosts.py:88-96 | fails exactly when the address cannot be packed; otherwise keeps the line count, leaves the file alone when it already reads the packed literal, changes no line without the define, and leaves a file that a second rewrite would not change |
| Defines.HexLiteralIsWord | topo-1sw-Nhosts.py:92 | a packed literal has no white space, so awk reads it back whole |
| Defines.DnsServerIpSettles | topo-1sw-Nhosts.py:88-96 | for a dotted quad the sources define the packed literal once, it unpacks to the octets, and a second call changes nothing |
| Defines.SetSubscriberCount | topo-1sw-Nhosts.py:98-102 | fails exactly when `int()` of the value read raises; the file is kept when the number already matches; the line count is kept; no line without `#define SUBSCRIBER_COUNT_TO_RECORD` changes |
| Defines.DecimalIsWord | topo-1sw-Nhosts.py:102 | a decimal count is a single word |
| Defines.SubscriberCountSettles | topo-1sw-Nhosts.py:98-102 | on a decimal define the helper succeeds, the count read back is the target, and a second call writes nothing |
| Workspace.ConfigPathInjective | topo-1sw-Nhosts.py:119 | distinct hosts get distinct config files |
| Workspace.HostConfigIsNoTemplate | topo-1sw-Nhosts.py:118-126 | no host config is either template |
| Workspace.ApplyFileAt | topo-1sw-Nhosts.py:133-139 | a series of `sed -i` on a path changes that file only, as the series on its lines |
| Workspace.ApplyFileStep | topo-1sw-Nhosts.py:133-139 | one more `sed -i` after i of them is the first i+1 |
| Workspace.ApplyFileConcat | topo-1sw-Nhosts.py:133-139 | two series on one path are one series |
| Workspace.AppIdIsText | topo-1sw-Nhosts.py:137 | an application id is "0x" and hex digits |
| Workspace.HostNameIsText | topo-1sw-Nhosts.py:53 | host names are 'h' and digits |
| Workspace.HostConfigFieldLine | topo-1sw-Nhosts.py:130-139 | each field line of the template ends up with the host-derived value; the line count is kept |
| Workspace.HostConfigOtherLine | topo-1sw-Nhosts.py:130-139 | template lines with none of the fields are copied unchanged |
| Workspace.ConfigFromTemplate | topo-1sw-Nhosts.py:116-128 | `cp` then the substitutions: the host file is the rewritten template; the template and other files are kept |
| Workspace.HostConfigMatchesGlob | topo-1sw-Nhosts.py:282 | every host config matches `vsomeip-configs/h*.json` |
| Workspace.CleanupRemovesHostConfig | topo-1sw-Nhosts.py:280-283 | after the clean-up no host config is left |
| Workspace.TemplateMatchesNoGlob | topo-1sw-Nhosts.py:280-283 | a template path matches none of the four patterns |
| Workspace.CleanupKeepsTemplates | topo-1sw-Nhosts.py:280-283 | the clean-up keeps both templates unchanged |
| Workspace.Project.Sed | topo-1sw-Nhosts.py:133 | one `sed -i` on one path; the vsomeip sources are unchanged |
| Workspace.Project.Copy | topo-1sw-Nhosts.py:120 | `cp` of a template to a host config |
| Workspace.Project.SetDnsServerIp | topo-1sw-Nhosts.py:88-96 | the parameters header becomes `Defines.SetDnsServerIp` of it, and nothing else changes; false where Python raises |
| Workspace.Project.SetSubscriberCountToRecord | topo-1sw-Nhosts.py:98-102 | the service-discovery source becomes `Defines.SetSubscriberCount` of it, and nothing else changes; false where `int()` raises |
| Workspace.Project.RemoveFiles | topo-1sw-Nhosts.py:280-283 | one `rm -f` glob |
| Workspace.Project.CleanUp | topo-1sw-Nhosts.py:280-283 | the four `rm -f` commands in order: files become `Cleaned` of them |
| Workspace.Project.SedSeries | topo-1sw-Nhosts.py:133-139 | a loop of `sed -i` calls on one path equals the series applied at once |
| Workspace.Project.CreateHostConfig | topo-1sw-Nhosts.py:130-139 | the six substitutions; where the id cannot be computed only the first four have run |
| Workspace.Project.CreatePublisherConfig | topo-1sw-Nhosts.py:123-128 | copy the publisher template to the host config, then fill it in |
| Workspace.Project.CreateSubscriberConfig | topo-1sw-Nhosts.py:116-121 | copy the subscriber template to the host config, then fill it in |
| Workspace.Project.WireCertificate | topo-1sw-Nhosts.py:147-160 | point the certificate and key paths of the host's config at its generated files |
| Evaluation.HostNamesHaveIds | topo-1sw-Nhosts.py:137 | every host of the topology has an application id |
| Evaluation.ConfiguredAt | topo-1sw-Nhosts.py:116-160 | configuring a host adds its config, the template filled in and pointed at its certificate; other files are kept |
| Evaluation.InSubscriberConfigs | topo-1sw-Nhosts.py:251-252 | each subscriber's config is among those the loop writes |
| Evaluation.OutsideSubscriberConfigs | topo-1sw-Nhosts.py:251-252 | a path no subscriber's config equals is not written by the loop |
| Evaluation.ProvisionedFrame | topo-1sw-Nhosts.py:248-253 | the provisioning loop adds exactly the subscribers' configs and keeps every other file |
| Evaluation.ProvisionedConfig | topo-1sw-Nhosts.py:248-253 | each subscriber's config is the subscriber template filled in for it, with its client certificate |
| Evaluation.ProvisionedLast | topo-1sw-Nhosts.py:248-253 | the same for the host of the current round |
| Evaluation.ProvisionedEarlier | topo-1sw-Nhosts.py:248-253 | a later round does not disturb an earlier subscriber's config |
| Evaluation.PublishedAt | topo-1sw-Nhosts.py:246-247 | `h1` gets the publisher template filled in with its service certificate; other files, both templates among them, are kept |
| Evaluation.DnsConfigIsNotPublishers | topo-1sw-Nhosts.py:242 | the DNS host's config is not `h1`'s |
| Evaluation.SubscriberConfigsOfRun | topo-1sw-Nhosts.py:246-253 | the loop writes neither template nor the publisher's or the DNS host's config |
| Evaluation.DeployedFrame | topo-1sw-Nhosts.py:246-253 | while the apps run, the files are the publisher's plus the subscribers' configs over the old files |
| Evaluation.DeployedPublisher | topo-1sw-Nhosts.py:246-253 | `h1`'s config is the publisher template filled in; templates and the DNS host's config are as before |
| Evaluation.SubscriberOfRun | topo-1sw-Nhosts.py:248-251 | `h2`..`h{host_count}` are subscribers, each at its place and not repeated |
| Evaluation.ProvisionedSubscriber | topo-1sw-Nhosts.py:248-253 | the loop gives each of `h2`..`h{host_count}` the subscriber template filled in |
| Evaluation.DeployedSubscriber | topo-1sw-Nhosts.py:246-253 | while the apps run each subscriber has its filled-in config |
| Evaluation.RunLeavesTemplates | topo-1sw-Nhosts.py:280-283 | after the run no host config is left and both templates are as before the run |
| Evaluation.StartStepsCount | topo-1sw-Nhosts.py:256-259 | exactly the subscriber hosts are started, each once, as many as the subscriber count |
| Evaluation.StopForCount | topo-1sw-Nhosts.py:268-274 | one round of the stop loop stops at most one app, never on the DNS host |
| Evaluation.StopStepsCount | topo-1sw-Nhosts.py:268-274 | every host but the DNS host is stopped once: the publisher app on `h1`, a subscriber app elsewhere |
| Evaluation.StopStepsLength | topo-1sw-Nhosts.py:268-274 | one stop per host except the DNS host |
| Evaluation.ProvisionStepsCount | topo-1sw-Nhosts.py:248-253 | one default route per host; a config and a client certificate exactly for each subscriber |
| Evaluation.ProvisionForCount | topo-1sw-Nhosts.py:248-253 | the same for one round |
| Evaluation.HostOfRun | topo-1sw-Nhosts.py:235-242 | `h1` alone publishes, `h{host_count+1}` alone serves DNS, and the topology holds exactly `h1`..`h{host_count+1}` |
| Evaluation.SubscribersOfRun | topo-1sw-Nhosts.py:256-259 | `h2`..`h{host_count}` each start one subscriber app; no other host does |
| Evaluation.ContributorsOfRun | topo-1sw-Nhosts.py:230-233 | vsomeip records and the statistics writer expects `host_count - 1`, the number of subscriber apps started |
| Evaluation.StopsOfRun | topo-1sw-Nhosts.py:268-274 | `h1` is stopped as publisher, `h2`..`h{host_count}` as subscribers, the DNS host not at all: `host_count` stops |
| Evaluation.StartedSubscribersConfigured | topo-1sw-Nhosts.py:248-259 | every subscriber app started finds its config in place |
| Evaluation.MakeSwitchesTraditional | topo-1sw-Nhosts.py:238-239 | the loop over `net.switches` issues one `ovs-ofctl` step per switch, in order |
| Evaluation.StartSubscribers | topo-1sw-Nhosts.py:256-259 | the start loop issues `StartSteps` |
| Evaluation.StopApps | topo-1sw-Nhosts.py:268-274 | the stop loop issues `StopSteps` |
| Evaluation.ProvisionedRound | topo-1sw-Nhosts.py:248-253 | one more round of the provisioning loop, on the files |
| Evaluation.ProvisionStepsRound | topo-1sw-Nhosts.py:248-253 | one more round of the provisioning loop, on the steps |
| Evaluation.ProvisionHosts | topo-1sw-Nhosts.py:248-253 | the provisioning loop issues `ProvisionSteps` and leaves the files `Provisioned` |
| Evaluation.RunWorkload | topo-1sw-Nhosts.py:244-283 | from the DNS server to the clean-up: the steps are `Workload`, the files `Cleaned(Deployed(…))` |
| Evaluation.SetUp | topo-1sw-Nhosts.py:229-243 | records the count, builds, starts the writer and network, points vsomeip at DNS; stops after a failed count read; the sources as `Defines` computes them |
| Evaluation.PlanPrefixes | topo-1sw-Nhosts.py:226-243 | the steps of a run that stops early are a proper prefix of the plan |
| Evaluation.Evaluate | topo-1sw-Nhosts.py:224-283 | exit 0 exactly when checkout, count read and DNS packing succeed, and then the steps are the whole `Plan` and the files `Cleaned(Deployed(…))`; otherwise exit 1 with a proper prefix of the plan and unchanged files; a failed checkout does nothing else |

## Left out

- Mininet itself is not modelled: creating and starting the network, TCLink shaping, the controller, `net.stop()`, the `net[...]` lookup and the CLI. The host addresses Mininet assigns are a parameter (`addresses[i]` for `h{i+1}`). `make_switch_traditional`, `add_default_route` and the start and stop helpers are recorded as `Step`s only, because they act on the emulated network.
- Shell commands are recorded as `Step`s, not run as programs: `git checkout` (its return code is a parameter), the build script, `su`, `pkill`, `nsd`, `nsd-control`, `reset-zone-file.bash`, and the `sed` edits of `nsd/nsd.conf` and the two zone files in `start_dns_server` (lines 106-108).
- Evaluation.Evaluate, Evaluation.SetUp, Evaluation.RunWorkload: require `ConfigsOnly`, meaning the tracked files all lie in `vsomeip-configs/`. The files outside it are not tracked: the DNS server's configuration and zones, the certificates, the build tree, the apps' runtime files and logs. The script does change those, through the commands above and the programs it starts, so their state after a run is not modelled. The model assumes that the scripts and programs it does not see write nothing in `vsomeip-configs/`.
- Evaluation.Evaluate: `git checkout` switches the vsomeip sources to the variant's branch. The model takes `dnsParameters` and `serviceDiscovery` to be those of the branch that is checked out. It does not model the content the checkout brings in.
- The certificate generator scripts are not modelled; only the two `sed` substitutions that point a config at the generated files are. The certificate files they write are not tracked either.
- The statistics writer process (`Popen`, `wait`) and its return code are not modelled: the script only prints that code and carries on, and the run exits with 0 either way. `WaitStatisticsWriter` stands for the wait.
- The dump and test helpers (`dump_switch_information`, `dump_switch_flows`, `dump_infos`, `simple_tests`) and the `topos` dictionary for `mn --custom` are not modelled: the main program never calls them.
- argparse is not modelled: `Evaluate` takes a `Variant` and requires `2 <= host_count <= 0xffff`, the range argparse accepts. `Variants.ParseVariant` models the letter choice.
- The compile definitions a variant selects (line 225) are modelled as the catalog only: the script never passes them to the build.
- The DNS address is written into the sources after `build_vsomeip()` has run, so in the script it only affects the next build. The model keeps the script's order and does not relate the written define to the binary that runs.
- An uncaught Python exception is modelled as exit code 1 with no further steps.
- `int()` is modelled on plain decimal digits only, without sign, surrounding white space or underscores. The value read is stripped first, with Python's set of white-space characters, so white space never reaches it.
- The two vsomeip source files are always present in the model (`dnsParameters`, `serviceDiscovery`). When grep cannot open a missing file, it reads as a file without the define.
- Evaluation.ProvisionHosts: requires every host name to carry a numeric suffix, as Mininet's `h<k>` names do. Where `int(name[1:])` would raise, the script stops with a traceback part-way through the loop, and that path is not modelled.
- Identity.HostNameInjective and the other identity lemmas are stated for the names the topology hands out. Arbitrary strings passed as host names are out of scope.
