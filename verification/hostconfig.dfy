/**
 * The per-host vsomeip configuration: a copy of the publisher or subscriber
 * JSON template whose host-specific fields are rewritten by six `sed`
 * substitutions, and, for the certificate step, two more.
 */
module HostConfig {
  import opened Strings
  import opened Sed

  /** The fields `create_host_config` rewrites, in the order it rewrites them. */
  datatype Field = Network | Unicast | File | Name | Id | Routing

  const FIELDS: seq<Field> := [Network, Unicast, File, Name, Id, Routing]

  function Position(f: Field): (k: nat)
    ensures k < |FIELDS| && FIELDS[k] == f
  {
    match f
    case Network => 0 case Unicast => 1 case File => 2
    case Name => 3 case Id => 4 case Routing => 5
  }

  /** `FIELDS` lists each field once, at its position. */
  lemma PositionOfField(k: nat)
    requires k < |FIELDS|
    ensures Position(FIELDS[k]) == k
  {
  }

  /** What each pattern starts with: its indentation, the quoted key and " : ". */
  function Key(f: Field): string
  {
    match f
    case Network => "    \"network\" : "
    case Unicast => "    \"unicast\" : "
    case File => "        \"file\" : "
    case Name => "            \"name\" : "
    case Id => "            \"id\" : "
    case Routing => "    \"routing\" : "
  }

  /** The logging object of the `file` field, split where the host name goes. */
  const LOG_SETTINGS := "{ \"enable\" : \"false\", "
  const LOG_PATH := "\"path\" : \"/var/log/"
  const LOG_END := ".log\" },"

  /**
   * The text each substitution writes: the network tag `-<host>`, the unicast
   * address, disk logging off into `/var/log/<host>.log`, the application
   * name, the application id and the routing host.
   */
  function Replacement(f: Field, host: string, address: string, appId: string): string
  {
    match f
    case Network => Key(f) + "\"-" + host + "\","
    case Unicast => Key(f) + "\"" + address + "\","
    case File => Key(f) + LOG_SETTINGS + LOG_PATH + host + LOG_END
    case Name => Key(f) + "\"" + host + "\","
    case Id => Key(f) + "\"" + appId + "\""
    case Routing => Key(f) + "\"" + host + "\","
  }

  /** The `id` pattern ends in `.*`; every other one in `.*,`. */
  function FieldRule(f: Field, host: string, address: string, appId: string): Rule
  {
    Rule(Key(f), f != Id, Replacement(f, host, address, appId))
  }

  /**
   * The six substitutions of `create_host_config`, in order: each one keyed
   * on its field, up to the comma except for `id`, writing a line its own
   * pattern matches again; only the `id` and `routing` rules come after the
   * application id is computed.
   */
  function HostConfigRules(host: string, address: string, appId: string): (rules: seq<Rule>)
    ensures |rules| == |FIELDS|
    ensures forall k :: 0 <= k < |FIELDS| ==>
      && rules[k].prefix == Key(FIELDS[k])
      && rules[k].toComma == (FIELDS[k] != Id)
      && SelfMatching(rules[k])
    ensures rules[..4] == LeadingRules(host, address)
    // Definitional link to FieldRule, on which the lemmas below are stated.
    ensures forall k :: 0 <= k < |FIELDS| ==> rules[k] == FieldRule(FIELDS[k], host, address, appId)
  {
    var rules := seq(|FIELDS|, k requires 0 <= k < |FIELDS| => FieldRule(FIELDS[k], host, address, appId));
    forall k | 0 <= k < |FIELDS|
      ensures SelfMatching(rules[k])
    {
      FieldRuleSelfMatching(FIELDS[k], host, address, appId);
    }
    assert rules[..4] == LeadingRules(host, address);
    rules
  }

  /** The four substitutions made before the application id is computed. */
  function LeadingRules(host: string, address: string): seq<Rule>
  {
    [FieldRule(Network, host, address, ""), FieldRule(Unicast, host, address, ""),
     FieldRule(File, host, address, ""), FieldRule(Name, host, address, "")]
  }

  /** They do not depend on the id: the full series is them, then `id`, then `routing`. */
  lemma LeadingRulesPrefix(host: string, address: string, appId: string)
    ensures HostConfigRules(host, address, appId)
         == LeadingRules(host, address) + [FieldRule(Id, host, address, appId), FieldRule(Routing, host, address, appId)]
  {
    var full := HostConfigRules(host, address, appId);
    assert full == full[..4] + [full[4], full[5]];
  }

  /** Host names: 'h' and decimal digits. */
  predicate HostText(s: string)
  {
    forall i :: 0 <= i < |s| ==> s[i] == 'h' || '0' <= s[i] <= '9'
  }

  /** Dotted IPv4 text. */
  predicate AddressText(s: string)
  {
    forall i :: 0 <= i < |s| ==> s[i] == '.' || '0' <= s[i] <= '9'
  }

  /** "0x" and lower-case hex digits. */
  predicate AppIdText(s: string)
  {
    forall i :: 0 <= i < |s| ==> s[i] == 'x' || '0' <= s[i] <= '9' || 'a' <= s[i] <= 'f'
  }

  /** Every replacement begins with its own pattern and, for `.*,`, ends with a comma. */
  lemma FieldRuleSelfMatching(f: Field, host: string, address: string, appId: string)
    ensures SelfMatching(FieldRule(f, host, address, appId))
  {
    var r := Replacement(f, host, address, appId);
    assert r[..|Key(f)|] == Key(f);
  }

  /**
   * So repeating any one of the substitutions changes nothing: a rewritten
   * field already holds its value.
   */
  lemma FieldSubstIdempotent(lines: seq<string>, f: Field, host: string, address: string, appId: string)
    ensures Subst(Subst(lines, FieldRule(f, host, address, appId)), FieldRule(f, host, address, appId))
         == Subst(lines, FieldRule(f, host, address, appId))
  {
    FieldRuleSelfMatching(f, host, address, appId);
    SubstIdempotent(lines, FieldRule(f, host, address, appId));
  }

  /** A template line holding field `f` and nothing that another pattern could match. */
  predicate FieldLine(line: string, f: Field)
  {
    && OccursAt(line, Key(f), 0)
    && (f != Id ==> HasCommaFrom(line, |Key(f)|))
    && forall g: Field :: g != f ==> !Contains(line, Key(g))
  }

  /** The index in `Key(g)` of a character that a replacement written before `g` lacks. */
  function Marker(g: Field, f: Field): nat
  {
    match g
    case Network => 5
    case Unicast => 5
    case File => 9
    case Name => 15
    case Id => 14
    case Routing => if f == Unicast then 5 else 7
  }

  lemma NotInConcat(c: char, a: string, b: string)
    requires c !in a && c !in b
    ensures c !in a + b
  {
  }

  /** A character missing from every piece of a replacement is missing from it. */
  lemma ReplacementLacks(f: Field, c: char, host: string, address: string, appId: string)
    requires c !in Key(f) && c !in host
    requires f == Unicast ==> c !in address
    requires f == Id ==> c !in appId
    requires c !in "\"-" && c !in "\"," && c !in "\""
    requires f == File ==> c !in LOG_SETTINGS && c !in LOG_PATH && c !in LOG_END
    ensures c !in Replacement(f, host, address, appId)
  {
    match f
    case Network =>
      NotInConcat(c, Key(f), "\"-");
      NotInConcat(c, Key(f) + "\"-", host);
      NotInConcat(c, Key(f) + "\"-" + host, "\",");
    case Unicast =>
      NotInConcat(c, Key(f), "\"");
      NotInConcat(c, Key(f) + "\"", address);
      NotInConcat(c, Key(f) + "\"" + address, "\",");
    case File =>
      NotInConcat(c, Key(f), LOG_SETTINGS);
      NotInConcat(c, Key(f) + LOG_SETTINGS, LOG_PATH);
      NotInConcat(c, Key(f) + LOG_SETTINGS + LOG_PATH, host);
      NotInConcat(c, Key(f) + LOG_SETTINGS + LOG_PATH + host, LOG_END);
    case Name =>
      NotInConcat(c, Key(f), "\"");
      NotInConcat(c, Key(f) + "\"", host);
      NotInConcat(c, Key(f) + "\"" + host, "\",");
    case Id =>
      NotInConcat(c, Key(f), "\"");
      NotInConcat(c, Key(f) + "\"", appId);
      NotInConcat(c, Key(f) + "\"" + appId, "\"");
    case Routing =>
      NotInConcat(c, Key(f), "\"");
      NotInConcat(c, Key(f) + "\"", host);
      NotInConcat(c, Key(f) + "\"" + host, "\",");
  }

  lemma LogTextLacks(c: char)
    requires c == 'm' || c == 'd' || c == 'u'
    ensures c !in LOG_SETTINGS && c !in LOG_PATH && c !in LOG_END
  {
  }

  lemma QuotesLack(c: char)
    requires 'a' <= c <= 'z'
    ensures c !in "\"-" && c !in "\"," && c !in "\""
  {
  }

  /** 'u' marks `unicast` and `routing`; `network`, `file`, `name` and `id` lack it. */
  lemma LacksU(f: Field, host: string, address: string, appId: string)
    requires f == Network || f == File || f == Name || f == Id
    requires HostText(host) && AppIdText(appId)
    ensures 'u' !in Replacement(f, host, address, appId)
  {
    assert 'u' !in Key(f);
    LogTextLacks('u');
    QuotesLack('u');
    ReplacementLacks(f, 'u', host, address, appId);
  }

  /** 'f' marks `file`; `network` and `unicast` lack it. */
  lemma LacksF(f: Field, host: string, address: string, appId: string)
    requires f == Network || f == Unicast
    requires HostText(host) && AddressText(address)
    ensures 'f' !in Replacement(f, host, address, appId)
  {
    assert 'f' !in Key(f);
    QuotesLack('f');
    ReplacementLacks(f, 'f', host, address, appId);
  }

  /** 'm' marks `name`; `network`, `unicast` and `file` lack it. */
  lemma LacksM(f: Field, host: string, address: string, appId: string)
    requires f == Network || f == Unicast || f == File
    requires HostText(host) && AddressText(address)
    ensures 'm' !in Replacement(f, host, address, appId)
  {
    assert 'm' !in Key(f);
    LogTextLacks('m');
    QuotesLack('m');
    ReplacementLacks(f, 'm', host, address, appId);
  }

  /** 'd' marks `id`; the four fields before it lack it. */
  lemma LacksD(f: Field, host: string, address: string, appId: string)
    requires f == Network || f == Unicast || f == File || f == Name
    requires HostText(host) && AddressText(address)
    ensures 'd' !in Replacement(f, host, address, appId)
  {
    assert 'd' !in Key(f);
    LogTextLacks('d');
    QuotesLack('d');
    ReplacementLacks(f, 'd', host, address, appId);
  }

  /** 'r' marks `routing` against `unicast`, which holds a 'u'. */
  lemma LacksR(host: string, address: string, appId: string)
    requires HostText(host) && AddressText(address)
    ensures 'r' !in Replacement(Unicast, host, address, appId)
  {
    assert 'r' !in Key(Unicast);
    QuotesLack('r');
    ReplacementLacks(Unicast, 'r', host, address, appId);
  }

  /** No replacement contains a character that marks a later field's pattern. */
  lemma ReplacementLacksMarker(f: Field, g: Field, host: string, address: string, appId: string)
    requires Position(f) < Position(g)
    requires HostText(host) && AddressText(address) && AppIdText(appId)
    ensures Marker(g, f) < |Key(g)|
    ensures Key(g)[Marker(g, f)] !in Replacement(f, host, address, appId)
  {
    match g
    case Unicast =>
      assert Key(g)[Marker(g, f)] == 'u';
      LacksU(f, host, address, appId);
    case File =>
      assert Key(g)[Marker(g, f)] == 'f';
      LacksF(f, host, address, appId);
    case Name =>
      assert Key(g)[Marker(g, f)] == 'm';
      LacksM(f, host, address, appId);
    case Id =>
      assert Key(g)[Marker(g, f)] == 'd';
      LacksD(f, host, address, appId);
    case Routing =>
      if f == Unicast {
        assert Key(g)[Marker(g, f)] == 'r';
        LacksR(host, address, appId);
      } else {
        assert Key(g)[Marker(g, f)] == 'u';
        LacksU(f, host, address, appId);
      }
  }

  /**
   * A rule cannot match text made of a rewritten field `v` and a comma-free
   * remainder `t` when its pattern holds a character `v` lacks; for a `.*`
   * rule, `v` must also end in a comma the pattern lacks and `t` must not
   * contain the pattern.
   */
  lemma NoMatchAfterRewrite(v: string, t: string, rule: Rule, k: nat)
    requires k < |rule.prefix| && rule.prefix[k] !in v
    requires CommaFree(t)
    requires !rule.toComma ==> |v| > 0 && v[|v| - 1] == ',' && ',' !in rule.prefix && !Contains(t, rule.prefix)
    ensures FirstMatch(v + t, rule, 0).None?
  {
    var s, p := v + t, rule.prefix;
    forall i: nat | i <= |s|
      ensures !MatchesAt(s, rule, i)
    {
      if i + |p| <= |v| {
        assert s[i..i + |p|][k] == v[i + k];
      } else if rule.toComma {
        forall j | i + |p| <= j < |s|
          ensures s[j] != ','
        {
          assert s[j] == t[j - |v|];
        }
      } else if i >= |v| {
        if i + |p| <= |s| {
          assert s[i..i + |p|] == t[i - |v|..i - |v| + |p|];
          assert !OccursAt(t, p, i - |v|);
        }
      } else if i + |p| <= |s| {
        assert s[i..i + |p|][|v| - 1 - i] == v[|v| - 1] == ',';
      }
    }
  }

  /** The rule for field `f` rewrites a line holding that field from its first character. */
  lemma RewriteOwnField(line: string, f: Field, host: string, address: string, appId: string)
    requires FieldLine(line, f)
    ensures SubstLine(line, FieldRule(f, host, address, appId))
         == Replacement(f, host, address, appId) + Tail(line, FieldRule(f, host, address, appId))
  {
    var rf := FieldRule(f, host, address, appId);
    LeftmostMatch(line, rf, 0);
    assert line[..0] + rf.replacement + Tail(line, rf) == rf.replacement + Tail(line, rf);
  }

  /** Every field but `id` is rewritten to text ending in a comma. */
  lemma ReplacementEndsInComma(f: Field, host: string, address: string, appId: string)
    requires f != Id
    ensures var v := Replacement(f, host, address, appId); |v| > 0 && v[|v| - 1] == ','
  {
  }

  /** What a `.*,` rule keeps after the last comma holds no comma. */
  lemma TailCommaFree(line: string, rule: Rule)
    ensures CommaFree(Tail(line, rule))
  {
  }

  /** The `id` pattern cannot occur in what is kept of another field's line. */
  lemma IdKeyNotInTail(line: string, f: Field, host: string, address: string, appId: string)
    requires FieldLine(line, f) && f != Id
    ensures !Contains(Tail(line, FieldRule(f, host, address, appId)), Key(Id))
  {
    var lo := LastComma(line) + 1;
    var t := Tail(line, FieldRule(f, host, address, appId));
    assert t == line[lo..|line|];
    if Contains(t, Key(Id)) {
      ContainsSlice(line, lo, |line|, Key(Id));
      assert false;
    }
  }

  lemma IdKeyLacksComma()
    ensures ',' !in Key(Id)
  {
  }

  /** A substitution for a later field finds nothing in a field already rewritten. */
  lemma LaterRuleMisses(line: string, f: Field, g: Field, host: string, address: string, appId: string)
    requires FieldLine(line, f) && Position(f) < Position(g)
    requires HostText(host) && AddressText(address) && AppIdText(appId)
    ensures FirstMatch(Replacement(f, host, address, appId) + Tail(line, FieldRule(f, host, address, appId)),
                       FieldRule(g, host, address, appId), 0).None?
  {
    var rf, rg := FieldRule(f, host, address, appId), FieldRule(g, host, address, appId);
    ReplacementLacksMarker(f, g, host, address, appId);
    TailCommaFree(line, rf);
    if g == Id {
      ReplacementEndsInComma(f, host, address, appId);
      IdKeyNotInTail(line, f, host, address, appId);
      IdKeyLacksComma();
    }
    NoMatchAfterRewrite(Replacement(f, host, address, appId), Tail(line, rf), rg, Marker(g, f));
  }

  /**
   * `create_host_config` on a template line that holds field `f`: the earlier
   * substitutions leave it alone, its own one writes the host-derived value,
   * and no later one touches that value. What followed the line's last comma
   * (nothing, for `id`) is kept.
   */
  lemma FieldCarriesValue(line: string, f: Field, host: string, address: string, appId: string)
    requires FieldLine(line, f)
    requires HostText(host) && AddressText(address) && AppIdText(appId)
    ensures ApplyLine(line, HostConfigRules(host, address, appId))
         == Replacement(f, host, address, appId) + Tail(line, FieldRule(f, host, address, appId))
  {
    var rules := HostConfigRules(host, address, appId);
    var pos := Position(f);
    var w := Replacement(f, host, address, appId) + Tail(line, FieldRule(f, host, address, appId));
    forall j | 0 <= j < pos
      ensures FirstMatch(line, rules[j], 0).None?
    {
      EarlierRuleMisses(line, f, j, host, address, appId);
    }
    RewriteOwnField(line, f, host, address, appId);
    forall j | pos < j < |rules|
      ensures FirstMatch(w, rules[j], 0).None?
    {
      PositionOfField(j);
      LaterRuleMisses(line, f, FIELDS[j], host, address, appId);
    }
    ApplyLineOneMatch(line, rules, pos, w);
  }

  /** A substitution for an earlier field finds nothing in field `f`'s line. */
  lemma EarlierRuleMisses(line: string, f: Field, j: nat, host: string, address: string, appId: string)
    requires FieldLine(line, f) && j < Position(f)
    ensures FirstMatch(line, HostConfigRules(host, address, appId)[j], 0).None?
  {
    PositionOfField(j);
    NoMatchWithoutPrefix(line, HostConfigRules(host, address, appId)[j]);
  }

  /** A line that none of the six patterns occurs in is left unchanged. */
  lemma OtherLineUnchanged(line: string, host: string, address: string, appId: string)
    requires forall g: Field :: !Contains(line, Key(g))
    ensures ApplyLine(line, HostConfigRules(host, address, appId)) == line
  {
    var rules := HostConfigRules(host, address, appId);
    forall j | 0 <= j < |rules|
      ensures FirstMatch(line, rules[j], 0).None?
    {
      NoMatchWithoutPrefix(line, rules[j]);
    }
    ApplyLineUnmatched(line, rules);
  }

  /** Where the certificate generators leave their output. */
  const CERTIFICATE_DIRECTORY := "/home/mehmet/vscode-workspaces/mininet-vsomeip/certificates/"

  datatype CertificateKind = ClientCertificate | ServiceCertificate

  function KindName(kind: CertificateKind): string
  {
    match kind
    case ClientCertificate => "client"
    case ServiceCertificate => "service"
  }

  const CERTIFICATE_KEY := "    \"certificate-path\" : "
  const PRIVATE_KEY_KEY := "    \"private-key-path\" : "

  /** The two substitutions the certificate helpers apply: certificate path, then private key path. */
  function CertificateRules(host: string, kind: CertificateKind): seq<Rule>
  {
    var stem := CERTIFICATE_DIRECTORY + host + "." + KindName(kind);
    [ Rule(CERTIFICATE_KEY, true, CERTIFICATE_KEY + "\"" + stem + ".cert.pem\","),
      Rule(PRIVATE_KEY_KEY, false, PRIVATE_KEY_KEY + "\"" + stem + ".key.pem\"") ]
  }

  /** Both certificate substitutions can be repeated without further change. */
  lemma CertificateRulesSelfMatching(host: string, kind: CertificateKind)
    ensures forall j :: 0 <= j < 2 ==> SelfMatching(CertificateRules(host, kind)[j])
  {
    var rules := CertificateRules(host, kind);
    assert rules[0].replacement[..|CERTIFICATE_KEY|] == CERTIFICATE_KEY;
    assert rules[1].replacement[..|PRIVATE_KEY_KEY|] == PRIVATE_KEY_KEY;
  }
}
