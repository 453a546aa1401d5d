/**
 * The two `#define` settings the script keeps in the vsomeip sources: it reads
 * the current value with `grep "#define NAME" | awk '{print $3}'` and Python's
 * `strip()`, compares it with the wanted one, and only when they differ
 * rewrites the defining line with `sed`, from `#define NAME ` to the line end.
 */
module Defines {
  import opened Wrappers
  import opened Numerals
  import opened Strings
  import opened Sed
  import Identity

  const DNS_SERVER_IP := "DNS_SERVER_IP"
  const SUBSCRIBER_COUNT_TO_RECORD := "SUBSCRIBER_COUNT_TO_RECORD"

  /** `grep "<pattern>"`: the lines the pattern occurs in, in file order. */
  function Grep(lines: seq<string>, pattern: string): (r: seq<string>)
    ensures |r| <= |lines|
    ensures forall k :: 0 <= k < |r| ==> r[k] in lines && Contains(r[k], pattern)
    ensures forall k :: 0 <= k < |lines| && Contains(lines[k], pattern) ==> lines[k] in r
  {
    if lines == [] then []
    else
      var rest := Grep(lines[1..], pattern);
      assert forall k :: 1 <= k < |lines| ==> lines[k] == lines[1..][k - 1];
      if Contains(lines[0], pattern) then [lines[0]] + rest else rest
  }

  /** grep keeps the matching lines in file order and with their repetitions. */
  lemma {:induction false} GrepConcat(a: seq<string>, b: seq<string>, pattern: string)
    ensures Grep(a + b, pattern) == Grep(a, pattern) + Grep(b, pattern)
    ensures forall line :: Grep([line], pattern) == if Contains(line, pattern) then [line] else []
    decreases |a|
  {
    if a == [] {
      assert a + b == b;
    } else {
      assert (a + b)[1..] == a[1..] + b;
      GrepConcat(a[1..], b, pattern);
    }
  }

  /** awk's `$3`: the third blank-separated field, empty when there is none. */
  function ThirdField(line: string): string
  {
    var fs := Fields(line);
    if |fs| >= 3 then fs[2] else ""
  }

  /** `awk '{print $3}'`: one output line per input line. */
  function PrintThird(lines: seq<string>): string
  {
    if lines == [] then "" else ThirdField(lines[0]) + "\n" + PrintThird(lines[1..])
  }

  function DefineKey(name: string): string
  {
    "#define " + name
  }

  /** How the sources spell a setting: `#define NAME value`. */
  function DefineLine(name: string, value: string): string
  {
    DefineKey(name) + " " + value
  }

  /** The current value, as the script reads it. */
  function ReadDefine(lines: seq<string>, name: string): string
  {
    Strip(PrintThird(Grep(lines, DefineKey(name))))
  }

  /** Replace `#define NAME ` and the rest of the line by `#define NAME value`. */
  function DefineRule(name: string, value: string): Rule
  {
    Rule(DefineKey(name) + " ", false, DefineLine(name, value))
  }

  /**
   * Compare, then rewrite: the file is left as it is when the value read
   * already is the wanted text, and otherwise every defining line is rewritten.
   */
  function SetDefine(lines: seq<string>, name: string, value: string): (r: seq<string>)
    ensures |r| == |lines|
    ensures ReadDefine(lines, name) == value ==> r == lines
  {
    if ReadDefine(lines, name) != value then Subst(lines, DefineRule(name, value)) else lines
  }

  /** Non-empty and free of white space, as a macro name or value. */
  predicate Word(s: string)
  {
    s != "" && forall i :: 0 <= i < |s| ==> !IsSpace(s[i])
  }

  /** The sources define `name` once, as `value`, and mention it on no other line. */
  predicate DefinedAs(lines: seq<string>, name: string, value: string)
  {
    Grep(lines, DefineKey(name)) == [DefineLine(name, value)]
  }

  lemma ThirdFieldOfDefine(name: string, value: string)
    requires Word(name) && Word(value)
    ensures ThirdField(DefineLine(name, value)) == value
  {
    var words := ["#define", name, value];
    assert Join(words, ' ') == DefineLine(name, value) by {
      assert Join(words[2..], ' ') == value;
      assert Join(words[1..], ' ') == name + " " + value;
    }
    FieldsOfWords(words);
  }

  /** A setting defined once is read back as its value. */
  lemma ReadDefinedValue(lines: seq<string>, name: string, value: string)
    requires Word(name) && Word(value) && DefinedAs(lines, name, value)
    ensures ReadDefine(lines, name) == value
  {
    ThirdFieldOfDefine(name, value);
    assert PrintThird([DefineLine(name, value)]) == value + "\n";
    StripWord(value, "\n");
  }

  /** Every line that mentions the setting is in the grep result. */
  lemma DefiningLines(lines: seq<string>, name: string, value: string)
    requires DefinedAs(lines, name, value)
    ensures forall k :: 0 <= k < |lines| && Contains(lines[k], DefineKey(name)) ==> lines[k] == DefineLine(name, value)
  {
  }

  /** The rewrite on one line: the defining line gets the new value, any other line is kept. */
  lemma RewriteDefineLine(line: string, name: string, previous: string, value: string)
    requires Contains(line, DefineKey(name)) ==> line == DefineLine(name, previous)
    ensures Contains(line, DefineKey(name)) ==> SubstLine(line, DefineRule(name, value)) == DefineLine(name, value)
    ensures !Contains(line, DefineKey(name)) ==> SubstLine(line, DefineRule(name, value)) == line
    ensures Contains(SubstLine(line, DefineRule(name, value)), DefineKey(name)) == Contains(line, DefineKey(name))
  {
    var rule := DefineRule(name, value);
    var key := DefineKey(name);
    if Contains(line, key) {
      assert line[0..|rule.prefix|] == rule.prefix;
      LeftmostMatch(line, rule, 0);
      assert SubstLine(line, rule) == line[..0] + rule.replacement + "";
      assert DefineLine(name, value)[0..|key|] == key;
      assert OccursAt(DefineLine(name, value), key, 0);
    } else {
      if Contains(line, rule.prefix) {
        ContainsPrefixOf(line, key, " ");
      }
      NoMatchWithoutPrefix(line, rule);
    }
  }

  /** After the rewrite, grep finds as many lines as before, each holding the new value. */
  lemma {:induction false} GrepAfterRewrite(lines: seq<string>, name: string, previous: string, value: string)
    requires forall k :: 0 <= k < |lines| && Contains(lines[k], DefineKey(name)) ==> lines[k] == DefineLine(name, previous)
    ensures var g := Grep(Subst(lines, DefineRule(name, value)), DefineKey(name));
      |g| == |Grep(lines, DefineKey(name))| && forall k :: 0 <= k < |g| ==> g[k] == DefineLine(name, value)
    decreases |lines|
  {
    if lines != [] {
      var rule, key := DefineRule(name, value), DefineKey(name);
      var after := Subst(lines, rule);
      assert after == [SubstLine(lines[0], rule)] + Subst(lines[1..], rule);
      assert after[1..] == Subst(lines[1..], rule);
      RewriteDefineLine(lines[0], name, previous, value);
      assert forall k :: 0 <= k < |lines[1..]| ==> lines[1..][k] == lines[k + 1];
      GrepAfterRewrite(lines[1..], name, previous, value);
    }
  }

  /** The rewrite changes no line that does not mention the setting. */
  lemma SetDefineKeepsOtherLines(lines: seq<string>, name: string, value: string)
    ensures forall k :: 0 <= k < |lines| && !Contains(lines[k], DefineKey(name)) ==> SetDefine(lines, name, value)[k] == lines[k]
  {
    DefineRuleKeepsOtherLines(lines, name, value);
  }

  /** The `sed` of a setting touches only the lines that mention it. */
  lemma DefineRuleKeepsOtherLines(lines: seq<string>, name: string, value: string)
    ensures forall k :: 0 <= k < |lines| && !Contains(lines[k], DefineKey(name)) ==> Subst(lines, DefineRule(name, value))[k] == lines[k]
  {
    var rule := DefineRule(name, value);
    forall k | 0 <= k < |lines| && !Contains(lines[k], DefineKey(name))
      ensures Subst(lines, rule)[k] == lines[k]
    {
      if Contains(lines[k], rule.prefix) {
        ContainsPrefixOf(lines[k], DefineKey(name), " ");
      }
      NoMatchWithoutPrefix(lines[k], rule);
    }
  }

  /** Setting a value twice is setting it once. */
  lemma SetDefineIdempotent(lines: seq<string>, name: string, value: string)
    ensures SetDefine(SetDefine(lines, name, value), name, value) == SetDefine(lines, name, value)
  {
    var rule := DefineRule(name, value);
    assert rule.replacement[..|rule.prefix|] == rule.prefix;
    SubstIdempotent(lines, rule);
  }

  /**
   * On sources that define the setting once, the rewrite leaves it defined
   * once with the wanted value, that value is what is read back, and a second
   * call finds nothing to write.
   */
  lemma SetDefineSettles(lines: seq<string>, name: string, previous: string, value: string)
    requires Word(name) && Word(previous) && Word(value) && DefinedAs(lines, name, previous)
    ensures DefinedAs(SetDefine(lines, name, value), name, value)
    ensures ReadDefine(SetDefine(lines, name, value), name) == value
    ensures SetDefine(SetDefine(lines, name, value), name, value) == SetDefine(lines, name, value)
  {
    ReadDefinedValue(lines, name, previous);
    if previous != value {
      DefiningLines(lines, name, previous);
      GrepAfterRewrite(lines, name, previous, value);
    }
    ReadDefinedValue(SetDefine(lines, name, value), name, value);
  }

  /**
   * `set_dns_server_ip_in_vsomeip`: the DNS host's address packed into a hex
   * literal, then compared and written as text. An address that does not
   * split into decimal numbers raises (None).
   */
  function SetDnsServerIp(lines: seq<string>, address: string): (r: Option<seq<string>>)
    ensures r.Some? <==> Identity.PackAddress(address).Some?
    ensures r.Some? ==> var literal := Identity.PackAddress(address).value;
      && |r.value| == |lines|
      && (ReadDefine(lines, DNS_SERVER_IP) == literal ==> r.value == lines)
      && (forall k :: 0 <= k < |lines| && !Contains(lines[k], DefineKey(DNS_SERVER_IP)) ==> r.value[k] == lines[k])
      && SetDefine(r.value, DNS_SERVER_IP, literal) == r.value
    // Definitional link to SetDefine, through which callers reach its partner lemmas.
    ensures r.Some? ==> r.value == SetDefine(lines, DNS_SERVER_IP, Identity.PackAddress(address).value)
  {
    match Identity.PackAddress(address)
    case None => None
    case Some(literal) =>
      SetDefineKeepsOtherLines(lines, DNS_SERVER_IP, literal);
      SetDefineIdempotent(lines, DNS_SERVER_IP, literal);
      Some(SetDefine(lines, DNS_SERVER_IP, literal))
  }

  lemma HexLiteralIsWord(lit: string)
    requires |lit| >= 2 && lit[..2] == "0x" && AllDigitsOf(lit[2..], 16)
    ensures Word(lit)
  {
    forall i | 2 <= i < |lit|
      ensures !IsSpace(lit[i])
    {
      assert lit[i] == lit[2..][i - 2];
    }
  }

  /**
   * For a dotted-quad address, the sources end up defining DNS_SERVER_IP once
   * as its packed literal, which decodes to the address's four octets, and
   * running the helper again changes nothing.
   */
  lemma DnsServerIpSettles(lines: seq<string>, previous: string, octets: seq<nat>)
    requires |octets| == 4 && Identity.AllOctets(octets)
    requires Word(previous) && DefinedAs(lines, DNS_SERVER_IP, previous)
    ensures var r := SetDnsServerIp(lines, Identity.DottedAddress(octets));
      && r.Some?
      && Identity.UnpackAddress(ReadDefine(r.value, DNS_SERVER_IP)) == Some(octets)
      && DefinedAs(r.value, DNS_SERVER_IP, ReadDefine(r.value, DNS_SERVER_IP))
      && SetDnsServerIp(r.value, Identity.DottedAddress(octets)) == r
  {
    Identity.PackDottedAddress(octets);
    var lit := Identity.PackAddress(Identity.DottedAddress(octets)).value;
    HexLiteralIsWord(lit);
    SetDefineSettles(lines, DNS_SERVER_IP, previous, lit);
  }

  /**
   * `set_subscriber_count_to_record_in_vsomeip`: the value read is parsed as a
   * decimal integer (None when `int()` would raise) and compared as a number;
   * only a different number is written, in decimal.
   */
  function SetSubscriberCount(lines: seq<string>, count: nat): (r: Option<seq<string>>)
    ensures r.Some? <==> Parse(ReadDefine(lines, SUBSCRIBER_COUNT_TO_RECORD), 10).Some?
    ensures r.Some? && Parse(ReadDefine(lines, SUBSCRIBER_COUNT_TO_RECORD), 10).value == count ==> r.value == lines
    ensures r.Some? ==> |r.value| == |lines|
    ensures r.Some? ==> forall k :: 0 <= k < |lines| && !Contains(lines[k], DefineKey(SUBSCRIBER_COUNT_TO_RECORD)) ==> r.value[k] == lines[k]
  {
    match Parse(ReadDefine(lines, SUBSCRIBER_COUNT_TO_RECORD), 10)
    case None => None
    case Some(current) =>
      DefineRuleKeepsOtherLines(lines, SUBSCRIBER_COUNT_TO_RECORD, Decimal(count));
      Some(if current != count then Subst(lines, DefineRule(SUBSCRIBER_COUNT_TO_RECORD, Decimal(count))) else lines)
  }

  lemma DecimalIsWord(n: nat)
    ensures Word(Decimal(n))
  {
  }

  /**
   * On sources that define the count once as a decimal number, the helper
   * succeeds, the count read back afterwards is the wanted one, and running
   * it again writes nothing.
   */
  lemma SubscriberCountSettles(lines: seq<string>, previous: string, count: nat)
    requires Word(previous) && AllDigitsOf(previous, 10) && DefinedAs(lines, SUBSCRIBER_COUNT_TO_RECORD, previous)
    ensures var r := SetSubscriberCount(lines, count);
      && r.Some?
      && Parse(ReadDefine(r.value, SUBSCRIBER_COUNT_TO_RECORD), 10) == Some(count)
      && SetSubscriberCount(r.value, count) == r
  {
    var name := SUBSCRIBER_COUNT_TO_RECORD;
    ReadDefinedValue(lines, name, previous);
    assert Parse(ReadDefine(lines, name), 10) == Some(ValueOf(previous, 10));
    if ValueOf(previous, 10) != count {
      var target := Decimal(count);
      DecimalIsWord(count);
      DecimalRoundTrip(count);
      assert previous != target;
      SetDefineSettles(lines, name, previous, target);
      var next := Subst(lines, DefineRule(name, target));
      assert SetDefine(lines, name, target) == next;
      assert SetSubscriberCount(lines, count) == Some(next);
      assert Parse(ReadDefine(next, name), 10) == Some(count);
    }
  }
}
