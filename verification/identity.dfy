/**
 * How the orchestrator derives identities from a host: the host's name, the
 * vsomeip application id written into its configuration, and the DNS server
 * address packed into a C hexadecimal literal for the vsomeip sources.
 */
module Identity {
  import opened Wrappers
  import opened Numerals
  import opened Strings

  /** The name of the k-th host, `'h{}'.format(k)`. */
  function HostName(k: nat): string
  {
    "h" + Decimal(k)
  }

  /** `int(name[1:])`: the host's numeric suffix, `None` where Python raises. */
  function HostSuffix(name: string): Option<nat>
  {
    Parse(if |name| == 0 then "" else name[1..], 10)
  }

  /** The suffix of a host's name is its number. */
  lemma HostSuffixOfName(k: nat)
    ensures HostSuffix(HostName(k)) == Some(k)
  {
    assert HostName(k)[1..] == Decimal(k);
    DecimalRoundTrip(k);
  }

  /** Distinct numbers give distinct host names. */
  lemma HostNameInjective(j: nat, k: nat)
    requires HostName(j) == HostName(k)
    ensures j == k
  {
    HostSuffixOfName(j);
    HostSuffixOfName(k);
  }

  /** Host names are an 'h' followed by decimal digits. */
  lemma HostNameChars(k: nat)
    ensures |HostName(k)| >= 2 && HostName(k)[0] == 'h'
    ensures forall i :: 1 <= i < |HostName(k)| ==> '0' <= HostName(k)[i] <= '9'
  {
    var d := Decimal(k);
    forall i | 1 <= i < |HostName(k)|
      ensures '0' <= HostName(k)[i] <= '9'
    {
      assert HostName(k)[i] == d[i - 1];
      assert IsDigitOf(d[i - 1], 10);
    }
  }

  /**
   * The application id, `"0x{:04x}".format(int(name[1:]))`: "0x" and at least
   * four lower-case hexadecimal digits that read back as the host's suffix.
   */
  function ApplicationId(name: string): (r: Option<string>)
    ensures r.Some? <==> HostSuffix(name).Some?
    ensures r.Some? ==> |r.value| >= 6 && r.value[..2] == "0x"
    ensures r.Some? ==> AllDigitsOf(r.value[2..], 16) && Parse(r.value[2..], 16) == HostSuffix(name)
  {
    match HostSuffix(name)
    case None => None
    case Some(k) =>
      var id := "0x" + Hex(k, 4);
      assert id[2..] == Hex(k, 4);
      PaddedRoundTrip(k, 16, 4);
      Some(id)
  }

  /** For the hosts h1..h65535 the id is "0x" and exactly four hex digits naming the host. */
  lemma ApplicationIdOfHost(k: nat)
    requires 1 <= k <= 0xffff
    ensures ApplicationId(HostName(k)).Some?
    ensures var id := ApplicationId(HostName(k)).value;
      |id| == 6 && id[..2] == "0x" && AllDigitsOf(id[2..], 16) && Parse(id[2..], 16) == Some(k)
  {
    HostSuffixOfName(k);
    assert Pow(16, 4) == 0x10000;
    PaddedLength(k, 16, 4);
  }

  /** Distinct hosts get distinct application ids. */
  lemma ApplicationIdInjective(j: nat, k: nat)
    requires ApplicationId(HostName(j)) == ApplicationId(HostName(k))
    ensures j == k
  {
    HostSuffixOfName(j);
    HostSuffixOfName(k);
  }

  /** `[int(x) for x in parts]`: `None` as soon as one part is not a number. */
  function Octets(parts: seq<string>): (r: Option<seq<nat>>)
    ensures r.Some? ==> |r.value| == |parts|
    ensures r.Some? ==> forall i :: 0 <= i < |parts| ==> Parse(parts[i], 10) == Some(r.value[i])
    ensures r.None? ==> exists i :: 0 <= i < |parts| && Parse(parts[i], 10).None?
  {
    if parts == [] then Some([])
    else match (Parse(parts[0], 10), Octets(parts[1..]))
      case (Some(v), Some(vs)) => Some([v] + vs)
      case (None, _) => None
      case (_, None) => None
  }

  /** `''.join("{:02x}".format(v) for v in vs)` */
  function HexPairs(vs: seq<nat>): string
  {
    if vs == [] then "" else Hex(vs[0], 2) + HexPairs(vs[1..])
  }

  /** The packed address literal: `"0x" + ''.join("{:02x}".format(int(x)) for x in ip.split("."))`. */
  function PackAddress(ip: string): (r: Option<string>)
    ensures r.Some? ==> forall k :: 0 <= k < |Split(ip, '.')| ==> Parse(Split(ip, '.')[k], 10).Some?
    ensures r.None? ==> exists k :: 0 <= k < |Split(ip, '.')| && Parse(Split(ip, '.')[k], 10).None?
    ensures r.Some? ==> |r.value| >= 2 && r.value[..2] == "0x" && AllDigitsOf(r.value[2..], 16)
    ensures var vs := Octets(Split(ip, '.'));
      r.Some? && vs.Some? && AllOctets(vs.value) ==>
        && |r.value[2..]| == 2 * |vs.value|
        && (forall i :: 0 <= i < |vs.value| ==> r.value[2..][2 * i..2 * i + 2] == Hex(vs.value[i], 2))
        && ReadPairs(r.value[2..]) == Some(vs.value)
    // Definitional link to HexPairs, on which the layout lemmas are stated.
    ensures r.Some? ==> r.value == "0x" + HexPairs(Octets(Split(ip, '.')).value)
  {
    match Octets(Split(ip, '.'))
    case None => None
    case Some(vs) =>
      PackedLiteral(vs);
      PairsOfOctets(vs);
      Some("0x" + HexPairs(vs))
  }

  /** "0x" followed by the pairs, which are hex digits. */
  lemma PackedLiteral(vs: seq<nat>)
    ensures var lit := "0x" + HexPairs(vs);
      |lit| >= 2 && lit[..2] == "0x" && lit[2..] == HexPairs(vs) && AllDigitsOf(lit[2..], 16)
  {
    var lit := "0x" + HexPairs(vs);
    assert lit[..2] == "0x" && lit[2..] == HexPairs(vs);
    HexPairsDigits(vs);
  }

  /** The layout and round trip of the pairs, for octets below 256. */
  lemma PairsOfOctets(vs: seq<nat>)
    ensures AllOctets(vs) ==>
      && |HexPairs(vs)| == 2 * |vs|
      && (forall i :: 0 <= i < |vs| ==> HexPairs(vs)[2 * i..2 * i + 2] == Hex(vs[i], 2))
      && ReadPairs(HexPairs(vs)) == Some(vs)
  {
    if AllOctets(vs) {
      HexPairsLayout(vs);
      HexPairsRoundTrip(vs);
    }
  }

  /** Reads two hex digits at a time. */
  function ReadPairs(s: string): Option<seq<nat>>
    decreases |s|
  {
    if s == [] then Some([])
    else if |s| == 1 then None
    else match (Parse(s[..2], 16), ReadPairs(s[2..]))
      case (Some(v), Some(vs)) => Some([v] + vs)
      case (None, _) => None
      case (_, None) => None
  }

  /** The inverse of `PackAddress`: "0x" and eight hex digits back to four octets. */
  function UnpackAddress(lit: string): Option<seq<nat>>
  {
    if |lit| == 10 && lit[..2] == "0x" then ReadPairs(lit[2..]) else None
  }

  predicate AllOctets(vs: seq<nat>)
  {
    forall i :: 0 <= i < |vs| ==> vs[i] < 256
  }

  lemma HexOctet(v: nat)
    requires v < 256
    ensures |Hex(v, 2)| == 2 && Parse(Hex(v, 2), 16) == Some(v)
  {
    assert Pow(16, 2) == 256;
    PaddedLength(v, 16, 2);
    PaddedRoundTrip(v, 16, 2);
  }

  /** Octets below 256 take two hex digits each, in order. */
  lemma {:induction false} HexPairsLayout(vs: seq<nat>)
    requires AllOctets(vs)
    ensures |HexPairs(vs)| == 2 * |vs|
    ensures forall i :: 0 <= i < |vs| ==> HexPairs(vs)[2 * i..2 * i + 2] == Hex(vs[i], 2)
  {
    if vs != [] {
      var h, rest := Hex(vs[0], 2), HexPairs(vs[1..]);
      HexOctet(vs[0]);
      HexPairsLayout(vs[1..]);
      var s := h + rest;
      forall i | 0 <= i < |vs|
        ensures s[2 * i..2 * i + 2] == Hex(vs[i], 2)
      {
        if i == 0 {
          assert s[..2] == h;
        } else {
          assert s[2 * i..2 * i + 2] == rest[2 * (i - 1)..2 * (i - 1) + 2];
        }
      }
    }
  }

  /** Reading the pairs back gives the octets. */
  lemma {:induction false} HexPairsRoundTrip(vs: seq<nat>)
    requires AllOctets(vs)
    ensures ReadPairs(HexPairs(vs)) == Some(vs)
  {
    if vs != [] {
      var h, rest := Hex(vs[0], 2), HexPairs(vs[1..]);
      HexOctet(vs[0]);
      HexPairsRoundTrip(vs[1..]);
      var s := h + rest;
      assert s[..2] == h && s[2..] == rest;
      assert [vs[0]] + vs[1..] == vs;
    }
  }

  /** The dotted-quad text Mininet reports for an address. */
  function DottedAddress(octets: seq<nat>): string
  {
    Join(Decimals(octets), '.')
  }

  function Decimals(vs: seq<nat>): (ds: seq<string>)
    ensures |ds| == |vs|
    ensures forall i :: 0 <= i < |vs| ==> ds[i] == Decimal(vs[i])
  {
    if vs == [] then [] else [Decimal(vs[0])] + Decimals(vs[1..])
  }

  lemma {:induction false} OctetsOfDecimals(vs: seq<nat>)
    ensures Octets(Decimals(vs)) == Some(vs)
  {
    if vs != [] {
      DecimalRoundTrip(vs[0]);
      OctetsOfDecimals(vs[1..]);
      assert Decimals(vs)[1..] == Decimals(vs[1..]);
      assert [vs[0]] + vs[1..] == vs;
    }
  }

  /** Splitting a dotted quad at its dots and parsing the parts gives its octets. */
  lemma DottedAddressOctets(octets: seq<nat>)
    requires octets != []
    ensures Octets(Split(DottedAddress(octets), '.')) == Some(octets)
  {
    var ds := Decimals(octets);
    forall k | 0 <= k < |ds|
      ensures '.' !in ds[k]
    {
      assert forall j :: 0 <= j < |ds[k]| ==> IsDigitOf(ds[k][j], 10);
    }
    SplitJoin(ds, '.');
    OctetsOfDecimals(octets);
  }

  lemma {:induction false} HexPairsDigits(vs: seq<nat>)
    ensures AllDigitsOf(HexPairs(vs), 16)
  {
    if vs != [] {
      HexPairsDigits(vs[1..]);
      var h, rest := Hex(vs[0], 2), HexPairs(vs[1..]);
      assert forall j :: 0 <= j < |h| ==> (h + rest)[j] == h[j];
      assert forall j :: |h| <= j < |h| + |rest| ==> (h + rest)[j] == rest[j - |h|];
    }
  }

  /**
   * Packing a well-formed address gives "0x" and eight lower-case hex digits,
   * two per octet in address order, and unpacking gives the octets back.
   */
  lemma PackDottedAddress(octets: seq<nat>)
    requires |octets| == 4 && AllOctets(octets)
    ensures PackAddress(DottedAddress(octets)).Some?
    ensures var lit := PackAddress(DottedAddress(octets)).value;
      && |lit| == 10 && lit[..2] == "0x"
      && AllDigitsOf(lit[2..], 16)
      && (forall i :: 0 <= i < 4 ==> lit[2 + 2 * i..4 + 2 * i] == Hex(octets[i], 2))
      && UnpackAddress(lit) == Some(octets)
  {
    DottedAddressOctets(octets);
    HexPairsLayout(octets);
    HexPairsRoundTrip(octets);
    HexPairsDigits(octets);
    var pairs := HexPairs(octets);
    var lit := "0x" + pairs;
    assert PackAddress(DottedAddress(octets)) == Some(lit);
    assert lit[..2] == "0x" && lit[2..] == pairs;
    forall i | 0 <= i < 4
      ensures lit[2 + 2 * i..4 + 2 * i] == Hex(octets[i], 2)
    {
      assert lit[2 + 2 * i..4 + 2 * i] == pairs[2 * i..2 * i + 2];
    }
  }

  /** Distinct well-formed addresses give distinct packed literals. */
  lemma PackAddressInjective(a: seq<nat>, b: seq<nat>)
    requires |a| == 4 && AllOctets(a) && |b| == 4 && AllOctets(b)
    requires PackAddress(DottedAddress(a)) == PackAddress(DottedAddress(b))
    ensures a == b
  {
    PackDottedAddress(a);
    PackDottedAddress(b);
  }
}
