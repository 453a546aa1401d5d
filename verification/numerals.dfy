/**
 * Positional numerals in base 10 and base 16 as Python writes and reads them:
 * `str(n)` / `'{}'.format(n)`, `'{:0Nx}'.format(n)` and `int(s)`.
 * Hexadecimal digits are lower case, as the `x` format code produces.
 */
module Numerals {
  import opened Wrappers

  /** Value of a digit character: 0-9 and a-f; -1 for anything else. */
  function DigitValue(c: char): int
  {
    if '0' <= c <= '9' then c as int - '0' as int
    else if 'a' <= c <= 'f' then c as int - 'a' as int + 10
    else -1
  }

  predicate IsDigitOf(c: char, base: nat)
  {
    0 <= DigitValue(c) < base
  }

  predicate AllDigitsOf(s: string, base: nat)
  {
    forall i :: 0 <= i < |s| ==> IsDigitOf(s[i], base)
  }

  /** The lower-case digit character for 0 <= d < 16. */
  function DigitChar(d: nat): (c: char)
    requires d < 16
    ensures DigitValue(c) == d
  {
    if d < 10 then (48 + d) as char else (87 + d) as char
  }

  function Pow(base: nat, k: nat): (p: nat)
    ensures base >= 2 ==> p >= 1
  {
    if k == 0 then 1 else base * Pow(base, k - 1)
  }

  /** The minimal numeral of `v`: no leading zero, "0" for zero. */
  function ToBase(v: nat, base: nat): (s: string)
    requires 2 <= base <= 16
    ensures |s| >= 1 && AllDigitsOf(s, base)
    ensures |s| > 1 ==> s[0] != '0'
    decreases v
  {
    if v < base then [DigitChar(v)]
    else
      DivMod(v, base);
      ToBase(v / base, base) + [DigitChar(v % base)]
  }

  /** The number a numeral denotes, leading zeros allowed. */
  function ValueOf(s: string, base: nat): nat
    requires 2 <= base <= 16 && AllDigitsOf(s, base)
  {
    if s == [] then 0
    else ValueOf(s[..|s| - 1], base) * base + DigitValue(s[|s| - 1]) as nat
  }

  /** Python's `int(s, base)` restricted to plain digit strings; `None` where Python raises. */
  function Parse(s: string, base: nat): (r: Option<nat>)
    requires 2 <= base <= 16
  {
    if |s| > 0 && AllDigitsOf(s, base) then Some(ValueOf(s, base)) else None
  }

  function Zeros(k: nat): (z: string)
    ensures |z| == k && forall i :: 0 <= i < k ==> z[i] == '0'
  {
    if k == 0 then [] else Zeros(k - 1) + ['0']
  }

  /** Python's `'{:0<width>x}'` (base 16) or `'{:0<width>}'` (base 10) on a non-negative int. */
  function Padded(v: nat, base: nat, width: nat): (s: string)
    requires 2 <= base <= 16
    ensures |s| >= width && AllDigitsOf(s, base)
  {
    var t := ToBase(v, base);
    if |t| < width then Zeros(width - |t|) + t else t
  }

  /** `str(n)` */
  function Decimal(n: nat): string
  {
    ToBase(n, 10)
  }

  /** `'{:0<width>x}'.format(n)` */
  function Hex(n: nat, width: nat): string
  {
    Padded(n, 16, width)
  }

  lemma ValueOfSnoc(s: string, c: char, base: nat)
    requires 2 <= base <= 16 && AllDigitsOf(s, base) && IsDigitOf(c, base)
    ensures AllDigitsOf(s + [c], base)
    ensures ValueOf(s + [c], base) == ValueOf(s, base) * base + DigitValue(c)
  {
    assert (s + [c])[..|s|] == s;
  }

  lemma ValueOfDigit(c: char, base: nat)
    requires 2 <= base <= 16 && IsDigitOf(c, base)
    ensures ValueOf([c], base) == DigitValue(c)
  {
    assert [c][..0] == [];
  }

  lemma DivMod(v: nat, base: nat)
    requires 2 <= base
    ensures v / base * base + v % base == v && v % base < base
    ensures v >= base ==> v / base < v
  {
  }

  lemma SnocValue(s: string, d: char, base: nat, q: nat, r: nat, v: nat)
    requires 2 <= base <= 16 && AllDigitsOf(s, base) && IsDigitOf(d, base)
    requires ValueOf(s, base) == q && DigitValue(d) == r && q * base + r == v
    ensures AllDigitsOf(s + [d], base) && ValueOf(s + [d], base) == v
  {
    ValueOfSnoc(s, d, base);
  }

  /** Reading back a numeral gives the number it was written from. */
  lemma {:induction false} ToBaseValue(v: nat, base: nat)
    requires 2 <= base <= 16
    ensures ValueOf(ToBase(v, base), base) == v
    decreases v
  {
    if v < base {
      ValueOfDigit(DigitChar(v), base);
    } else {
      var q, r := v / base, v % base;
      DivMod(v, base);
      var s, d := ToBase(q, base), DigitChar(r);
      assert ToBase(v, base) == s + [d];
      ToBaseValue(q, base);
      SnocValue(s, d, base, q, r, v);
    }
  }

  lemma ZerosAreDigits(k: nat, base: nat)
    requires 2 <= base <= 16
    ensures AllDigitsOf(Zeros(k), base)
  {
  }

  lemma {:induction false} ZerosValue(k: nat, base: nat)
    requires 2 <= base <= 16
    ensures AllDigitsOf(Zeros(k), base) && ValueOf(Zeros(k), base) == 0
  {
    ZerosAreDigits(k, base);
    if k > 0 {
      ZerosValue(k - 1, base);
      ValueOfSnoc(Zeros(k - 1), '0', base);
    }
  }

  /** Leading zeros do not change the value of a numeral. */
  lemma {:induction false} LeadingZerosValue(k: nat, s: string, base: nat)
    requires 2 <= base <= 16 && AllDigitsOf(s, base)
    ensures AllDigitsOf(Zeros(k) + s, base)
    ensures ValueOf(Zeros(k) + s, base) == ValueOf(s, base)
    decreases |s|
  {
    ZerosValue(k, base);
    if s != [] {
      var init, last := s[..|s| - 1], s[|s| - 1];
      assert s == init + [last];
      LeadingZerosValue(k, init, base);
      assert Zeros(k) + s == (Zeros(k) + init) + [last];
      ValueOfSnoc(Zeros(k) + init, last, base);
    } else {
      assert Zeros(k) + s == Zeros(k);
    }
  }

  /** A zero-padded numeral parses back to its number, whatever the width. */
  lemma PaddedRoundTrip(v: nat, base: nat, width: nat)
    requires 2 <= base <= 16
    ensures Parse(Padded(v, base, width), base) == Some(v)
  {
    var t, p := ToBase(v, base), Padded(v, base, width);
    ToBaseValue(v, base);
    if |t| < width {
      assert p == Zeros(width - |t|) + t;
      LeadingZerosValue(width - |t|, t, base);
    } else {
      assert p == t;
    }
    assert |p| > 0 && ValueOf(p, base) == v;
  }

  /** Decimal numerals parse back: `int(str(n)) == n`. */
  lemma DecimalRoundTrip(n: nat)
    ensures Parse(Decimal(n), 10) == Some(n)
  {
    ToBaseValue(n, 10);
  }

  /** Distinct numbers give distinct padded numerals. */
  lemma PaddedInjective(a: nat, b: nat, base: nat, width: nat)
    requires 2 <= base <= 16
    requires Padded(a, base, width) == Padded(b, base, width)
    ensures a == b
  {
    PaddedRoundTrip(a, base, width);
    PaddedRoundTrip(b, base, width);
  }

  lemma DecimalInjective(a: nat, b: nat)
    requires Decimal(a) == Decimal(b)
    ensures a == b
  {
    DecimalRoundTrip(a);
    DecimalRoundTrip(b);
  }

  lemma DivBelow(v: nat, base: nat, p: nat)
    requires 2 <= base && v < base * p
    ensures v / base < p
  {
  }

  /** A number below base^width needs at most `width` digits. */
  lemma {:induction false} ToBaseLength(v: nat, base: nat, width: nat)
    requires 2 <= base <= 16 && width >= 1 && v < Pow(base, width)
    ensures |ToBase(v, base)| <= width
    decreases v
  {
    if v >= base {
      assert width != 1 by {
        assert Pow(base, 1) == base * Pow(base, 0) == base;
      }
      var q := v / base;
      DivMod(v, base);
      DivBelow(v, base, Pow(base, width - 1));
      ToBaseLength(q, base, width - 1);
      assert ToBase(v, base) == ToBase(q, base) + [DigitChar(v % base)];
    }
  }

  /** So a padded numeral of such a number has exactly `width` digits. */
  lemma PaddedLength(v: nat, base: nat, width: nat)
    requires 2 <= base <= 16 && width >= 1 && v < Pow(base, width)
    ensures |Padded(v, base, width)| == width
  {
    ToBaseLength(v, base, width);
  }
}
