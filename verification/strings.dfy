/**
 * The handful of text operations the script leans on: Python's `str.split(sep)`,
 * awk's default field splitting, Python's `str.strip()` and substring search.
 */
module Strings {

  /** `p` occurs in `s` starting at index `i`. */
  predicate OccursAt(s: string, p: string, i: nat)
  {
    i + |p| <= |s| && s[i..i + |p|] == p
  }

  predicate Contains(s: string, p: string)
  {
    exists i: nat :: i <= |s| && OccursAt(s, p, i)
  }

  /** A pattern that holds a character the text lacks cannot occur in it. */
  lemma NotContainsByChar(s: string, p: string, k: nat)
    requires k < |p| && p[k] !in s
    ensures !Contains(s, p)
  {
  }

  /** Occurrences in a slice are occurrences in the whole text. */
  lemma ContainsSlice(s: string, lo: nat, hi: nat, p: string)
    requires lo <= hi <= |s| && Contains(s[lo..hi], p)
    ensures Contains(s, p)
  {
    var i: nat :| i <= hi - lo && OccursAt(s[lo..hi], p, i);
    assert lo + i + |p| <= hi;
    forall j | 0 <= j < |p|
      ensures s[lo + i..lo + i + |p|][j] == p[j]
    {
      assert s[lo..hi][i..i + |p|][j] == p[j];
    }
    assert OccursAt(s, p, lo + i);
  }

  /** A text that contains `p + q` contains `p`. */
  lemma ContainsPrefixOf(s: string, p: string, q: string)
    requires Contains(s, p + q)
    ensures Contains(s, p)
  {
    var i: nat :| i <= |s| && OccursAt(s, p + q, i);
    assert s[i..i + |p|] == s[i..i + |p| + |q|][..|p|];
    assert OccursAt(s, p, i);
  }

  /** Python's `sep.join(parts)` for a one-character separator. */
  function Join(parts: seq<string>, sep: char): string
  {
    if parts == [] then ""
    else if |parts| == 1 then parts[0]
    else parts[0] + [sep] + Join(parts[1..], sep)
  }

  /** Python's `s.split(sep)`: never empty, and `sep.join` of it gives `s` back. */
  function Split(s: string, sep: char): (parts: seq<string>)
    ensures |parts| >= 1
    ensures Join(parts, sep) == s
    ensures forall k :: 0 <= k < |parts| ==> sep !in parts[k]
    decreases |s|
  {
    if |s| == 0 then [""]
    else
      var rest := Split(s[1..], sep);
      if s[0] == sep then
        assert s == [sep] + s[1..];
        [""] + rest
      else
        var parts := [[s[0]] + rest[0]] + rest[1..];
        assert parts[1..] == rest[1..];
        assert s == [s[0]] + s[1..];
        parts
  }

  lemma {:induction false} SplitNoSeparator(a: string, sep: char)
    requires sep !in a
    ensures Split(a, sep) == [a]
    decreases |a|
  {
    if a != [] {
      SplitNoSeparator(a[1..], sep);
      assert [a[0]] + a[1..] == a;
    }
  }

  lemma {:induction false} SplitFirst(a: string, sep: char, rest: string)
    requires sep !in a
    ensures Split(a + [sep] + rest, sep) == [a] + Split(rest, sep)
    decreases |a|
  {
    var s := a + [sep] + rest;
    if a == [] {
      assert s[1..] == rest;
    } else {
      assert s[1..] == a[1..] + [sep] + rest;
      SplitFirst(a[1..], sep, rest);
      assert [a[0]] + a[1..] == a;
    }
  }

  /** Splitting a join of separator-free parts gives the parts back. */
  lemma {:induction false} SplitJoin(parts: seq<string>, sep: char)
    requires |parts| >= 1
    requires forall k :: 0 <= k < |parts| ==> sep !in parts[k]
    ensures Split(Join(parts, sep), sep) == parts
    decreases |parts|
  {
    if |parts| == 1 {
      SplitNoSeparator(parts[0], sep);
    } else {
      SplitJoin(parts[1..], sep);
      SplitFirst(parts[0], sep, Join(parts[1..], sep));
      assert [parts[0]] + parts[1..] == parts;
    }
  }

  /** The characters awk and Python treat as blanks between fields. */
  predicate IsBlank(c: char)
  {
    c == ' ' || c == '\t'
  }

  /**
   * Python's `str.isspace` on one character: the ASCII controls 9-13 and
   * 28-31, the space, and the Unicode spaces and separators.
   */
  predicate IsSpace(c: char)
  {
    var n := c as int;
    || 9 <= n <= 13 || 28 <= n <= 32 || n == 0x85 || n == 0xA0 || n == 0x1680
    || 0x2000 <= n <= 0x200A || n == 0x2028 || n == 0x2029 || n == 0x202F || n == 0x205F || n == 0x3000
  }

  predicate NoBlank(s: string)
  {
    forall i :: 0 <= i < |s| ==> !IsBlank(s[i])
  }

  /** Characters up to the first blank. */
  function LeadingWord(s: string): (w: string)
    ensures |w| <= |s| && w == s[..|w|] && NoBlank(w)
    ensures |w| < |s| ==> IsBlank(s[|w|])
  {
    if s == [] || IsBlank(s[0]) then ""
    else
      var w := [s[0]] + LeadingWord(s[1..]);
      assert s[..|w|] == [s[0]] + s[1..][..|w| - 1];
      w
  }

  /** awk's default field splitting: maximal runs of non-blank characters. */
  function Fields(s: string): (fs: seq<string>)
    ensures forall k :: 0 <= k < |fs| ==> fs[k] != "" && NoBlank(fs[k])
    decreases |s|
  {
    if s == [] then []
    else if IsBlank(s[0]) then Fields(s[1..])
    else
      var w := LeadingWord(s);
      [w] + Fields(s[|w|..])
  }

  /** Fields of blank-free words joined by single spaces are those words. */
  lemma {:induction false} FieldsOfWords(words: seq<string>)
    requires forall k :: 0 <= k < |words| ==> words[k] != "" && NoBlank(words[k])
    ensures Fields(Join(words, ' ')) == words
    decreases |words|
  {
    if |words| == 1 {
      LeadingWordOf(words[0], "");
      assert words[0] + "" == words[0];
      assert words[0][|words[0]|..] == [];
    } else if |words| > 1 {
      var s := Join(words, ' ');
      var rest := Join(words[1..], ' ');
      assert s == words[0] + (" " + rest);
      LeadingWordOf(words[0], " " + rest);
      assert s[|words[0]|..] == " " + rest;
      assert (" " + rest)[1..] == rest;
      FieldsOfWords(words[1..]);
      assert [words[0]] + words[1..] == words;
    }
  }

  /** A blank separates fields: the fields on either side of it, in order. */
  lemma {:induction false} FieldsSplitAtBlank(a: string, c: char, b: string)
    requires IsBlank(c)
    ensures Fields(a + [c] + b) == Fields(a) + Fields(b)
    decreases |a|
  {
    var s := a + [c] + b;
    if a == [] {
      assert s == [c] + b && s[1..] == b;
    } else if IsBlank(a[0]) {
      assert s[1..] == a[1..] + [c] + b;
      FieldsSplitAtBlank(a[1..], c, b);
    } else {
      var w := LeadingWord(a);
      var rest := a[|w|..];
      assert |w| >= 1;
      assert a == w + rest;
      assert s == w + (rest + [c] + b);
      LeadingWordOf(w, rest + [c] + b);
      assert s[|w|..] == rest + [c] + b;
      FieldsSplitAtBlank(rest, c, b);
    }
  }

  lemma {:induction false} LeadingWordOf(w: string, t: string)
    requires NoBlank(w) && (t == [] || IsBlank(t[0]))
    ensures LeadingWord(w + t) == w
    decreases |w|
  {
    if w != [] {
      assert (w + t)[1..] == w[1..] + t;
      LeadingWordOf(w[1..], t);
      assert [w[0]] + w[1..] == w;
    } else {
      assert w + t == t;
    }
  }

  /**
   * Python's `str.strip()`: the part of `s` that follows its leading white
   * space and has only white space after it, with no white space at either end.
   */
  function Strip(s: string): (r: string)
    ensures r == [] || (!IsSpace(r[0]) && !IsSpace(r[|r| - 1]))
    ensures var i := LeadingSpaces(s);
      && i + |r| <= |s| && r == s[i..i + |r|]
      && (forall k :: 0 <= k < i ==> IsSpace(s[k]))
      && (forall k :: i + |r| <= k < |s| ==> IsSpace(s[k]))
  {
    var i := LeadingSpaces(s);
    var left := StripLeft(s);
    var r := StripRight(left);
    assert left[..|r|] == s[i..i + |r|];
    assert forall k :: i + |r| <= k < |s| ==> s[k] == left[k - i];
    r
  }

  /** How many white-space characters `s` starts with. */
  function LeadingSpaces(s: string): (k: nat)
    ensures k <= |s| && (k < |s| ==> !IsSpace(s[k]))
    ensures forall i :: 0 <= i < k ==> IsSpace(s[i])
    decreases |s|
  {
    if s != [] && IsSpace(s[0]) then
      var k := 1 + LeadingSpaces(s[1..]);
      assert forall i :: 1 <= i < k ==> s[i] == s[1..][i - 1];
      k
    else 0
  }

  /** How many white-space characters `s` ends with. */
  function TrailingSpaces(s: string): (k: nat)
    ensures k <= |s| && (k < |s| ==> !IsSpace(s[|s| - k - 1]))
    ensures forall i :: |s| - k <= i < |s| ==> IsSpace(s[i])
    decreases |s|
  {
    if s != [] && IsSpace(s[|s| - 1]) then
      var k := 1 + TrailingSpaces(s[..|s| - 1]);
      assert forall i :: |s| - k <= i < |s| - 1 ==> s[i] == s[..|s| - 1][i];
      k
    else 0
  }

  /** `str.lstrip()`: the text after its leading white space. */
  function StripLeft(s: string): (r: string)
    ensures r == [] || !IsSpace(r[0])
  {
    s[LeadingSpaces(s)..]
  }

  /** `str.rstrip()`: the text before its trailing white space. */
  function StripRight(s: string): (r: string)
    ensures r == [] || !IsSpace(r[|r| - 1])
  {
    s[..|s| - TrailingSpaces(s)]
  }

  /** Stripping a word followed only by white space leaves the word. */
  lemma StripWord(w: string, tail: string)
    requires w != [] && !IsSpace(w[0]) && !IsSpace(w[|w| - 1])
    requires forall i :: 0 <= i < |tail| ==> IsSpace(tail[i])
    ensures Strip(w + tail) == w
  {
    var s := w + tail;
    assert LeadingSpaces(s) == 0;
    assert StripLeft(s) == s;
    TrailingSpacesOf(w, tail);
    assert s[..|s| - |tail|] == w;
  }

  lemma {:induction false} TrailingSpacesOf(w: string, tail: string)
    requires w != [] && !IsSpace(w[|w| - 1])
    requires forall i :: 0 <= i < |tail| ==> IsSpace(tail[i])
    ensures TrailingSpaces(w + tail) == |tail|
    decreases |tail|
  {
    if tail == [] {
      assert w + tail == w;
    } else {
      var t := tail[..|tail| - 1];
      assert (w + tail)[..|w + tail| - 1] == w + t;
      TrailingSpacesOf(w, t);
    }
  }
}
