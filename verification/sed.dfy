/**
 * The in-place text substitutions the script issues through `sed -i -E`.
 * Every rule it uses is a literal prefix followed by `.*,` or by `.*`, with a
 * literal replacement: on each line the leftmost match is replaced, `.*,`
 * reaching to the last comma of the line and `.*` to its end; lines without a
 * match are left as they are.
 */
module Sed {
  import opened Wrappers
  import opened Strings

  datatype Rule = Rule(prefix: string, toComma: bool, replacement: string)

  predicate HasCommaFrom(line: string, k: nat)
  {
    exists j :: k <= j < |line| && line[j] == ','
  }

  predicate MatchesAt(line: string, rule: Rule, i: nat)
  {
    OccursAt(line, rule.prefix, i) && (rule.toComma ==> HasCommaFrom(line, i + |rule.prefix|))
  }

  /** The leftmost position at or after `from` where the rule matches. */
  function FirstMatch(line: string, rule: Rule, from: nat): (r: Option<nat>)
    ensures r.Some? ==> from <= r.value && MatchesAt(line, rule, r.value)
    ensures r.Some? ==> forall i: nat :: from <= i < r.value ==> !MatchesAt(line, rule, i)
    ensures r.None? ==> forall i: nat :: from <= i ==> !MatchesAt(line, rule, i)
    decreases |line| + 1 - from
  {
    if from > |line| then None
    else if MatchesAt(line, rule, from) then Some(from)
    else FirstMatch(line, rule, from + 1)
  }

  /** Index of the last comma, -1 when there is none. */
  function LastComma(line: string): (k: int)
    ensures -1 <= k < |line|
    ensures k >= 0 ==> line[k] == ','
    ensures forall j :: k < j < |line| ==> line[j] != ','
  {
    if line == [] then -1
    else if line[|line| - 1] == ',' then |line| - 1
    else LastComma(line[..|line| - 1])
  }

  /** What follows the matched text: nothing for `.*`, the text after the last comma for `.*,`. */
  function Tail(line: string, rule: Rule): string
  {
    if rule.toComma then line[LastComma(line) + 1..] else ""
  }

  predicate CommaFree(s: string)
  {
    forall j :: 0 <= j < |s| ==> s[j] != ','
  }

  /**
   * `sed` on one line. A line without a match is unchanged. Otherwise the text
   * before the match is kept, the replacement stands where the match began,
   * and after it comes only the comma-free remainder that followed the line's
   * last comma (`.*,`), or nothing (`.*`).
   */
  function SubstLine(line: string, rule: Rule): (r: string)
    ensures FirstMatch(line, rule, 0).None? ==> r == line
    ensures FirstMatch(line, rule, 0).Some? ==>
      var i := FirstMatch(line, rule, 0).value;
      i + |rule.replacement| <= |r| <= i + |rule.replacement| + |line| &&
      (var rest := r[i + |rule.replacement|..];
      && r[..i] == line[..i]
      && OccursAt(r, rule.replacement, i)
      && CommaFree(rest)
      && rest == line[|line| - |rest|..]
      && (rule.toComma ==> i + |rule.prefix| < |line| - |rest| && line[|line| - |rest| - 1] == ',')
      && (!rule.toComma ==> rest == ""))
  {
    match FirstMatch(line, rule, 0)
    case None => line
    case Some(i) =>
      var t := Tail(line, rule);
      var r := line[..i] + rule.replacement + t;
      assert r[i + |rule.replacement|..] == t;
      assert r[i..i + |rule.replacement|] == rule.replacement;
      r
  }

  /** `sed -i` over a whole file. */
  function Subst(lines: seq<string>, rule: Rule): (r: seq<string>)
    ensures |r| == |lines|
    ensures forall k :: 0 <= k < |lines| ==> r[k] == SubstLine(lines[k], rule)
  {
    if lines == [] then [] else [SubstLine(lines[0], rule)] + Subst(lines[1..], rule)
  }

  /** A line that does not contain the rule's prefix has no match. */
  lemma NoMatchWithoutPrefix(line: string, rule: Rule)
    requires !Contains(line, rule.prefix)
    ensures FirstMatch(line, rule, 0).None?
  {
  }

  /**
   * A substitution keeps the number of lines, and every line that does not
   * contain the rule's prefix stays as it was.
   */
  lemma SubstKeepsOtherLines(lines: seq<string>, rule: Rule)
    ensures |Subst(lines, rule)| == |lines|
    ensures forall k :: 0 <= k < |lines| && !Contains(lines[k], rule.prefix) ==> Subst(lines, rule)[k] == lines[k]
  {
    forall k | 0 <= k < |lines| && !Contains(lines[k], rule.prefix)
      ensures Subst(lines, rule)[k] == lines[k]
    {
      NoMatchWithoutPrefix(lines[k], rule);
    }
  }

  /** A match at `i` with none before it is the leftmost one. */
  lemma LeftmostMatch(line: string, rule: Rule, i: nat)
    requires MatchesAt(line, rule, i)
    requires forall j: nat :: j < i ==> !MatchesAt(line, rule, j)
    ensures FirstMatch(line, rule, 0) == Some(i)
  {
  }

  /** The replacement begins with the text it replaces and, for `.*,`, ends with a comma. */
  predicate SelfMatching(rule: Rule)
  {
    && OccursAt(rule.replacement, rule.prefix, 0)
    && (rule.toComma ==> |rule.replacement| > |rule.prefix| && rule.replacement[|rule.replacement| - 1] == ',')
  }

  /** Wherever a self-matching rule's replacement occurs, the rule matches. */
  lemma ReplacementMatches(n: string, rule: Rule, i: nat)
    requires SelfMatching(rule) && OccursAt(n, rule.replacement, i)
    ensures MatchesAt(n, rule, i)
  {
    var p, rep := rule.prefix, rule.replacement;
    assert n[i..i + |p|] == n[i..i + |rep|][..|p|];
    if rule.toComma {
      assert n[i + |rep| - 1] == n[i..i + |rep|][|rep| - 1];
    }
  }

  /** After the rewrite the replacement, hence the prefix, still matches where the old match began. */
  lemma RewriteStillMatches(line: string, rule: Rule, i: nat)
    requires SelfMatching(rule) && FirstMatch(line, rule, 0) == Some(i)
    ensures MatchesAt(SubstLine(line, rule), rule, i)
  {
    ReplacementMatches(SubstLine(line, rule), rule, i);
  }

  /** The rewrite leaves the text up to the end of the matched prefix as it was. */
  lemma RewriteKeepsHead(line: string, rule: Rule, i: nat)
    requires SelfMatching(rule) && FirstMatch(line, rule, 0) == Some(i)
    ensures SubstLine(line, rule)[..i + |rule.prefix|] == line[..i + |rule.prefix|]
  {
    var n, p, rep := SubstLine(line, rule), rule.prefix, rule.replacement;
    assert n == line[..i] + rep + Tail(line, rule);
    assert n[i..i + |p|] == rep[..|p|] == p == line[i..i + |p|];
    assert n[..i + |p|] == n[..i] + n[i..i + |p|];
    assert line[..i + |p|] == line[..i] + line[i..i + |p|];
  }

  /** Texts that agree up to `h` agree on every slice that ends by `h`. */
  lemma SliceOfCommonHead(a: string, b: string, h: nat, j: nat, len: nat)
    requires h <= |a| && h <= |b| && a[..h] == b[..h] && j + len <= h
    ensures a[j..j + len] == b[j..j + len]
  {
    assert a[j..j + len] == a[..h][j..j + len];
    assert b[j..j + len] == b[..h][j..j + len];
  }

  lemma CommaFromEarlier(line: string, a: nat, b: nat)
    requires a <= b && HasCommaFrom(line, b)
    ensures HasCommaFrom(line, a)
  {
  }

  /** A text that agrees with `line` up to the end of a match at `i` has no match before `i` that `line` lacks. */
  lemma NoMatchInCommonHead(line: string, n: string, rule: Rule, i: nat, j: nat)
    requires MatchesAt(line, rule, i) && !MatchesAt(line, rule, j) && j < i
    requires i + |rule.prefix| <= |n| && n[..i + |rule.prefix|] == line[..i + |rule.prefix|]
    ensures !MatchesAt(n, rule, j)
  {
    var p := rule.prefix;
    SliceOfCommonHead(n, line, i + |p|, j, |p|);
    if rule.toComma {
      CommaFromEarlier(line, j + |p|, i + |p|);
    }
  }

  /** Nor does the rewrite create a match further left. */
  lemma RewriteNoEarlierMatch(line: string, rule: Rule, i: nat, j: nat)
    requires SelfMatching(rule) && FirstMatch(line, rule, 0) == Some(i) && j < i
    ensures !MatchesAt(SubstLine(line, rule), rule, j)
  {
    RewriteKeepsHead(line, rule, i);
    NoMatchInCommonHead(line, SubstLine(line, rule), rule, i, j);
  }

  /**
   * Running such a substitution a second time changes nothing: every line it
   * rewrote already carries the replacement at its leftmost match.
   */
  lemma SubstLineIdempotent(line: string, rule: Rule)
    requires SelfMatching(rule)
    ensures SubstLine(SubstLine(line, rule), rule) == SubstLine(line, rule)
  {
    var m := FirstMatch(line, rule, 0);
    if m.Some? {
      var i := m.value;
      var n, rep, t := SubstLine(line, rule), rule.replacement, Tail(line, rule);
      assert n == line[..i] + rep + t;
      RewriteStillMatches(line, rule, i);
      forall j: nat | j < i
        ensures !MatchesAt(n, rule, j)
      {
        RewriteNoEarlierMatch(line, rule, i, j);
      }
      LeftmostMatch(n, rule, i);
      assert n[..i] == line[..i];
      if rule.toComma {
        assert LastComma(n) == i + |rep| - 1;
        assert n[i + |rep|..] == t;
      }
    }
  }

  /** The same for a whole file. */
  lemma SubstIdempotent(lines: seq<string>, rule: Rule)
    requires SelfMatching(rule)
    ensures Subst(Subst(lines, rule), rule) == Subst(lines, rule)
  {
    forall k | 0 <= k < |lines|
      ensures Subst(Subst(lines, rule), rule)[k] == Subst(lines, rule)[k]
    {
      SubstLineIdempotent(lines[k], rule);
    }
  }

  /** Several `sed` calls one after another, on one line. */
  function ApplyLine(line: string, rules: seq<Rule>): string
    decreases |rules|
  {
    if rules == [] then line else ApplyLine(SubstLine(line, rules[0]), rules[1..])
  }

  /** Several `sed -i` calls one after another, on a whole file. */
  function Apply(lines: seq<string>, rules: seq<Rule>): seq<string>
    decreases |rules|
  {
    if rules == [] then lines else Apply(Subst(lines, rules[0]), rules[1..])
  }

  /** A series of file substitutions keeps the line count and works line by line. */
  lemma {:induction false} ApplyLineWise(lines: seq<string>, rules: seq<Rule>)
    ensures |Apply(lines, rules)| == |lines|
    ensures forall k :: 0 <= k < |lines| ==> Apply(lines, rules)[k] == ApplyLine(lines[k], rules)
    decreases |rules|
  {
    if rules != [] {
      ApplyLineWise(Subst(lines, rules[0]), rules[1..]);
    }
  }

  /** Two series of substitutions run back to back are one series. */
  lemma {:induction false} ApplyConcat(lines: seq<string>, a: seq<Rule>, b: seq<Rule>)
    ensures Apply(lines, a + b) == Apply(Apply(lines, a), b)
    decreases |a|
  {
    if a != [] {
      assert (a + b)[1..] == a[1..] + b;
      ApplyConcat(Subst(lines, a[0]), a[1..], b);
    } else {
      assert a + b == b;
    }
  }

  lemma {:induction false} ApplyLineConcat(line: string, a: seq<Rule>, b: seq<Rule>)
    ensures ApplyLine(line, a + b) == ApplyLine(ApplyLine(line, a), b)
    decreases |a|
  {
    if a != [] {
      assert (a + b)[1..] == a[1..] + b;
      ApplyLineConcat(SubstLine(line, a[0]), a[1..], b);
    } else {
      assert a + b == b;
    }
  }

  /** Rules that do not match a line leave it alone. */
  lemma {:induction false} ApplyLineUnmatched(line: string, rules: seq<Rule>)
    requires forall j :: 0 <= j < |rules| ==> FirstMatch(line, rules[j], 0).None?
    ensures ApplyLine(line, rules) == line
    decreases |rules|
  {
    if rules != [] {
      ApplyLineUnmatched(line, rules[1..]);
    }
  }

  /**
   * A series in which only rule `pos` matches: the rules before it find
   * nothing in the line, and the rules after it find nothing in its result.
   */
  lemma ApplyLineOneMatch(line: string, rules: seq<Rule>, pos: nat, w: string)
    requires pos < |rules|
    requires forall j :: 0 <= j < pos ==> FirstMatch(line, rules[j], 0).None?
    requires SubstLine(line, rules[pos]) == w
    requires forall j :: pos < j < |rules| ==> FirstMatch(w, rules[j], 0).None?
    ensures ApplyLine(line, rules) == w
  {
    var pre, post := rules[..pos], rules[pos + 1..];
    assert rules == pre + [rules[pos]] + post;
    ApplyLineUnmatched(line, pre);
    assert ApplyLine(line, [rules[pos]]) == w;
    ApplyLineUnmatched(w, post);
    ApplyLineConcat(line, pre, [rules[pos]]);
    ApplyLineConcat(line, pre + [rules[pos]], post);
  }
}
