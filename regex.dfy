/** The fragment of JavaScript regular expressions that the modelled code uses:
    literals, `\s*`, a hexadecimal-or-dash run `[0-9a-f-]{n,}`, `\b`, `^`, `$`,
    top-level alternation and the `i` flag. `RegExp.prototype.test` only asks
    whether some match exists, so matching is defined existentially (every
    backtracking choice is explored), which is what `test` decides. Case folding is
    ASCII only; this is exact here because every pattern literal is ASCII and,
    without the `u` flag, ECMA-262 never canonicalises a non-ASCII character to an
    ASCII one. */
module Regex {
  import opened Text

  datatype Token =
    | Lit(word: string)     // the characters of `word`, in order
    | Spaces                // `\s*`
    | HexRun(atLeast: nat)  // `[0-9a-f-]{atLeast,}`
    | Boundary              // `\b`
    | Start                 // `^` (no `m` flag)
    | End                   // `$` (no `m` flag)

  type Pattern = seq<Token>

  /** `/alt0|alt1|...|altN/` with or without the `i` flag. */
  datatype Regex = Regex(alternatives: seq<Pattern>, ignoreCase: bool)

  function Canon(c: char, ic: bool): char {
    if ic then Fold(c) else c
  }

  /** `w` occurs at position `i` of `t`. */
  predicate LitAt(t: string, i: nat, w: string, ic: bool)
    requires i <= |t|
    decreases |w|
  {
    w == [] || (i < |t| && Canon(t[i], ic) == Canon(w[0], ic) && LitAt(t, i + 1, w[1..], ic))
  }

  lemma {:induction false} LitAtFits(t: string, i: nat, w: string, ic: bool)
    requires i <= |t| && LitAt(t, i, w, ic)
    ensures i + |w| <= |t|
    decreases |w|
  {
    if w != [] { LitAtFits(t, i + 1, w[1..], ic); }
  }

  /** A literal matches wherever the text agrees with it character by character
      (up to case when `ic`). */
  lemma {:induction false} LitAtWhereSpelled(t: string, i: nat, w: string, ic: bool)
    requires i + |w| <= |t|
    requires forall m :: 0 <= m < |w| ==> Canon(t[i + m], ic) == Canon(w[m], ic)
    ensures LitAt(t, i, w, ic)
    decreases |w|
  {
    if w != [] {
      forall m | 0 <= m < |w| - 1 ensures Canon(t[i + 1 + m], ic) == Canon(w[1..][m], ic) {
        assert Canon(t[i + (m + 1)], ic) == Canon(w[m + 1], ic);
      }
      LitAtWhereSpelled(t, i + 1, w[1..], ic);
    }
  }

  /** A literal followed by a pattern that matches where the literal ends. */
  lemma LitThen(t: string, i: nat, w: string, rest: Pattern, ic: bool)
    requires i + |w| <= |t| && LitAt(t, i, w, ic) && MatchesAt(t, i + |w|, rest, ic)
    ensures MatchesAt(t, i, [Lit(w)] + rest, ic)
  {
    assert ([Lit(w)] + rest)[1..] == rest;
  }

  /** `\s*` can consume any run of white space. */
  lemma {:induction false} SpacesSkip(t: string, i: nat, j: nat, rest: Pattern, ic: bool)
    requires i <= j <= |t|
    requires forall m :: i <= m < j ==> IsSpace(t[m])
    requires MatchesAt(t, j, rest, ic)
    ensures MatchesAt(t, i, [Spaces] + rest, ic)
    decreases j - i
  {
    assert ([Spaces] + rest)[1..] == rest;
    if i < j {
      SpacesSkip(t, i + 1, j, rest, ic);
    }
  }

  /** A literal, then `\s*` over a run of white space, then `rest`. */
  lemma LitSpacesThen(t: string, i: nat, w: string, j: nat, rest: Pattern, ic: bool)
    requires i + |w| <= j <= |t| && LitAt(t, i, w, ic)
    requires forall m :: i + |w| <= m < j ==> IsSpace(t[m])
    requires MatchesAt(t, j, rest, ic)
    ensures MatchesAt(t, i, [Lit(w), Spaces] + rest, ic)
  {
    SpacesSkip(t, i + |w|, j, rest, ic);
    LitThen(t, i, w, [Spaces] + rest, ic);
    assert [Lit(w)] + ([Spaces] + rest) == [Lit(w), Spaces] + rest;
  }

  /** Conversely, a match of `\s*` and then `rest` skips some run of white space. */
  lemma {:induction false} SpacesSplit(t: string, i: nat, rest: Pattern, ic: bool) returns (j: nat)
    requires i <= |t| && MatchesAt(t, i, [Spaces] + rest, ic)
    ensures i <= j <= |t| && MatchesAt(t, j, rest, ic)
    ensures forall m :: i <= m < j ==> IsSpace(t[m])
    decreases |t| - i
  {
    assert ([Spaces] + rest)[1..] == rest;
    if MatchesAt(t, i, rest, ic) {
      j := i;
    } else {
      j := SpacesSplit(t, i + 1, rest, ic);
    }
  }

  /** A pattern anchored with `^` can only match at the start. */
  lemma {:induction false} AnchoredSearch(re: Regex, t: string, i: nat) returns (k: nat)
    requires i <= |t| && SearchFrom(re, t, i)
    requires forall a :: 0 <= a < |re.alternatives| ==> re.alternatives[a] != [] && re.alternatives[a][0] == Start
    ensures i == 0 && k < |re.alternatives| && MatchesAt(t, 0, re.alternatives[k], re.ignoreCase)
    decreases |t| - i
  {
    if SomeAlternativeAt(re.alternatives, t, i, re.ignoreCase) {
      k := AlternativeWitness(re.alternatives, t, i, re.ignoreCase);
    } else {
      k := AnchoredSearch(re, t, i + 1);
    }
  }

  predicate IsHexOrDash(c: char, ic: bool) {
    var d := Canon(c, ic);
    IsDigit(d) || ('a' <= d <= 'f') || d == '-'
  }

  /** At least `n` hexadecimal digits or dashes match `[0-9a-f-]{n,}`. */
  lemma {:induction false} HexRunMatches(t: string, i: nat, n: nat, ic: bool)
    requires i + n <= |t|
    requires forall m :: i <= m < i + n ==> IsHexOrDash(t[m], ic)
    ensures MatchesAt(t, i, [HexRun(n)], ic)
    decreases n
  {
    if n > 0 {
      HexRunMatches(t, i + 1, n - 1, ic);
      assert [HexRun(n - 1)] + [HexRun(n)][1..] == [HexRun(n - 1)];
    }
  }

  /** `\w` without the `u` flag. */
  predicate IsWordChar(c: char) {
    IsDigit(c) || ('a' <= c <= 'z') || ('A' <= c <= 'Z') || c == '_'
  }

  predicate IsBoundary(t: string, i: nat)
    requires i <= |t|
  {
    (i > 0 && IsWordChar(t[i - 1])) != (i < |t| && IsWordChar(t[i]))
  }

  /** Some way of matching the whole of `p` starting at position `i` of `t`. */
  predicate MatchesAt(t: string, i: nat, p: Pattern, ic: bool)
    requires i <= |t|
    decreases |t| - i, |p|
  {
    if p == [] then true
    else match p[0]
      case Lit(w) =>
        LitAt(t, i, w, ic) && (LitAtFits(t, i, w, ic); MatchesAt(t, i + |w|, p[1..], ic))
      case Spaces =>
        MatchesAt(t, i, p[1..], ic) || (i < |t| && IsSpace(t[i]) && MatchesAt(t, i + 1, p, ic))
      case HexRun(n) =>
        if n > 0 then i < |t| && IsHexOrDash(t[i], ic) && MatchesAt(t, i + 1, [HexRun(n - 1)] + p[1..], ic)
        else MatchesAt(t, i, p[1..], ic) || (i < |t| && IsHexOrDash(t[i], ic) && MatchesAt(t, i + 1, p, ic))
      case Boundary => IsBoundary(t, i) && MatchesAt(t, i, p[1..], ic)
      case Start => i == 0 && MatchesAt(t, i, p[1..], ic)
      case End => i == |t| && MatchesAt(t, i, p[1..], ic)
  }

  predicate SomeAlternativeAt(alts: seq<Pattern>, t: string, i: nat, ic: bool)
    requires i <= |t|
  {
    alts != [] && (MatchesAt(t, i, alts[0], ic) || SomeAlternativeAt(alts[1..], t, i, ic))
  }

  predicate SearchFrom(re: Regex, t: string, i: nat)
    requires i <= |t|
    decreases |t| - i
  {
    SomeAlternativeAt(re.alternatives, t, i, re.ignoreCase) || (i < |t| && SearchFrom(re, t, i + 1))
  }

  /** `re.test(t)`. */
  predicate Test(re: Regex, t: string) {
    SearchFrom(re, t, 0)
  }

  /** A match at any position makes `test` succeed. */
  lemma {:induction false} MatchGivesTest(re: Regex, t: string, i: nat, k: nat)
    requires i <= |t| && k < |re.alternatives|
    requires MatchesAt(t, i, re.alternatives[k], re.ignoreCase)
    ensures Test(re, t)
  {
    SearchUpTo(re, t, 0, i, k);
  }

  lemma {:induction false} SearchUpTo(re: Regex, t: string, j: nat, i: nat, k: nat)
    requires j <= i <= |t| && k < |re.alternatives|
    requires MatchesAt(t, i, re.alternatives[k], re.ignoreCase)
    ensures SearchFrom(re, t, j)
    decreases i - j
  {
    if j < i { SearchUpTo(re, t, j + 1, i, k); } else { AlternativeAt(re.alternatives, t, i, k, re.ignoreCase); }
  }

  lemma {:induction false} AlternativeAt(alts: seq<Pattern>, t: string, i: nat, k: nat, ic: bool)
    requires i <= |t| && k < |alts| && MatchesAt(t, i, alts[k], ic)
    ensures SomeAlternativeAt(alts, t, i, ic)
  {
    if k > 0 { AlternativeAt(alts[1..], t, i, k - 1, ic); }
  }

  /** Some match of `re` begins at position `i`. */
  lemma {:induction false} AlternativeWitness(alts: seq<Pattern>, t: string, i: nat, ic: bool) returns (k: nat)
    requires i <= |t| && SomeAlternativeAt(alts, t, i, ic)
    ensures k < |alts| && MatchesAt(t, i, alts[k], ic)
  {
    if MatchesAt(t, i, alts[0], ic) { k := 0; }
    else { k := AlternativeWitness(alts[1..], t, i, ic); k := k + 1; }
  }

  /** Pattern `p` contains a literal that uses character `c`. */
  predicate Mentions(p: Pattern, c: char) {
    exists k :: 0 <= k < |p| && p[k].Lit? && c in p[k].word
  }

  /** Some character of `t` at or after `from` equals `c` (up to case when `ic`). */
  predicate Occurs(t: string, from: nat, c: char, ic: bool) {
    exists j :: from <= j < |t| && Canon(t[j], ic) == Canon(c, ic)
  }

  lemma {:induction false} LitAtChar(t: string, i: nat, w: string, ic: bool, m: nat)
    requires i <= |t| && LitAt(t, i, w, ic) && m < |w|
    ensures i + m < |t| && Canon(t[i + m], ic) == Canon(w[m], ic)
    decreases |w|
  {
    if m > 0 { LitAtChar(t, i + 1, w[1..], ic, m - 1); }
  }

  /** A match of a pattern that spells `c` must read a `c` from the text. */
  lemma {:induction false} MatchNeedsChar(t: string, i: nat, p: Pattern, ic: bool, c: char)
    requires i <= |t| && MatchesAt(t, i, p, ic) && Mentions(p, c)
    ensures Occurs(t, i, c, ic)
    decreases |t| - i, |p|
  {
    var k :| 0 <= k < |p| && p[k].Lit? && c in p[k].word;
    if k > 0 { assert p[1..][k - 1] == p[k]; }
    match p[0]
    case Lit(w) =>
      LitAtFits(t, i, w, ic);
      if c in w {
        var m :| 0 <= m < |w| && w[m] == c;
        LitAtChar(t, i, w, ic, m);
      } else {
        MatchNeedsChar(t, i + |w|, p[1..], ic, c);
      }
    case Spaces =>
      if MatchesAt(t, i, p[1..], ic) { MatchNeedsChar(t, i, p[1..], ic, c); }
      else { MatchNeedsChar(t, i + 1, p, ic, c); }
    case HexRun(n) =>
      if n > 0 {
        var q := [HexRun(n - 1)] + p[1..];
        assert q[k] == p[k];
        MatchNeedsChar(t, i + 1, q, ic, c);
      } else if MatchesAt(t, i, p[1..], ic) { MatchNeedsChar(t, i, p[1..], ic, c); }
      else { MatchNeedsChar(t, i + 1, p, ic, c); }
    case Boundary => MatchNeedsChar(t, i, p[1..], ic, c);
    case Start => MatchNeedsChar(t, i, p[1..], ic, c);
    case End => MatchNeedsChar(t, i, p[1..], ic, c);
  }

  /** `re.test(t)` fails when, for every alternative, the text lacks a character
      that the alternative spells out (`witnesses[k]` for alternative `k`). */
  lemma {:induction false} MissingCharsRefute(re: Regex, t: string, witnesses: seq<char>)
    requires |witnesses| == |re.alternatives|
    requires forall k :: 0 <= k < |witnesses| ==>
               Mentions(re.alternatives[k], witnesses[k]) && !Occurs(t, 0, witnesses[k], re.ignoreCase)
    ensures !Test(re, t)
  {
    MissingCharsFrom(re, t, witnesses, 0);
  }

  lemma {:induction false} MissingCharsFrom(re: Regex, t: string, witnesses: seq<char>, i: nat)
    requires i <= |t| && |witnesses| == |re.alternatives|
    requires forall k :: 0 <= k < |witnesses| ==>
               Mentions(re.alternatives[k], witnesses[k]) && !Occurs(t, 0, witnesses[k], re.ignoreCase)
    ensures !SearchFrom(re, t, i)
    decreases |t| - i
  {
    if SomeAlternativeAt(re.alternatives, t, i, re.ignoreCase) {
      var k := AlternativeWitness(re.alternatives, t, i, re.ignoreCase);
      MatchNeedsChar(t, i, re.alternatives[k], re.ignoreCase, witnesses[k]);
    }
    if i < |t| { MissingCharsFrom(re, t, witnesses, i + 1); }
  }

  /** Two texts that differ only in which white-space character stands at some
      positions. */
  predicate SameUpToSpace(t: string, u: string) {
    |t| == |u| && forall m :: 0 <= m < |t| ==> t[m] == u[m] || (IsSpace(t[m]) && IsSpace(u[m]))
  }

  /** No literal of `p` contains a white-space character. */
  predicate SpaceFreeLits(p: Pattern) {
    forall k :: 0 <= k < |p| && p[k].Lit? ==> forall m :: 0 <= m < |p[k].word| ==> !IsSpace(p[k].word[m])
  }

  lemma {:induction false} LitAtUpToSpace(t: string, u: string, i: nat, w: string, ic: bool)
    requires SameUpToSpace(t, u) && i <= |t|
    requires forall m :: 0 <= m < |w| ==> !IsSpace(w[m])
    ensures LitAt(t, i, w, ic) <==> LitAt(u, i, w, ic)
    decreases |w|
  {
    if w != [] && i < |t| {
      assert !IsSpace(w[0]);
      LitAtUpToSpace(t, u, i + 1, w[1..], ic);
    }
  }

  /** A pattern whose literals hold no white space cannot tell such texts apart:
      white space is only ever read by `\s*`, which accepts every white-space
      character alike. */
  lemma {:induction false} MatchesAtUpToSpace(t: string, u: string, i: nat, p: Pattern, ic: bool)
    requires SameUpToSpace(t, u) && i <= |t| && SpaceFreeLits(p)
    ensures MatchesAt(t, i, p, ic) <==> MatchesAt(u, i, p, ic)
    decreases |t| - i, |p|
  {
    if p != [] {
      assert SpaceFreeLits(p[1..]) by {
        forall k | 0 <= k < |p[1..]| && p[1..][k].Lit? ensures forall m :: 0 <= m < |p[1..][k].word| ==> !IsSpace(p[1..][k].word[m]) {
          assert p[1..][k] == p[k + 1];
        }
      }
      match p[0]
      case Lit(w) =>
        assert p[0].Lit?;
        LitAtUpToSpace(t, u, i, w, ic);
        if LitAt(t, i, w, ic) {
          LitAtFits(t, i, w, ic);
          LitAtFits(u, i, w, ic);
          MatchesAtUpToSpace(t, u, i + |w|, p[1..], ic);
        }
      case Spaces =>
        MatchesAtUpToSpace(t, u, i, p[1..], ic);
        if i < |t| { MatchesAtUpToSpace(t, u, i + 1, p, ic); }
      case HexRun(n) =>
        if i < |t| {
          assert IsHexOrDash(t[i], ic) <==> IsHexOrDash(u[i], ic);
        }
        if n > 0 {
          var q := [HexRun(n - 1)] + p[1..];
          assert SpaceFreeLits(q) by {
            forall k | 0 <= k < |q| && q[k].Lit? ensures forall m :: 0 <= m < |q[k].word| ==> !IsSpace(q[k].word[m]) {
              assert q[k] == p[k];
            }
          }
          if i < |t| { MatchesAtUpToSpace(t, u, i + 1, q, ic); }
        } else {
          MatchesAtUpToSpace(t, u, i, p[1..], ic);
          if i < |t| { MatchesAtUpToSpace(t, u, i + 1, p, ic); }
        }
      case Boundary =>
        assert IsBoundary(t, i) <==> IsBoundary(u, i);
        MatchesAtUpToSpace(t, u, i, p[1..], ic);
      case Start => MatchesAtUpToSpace(t, u, i, p[1..], ic);
      case End => MatchesAtUpToSpace(t, u, i, p[1..], ic);
    }
  }

  lemma {:induction false} SomeAlternativeUpToSpace(alts: seq<Pattern>, t: string, u: string, i: nat, ic: bool)
    requires SameUpToSpace(t, u) && i <= |t|
    requires forall a :: 0 <= a < |alts| ==> SpaceFreeLits(alts[a])
    ensures SomeAlternativeAt(alts, t, i, ic) <==> SomeAlternativeAt(alts, u, i, ic)
  {
    if alts != [] {
      MatchesAtUpToSpace(t, u, i, alts[0], ic);
      SomeAlternativeUpToSpace(alts[1..], t, u, i, ic);
    }
  }

  /** `re.test` gives the same answer on two texts that differ only in white space. */
  lemma {:induction false} TestUpToSpace(re: Regex, t: string, u: string, i: nat)
    requires SameUpToSpace(t, u) && i <= |t|
    requires forall a :: 0 <= a < |re.alternatives| ==> SpaceFreeLits(re.alternatives[a])
    ensures SearchFrom(re, t, i) <==> SearchFrom(re, u, i)
    decreases |t| - i
  {
    SomeAlternativeUpToSpace(re.alternatives, t, u, i, re.ignoreCase);
    if i < |t| { TestUpToSpace(re, t, u, i + 1); }
  }
}
