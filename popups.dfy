/** The click selection of `closePopups` in `proxyBrowser.js`. The page is replaced
    by what the function learns from it: for each close selector, the matched
    elements in document order; the `button, div, span` elements with their text;
    and the close icon and "Accept All" button. For every element the model knows
    whether `isVisible()` answers (and what) and whether `click()` succeeds; an
    exception is caught where the source catches it. */
module Popups {
  import opened Wrappers
  import opened Text
  import opened Regex

  /** The eight close selectors, in order. */
  const CloseSelectors: seq<string> := [
    "[aria-label=\"Close\"]", ".popup-close", ".modal-close", "[data-close-modal]",
    "[id*=\"close\"]", ".overlay-close", ".cookie-close", "[aria-label=\"dismiss\"]"]

  /** The fallback button texts, in order. */
  const FallbackTexts: seq<string> := ["\U{D7}", "close", "dismiss", "got it", "no thanks"]

  /** The pattern `^\s*text\s*$` with the `i` flag: the element's whole text is `text`,
      up to case and surrounding white space. */
  function WholeText(text: string): Regex {
    Regex([[Start, Spaces, Lit(text), Spaces, End]], true)
  }

  /** The pattern matches a text made of `w` (up to case) padded with white space. */
  lemma WholeTextMatches(pre: string, v: string, post: string, w: string)
    requires AllSpace(pre) && AllSpace(post)
    requires |v| == |w| && forall m :: 0 <= m < |w| ==> Fold(v[m]) == Fold(w[m])
    ensures Test(WholeText(w), pre + v + post)
  {
    var t := pre + v + post;
    WholeTextTail(pre, v, post, w);
    var rest := [Lit(w), Spaces, End];
    forall m | 0 <= m < |pre| ensures IsSpace(t[m]) { assert t[m] == pre[m]; }
    SpacesSkip(t, 0, |pre|, rest, true);
    var p := WholeText(w).alternatives[0];
    assert p[1..] == [Spaces] + rest;
    MatchGivesTest(WholeText(w), t, 0, 0);
  }

  /** The word and the trailing padding match after the leading padding. */
  lemma WholeTextTail(pre: string, v: string, post: string, w: string)
    requires AllSpace(post)
    requires |v| == |w| && forall m :: 0 <= m < |w| ==> Fold(v[m]) == Fold(w[m])
    ensures MatchesAt(pre + v + post, |pre|, [Lit(w), Spaces, End], true)
  {
    TrailingPadding(pre + v, post);
    WordBetween(pre, v, post, w);
    assert pre + v + post == (pre + v) + post;
    LitThen(pre + v + post, |pre|, w, [Spaces, End], true);
    assert [Lit(w)] + [Spaces, End] == [Lit(w), Spaces, End];
  }

  /** White space to the end of the text matches `\s*$`. */
  lemma TrailingPadding(a: string, post: string)
    requires AllSpace(post)
    ensures MatchesAt(a + post, |a|, [Spaces, End], true)
  {
    var t := a + post;
    forall m | |a| <= m < |t| ensures IsSpace(t[m]) { assert t[m] == post[m - |a|]; }
    assert MatchesAt(t, |t|, [End], true);
    SpacesSkip(t, |a|, |t|, [End], true);
    assert [Spaces] + [End] == [Spaces, End];
  }

  /** `v`, which spells `w` up to case, sits between `pre` and `post`. */
  lemma WordBetween(pre: string, v: string, post: string, w: string)
    requires |v| == |w| && forall m :: 0 <= m < |w| ==> Fold(v[m]) == Fold(w[m])
    ensures LitAt(pre + v + post, |pre|, w, true)
  {
    var t := pre + v + post;
    forall m | 0 <= m < |w| ensures Canon(t[|pre| + m], true) == Canon(w[m], true) {
      assert t[|pre| + m] == v[m];
    }
    LitAtWhereSpelled(t, |pre|, w, true);
  }

  /** The trimmed text is `w` up to case. */
  predicate TrimmedTextIs(text: string, w: string) {
    var r := Trim(text);
    |r| == |w| && forall m :: 0 <= m < |w| ==> Fold(r[m]) == Fold(w[m])
  }

  /** `text` is `Trim(text)` with white space around it. */
  lemma TrimSplit(text: string) returns (pre: string, post: string)
    ensures AllSpace(pre) && AllSpace(post) && text == pre + Trim(text) + post
  {
    TrimStartDropsLeadingSpace(text);
    var u := TrimStart(text);
    TrimEndDropsTrailingSpace(u);
    var r := TrimEnd(u);
    pre := text[..|text| - |u|];
    post := u[|r|..];
    assert u == r + post;
    assert text == pre + u;
  }

  /** A match of the whole-text pattern reads `w` between two runs of white space. */
  lemma WholeTextSplit(text: string, w: string) returns (j: nat)
    requires Test(WholeText(w), text)
    ensures j + |w| <= |text| && LitAt(text, j, w, true)
    ensures forall m :: 0 <= m < j ==> IsSpace(text[m])
    ensures forall m :: j + |w| <= m < |text| ==> IsSpace(text[m])
  {
    var re := WholeText(w);
    var p := re.alternatives[0];
    var k := AnchoredSearch(re, text, 0);
    assert p[1..] == [Spaces] + p[2..];
    j := SpacesSplit(text, 0, p[2..], true);
    LitAtFits(text, j, w, true);
    var e := j + |w|;
    assert p[2..][1..] == [Spaces] + [End];
    var f := SpacesSplit(text, e, [End], true);
  }

  lemma {:induction false} LitAtIsFolded(t: string, i: nat, w: string)
    requires i <= |t| && LitAt(t, i, w, true)
    ensures i + |w| <= |t| && forall m :: 0 <= m < |w| ==> Fold(t[i + m]) == Fold(w[m])
  {
    LitAtFits(t, i, w, true);
    forall m | 0 <= m < |w| ensures Fold(t[i + m]) == Fold(w[m]) { LitAtChar(t, i, w, true, m); }
  }

  /** For a fallback text that neither starts nor ends with white space, the
      pattern matches exactly the element texts whose trimmed text is that word
      up to case. */
  lemma WholeTextExact(text: string, w: string)
    requires w != [] && !IsSpace(w[0]) && !IsSpace(w[|w| - 1])
    ensures Test(WholeText(w), text) <==> TrimmedTextIs(text, w)
  {
    if TrimmedTextIs(text, w) {
      var pre, post := TrimSplit(text);
      WholeTextMatches(pre, Trim(text), post, w);
    }
    if Test(WholeText(w), text) {
      WholeTextTrims(text, w);
    }
  }

  /** A match reads `w` between two runs of white space, so trimming leaves `w`. */
  lemma WholeTextTrims(text: string, w: string)
    requires w != [] && !IsSpace(w[0]) && !IsSpace(w[|w| - 1])
    requires Test(WholeText(w), text)
    ensures TrimmedTextIs(text, w)
  {
    var j := WholeTextSplit(text, w);
    LitAtIsFolded(text, j, w);
    var pre, v, post := text[..j], text[j..j + |w|], text[j + |w|..];
    assert text == pre + v + post;
    // the word's end characters fold to non-space characters, so they are not white space
    FoldKeepsSpace(v[0], w[0]);
    FoldKeepsSpace(v[|v| - 1], w[|w| - 1]);
    forall m | 0 <= m < |pre| ensures IsSpace(pre[m]) { assert pre[m] == text[m]; }
    forall m | 0 <= m < |post| ensures IsSpace(post[m]) { assert post[m] == text[j + |w| + m]; }
    TrimPadded(pre, v, post);
    forall m | 0 <= m < |w| ensures Fold(v[m]) == Fold(w[m]) { assert v[m] == text[j + m]; }
  }

  lemma FoldKeepsSpace(c: char, d: char)
    requires Fold(c) == Fold(d) && !IsSpace(d)
    ensures !IsSpace(c)
  {
  }

  /** One element: `visible` is `None` when `isVisible()` throws. */
  datatype Element = Element(visible: Option<bool>, clickOk: bool)

  /** The source clicks an element and stops looking exactly when it reports
      visible and the click does not throw. */
  predicate Clickable(e: Element) {
    e.visible == Some(true) && e.clickOk
  }

  /** A `button`, `div` or `span` of the page with the text Playwright matches. */
  datatype TextElement = TextElement(text: string, element: Element)

  /** A single-element locator: `count()` and the element's behaviour. */
  datatype Probe = Probe(count: nat, element: Element)

  datatype Click =
    | SelectorClick(selector: nat, button: nat)
    | TextClick(text: nat, candidate: nat)
    | CloseIconClick
    | AcceptAllClick

  /** First pass, one selector: the first clickable matched element is clicked, and
      the inner `break` ends this selector only. */
  function SelectorClicks(hits: seq<seq<Element>>, s: nat): (r: seq<Click>)
    requires s <= |hits|
    ensures |r| <= s
    decreases s
  {
    if s == 0 then []
    else
      SelectorClicks(hits, s - 1)
      + (match FirstWhere(hits[s - 1], Clickable, 0)
         case Some(b) => [SelectorClick(s - 1, b)]
         case None => [])
  }

  /** `page.locator('button, div, span', { hasText }).first()`: the first candidate
      whose text matches. */
  function Located(candidates: seq<TextElement>, text: string): Option<nat> {
    FirstWhere(candidates, (c: TextElement) => Test(WholeText(text), c.text), 0)
  }

  /** Second pass from fallback text `k` on: the first text whose located element
      is clickable gets its single click, and the outer `break` ends the pass. */
  function TextClicks(candidates: seq<TextElement>, k: nat): (r: seq<Click>)
    requires k <= |FallbackTexts|
    ensures |r| <= 1
    decreases |FallbackTexts| - k
  {
    if k == |FallbackTexts| then []
    else match Located(candidates, FallbackTexts[k])
      case Some(c) =>
        if Clickable(candidates[c].element) then [TextClick(k, c)] else TextClicks(candidates, k + 1)
      case None => TextClicks(candidates, k + 1)
  }

  /** The last `try`: the close icon if present and visible, then "Accept All" if
      visible; an exception anywhere ends the block. */
  function FinalClicks(icon: Probe, acceptAll: Element): (r: seq<Click>)
    ensures |r| <= 2
  {
    if icon.count > 0 && icon.element.visible.None? then []
    else if icon.count > 0 && icon.element.visible == Some(true) && !icon.element.clickOk then []
    else
      (if icon.count > 0 && Clickable(icon.element) then [CloseIconClick] else [])
      + (if Clickable(acceptAll) then [AcceptAllClick] else [])
  }

  /** `closePopups(page)`: the clicks that succeed, in order. */
  method ClosePopups(hits: seq<seq<Element>>, candidates: seq<TextElement>, icon: Probe, acceptAll: Element)
    returns (clicks: seq<Click>)
    requires |hits| == |CloseSelectors|
    ensures clicks == SelectorClicks(hits, |hits|) + TextClicks(candidates, 0) + FinalClicks(icon, acceptAll)
  {
    var first := SelectorPass(hits);
    var second := TextPass(candidates);
    clicks := first + second;
    // close icon, then "Accept All"; a throw skips the rest of the block
    if icon.count > 0 && icon.element.visible.None? {
      return;
    }
    if icon.count > 0 && icon.element.visible == Some(true) {
      if !icon.element.clickOk {
        return;
      }
      clicks := clicks + [CloseIconClick];
    }
    if acceptAll.visible.None? {
      return;
    }
    if acceptAll.visible == Some(true) {
      if !acceptAll.clickOk {
        return;
      }
      clicks := clicks + [AcceptAllClick];
    }
  }

  /** The first pass: every selector, at most one click each. */
  method SelectorPass(hits: seq<seq<Element>>) returns (clicks: seq<Click>)
    ensures clicks == SelectorClicks(hits, |hits|)
  {
    clicks := [];
    var s := 0;
    while s < |hits|
      invariant 0 <= s <= |hits|
      invariant clicks == SelectorClicks(hits, s)
    {
      var buttons := hits[s];
      var b := 0;
      while b < |buttons|
        invariant 0 <= b <= |buttons|
        invariant FirstWhere(buttons, Clickable, 0) == FirstWhere(buttons, Clickable, b)
      {
        if buttons[b].visible == Some(true) && buttons[b].clickOk {
          break;
        }
        b := b + 1;
      }
      if b < |buttons| {
        clicks := clicks + [SelectorClick(s, b)];
      }
      s := s + 1;
    }
  }

  /** A fallback text that locates nothing clickable leaves the rest of the pass to the next text. */
  lemma TextMissed(candidates: seq<TextElement>, k: nat)
    requires k < |FallbackTexts|
    requires var located := Located(candidates, FallbackTexts[k]);
             !(located.Some? && Clickable(candidates[located.value].element))
    ensures TextClicks(candidates, k) == TextClicks(candidates, k + 1)
  {
  }

  /** The second pass: fallback texts in order until one click succeeds. */
  method TextPass(candidates: seq<TextElement>) returns (clicks: seq<Click>)
    ensures clicks == TextClicks(candidates, 0)
  {
    clicks := [];
    var k := 0;
    while k < |FallbackTexts|
      invariant 0 <= k <= |FallbackTexts|
      invariant TextClicks(candidates, 0) == TextClicks(candidates, k)
    {
      var located := Located(candidates, FallbackTexts[k]);
      if located.Some? && Clickable(candidates[located.value].element) {
        clicks := [TextClick(k, located.value)];
        return;
      }
      TextMissed(candidates, k);
      k := k + 1;
    }
  }

  function SelectorClickCount(clicks: seq<Click>, s: nat): nat {
    if clicks == [] then 0
    else SelectorClickCount(clicks[..|clicks| - 1], s)
         + (if clicks[|clicks| - 1].SelectorClick? && clicks[|clicks| - 1].selector == s then 1 else 0)
  }

  /** The first pass clicks at most one element per selector, and that element
      is the first clickable one it matched. */
  lemma {:induction false} OnePerSelector(hits: seq<seq<Element>>, n: nat, s: nat)
    requires n <= |hits|
    ensures SelectorClickCount(SelectorClicks(hits, n), s) <= 1
    ensures s < n ==> (SelectorClickCount(SelectorClicks(hits, n), s) == 1 <==> FirstWhere(hits[s], Clickable, 0).Some?)
    ensures s >= n ==> SelectorClickCount(SelectorClicks(hits, n), s) == 0
  {
    if n > 0 {
      OnePerSelector(hits, n - 1, s);
      var prev := SelectorClicks(hits, n - 1);
      match FirstWhere(hits[n - 1], Clickable, 0)
      case Some(b) =>
        var c := prev + [SelectorClick(n - 1, b)];
        assert c[..|c| - 1] == prev;
      case None =>
        assert SelectorClicks(hits, n) == prev;
    }
  }

  /** Every click of the first pass is on a visible element. */
  lemma {:induction false} SelectorClicksVisible(hits: seq<seq<Element>>, n: nat, i: nat)
    requires n <= |hits| && i < |SelectorClicks(hits, n)|
    ensures var c := SelectorClicks(hits, n)[i];
            c.SelectorClick? && c.selector < n && c.button < |hits[c.selector]|
            && hits[c.selector][c.button].visible == Some(true)
  {
    var prev := SelectorClicks(hits, n - 1);
    if i < |prev| {
      SelectorClicksVisible(hits, n - 1, i);
    }
  }

  /** The click of the second pass, when there is one, is on a clickable element
      that the pattern of its fallback text locates. */
  lemma {:induction false} TextClickIsLocated(candidates: seq<TextElement>, k: nat)
    requires k <= |FallbackTexts| && TextClicks(candidates, k) != []
    ensures var c := TextClicks(candidates, k)[0];
            c.TextClick? && k <= c.text < |FallbackTexts| && c.candidate < |candidates|
            && Test(WholeText(FallbackTexts[c.text]), candidates[c.candidate].text)
            && Clickable(candidates[c.candidate].element)
    decreases |FallbackTexts| - k
  {
    match Located(candidates, FallbackTexts[k])
    case Some(c) =>
      if !Clickable(candidates[c].element) { TextClickIsLocated(candidates, k + 1); }
    case None => TextClickIsLocated(candidates, k + 1);
  }

  /** No fallback text starts or ends with white space. */
  lemma FallbackTextsUnpadded(k: nat)
    requires k < |FallbackTexts|
    ensures var w := FallbackTexts[k]; w != [] && !IsSpace(w[0]) && !IsSpace(w[|w| - 1])
  {
  }

  /** The second pass clicks at most one element, and only a visible one whose
      trimmed text is that fallback text up to case. */
  lemma TextClickMatchesWholeText(candidates: seq<TextElement>)
    requires TextClicks(candidates, 0) != []
    ensures |TextClicks(candidates, 0)| == 1
    ensures var c := TextClicks(candidates, 0)[0];
            c.TextClick? && c.text < |FallbackTexts| && c.candidate < |candidates|
            && TrimmedTextIs(candidates[c.candidate].text, FallbackTexts[c.text])
            && candidates[c.candidate].element.visible == Some(true)
  {
    TextClickIsLocated(candidates, 0);
    var c := TextClicks(candidates, 0)[0];
    FallbackTextsUnpadded(c.text);
    WholeTextExact(candidates[c.candidate].text, FallbackTexts[c.text]);
  }
}
