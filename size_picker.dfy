/** The size auto-selection of `openUrlWithPlaywright` in `proxyBrowser.js`
    (`isSelectSize` and `autoClickSizeIfNeeded`): the first native `<select>` that
    looks like a size control gets its first available option chosen; failing
    that, custom size controls are clicked. The page is replaced by what the
    function reads from it. */
module SizePicker {
  import opened Wrappers
  import opened Text
  import opened Regex

  /** `/^\s*(select|choose)\s*size(s)?\s*$/i`, one alternative per combination. */
  const SelectSizeLabel: Regex := Regex([
    [Start, Spaces, Lit("select"), Spaces, Lit("size"), Spaces, End],
    [Start, Spaces, Lit("select"), Spaces, Lit("sizes"), Spaces, End],
    [Start, Spaces, Lit("choose"), Spaces, Lit("size"), Spaces, End],
    [Start, Spaces, Lit("choose"), Spaces, Lit("sizes"), Spaces, End]], true)

  /** `/select\s*size|choose\s*size/i`: a placeholder option. */
  const Placeholder: Regex := Regex([[Lit("select"), Spaces, Lit("size")], [Lit("choose"), Spaces, Lit("size")]], true)

  /** `/(sold\s*out|not\s*available|unavailable|out\s*of\s*stock|temporarily\s*unavailable)/i`. */
  const Unavailable: Regex := Regex([
    [Lit("sold"), Spaces, Lit("out")],
    [Lit("not"), Spaces, Lit("available")],
    [Lit("unavailable")],
    [Lit("out"), Spaces, Lit("of"), Spaces, Lit("stock")],
    [Lit("temporarily"), Spaces, Lit("unavailable")]], true)

  /** `/size/`, case-sensitive, applied to already lower-cased attributes. */
  const SizeWord: Regex := Regex([[Lit("size")]], false)

  /** `.replace(/ /g, ' ')`. */
  function ReplaceNbsp(s: string): (r: string)
    ensures |r| == |s|
    ensures forall i :: 0 <= i < |s| ==> r[i] == (if s[i] == '\U{A0}' then ' ' else s[i])
  {
    if s == [] then [] else [if s[0] == '\U{A0}' then ' ' else s[0]] + ReplaceNbsp(s[1..])
  }

  /** `isSelectSize(s)`: the whole text, padding aside, is "select size", "choose
      sizes" or the like. */
  predicate IsSelectSize(s: string) {
    Test(SelectSizeLabel, ReplaceNbsp(s))
  }

  /** The replacement of no-break spaces inside `isSelectSize` never changes its
      answer: `\s` already matches U+00A0, and the pattern reads white space only
      through `\s*`. */
  lemma NbspReplacementRedundant(s: string)
    ensures IsSelectSize(s) <==> Test(SelectSizeLabel, s)
  {
    var r := ReplaceNbsp(s);
    assert SameUpToSpace(r, s);
    var alts := SelectSizeLabel.alternatives;
    forall a | 0 <= a < |alts| ensures SpaceFreeLits(alts[a]) {
      forall k | 0 <= k < |alts[a]| && alts[a][k].Lit?
        ensures forall m :: 0 <= m < |alts[a][k].word| ==> !IsSpace(alts[a][k].word[m])
      {
        assert alts[a][k].word in ["select", "choose", "size", "sizes"];
      }
    }
    TestUpToSpace(SelectSizeLabel, r, s, 0);
  }

  /** An `<option>`: its `textContent`, `aria-label`, `disabled` and `value`. */
  datatype SelectOption = SelectOption(text: string, aria: string, disabled: bool, value: string)

  /** The picker's three skips: disabled, unavailable ("text aria"), placeholder. */
  predicate Acceptable(o: SelectOption) {
    && !o.disabled
    && !Test(Unavailable, Trim(o.text) + " " + Trim(o.aria))
    && !Test(Placeholder, Trim(o.text))
  }

  /** The index of the first acceptable option at or after `from`. */
  function FirstAcceptable(options: seq<SelectOption>, from: nat): (r: Option<nat>)
    requires from <= |options|
  {
    FirstWhere(options, Acceptable, from)
  }

  lemma SkipUnacceptable(options: seq<SelectOption>, i: nat)
    requires i < |options| && !Acceptable(options[i])
    ensures FirstAcceptable(options, i) == FirstAcceptable(options, i + 1)
  {
  }

  /** What the page reports about one `<select>`: `name`, `id`, `aria-label`, its
      options and `selectedIndex`; `readable` is false when evaluating the element
      failed (the source then skips it). */
  datatype SelectMeta = SelectMeta(readable: bool, name: string, id: string, aria: string,
                                   options: seq<SelectOption>, selectedIndex: int) {
    /** The trimmed text of the selected option, or empty. */
    function SelectedText(): string {
      if 0 <= selectedIndex < |options| then Trim(options[selectedIndex].text) else ""
    }

    /** `hasSelectSizeOption`: some option's trimmed text is a placeholder. (A
        select with an option has an `option` child, so the source's first
        conjunct adds nothing.) */
    predicate HasSelectSizeOption() {
      exists k :: 0 <= k < |options| && Test(Placeholder, Trim(options[k].text))
    }

    /** `looksLikeSize`. */
    predicate LooksLikeSize() {
      || Test(SizeWord, Lower(name)) || Test(SizeWord, Lower(id)) || Test(SizeWord, Lower(aria))
      || HasSelectSizeOption() || IsSelectSize(SelectedText())
    }
  }

  /** A native `<select>` on the page: the facts read from it, and its `value`,
      which the picker assigns. */
  class NativeSelect {
    const meta: SelectMeta
    var value: string

    constructor (meta: SelectMeta, value: string)
      ensures this.meta == meta && this.value == value
    {
      this.meta := meta;
      this.value := value;
    }

    /** The in-page loop of `autoClickSizeIfNeeded`: the first acceptable option's
        value is assigned to the select; with none, nothing changes. */
    method PickFirstAvailable() returns (picked: Option<nat>)
      modifies this
      ensures picked == FirstAcceptable(meta.options, 0)
      ensures picked.Some? ==> value == meta.options[picked.value].value
      ensures picked.None? ==> value == old(value)
    {
      var options := meta.options;
      var i := 0;
      while i < |options|
        invariant 0 <= i <= |options|
        invariant FirstAcceptable(options, 0) == FirstAcceptable(options, i)
        invariant value == old(value)
      {
        var o := options[i];
        var txt := Trim(o.text);
        var aria := Trim(o.aria);
        // disabled, sold out / unavailable, or the placeholder: skip
        if o.disabled || Test(Unavailable, txt + " " + aria) || Test(Placeholder, txt) {
          SkipUnacceptable(options, i);
          i := i + 1;
          continue;
        }
        value := o.value;
        return Some(i);
      }
      return None;
    }
  }

  /** The fallbacks after the native selects, as the page answers them: a button
      named like a size placeholder, a combobox named "size", an element whose text
      is a size placeholder, an aria/data size control. */
  datatype CustomControls = CustomControls(sizeButton: bool, sizeCombobox: bool, sizeText: bool, ariaOrDataSize: bool)

  /** What `autoClickSizeIfNeeded` does. */
  datatype SizeAction =
    | PickedOption(select: nat, option: nat)  // a value was assigned
    | OpenedSelect(select: nat)               // nothing to pick: the select was clicked open
    | ClickedCustomControl
    | ClickedAriaControl
    | NoSizeControl

  predicate IsSizeSelect(m: SelectMeta) {
    m.readable && m.LooksLikeSize()
  }

  /** The first readable select that looks like a size control, at or after `from`. */
  function FirstSizeSelect(metas: seq<SelectMeta>, from: nat): (r: Option<nat>)
    requires from <= |metas|
  {
    FirstWhere(metas, IsSizeSelect, from)
  }

  /** The action taken: only the first size-like select is acted on; the custom
      controls are tried in order only when there is none. */
  function Plan(metas: seq<SelectMeta>, controls: CustomControls): (a: SizeAction)
    ensures a.PickedOption? || a.OpenedSelect? <==> FirstSizeSelect(metas, 0).Some?
    ensures a.PickedOption? ==> Some(a.select) == FirstSizeSelect(metas, 0)
                                && Some(a.option) == FirstAcceptable(metas[a.select].options, 0)
    ensures a.OpenedSelect? ==> Some(a.select) == FirstSizeSelect(metas, 0)
                                && FirstAcceptable(metas[a.select].options, 0).None?
    ensures a.ClickedCustomControl? <==>
              FirstSizeSelect(metas, 0).None? && (controls.sizeButton || controls.sizeCombobox || controls.sizeText)
    ensures a.ClickedAriaControl? <==>
              && FirstSizeSelect(metas, 0).None?
              && !(controls.sizeButton || controls.sizeCombobox || controls.sizeText)
              && controls.ariaOrDataSize
  {
    match FirstSizeSelect(metas, 0)
    case Some(i) =>
      (match FirstAcceptable(metas[i].options, 0)
       case Some(k) => PickedOption(i, k)
       case None => OpenedSelect(i))
    case None =>
      if controls.sizeButton || controls.sizeCombobox || controls.sizeText then ClickedCustomControl
      else if controls.ariaOrDataSize then ClickedAriaControl
      else NoSizeControl
  }

  function Metas(selects: seq<NativeSelect>): (r: seq<SelectMeta>)
    ensures |r| == |selects| && forall i :: 0 <= i < |selects| ==> r[i] == selects[i].meta
  {
    if selects == [] then [] else [selects[0].meta] + Metas(selects[1..])
  }

  /** `autoClickSizeIfNeeded()` over the page's selects (distinct elements) and
      custom controls. The result is `true` whenever some control was acted on. */
  method AutoClickSizeIfNeeded(selects: seq<NativeSelect>, controls: CustomControls)
    returns (clicked: bool, action: SizeAction)
    requires forall i, j :: 0 <= i < j < |selects| ==> selects[i] != selects[j]
    modifies set s | s in selects
    ensures action == Plan(Metas(selects), controls)
    ensures clicked <==> action != NoSizeControl
    ensures action.PickedOption? ==>
              selects[action.select].value == selects[action.select].meta.options[action.option].value
    ensures forall i :: 0 <= i < |selects| && !(action.PickedOption? && action.select == i) ==>
              selects[i].value == old(selects[i].value)
  {
    var metas := Metas(selects);
    var i := 0;
    while i < |selects|
      invariant 0 <= i <= |selects|
      invariant FirstSizeSelect(metas, 0) == FirstSizeSelect(metas, i)
      invariant forall j :: 0 <= j < |selects| ==> selects[j].value == old(selects[j].value)
    {
      var sel := selects[i];
      if !IsSizeSelect(sel.meta) {
        i := i + 1;
        continue;
      }
      var picked := sel.PickFirstAvailable();
      if picked.Some? {
        return true, PickedOption(i, picked.value);
      }
      return true, OpenedSelect(i);
    }
    if controls.sizeButton || controls.sizeCombobox || controls.sizeText {
      return true, ClickedCustomControl;
    }
    if controls.ariaOrDataSize {
      return true, ClickedAriaControl;
    }
    return false, NoSizeControl;
  }

  /** `false` only when no select looks like a size control and every fallback
      finds nothing; a size select with nothing to pick still yields `true`. */
  lemma NothingOnlyWhenNoControl(metas: seq<SelectMeta>, controls: CustomControls)
    ensures Plan(metas, controls) == NoSizeControl <==>
              && (forall j :: 0 <= j < |metas| ==> !(metas[j].readable && metas[j].LooksLikeSize()))
              && !controls.sizeButton && !controls.sizeCombobox && !controls.sizeText && !controls.ariaOrDataSize
  {
  }

  lemma PlaceholderOption(t: string)
    requires t == "Select Size"
    ensures Test(Placeholder, t)
  {
    LitAtWhereSpelled(t, 7, "size", true);
    assert MatchesAt(t, 7, [Lit("size")], true);
    assert MatchesAt(t, 7, [Spaces, Lit("size")], true);
    assert MatchesAt(t, 6, [Spaces, Lit("size")], true);
    LitAtWhereSpelled(t, 0, "select", true);
    assert MatchesAt(t, 0, Placeholder.alternatives[0], true);
    MatchGivesTest(Placeholder, t, 0, 0);
  }

  lemma TrimWord(w: string)
    requires w == [] || (!IsSpace(w[0]) && !IsSpace(w[|w| - 1]))
    ensures Trim(w) == w
  {
    TrimPadded([], w, []);
    assert [] + w + [] == w;
  }

  lemma UnavailableSpells()
    ensures var un: seq<Pattern> := Unavailable.alternatives;
            Mentions(un[0], 'o') && Mentions(un[1], 'o') && Mentions(un[2], 'u')
            && Mentions(un[3], 'o') && Mentions(un[4], 'o')
  {
    var un: seq<Pattern> := Unavailable.alternatives;
    assert 'o' in un[0][0].word && 'o' in un[1][0].word && 'u' in un[2][0].word;
    assert 'o' in un[3][0].word && 'o' in un[4][0].word;
  }

  lemma PlainSizeAvailable(t: string)
    requires t == "M "
    ensures !Test(Unavailable, t)
  {
    UnavailableSpells();
    assert !Occurs(t, 0, 'o', true) && !Occurs(t, 0, 'u', true);
    MissingCharsRefute(Unavailable, t, "oouoo");
  }

  lemma PlainSizeNoPlaceholder(t: string)
    requires t == "M"
    ensures !Test(Placeholder, t)
  {
    var ph := Placeholder.alternatives;
    assert Mentions(ph[0], 's') by { assert 's' in ph[0][0].word; }
    assert Mentions(ph[1], 's') by { assert 's' in ph[1][2].word; }
    MissingCharsRefute(Placeholder, t, "ss");
  }

  lemma PlainSizeAcceptable(w: string, v: string)
    requires w == "M"
    ensures Acceptable(SelectOption(w, "", false, v))
  {
    TrimWord(w);
    TrimWord("");
    assert w + " " + "" == "M ";
    PlainSizeAvailable("M ");
    PlainSizeNoPlaceholder(w);
  }

  /** [Select Size, S (disabled), M, L (Sold Out)]: the picker chooses M. */
  lemma PicksFirstAvailableSize(l: SelectOption)
    ensures FirstAcceptable([SelectOption("Select Size", "", false, ""), SelectOption("S", "", true, "s"),
                             SelectOption("M", "", false, "m"), l], 0) == Some(2)
  {
    var opts := [SelectOption("Select Size", "", false, ""), SelectOption("S", "", true, "s"),
                 SelectOption("M", "", false, "m"), l];
    TrimWord("Select Size");
    PlaceholderOption("Select Size");
    assert !Acceptable(opts[0]);
    assert !Acceptable(opts[1]);
    PlainSizeAcceptable("M", "m");
    assert Acceptable(opts[2]);
  }
}
