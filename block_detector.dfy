/** `detectBlock` of `proxyBrowser.js`: whether a navigation landed on an
    anti-automation or access-denied page. The live page is replaced by the facts
    the function reads from it (visible body text, title, number of rich-media
    elements) and the navigation response by its status and header list. */
module BlockDetector {
  import opened Wrappers
  import opened Text
  import opened Regex

  /** What `detectBlock` reads from the navigation response. `status` is `None` when
      the response exposes no status. */
  datatype NavResponse = NavResponse(status: Option<int>, headers: seq<(string, string)>)

  /** What `detectBlock` reads from the page: `document.body.innerText` (empty when
      there is no body), `page.title()` (empty when there is none) and the number of
      `img, video, canvas, svg` elements. The body text is read twice by the source;
      both reads are taken to agree. */
  datatype PageFacts = PageFacts(bodyText: string, title: string, richMedia: nat)

  /** `navResponse?.status ?? 0`: a missing response or status counts as 0. */
  function StatusOf(nav: Option<NavResponse>): int {
    match nav
    case None => 0
    case Some(r) => r.status.GetOr(0)
  }

  /** The header object rebuilt with lower-cased names. */
  function LowerHeaders(hs: seq<(string, string)>): map<string, string> {
    if hs == [] then map[]
    else LowerHeaders(hs[..|hs| - 1])[Lower(hs[|hs| - 1].0) := hs[|hs| - 1].1]
  }

  /** Every header name is present lower-cased; every key comes from some header
      with that value; and a later entry whose name lower-cases to the same key
      replaces an earlier one. */
  lemma {:induction false} LowerHeadersKeys(hs: seq<(string, string)>)
    ensures forall i :: 0 <= i < |hs| ==> Lower(hs[i].0) in LowerHeaders(hs)
    ensures forall k :: k in LowerHeaders(hs) ==>
              exists i :: 0 <= i < |hs| && Lower(hs[i].0) == k && LowerHeaders(hs)[k] == hs[i].1
    ensures hs != [] ==> LowerHeaders(hs)[Lower(hs[|hs| - 1].0)] == hs[|hs| - 1].1
  {
    if hs != [] {
      var init := hs[..|hs| - 1];
      LowerHeadersKeys(init);
      var m := LowerHeaders(hs);
      var last := hs[|hs| - 1];
      assert m == LowerHeaders(init)[Lower(last.0) := last.1];
      forall i | 0 <= i < |hs| - 1 ensures Lower(hs[i].0) in m { assert hs[i] == init[i]; }
      forall k | k in m
        ensures exists i :: 0 <= i < |hs| && Lower(hs[i].0) == k && m[k] == hs[i].1
      {
        if k == Lower(last.0) {
          assert Lower(hs[|hs| - 1].0) == k && m[k] == hs[|hs| - 1].1;
        } else {
          assert k in LowerHeaders(init);
          var j :| 0 <= j < |init| && Lower(init[j].0) == k && LowerHeaders(init)[k] == init[j].1;
          assert Lower(hs[j].0) == k && m[k] == hs[j].1;
        }
      }
    }
  }

  function HeadersOf(nav: Option<NavResponse>): map<string, string> {
    match nav
    case None => map[]
    case Some(r) => LowerHeaders(r.headers)
  }

  const BlockStatuses: set<int> := {401, 403, 407, 429, 503}

  /** The hard text signals, in the source's order. */
  const HardTextSignals: seq<Regex> := [
    Regex([[Lit("access"), Spaces, Lit("denied")]], true),
    Regex([[Lit("Access Has Been Denied")]], true),
    // `don'?t`: the optional apostrophe as two alternatives
    Regex([[Lit("you"), Spaces, Lit("don't"), Spaces, Lit("have"), Spaces, Lit("permission"), Spaces,
             Lit("to"), Spaces, Lit("access")],
           [Lit("you"), Spaces, Lit("dont"), Spaces, Lit("have"), Spaces, Lit("permission"), Spaces,
             Lit("to"), Spaces, Lit("access")]], true),
    Regex([[Lit("request"), Spaces, Lit("blocked")]], true),
    // an Akamai / CloudFront reference id
    Regex([[Lit("reference"), Spaces, Lit("#"), Spaces, HexRun(6)]], true),
    Regex([[Lit("attention"), Spaces, Lit("required")]], true),
    Regex([[Lit("unusual"), Spaces, Lit("traffic")]], true)
  ]

  /** `/access\s*denied|forbidden/i` on the title. */
  const TitleSignal: Regex := Regex([[Lit("access"), Spaces, Lit("denied")], [Lit("forbidden")]], true)

  /** `/\bforbidden\b|not\s*authorized|captcha/i` on the body text. */
  const SoftTextSignal: Regex :=
    Regex([[Boundary, Lit("forbidden"), Boundary], [Lit("not"), Spaces, Lit("authorized")], [Lit("captcha")]], true)

  const CloudflareServer: Regex := Regex([[Lit("cloudflare")]], true)
  const CloudfrontError: Regex := Regex([[Lit("error from cloudfront")]], true)

  /** Header names whose mere presence fingerprints a WAF or CDN. */
  const FingerprintHeaders: seq<string> :=
    ["cf-ray", "x-akamai-session-info", "x-distil", "x-perimeterx", "x-datadome", "x-sucuri-id"]

  /** `hardTextSignals.some(rx => rx.test(bodyText))`. */
  predicate HardText(body: string) {
    exists k :: 0 <= k < |HardTextSignals| && Test(HardTextSignals[k], body)
  }

  /** `headers[name] || ''`. */
  function HeaderValue(headers: map<string, string>, name: string): string {
    if name in headers then headers[name] else ""
  }

  /** The WAF/CDN header hint. */
  predicate HeaderHint(headers: map<string, string>) {
    || (exists k :: 0 <= k < |FingerprintHeaders| && FingerprintHeaders[k] in headers)
    || Test(CloudflareServer, HeaderValue(headers, "server"))
    || Test(CloudfrontError, HeaderValue(headers, "x-cache"))
  }

  /** The page clearly rendered content: more than 500 code units of trimmed text,
      or at least four rich-media elements. */
  predicate HasRealContent(page: PageFacts) {
    Utf16Length(Trim(page.bodyText)) > 500 || page.richMedia >= 4
  }

  /** How many soft hints the page shows (text, headers). */
  function HintCount(nav: Option<NavResponse>, page: PageFacts): (n: nat)
    ensures n <= 2
  {
    (if Test(SoftTextSignal, page.bodyText) then 1 else 0) + (if HeaderHint(HeadersOf(nav)) then 1 else 0)
  }

  /** The verdict: a blocking status, a hard text signal or a blocking title decide
      at once; otherwise the soft hints must outnumber the one-hint allowance a page
      with real content gets. */
  predicate Blocked(nav: Option<NavResponse>, page: PageFacts) {
    || StatusOf(nav) in BlockStatuses
    || HardText(page.bodyText)
    || Test(TitleSignal, page.title)
    || HintCount(nav, page) > (if HasRealContent(page) then 1 else 0)
  }

  /** `detectBlock(page, navResponse)`, with its mutable soft score. */
  method DetectBlock(nav: Option<NavResponse>, page: PageFacts) returns (blocked: bool)
    ensures blocked == Blocked(nav, page)
  {
    var status := StatusOf(nav);
    var headers := HeadersOf(nav);
    if status in BlockStatuses {
      return true;
    }
    if HardText(page.bodyText) {
      return true;
    }
    if Test(TitleSignal, page.title) {
      return true;
    }
    var score := 0;
    if Test(SoftTextSignal, page.bodyText) {
      score := score + 1;
    }
    if HeaderHint(headers) {
      score := score + 1;
    }
    if HasRealContent(page) {
      score := if score - 1 > 0 then score - 1 else 0;
    }
    blocked := score >= 1;
  }

  /** A blocking status decides, whatever the page and headers say. */
  lemma BlockingStatusWins(nav: Option<NavResponse>, page: PageFacts)
    requires StatusOf(nav) in BlockStatuses
    ensures Blocked(nav, page)
  {
  }

  /** A missing response, or one without a status, reads as status 0 and is never
      blocked for its status alone. */
  lemma MissingStatusIsZero(headers: seq<(string, string)>)
    ensures StatusOf(None) == 0 && StatusOf(Some(NavResponse(None, headers))) == 0
    ensures 0 !in BlockStatuses
  {
  }

  /** A hard text signal or a blocking title decides, even on a page full of real
      content and with no soft hint. */
  lemma HardTextBeatsContent(nav: Option<NavResponse>, page: PageFacts)
    requires HardText(page.bodyText) || Test(TitleSignal, page.title)
    ensures Blocked(nav, page)
  {
  }

  /** Without a decisive signal, the verdict is the soft score `max(0, hints -
      content) >= 1` of the source. */
  lemma SoftScore(nav: Option<NavResponse>, page: PageFacts)
    requires StatusOf(nav) !in BlockStatuses && !HardText(page.bodyText) && !Test(TitleSignal, page.title)
    ensures var score := HintCount(nav, page) - (if HasRealContent(page) then 1 else 0);
            Blocked(nav, page) <==> (if score > 0 then score else 0) >= 1
  {
  }

  /** No soft hint and no decisive signal: never blocked. */
  lemma NoHintsNotBlocked(nav: Option<NavResponse>, page: PageFacts)
    requires StatusOf(nav) !in BlockStatuses && !HardText(page.bodyText) && !Test(TitleSignal, page.title)
    requires !Test(SoftTextSignal, page.bodyText) && !HeaderHint(HeadersOf(nav))
    ensures !Blocked(nav, page)
  {
  }

  /** Both soft hints block even a content-rich page. */
  lemma TwoHintsBlock(nav: Option<NavResponse>, page: PageFacts)
    requires Test(SoftTextSignal, page.bodyText) && HeaderHint(HeadersOf(nav))
    ensures Blocked(nav, page)
  {
  }

  /** A single soft hint blocks exactly when the page has no real content. */
  lemma OneHint(nav: Option<NavResponse>, page: PageFacts)
    requires StatusOf(nav) !in BlockStatuses && !HardText(page.bodyText) && !Test(TitleSignal, page.title)
    requires Test(SoftTextSignal, page.bodyText) != HeaderHint(HeadersOf(nav))
    ensures Blocked(nav, page) <==> !HasRealContent(page)
  {
  }

  /** Header names are compared after lower-casing: a `CF-Ray` header in any case is
      a header hint. */
  lemma HeaderNameCaseIgnored(status: Option<int>, hs: seq<(string, string)>, i: nat)
    requires i < |hs| && Lower(hs[i].0) == "cf-ray"
    ensures HeaderHint(HeadersOf(Some(NavResponse(status, hs))))
  {
    LowerHeadersKeys(hs);
    assert FingerprintHeaders[0] == "cf-ray";
  }

  lemma CfRayUpperCase()
    ensures Lower("CF-Ray") == "cf-ray"
  {
    var l := Lower("CF-Ray");
    assert l[0] == 'c' && l[1] == 'f' && l[2] == '-' && l[3] == 'r' && l[4] == 'a' && l[5] == 'y';
  }

  lemma AccessDeniedTail(t: string)
    requires t == "Access Denied"
    ensures LitAt(t, 7, "denied", true)
  {
    LitAtWhereSpelled(t, 7, "denied", true);
  }

  lemma AccessDeniedHead(t: string)
    requires t == "Access Denied"
    ensures LitAt(t, 0, "access", true)
  {
    LitAtWhereSpelled(t, 0, "access", true);
  }

  lemma AccessDeniedMatch(t: string)
    requires t == "Access Denied"
    ensures MatchesAt(t, 0, HardTextSignals[0].alternatives[0], true)
  {
    AccessDeniedTail(t);
    AccessDeniedHead(t);
    assert MatchesAt(t, 7, [Lit("denied")], true);
    assert MatchesAt(t, 7, [Spaces, Lit("denied")], true);
    assert MatchesAt(t, 6, [Spaces, Lit("denied")], true);
  }

  /** A body reading "Access Denied" is blocked, however rich the page. */
  lemma AccessDeniedPage(nav: Option<NavResponse>, page: PageFacts)
    requires page.bodyText == "Access Denied"
    ensures Blocked(nav, page)
  {
    AccessDeniedMatch(page.bodyText);
    MatchGivesTest(HardTextSignals[0], page.bodyText, 0, 0);
    assert HardText(page.bodyText);
  }

  /** `[0-9a-f-]` under the `i` flag. */
  predicate IsHexDigitOrDash(c: char) {
    IsDigit(c) || ('a' <= c <= 'f') || ('A' <= c <= 'F') || c == '-'
  }

  /** "#", white space up to `a4`, and six hexadecimal digits or dashes match the
      tail of the reference-id pattern at `a2`. */
  lemma ReferenceIdTail(t: string, a2: nat, a4: nat)
    requires a2 + 1 <= a4 && a4 + 6 <= |t|
    requires LitAt(t, a2, "#", true)
    requires forall m :: a2 + 1 <= m < a4 ==> IsSpace(t[m])
    requires forall m :: a4 <= m < a4 + 6 ==> IsHexOrDash(t[m], true)
    ensures MatchesAt(t, a2, [Lit("#"), Spaces, HexRun(6)], true)
  {
    HexRunMatches(t, a4, 6, true);
    LitSpacesThen(t, a2, "#", a4, [HexRun(6)], true);
    assert [Lit("#"), Spaces] + [HexRun(6)] == [Lit("#"), Spaces, HexRun(6)];
  }

  /** The reference-id pattern matches at `a0` when the text reads "reference" up
      to case there, then white space up to `a2`, and the tail matches at `a2`. */
  lemma ReferenceIdAt(t: string, a0: nat, a2: nat)
    requires a0 + 9 <= a2 <= |t|
    requires LitAt(t, a0, "reference", true)
    requires forall m :: a0 + 9 <= m < a2 ==> IsSpace(t[m])
    requires MatchesAt(t, a2, [Lit("#"), Spaces, HexRun(6)], true)
    ensures MatchesAt(t, a0, [Lit("reference"), Spaces, Lit("#"), Spaces, HexRun(6)], true)
  {
    var rest := [Lit("#"), Spaces, HexRun(6)];
    LitSpacesThen(t, a0, "reference", a2, rest, true);
    assert [Lit("reference"), Spaces] + rest == [Lit("reference"), Spaces, Lit("#"), Spaces, HexRun(6)];
  }

  /** A match of the reference-id pattern anywhere makes the text a hard signal. */
  lemma ReferenceIdHard(t: string, a0: nat)
    requires a0 <= |t|
    requires MatchesAt(t, a0, [Lit("reference"), Spaces, Lit("#"), Spaces, HexRun(6)], true)
    ensures HardText(t)
  {
    assert HardTextSignals[4].alternatives[0] == [Lit("reference"), Spaces, Lit("#"), Spaces, HexRun(6)];
    MatchGivesTest(HardTextSignals[4], t, a0, 0);
  }

  /** An Akamai-style reference id is a hard signal: a body holding "reference"
      in any case, optional white space, '#', optional white space and a run of
      six or more hexadecimal digits or dashes, anywhere in the text, is blocked
      whatever the status, headers or content. */
  lemma ReferenceIdPage(nav: Option<NavResponse>, page: PageFacts,
                        pre: string, w: string, sp1: string, sp2: string, run: string, post: string)
    requires page.bodyText == pre + w + sp1 + "#" + sp2 + run + post
    requires |w| == 9 && forall m :: 0 <= m < 9 ==> Fold(w[m]) == Fold("reference"[m])
    requires AllSpace(sp1) && AllSpace(sp2)
    requires |run| >= 6 && forall m :: 0 <= m < |run| ==> IsHexDigitOrDash(run[m])
    ensures Blocked(nav, page)
  {
    var t := page.bodyText;
    var a0 := |pre|;
    var a2 := a0 + 9 + |sp1|;
    var a4 := a2 + 1 + |sp2|;
    var u := pre + w + sp1;
    var v := "#" + sp2 + run + post;
    assert t == u + v;
    forall m | 0 <= m < 9 ensures Canon(t[a0 + m], true) == Canon("reference"[m], true) {
      assert t[a0 + m] == u[a0 + m] == w[m];
    }
    forall m | a0 + 9 <= m < a2 ensures IsSpace(t[m]) { assert t[m] == u[m] == sp1[m - a0 - 9]; }
    assert t[a2] == v[0] == '#';
    forall m | a2 + 1 <= m < a4 ensures IsSpace(t[m]) { assert t[m] == v[m - a2] == sp2[m - a2 - 1]; }
    forall m | a4 <= m < a4 + 6 ensures IsHexOrDash(t[m], true) {
      assert t[m] == v[m - a2] == run[m - a4];
    }
    LitAtWhereSpelled(t, a2, "#", true);
    ReferenceIdTail(t, a2, a4);
    LitAtWhereSpelled(t, a0, "reference", true);
    ReferenceIdAt(t, a0, a2);
    ReferenceIdHard(t, a0);
  }
}
