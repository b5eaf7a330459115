/** The navigation policy of `proxyBrowser.js`: one attempt of
    `openUrlWithPlaywright` reduced to its outcome, the proxy chosen for it by
    `resolvePlaywrightProxy`, and `openUrlPlayWright`, which tries directly first
    and through the proxy once more when the direct attempt is unusable. The
    browser session itself (launch, navigation, waits, capture) is replaced by the
    facts it yields. */
module PlaywrightRetry {
  import opened Wrappers
  import opened BlockDetector

  /** The module's proxy server and credential constants, made a parameter. */
  datatype ProxyConfig = ProxyConfig(server: string, username: string, password: string)

  /** The `{ server, username, password }` object handed to the browser launch. */
  datatype ProxySettings = ProxySettings(server: string, username: string, password: string)

  /** `resolvePlaywrightProxy(useProxy)`. Its first `try` builds `new URL(url)` from
      a name that is not bound in that scope, so it always throws a ReferenceError
      that the empty `catch` swallows; the result is then decided by the
      configuration alone, each part of which must be a non-empty string. */
  function ResolveProxy(useProxy: bool, config: ProxyConfig): (r: Option<ProxySettings>)
    ensures r.Some? <==> useProxy && config.server != [] && config.username != [] && config.password != []
    ensures r.Some? ==> r.value == ProxySettings(config.server, config.username, config.password)
  {
    if !useProxy then None
    else if config.server != [] && config.username != [] && config.password != [] then
      Some(ProxySettings(config.server, config.username, config.password))
    else None
  }

  /** What one browser session meets: either navigation throws, or the page loads
      with a response, page facts and the HTML captured at the end. */
  datatype AttemptFacts =
    | NavigationFailed(message: string)
    | Loaded(nav: Option<NavResponse>, page: PageFacts, html: string)

  /** The object an unblocked attempt returns (screenshot and styles aside). */
  datatype PageResult = PageResult(status: int, blocked: bool, html: string)

  /** How `openUrlWithPlaywright` ends: it returns the result object, returns
      `undefined` (a blocked page: the page is closed and a bare `return` runs), or
      throws. */
  datatype Outcome = Returned(result: PageResult) | Undefined | Threw(message: string)

  /** The outcome the attempt's facts determine. */
  function AttemptOutcome(facts: AttemptFacts): Outcome {
    match facts
    case NavigationFailed(m) => Threw(m)
    case Loaded(nav, page, html) =>
      if Blocked(nav, page) then Undefined else Returned(PageResult(StatusOf(nav), false, html))
  }

  /** `openUrlWithPlaywright(req, url, useProxy, ...)`: the proxy the browser is
      launched with, and how the attempt ends. */
  method OpenUrlWithPlaywright(useProxy: bool, config: ProxyConfig, facts: AttemptFacts)
    returns (launchedWith: Option<ProxySettings>, outcome: Outcome)
    ensures launchedWith == ResolveProxy(useProxy, config)
    ensures outcome == AttemptOutcome(facts)
  {
    launchedWith := ResolveProxy(useProxy, config);
    match facts {
      case NavigationFailed(m) =>
        return launchedWith, Threw(m);
      case Loaded(nav, page, html) =>
        var looksBlocked := DetectBlock(nav, page);
        if looksBlocked {
          return launchedWith, Undefined;
        }
        return launchedWith, Returned(PageResult(StatusOf(nav), looksBlocked, html));
    }
  }

  /** The direct result `openUrlPlayWright` keeps: a returned object that is not
      blocked and whose `status || 0` is not a blocking status. */
  predicate Usable(o: Outcome) {
    o.Returned? && !o.result.blocked && o.result.status !in BlockStatuses
  }

  /** `openUrlPlayWright(req, url, headLess)`. `launches` lists the proxy of every
      browser session started, in order. */
  method OpenUrlPlayWright(config: ProxyConfig, direct: AttemptFacts, proxied: AttemptFacts)
    returns (outcome: Outcome, launches: seq<Option<ProxySettings>>)
    ensures 1 <= |launches| <= 2 && launches[0] == None
    ensures |launches| == 1 <==> Usable(AttemptOutcome(direct))
    ensures |launches| == 1 ==> outcome == AttemptOutcome(direct)
    ensures |launches| == 2 ==> launches[1] == ResolveProxy(true, config) && outcome == AttemptOutcome(proxied)
  {
    var proxy, first := OpenUrlWithPlaywright(false, config, direct);
    launches := [proxy];
    match first {
      case Returned(pw) =>
        if !pw.blocked && pw.status !in BlockStatuses {
          return first, launches;
        }
      case Undefined =>
        // reading `blocked` of `undefined` throws a TypeError, caught like any other error
      case Threw(_) =>
    }
    var retryProxy, second := OpenUrlWithPlaywright(true, config, proxied);
    launches := launches + [retryProxy];
    outcome := second;
  }

  /** An attempt that returns an object was not blocked, so its status is never a
      blocking one: the status test of `openUrlPlayWright` cannot fire by itself. */
  lemma ReturnedIsUsable(facts: AttemptFacts)
    requires AttemptOutcome(facts).Returned?
    ensures Usable(AttemptOutcome(facts))
  {
    var nav := facts.nav;
    assert !Blocked(nav, facts.page);
  }

  /** Hence the retry runs exactly when the direct attempt threw or met a blocked
      page. */
  lemma RetryExactlyWhenBlockedOrFailed(direct: AttemptFacts)
    ensures !Usable(AttemptOutcome(direct)) <==> direct.NavigationFailed? || Blocked(direct.nav, direct.page)
  {
    if AttemptOutcome(direct).Returned? { ReturnedIsUsable(direct); }
  }
}
