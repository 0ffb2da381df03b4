/**
 * The authenticated session: capturing it from the browser the user logged
 * in with, and replaying it into the worker's testing browser (the cookie
 * dictionaries handed to the browser, the base URL it is sent to first and
 * the check that it did not land on a login page).
 */
module Session {
  import opened Wrappers
  import opened Strings

  // ---------------------------------------------------------------------------
  // cookies

  /**
   * A cookie as stored in the session file. A field missing from the
   * stored dictionary is `None`.
   */
  datatype RawCookie = RawCookie(
    name: Option<string>,
    value: Option<string>,
    domain: Option<string>,
    path: Option<string>,
    secure: Option<bool>,
    httpOnly: Option<bool>)

  /** The dictionary handed to the browser's `add_cookie`. */
  datatype CookieDict = CookieDict(
    name: string,
    value: string,
    domain: Option<string>,
    path: string,
    secure: Option<bool>,
    httpOnly: Option<bool>)

  /** Python truthiness of an optional string field: present and non-empty. */
  predicate Truthy(f: Option<string>) {
    f.Some? && f.value != []
  }

  /**
   * The cleaned-up cookie: name and value are required (a missing one
   * raises and the cookie is skipped, `None`); a non-empty domain is kept;
   * the path defaults to `/`; the security flags are copied when present.
   */
  function NormalizeCookie(c: RawCookie): (r: Option<CookieDict>)
    ensures r.Some? <==> c.name.Some? && c.value.Some?
    ensures r.Some? ==> r.value.name == c.name.value && r.value.value == c.value.value
    ensures r.Some? ==> (r.value.domain.Some? <==> Truthy(c.domain)) && (Truthy(c.domain) ==> r.value.domain == c.domain)
    ensures r.Some? ==> r.value.path != [] && (Truthy(c.path) ==> r.value.path == c.path.value)
    ensures r.Some? && !Truthy(c.path) ==> r.value.path == "/"
    ensures r.Some? ==> r.value.secure == c.secure && r.value.httpOnly == c.httpOnly
  {
    if c.name.None? || c.value.None? then None
    else
      Some(CookieDict(
        c.name.value, c.value.value,
        if Truthy(c.domain) then c.domain else None,
        if Truthy(c.path) then c.path.value else "/",
        c.secure, c.httpOnly))
  }

  /** A cookie dictionary written back as a stored cookie. */
  function AsRaw(d: CookieDict): RawCookie {
    RawCookie(Some(d.name), Some(d.value), d.domain, Some(d.path), d.secure, d.httpOnly)
  }

  /** Normalising a dictionary that is already clean gives it back unchanged. */
  lemma NormalizeCookieRoundTrip(d: CookieDict)
    requires d.path != [] && (d.domain.Some? ==> d.domain.value != [])
    ensures NormalizeCookie(AsRaw(d)) == Some(d)
  {
  }

  /**
   * The cookies the browser holds after the cookies are applied in order:
   * a cookie enters the jar when it normalises and the browser accepts it
   * (`accepts` stands for `add_cookie` not raising).
   */
  function AppliedCookies(cookies: seq<RawCookie>, accepts: CookieDict -> bool): (jar: seq<CookieDict>)
    ensures |jar| <= |cookies|
  {
    if |cookies| == 0 then []
    else
      var last := cookies[|cookies| - 1];
      AppliedCookies(cookies[..|cookies| - 1], accepts)
        + (if NormalizeCookie(last).Some? && accepts(NormalizeCookie(last).value) then [NormalizeCookie(last).value] else [])
  }

  /** Every cookie in the jar is the cleaned-up form of a stored cookie the browser accepted. */
  lemma {:induction false} AppliedCookiesFromStored(cookies: seq<RawCookie>, accepts: CookieDict -> bool)
    ensures forall k :: 0 <= k < |AppliedCookies(cookies, accepts)| ==>
      accepts(AppliedCookies(cookies, accepts)[k])
      && exists i :: 0 <= i < |cookies| && NormalizeCookie(cookies[i]) == Some(AppliedCookies(cookies, accepts)[k])
  {
    if |cookies| > 0 {
      var init := cookies[..|cookies| - 1];
      AppliedCookiesFromStored(init, accepts);
      forall k | 0 <= k < |AppliedCookies(init, accepts)|
        ensures exists i :: 0 <= i < |cookies| && NormalizeCookie(cookies[i]) == Some(AppliedCookies(init, accepts)[k])
      {
        var i :| 0 <= i < |init| && NormalizeCookie(init[i]) == Some(AppliedCookies(init, accepts)[k]);
        assert cookies[i] == init[i];
      }
    }
  }

  /** When every stored cookie is well formed and accepted, the jar holds all of them, in order. */
  lemma {:induction false} AppliedCookiesAll(cookies: seq<RawCookie>, accepts: CookieDict -> bool)
    requires forall i :: 0 <= i < |cookies| ==> NormalizeCookie(cookies[i]).Some? && accepts(NormalizeCookie(cookies[i]).value)
    ensures |AppliedCookies(cookies, accepts)| == |cookies|
    ensures forall i :: 0 <= i < |cookies| ==> Some(AppliedCookies(cookies, accepts)[i]) == NormalizeCookie(cookies[i])
  {
    if |cookies| > 0 {
      var init := cookies[..|cookies| - 1];
      AppliedCookiesAll(init, accepts);
      assert forall i :: 0 <= i < |init| ==> init[i] == cookies[i];
    }
  }

  /**
   * Applies the stored cookies to the browser one by one, counting the
   * cookies applied and the cookies that failed; a failing cookie is
   * skipped and the session replay still reports success.
   */
  method ApplySessionCookies(cookies: seq<RawCookie>, accepts: CookieDict -> bool)
    returns (jar: seq<CookieDict>, applied: nat, failed: nat, success: bool)
    ensures jar == AppliedCookies(cookies, accepts)
    ensures applied == |jar| && applied + failed == |cookies|
    ensures success
  {
    jar, applied, failed := [], 0, 0;
    var i := 0;
    while i < |cookies|
      invariant 0 <= i <= |cookies|
      invariant jar == AppliedCookies(cookies[..i], accepts)
      invariant applied == |jar| && applied + failed == i
    {
      assert cookies[..i + 1][..i] == cookies[..i];
      var d := NormalizeCookie(cookies[i]);
      if d.Some? && accepts(d.value) {
        jar := jar + [d.value];
        applied := applied + 1;
      } else {
        failed := failed + 1;
      }
      i := i + 1;
    }
    assert cookies[..i] == cookies;
    success := true;
  }

  // ---------------------------------------------------------------------------
  // base URL

  const DefaultSessionUrl := "https://www.yardipcv.com"

  /** The URL a session was captured on, or the default site when the session does not record one. */
  function SessionUrl(currentUrl: Option<string>): string {
    if currentUrl.Some? then currentUrl.value else DefaultSessionUrl
  }

  /** The scheme and host of a URL: its first three `/`-separated fields joined again. */
  function BaseUrl(url: string): (r: string)
    ensures StartsWith(url, r)
    ensures var parts := SplitOn(url, '/');
      SplitOn(r, '/') == parts[..if |parts| < 3 then |parts| else 3]
  {
    var parts := SplitOn(url, '/');
    var n := if |parts| < 3 then |parts| else 3;
    SplitJoin(url, '/');
    JoinPrefix(parts, n, "/");
    JoinSplit(parts[..n], '/');
    Join(parts[..n], "/")
  }

  /** A URL with exactly three `/`-separated fields is its own base URL. */
  lemma BaseUrlOfThreeFields(url: string)
    requires |SplitOn(url, '/')| == 3
    ensures BaseUrl(url) == url
  {
    var parts := SplitOn(url, '/');
    assert parts[..3] == parts;
    SplitJoin(BaseUrl(url), '/');
    SplitJoin(url, '/');
  }

  /** The default site's URL splits at `/` into three fields: the scheme, an empty field and the host. */
  lemma DefaultSessionUrlSplit()
    ensures SplitOn(DefaultSessionUrl, '/') == ["https:", "", "www.yardipcv.com"]
  {
    var parts := ["https:", "", "www.yardipcv.com"];
    assert Join(parts, "/") == DefaultSessionUrl by {
      assert Join(parts[2..], "/") == "www.yardipcv.com";
      assert Join(parts[1..], "/") == "" + "/" + "www.yardipcv.com";
    }
    assert forall j :: 0 <= j < |parts| ==> '/' !in parts[j];
    JoinSplit(parts, '/');
  }

  /**
   * The default site is its own base URL, so the captured URL's two
   * defaults (the site itself, and the base URL of the site) agree.
   */
  lemma DefaultSessionUrlIsBase()
    ensures BaseUrl(DefaultSessionUrl) == DefaultSessionUrl
  {
    DefaultSessionUrlSplit();
    BaseUrlOfThreeFields(DefaultSessionUrl);
  }

  /** Taking the base URL of a base URL changes nothing. */
  lemma BaseUrlIdempotent(url: string)
    ensures BaseUrl(BaseUrl(url)) == BaseUrl(url)
  {
    var parts := SplitOn(url, '/');
    var n := if |parts| < 3 then |parts| else 3;
    var head := parts[..n];
    assert SplitOn(BaseUrl(url), '/') == head;
    assert head[..n] == head;
  }

  // ---------------------------------------------------------------------------
  // login pages

  /** Title words that make the freshly hydrated browser warn that it may still be on a login page. */
  const HydrationLoginIndicators: seq<string> := ["login", "sign in", "authenticate", "invalid"]

  /** Title words that make the worker drop its persistent browser. */
  const EvictionLoginIndicators: seq<string> := ["login", "sign in", "authenticate"]

  /** The hydration warning: the eviction words, or "invalid", in the lower-case title. */
  predicate HydrationWarns(title: string)
    ensures HydrationWarns(title) <==> Evicts(title) || Contains(Lower(title), "invalid")
  {
    HydrationIndicatorsExtend(Lower(title));
    AnyMatch(HydrationLoginIndicators, Lower(title))
  }

  /** The eviction test: "login", "sign in" or "authenticate" in the lower-case title. */
  predicate Evicts(title: string)
    ensures Evicts(title) <==>
      Contains(Lower(title), "login") || Contains(Lower(title), "sign in") || Contains(Lower(title), "authenticate")
  {
    var t := Lower(title);
    assert AnyMatch(EvictionLoginIndicators, t) ==> Contains(t, "login") || Contains(t, "sign in") || Contains(t, "authenticate");
    assert Contains(t, "login") ==> Contains(t, EvictionLoginIndicators[0]);
    assert Contains(t, "sign in") ==> Contains(t, EvictionLoginIndicators[1]);
    assert Contains(t, "authenticate") ==> Contains(t, EvictionLoginIndicators[2]);
    AnyMatch(EvictionLoginIndicators, t)
  }

  /** The hydration list is the eviction list followed by "invalid". */
  lemma HydrationIndicatorsExtend(t: string)
    ensures AnyMatch(HydrationLoginIndicators, t) <==> AnyMatch(EvictionLoginIndicators, t) || Contains(t, "invalid")
  {
    assert HydrationLoginIndicators == EvictionLoginIndicators + ["invalid"];
    if AnyMatch(HydrationLoginIndicators, t) {
      var j :| 0 <= j < |HydrationLoginIndicators| && Contains(t, HydrationLoginIndicators[j]);
      if j < 3 {
        assert EvictionLoginIndicators[j] == HydrationLoginIndicators[j];
      }
    }
    if AnyMatch(EvictionLoginIndicators, t) {
      var j :| 0 <= j < |EvictionLoginIndicators| && Contains(t, EvictionLoginIndicators[j]);
      assert HydrationLoginIndicators[j] == EvictionLoginIndicators[j];
    }
    if Contains(t, "invalid") {
      assert Contains(t, HydrationLoginIndicators[3]);
    }
  }

  /**
   * The two lists disagree: every title that evicts the persistent browser
   * also makes hydration warn, but a title saying only "invalid" makes
   * hydration warn and still keeps the browser.
   */
  lemma LoginIndicatorsDisagree(title: string)
    ensures Evicts(title) ==> HydrationWarns(title)
    ensures HydrationWarns("Invalid") && !Evicts("Invalid")
  {
    if Evicts(title) {
      var j :| 0 <= j < |EvictionLoginIndicators| && Contains(Lower(title), EvictionLoginIndicators[j]);
      assert HydrationLoginIndicators[j] == EvictionLoginIndicators[j];
    }
    var l := Lower("Invalid");
    assert l == "invalid";
    assert MatchAt(l, HydrationLoginIndicators[3], 0);
    forall j | 0 <= j < |EvictionLoginIndicators| ensures !Contains(l, EvictionLoginIndicators[j]) {
      if j == 0 {
        forall i: nat | i + 5 <= 7 ensures !MatchAt(l, "login", i) {
          assert l[i] != 'l';
        }
      } else if j == 1 {
        assert !MatchAt(l, "sign in", 0) by { assert l[0] != 's'; }
      }
    }
  }

  // ---------------------------------------------------------------------------
  // replay and capture

  /** What the session file holds. */
  datatype SessionData = SessionData(cookies: seq<RawCookie>, currentUrl: Option<string>, pageTitle: string, domain: Option<string>)

  /** A testing browser: the page it is on and the cookies it holds. */
  datatype Browser = Browser(currentUrl: string, cookies: seq<CookieDict>)

  /**
   * How the browser behaves while the session is replayed: whether it
   * starts, whether navigation raises, which cookies it accepts and the
   * title of the page reached with the session.
   */
  datatype BrowserEnv = BrowserEnv(starts: bool, navigationFails: bool, accepts: CookieDict -> bool, titleAfter: string)

  /**
   * A replayed session: the browser, whether its title suggested a login
   * page (only a warning), and the pages opened during the replay, in order.
   */
  datatype Hydrated = Hydrated(browser: Browser, suspectLogin: bool, visited: seq<string>)

  /**
   * `create_testing_browser_with_session`: open the base URL, apply the
   * cookies, then open the captured URL (the base URL when none is
   * recorded, which is the default site again). A browser that does not start or
   * a navigation that raises gives `None`; a login-looking title only
   * warns, and the browser is returned either way.
   */
  function Hydrate(data: SessionData, env: BrowserEnv): (r: Option<Hydrated>)
    ensures r.Some? <==> env.starts && !env.navigationFails
    ensures r.Some? ==> r.value.browser.currentUrl == SessionUrl(data.currentUrl)
    ensures r.Some? ==> r.value.browser.cookies == AppliedCookies(data.cookies, env.accepts)
    ensures r.Some? ==> (r.value.suspectLogin <==> HydrationWarns(env.titleAfter))
    ensures r.Some? ==> r.value.visited == [BaseUrl(SessionUrl(data.currentUrl)), SessionUrl(data.currentUrl)]
    ensures r.Some? ==> StartsWith(r.value.visited[1], r.value.visited[0])
  {
    if !env.starts || env.navigationFails then None
    else
      var base := BaseUrl(SessionUrl(data.currentUrl));
      var test := if data.currentUrl.Some? then data.currentUrl.value else base;
      DefaultSessionUrlIsBase();
      var jar := AppliedCookies(data.cookies, env.accepts);
      Some(Hydrated(Browser(test, jar), HydrationWarns(env.titleAfter), [base, test]))
  }

  /**
   * `extract_session_data_from_temp_browser`: no cookies means no session
   * (`None`). The domain is the third `/`-separated field of the URL when
   * the URL has a `/`; a URL with a single `/` has no third field, the
   * lookup raises and the capture fails.
   */
  function CaptureSession(cookies: seq<RawCookie>, currentUrl: string, title: string): (r: Option<SessionData>)
    ensures cookies == [] ==> r.None?
    ensures r.Some? ==> r.value.cookies == cookies && r.value.currentUrl == Some(currentUrl) && r.value.pageTitle == title
    ensures r.Some? ==> (r.value.domain.Some? <==> '/' in currentUrl)
    ensures r.Some? && r.value.domain.Some? ==> '/' !in r.value.domain.value && Contains(currentUrl, r.value.domain.value)
    ensures r.Some? && r.value.domain.Some? ==>
      |SplitOn(currentUrl, '/')| >= 3 && r.value.domain.value == SplitOn(currentUrl, '/')[2]
    ensures cookies != [] && ('/' !in currentUrl || |SplitOn(currentUrl, '/')| >= 3) ==> r.Some?
  {
    if cookies == [] then None
    else if '/' !in currentUrl then Some(SessionData(cookies, Some(currentUrl), title, None))
    else
      var parts := SplitOn(currentUrl, '/');
      if |parts| < 3 then None
      else
        DomainInUrl(currentUrl);
        Some(SessionData(cookies, Some(currentUrl), title, Some(parts[2])))
  }

  /** The third field of a URL occurs in the URL. */
  lemma DomainInUrl(url: string)
    requires |SplitOn(url, '/')| >= 3
    ensures Contains(url, SplitOn(url, '/')[2])
  {
    var parts := SplitOn(url, '/');
    SplitJoin(url, '/');
    JoinPrefix(parts, 3, "/");
    var p3 := parts[..3];
    assert p3 == [parts[0], parts[1], parts[2]];
    JoinThree(parts[0], parts[1], parts[2], "/");
    var i := |parts[0]| + 1 + |parts[1]| + 1;
    assert url[..|Join(p3, "/")|] == Join(p3, "/");
    assert url[i..i + |parts[2]|] == Join(p3, "/")[i..] == parts[2];
    assert MatchAt(url, parts[2], i);
  }

  /** The base URL the worker opens for a captured session ends with the captured domain. */
  lemma CapturedDomainEndsBaseUrl(cookies: seq<RawCookie>, url: string, title: string)
    requires CaptureSession(cookies, url, title).Some? && CaptureSession(cookies, url, title).value.domain.Some?
    ensures EndsWith(BaseUrl(url), CaptureSession(cookies, url, title).value.domain.value)
  {
    var parts := SplitOn(url, '/');
    assert parts[..3] == [parts[0], parts[1], parts[2]];
    JoinThree(parts[0], parts[1], parts[2], "/");
  }

  lemma JoinThree(a: string, b: string, c: string, sep: string)
    ensures Join([a, b, c], sep) == a + sep + (b + sep + c)
  {
    assert [a, b, c][1..] == [b, c];
    assert [b, c][1..] == [c];
    assert Join([b, c], sep) == b + sep + c;
    assert Join([a, b, c], sep) == a + sep + Join([b, c], sep);
  }
}
