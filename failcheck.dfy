/**
 * The worker's fast fail check: the layered test of one page for the fail
 * phrases, the repeated checks of `simple_fail_detection`, the outcome of
 * visiting one URL and the name of the screenshot taken of it. A page is
 * a snapshot of what the browser reports; a layer the browser could not
 * report (an exception) is `None`.
 */
module FailCheck {
  import opened Wrappers
  import opened Strings

  /** The phrases whose presence makes a page fail, in the order they are tested. */
  const AccessDenied := "access denied"

  const FailCriteria: seq<string> := [
    "invalid select file", "page does not exist", "an exception has occurred", AccessDenied,
    "your request did not complete", "exception messages:", "please try your request again"]

  /** One of the fail phrases. */
  predicate IsCriterion(c: string) {
    exists k :: 0 <= k < |FailCriteria| && FailCriteria[k] == c
  }

  /** A displayed-or-hidden element matched by one of the modal selectors, with its text. */
  datatype ModalElement = ModalElement(displayed: bool, text: string)

  /**
   * One inspection of the browser. `alert` is the open alert's text;
   * `source` is `None` when reading the page source raised, `body` is
   * `None` when the body element could not be found; `modals` are the
   * elements the modal selectors matched, in selector order.
   */
  datatype FailPage = FailPage(alert: Option<string>, source: Option<string>, body: Option<string>, modals: seq<ModalElement>)

  /** The dictionary `check_fail_criteria` returns. */
  datatype FailResult = FailResult(isFail: bool, reason: Option<string>, criteria: Option<string>)

  const NotFail := FailResult(false, None, None)

  function Failing(reason: string, criteria: string): FailResult {
    FailResult(true, Some(reason), Some(criteria))
  }

  const AlertPrefix := "Alert: "
  const DeniedAlertPrefix := "Access denied alert: "
  const PagePrefix := "Found in page: "
  const BodyPrefix := "Found in body: "
  const ModalPrefix := "Found in modal: "

  /**
   * The alert layer: alert text holding a fail phrase fails with the
   * stripped text, alert text holding `denied` fails as an access-denied
   * alert, any other alert is accepted and the check goes on (`None`).
   */
  function AlertCheck(alert: string): (r: Option<FailResult>)
    ensures r.Some? ==> r.value.isFail && r.value.criteria.Some? && IsCriterion(r.value.criteria.value)
    ensures FirstMatch(FailCriteria, Lower(Strip(alert))).Some? ==>
      var k := FirstMatch(FailCriteria, Lower(Strip(alert))).value;
      k < |FailCriteria| && r == Some(Failing(AlertPrefix + Strip(alert), FailCriteria[k]))
    ensures r.Some? && FirstMatch(FailCriteria, Lower(Strip(alert))).None? ==>
      r.value == Failing(DeniedAlertPrefix + Strip(alert), AccessDenied)
  {
    var text := Strip(alert);
    match FirstMatch(FailCriteria, Lower(text))
    case Some(k) => Some(Failing(AlertPrefix + text, FailCriteria[k]))
    case None =>
      AccessDeniedIsCriterion();
      if Contains(Lower(text), AccessDenied) || Contains(Lower(text), "denied") then
        Some(Failing(DeniedAlertPrefix + text, AccessDenied))
      else None
  }

  /** The alert fails exactly when its stripped lower-case text holds a fail phrase or `denied`. */
  lemma AlertCheckIff(alert: string)
    ensures AlertCheck(alert).Some? <==> AnyMatch(FailCriteria, Lower(Strip(alert))) || Contains(Lower(Strip(alert)), "denied")
  {
    var low := Lower(Strip(alert));
    FirstMatchIffAny(FailCriteria, low);
    if FirstMatch(FailCriteria, low).None? {
      AccessDeniedIsCriterion();
      assert !Contains(low, FailCriteria[3]);
    }
  }

  /**
   * The `access denied` test of the second alert branch never decides
   * anything: alert text holding it already holds a fail phrase, so the
   * access-denied alert reason is only given for text saying `denied`
   * without the full phrase.
   */
  lemma AccessDeniedAlertTestRedundant(alert: string)
    requires Contains(Lower(Strip(alert)), AccessDenied)
    ensures AlertCheck(alert).Some? && AlertCheck(alert).value.reason == Some(AlertPrefix + Strip(alert))
  {
    AccessDeniedIsCriterion();
    PhraseMatches(Lower(Strip(alert)), 3);
    PhraseAlertReason(alert);
  }

  /** An alert whose text holds a fail phrase fails with the `Alert: ` reason. */
  lemma PhraseAlertReason(alert: string)
    requires FirstMatch(FailCriteria, Lower(Strip(alert))).Some?
    ensures AlertCheck(alert).Some? && AlertCheck(alert).value.reason == Some(AlertPrefix + Strip(alert))
  {
  }

  /** `access denied` is the fourth fail phrase. */
  lemma AccessDeniedIsCriterion()
    ensures FailCriteria[3] == AccessDenied
  {
  }

  /** Text holding one of the fail phrases has a first matching phrase. */
  lemma PhraseMatches(low: string, k: nat)
    requires k < |FailCriteria| && Contains(low, FailCriteria[k])
    ensures AnyMatch(FailCriteria, low) && FirstMatch(FailCriteria, low).Some?
  {
    FirstMatchIffAny(FailCriteria, low);
  }

  /** A text layer (page source or body text): the first fail phrase its lower-case text contains. */
  function LayerCheck(text: string, prefix: string): (r: Option<FailResult>)
    ensures r.Some? <==> AnyMatch(FailCriteria, Lower(text))
    ensures r.Some? ==>
      exists k :: 0 <= k < |FailCriteria| && r.value == Failing(prefix + FailCriteria[k], FailCriteria[k])
        && Contains(Lower(text), FailCriteria[k]) && forall j :: 0 <= j < k ==> !Contains(Lower(text), FailCriteria[j])
  {
    match FirstMatch(FailCriteria, Lower(text))
    case Some(k) => Some(Failing(prefix + FailCriteria[k], FailCriteria[k]))
    case None => None
  }

  /** An element the modal layer inspects: displayed, with text. */
  predicate Inspected(e: ModalElement) {
    e.displayed && e.text != []
  }

  /** An inspected element whose lower-case text holds a fail phrase. */
  predicate ModalHit(e: ModalElement) {
    Inspected(e) && AnyMatch(FailCriteria, Lower(e.text))
  }

  /**
   * The modal layer: the first displayed element with text that contains a
   * fail phrase decides, with the first phrase its text contains.
   */
  function ModalCheck(modals: seq<ModalElement>): (r: Option<FailResult>)
    ensures r.Some? <==> exists i :: 0 <= i < |modals| && ModalHit(modals[i])
    ensures r.Some? ==>
      r.value.isFail && r.value.criteria.Some? && IsCriterion(r.value.criteria.value) && r.value.reason == Some(ModalPrefix + r.value.criteria.value)
    ensures r.Some? ==>
      exists i :: 0 <= i < |modals| && ModalHit(modals[i]) && (forall j :: 0 <= j < i ==> !ModalHit(modals[j]))
        && r == LayerCheck(modals[i].text, ModalPrefix)
  {
    if |modals| == 0 then None
    else
      var e := modals[0];
      if ModalHit(e) then LayerCheck(e.text, ModalPrefix)
      else
        var r := ModalCheck(modals[1..]);
        assert forall i :: 1 <= i < |modals| ==> modals[i] == modals[1..][i - 1];
        assert r.Some? ==> (exists i :: 1 <= i < |modals| && ModalHit(modals[i]) && (forall j :: 0 <= j < i ==> !ModalHit(modals[j]))
                                        && r == LayerCheck(modals[i].text, ModalPrefix)) by {
          if r.Some? {
            var i' :| 0 <= i' < |modals[1..]| && ModalHit(modals[1..][i']) && (forall j :: 0 <= j < i' ==> !ModalHit(modals[1..][j]))
              && r == LayerCheck(modals[1..][i'].text, ModalPrefix);
            assert modals[i' + 1] == modals[1..][i'];
            forall j | 0 <= j < i' + 1 ensures !ModalHit(modals[j]) {
              if j > 0 { assert modals[j] == modals[1..][j - 1]; }
            }
          }
        }
        r
  }

  /** The layered check of one page: alert, then page source, then body text, then modal elements. */
  function CheckFailCriteria(p: FailPage): (r: FailResult)
    ensures !r.isFail ==> r == NotFail
    ensures r.isFail ==> r.reason.Some? && r.criteria.Some? && IsCriterion(r.criteria.value)
  {
    match if p.alert.Some? then AlertCheck(p.alert.value) else None
    case Some(a) => a
    case None =>
      match p.source
      case None => NotFail
      case Some(source) =>
        match LayerCheck(source, PagePrefix)
        case Some(f) => f
        case None =>
          match p.body
          case None => NotFail
          case Some(body) =>
            match LayerCheck(body, BodyPrefix)
            case Some(f) => f
            case None =>
              match ModalCheck(p.modals)
              case Some(f) => f
              case None => NotFail
  }

  /** Whether the alert layer fails the page. */
  predicate AlertFails(p: FailPage) {
    p.alert.Some? && AlertCheck(p.alert.value).Some?
  }

  /**
   * A page fails exactly when its alert fails, or when a layer after it
   * holds a fail phrase and every layer before that one could be read.
   */
  lemma CheckFailCriteriaIff(p: FailPage)
    ensures CheckFailCriteria(p).isFail <==>
      AlertFails(p)
      || (p.source.Some? &&
           (AnyMatch(FailCriteria, Lower(p.source.value))
            || (p.body.Some? &&
                 (AnyMatch(FailCriteria, Lower(p.body.value))
                  || exists i :: 0 <= i < |p.modals| && ModalHit(p.modals[i])))))
  {
  }

  /**
   * The layers are tried in order and the first one that fails names the
   * reason: an alert reason when the alert fails, otherwise the page, then
   * the body, then the modal prefix followed by the phrase found.
   */
  lemma CheckFailCriteriaReason(p: FailPage)
    requires CheckFailCriteria(p).isFail
    ensures var r := CheckFailCriteria(p);
      if AlertFails(p) then
        r.reason == Some(AlertPrefix + Strip(p.alert.value)) || r.reason == Some(DeniedAlertPrefix + Strip(p.alert.value))
      else if AnyMatch(FailCriteria, Lower(p.source.value)) then r.reason == Some(PagePrefix + r.criteria.value)
      else if AnyMatch(FailCriteria, Lower(p.body.value)) then r.reason == Some(BodyPrefix + r.criteria.value)
      else r.reason == Some(ModalPrefix + r.criteria.value)
  {
  }

  /**
   * After an alert that does not fail (or with no alert), the check is the
   * first layer that fails, each with its own first phrase: the page
   * source, then the body text, then the modal elements; a layer that
   * cannot be read ends the check as not-fail.
   */
  lemma CheckFailCriteriaLayers(p: FailPage)
    requires !AlertFails(p)
    ensures CheckFailCriteria(p) ==
      if p.source.None? then NotFail
      else if LayerCheck(p.source.value, PagePrefix).Some? then LayerCheck(p.source.value, PagePrefix).value
      else if p.body.None? then NotFail
      else if LayerCheck(p.body.value, BodyPrefix).Some? then LayerCheck(p.body.value, BodyPrefix).value
      else if ModalCheck(p.modals).Some? then ModalCheck(p.modals).value
      else NotFail
  {
  }

  /**
   * A page whose alert does not fail and whose source holds a fail phrase
   * fails on the first such phrase, whatever its body and modals hold.
   */
  lemma SourceLayerFirstCriterionWins(p: FailPage, k: nat)
    requires !AlertFails(p) && p.source.Some? && k < |FailCriteria|
    requires Contains(Lower(p.source.value), FailCriteria[k])
    requires forall j :: 0 <= j < k ==> !Contains(Lower(p.source.value), FailCriteria[j])
    ensures CheckFailCriteria(p) == Failing(PagePrefix + FailCriteria[k], FailCriteria[k])
  {
  }

  // ---------------------------------------------------------------------------
  // repeated checks

  /** The moments, in seconds, at which the page is checked. */
  const CheckIntervals: seq<real> := [0.5, 2.0, 4.0]

  const DetectedConfidence := 95
  const NotDetectedConfidence := 85
  const NoFailReason := "No fail criteria detected"

  /** What `simple_fail_detection` returns: whether the page failed, the reason and the confidence. */
  datatype Detection = Detection(isFail: bool, reason: string, confidence: nat)

  /** The inspections actually made: one per check moment at most. */
  function Window(checks: seq<FailPage>): (w: seq<FailPage>)
    ensures |w| <= |CheckIntervals| && |w| <= |checks|
    ensures forall i :: 0 <= i < |w| ==> w[i] == checks[i]
    ensures |w| == if |checks| <= |CheckIntervals| then |checks| else |CheckIntervals|
  {
    if |checks| <= |CheckIntervals| then checks else checks[..|CheckIntervals|]
  }

  /** Whether each inspection fails, in order. */
  function Verdicts(checks: seq<FailPage>): (v: seq<bool>)
    ensures |v| == |checks|
  {
    if |checks| == 0 then [] else [CheckFailCriteria(checks[0]).isFail] + Verdicts(checks[1..])
  }

  /** Each verdict is the fail check of its own inspection. */
  lemma {:induction false} VerdictIs(checks: seq<FailPage>, i: nat)
    requires i < |checks|
    ensures Verdicts(checks)[i] == CheckFailCriteria(checks[i]).isFail
  {
    if i > 0 {
      VerdictIs(checks[1..], i - 1);
    }
  }

  /** The index of the first failing verdict, if any. */
  function FirstFailing(verdicts: seq<bool>): (r: Option<nat>)
    ensures r.Some? ==> r.value < |verdicts| && verdicts[r.value]
    ensures r.Some? ==> forall i :: 0 <= i < r.value ==> !verdicts[i]
    ensures r.None? ==> forall i :: 0 <= i < |verdicts| ==> !verdicts[i]
  {
    if |verdicts| == 0 then None
    else if verdicts[0] then Some(0)
    else
      assert forall i :: 0 <= i < |verdicts[1..]| ==> verdicts[1..][i] == verdicts[i + 1];
      match FirstFailing(verdicts[1..])
      case Some(i) => Some(i + 1)
      case None => None
  }

  /**
   * The repeated check over the inspections made at the check moments
   * (at most three; fewer when the time budget ran out): the first failing
   * inspection decides with confidence 95, and none failing passes with 85.
   */
  function FailDetection(checks: seq<FailPage>): (d: Detection)
    ensures d.isFail ==> d.confidence == DetectedConfidence
    ensures !d.isFail ==> d == Detection(false, NoFailReason, NotDetectedConfidence)
  {
    var window := Window(checks);
    match FirstFailing(Verdicts(window))
    case Some(i) =>
      VerdictIs(window, i);
      Detection(true, CheckFailCriteria(window[i]).reason.value, DetectedConfidence)
    case None => Detection(false, NoFailReason, NotDetectedConfidence)
  }

  /** The repeated check fails exactly when one of the inspections at the check moments fails. */
  lemma FailDetectionIff(checks: seq<FailPage>)
    ensures FailDetection(checks).isFail <==>
      exists i :: 0 <= i < |checks| && i < |CheckIntervals| && CheckFailCriteria(checks[i]).isFail
  {
    var window := Window(checks);
    forall i | 0 <= i < |window|
      ensures Verdicts(window)[i] == CheckFailCriteria(checks[i]).isFail
    {
      VerdictAt(checks, i);
    }
  }

  /** The first true verdict is the one found. */
  lemma {:induction false} FirstFailingAt(verdicts: seq<bool>, i: nat)
    requires i < |verdicts| && verdicts[i]
    requires forall j :: 0 <= j < i ==> !verdicts[j]
    ensures FirstFailing(verdicts) == Some(i)
  {
    if i > 0 {
      FirstFailingAt(verdicts[1..], i - 1);
    }
  }

  /** The first failing inspection names the reason. */
  lemma FailDetectionFirstCheckWins(checks: seq<FailPage>, i: nat)
    requires i < |checks| && i < |CheckIntervals| && CheckFailCriteria(checks[i]).isFail
    requires forall j :: 0 <= j < i ==> !CheckFailCriteria(checks[j]).isFail
    ensures FailDetection(checks) == Detection(true, CheckFailCriteria(checks[i]).reason.value, DetectedConfidence)
  {
    var window := Window(checks);
    var v := Verdicts(window);
    forall j | 0 <= j <= i
      ensures v[j] == CheckFailCriteria(checks[j]).isFail
    {
      VerdictAt(checks, j);
    }
    FirstFailingAt(v, i);
  }

  /** When no inspection at a check moment fails, the page passes. */
  lemma FailDetectionNoneFails(checks: seq<FailPage>)
    requires forall j :: 0 <= j < |Window(checks)| ==> !Verdicts(Window(checks))[j]
    ensures FailDetection(checks) == Detection(false, NoFailReason, NotDetectedConfidence)
  {
  }

  /** The verdict of an inspection made is that of the inspection given. */
  lemma VerdictAt(checks: seq<FailPage>, i: nat)
    requires i < |Window(checks)|
    ensures Verdicts(Window(checks))[i] == CheckFailCriteria(checks[i]).isFail
  {
    VerdictIs(Window(checks), i);
    assert Window(checks)[i] == checks[i];
  }

  /** A failing inspection after passing ones decides the repeated check. */
  lemma FailureAfterPasses(checks: seq<FailPage>, i: nat)
    requires i < |Window(checks)| && CheckFailCriteria(checks[i]).isFail
    requires forall j :: 0 <= j < i ==> !Verdicts(Window(checks))[j]
    ensures FailDetection(checks) == Detection(true, CheckFailCriteria(checks[i]).reason.value, DetectedConfidence)
  {
    forall j | 0 <= j < i
      ensures !CheckFailCriteria(checks[j]).isFail
    {
      VerdictAt(checks, j);
    }
    FailDetectionFirstCheckWins(checks, i);
  }

  /** One check moment: inspect the page; a failure after passing checks decides the repeated check. */
  method InspectAt(checks: seq<FailPage>, i: nat) returns (fails: bool, reason: string)
    requires i < |Window(checks)|
    requires forall j :: 0 <= j < i ==> !Verdicts(Window(checks))[j]
    ensures fails == Verdicts(Window(checks))[i]
    ensures fails ==> FailDetection(checks) == Detection(true, reason, DetectedConfidence)
  {
    var r := CheckFailCriteria(checks[i]);
    VerdictAt(checks, i);
    fails := r.isFail;
    reason := "";
    if fails {
      FailureAfterPasses(checks, i);
      reason := r.reason.value;
    }
  }

  /** `simple_fail_detection`: check at each moment, stopping at the first failing inspection. */
  method SimpleFailDetection(checks: seq<FailPage>) returns (d: Detection)
    ensures d == FailDetection(checks)
  {
    ghost var v := Verdicts(Window(checks));
    var n := if |checks| < |CheckIntervals| then |checks| else |CheckIntervals|;
    var i := 0;
    while i < n
      invariant 0 <= i <= n == |v|
      invariant forall j :: 0 <= j < i ==> !v[j]
    {
      var fails, reason := InspectAt(checks, i);
      if fails {
        return Detection(true, reason, DetectedConfidence);
      }
      i := i + 1;
    }
    FailDetectionNoneFails(checks);
    d := Detection(false, NoFailReason, NotDetectedConfidence);
  }

  // ---------------------------------------------------------------------------
  // one URL

  datatype Status = Pass | Fail

  function StatusName(s: Status): (r: string)
    ensures |r| == 4
    ensures r == "PASS" <==> s == Pass
  {
    match s
    case Pass => "PASS"
    case Fail => "FAIL"
  }

  /**
   * What happens when the browser is sent to a URL: navigation raises with
   * a message, or the page loads, is inspected at the check moments and a
   * screenshot is attempted (`screenshotSaved` says whether the file exists
   * afterwards).
   */
  datatype Visit = NavigationFailed(message: string) | Loaded(checks: seq<FailPage>, screenshotSaved: bool)

  /** The row outcome: status, screenshot file name, error message and confidence. */
  datatype UrlOutcome = UrlOutcome(status: Status, screenshot: Option<string>, errorMessage: Option<string>, confidence: nat)

  const NavigationConfidence := 30

  /** A field of a file name followed by an underscore and the rest of the name. */
  function Field(field: string, rest: string): string {
    field + "_" + rest
  }

  /**
   * `screenshot_{run}_{row+1}_{status}_{timestamp}.png`; `row` is the
   * zero-based row index, so the name carries the one-based row number.
   */
  function ScreenshotName(runId: nat, row: nat, status: Status, timestamp: nat): (r: string)
    ensures StartsWith(r, "screenshot_") && EndsWith(r, ".png")
  {
    "screenshot_" + Field(NatToString(runId), Field(NatToString(row + 1), Field(StatusName(status), NatToString(timestamp) + ".png")))
  }

  /** Different runs, rows, statuses or timestamps never share a screenshot name. */
  lemma ScreenshotNameInjective(r1: nat, i1: nat, s1: Status, t1: nat, r2: nat, i2: nat, s2: Status, t2: nat)
    requires ScreenshotName(r1, i1, s1, t1) == ScreenshotName(r2, i2, s2, t2)
    ensures r1 == r2 && i1 == i2 && s1 == s2 && t1 == t2
  {
    var p := "screenshot_";
    var rest1 := Field(NatToString(i1 + 1), Field(StatusName(s1), NatToString(t1) + ".png"));
    var rest2 := Field(NatToString(i2 + 1), Field(StatusName(s2), NatToString(t2) + ".png"));
    var x1 := Field(NatToString(r1), rest1);
    var x2 := Field(NatToString(r2), rest2);
    assert x1 == (p + x1)[|p|..] == (p + x2)[|p|..] == x2;
    DigitsBeforeUnderscore(NatToString(r1), rest1, NatToString(r2), rest2);
    NatToStringInjective(r1, r2);
    RowFieldsInjective(i1, s1, t1, i2, s2, t2);
  }

  /** The row, status and timestamp part of a screenshot name is read back unambiguously. */
  lemma RowFieldsInjective(i1: nat, s1: Status, t1: nat, i2: nat, s2: Status, t2: nat)
    requires Field(NatToString(i1 + 1), Field(StatusName(s1), NatToString(t1) + ".png"))
          == Field(NatToString(i2 + 1), Field(StatusName(s2), NatToString(t2) + ".png"))
    ensures i1 == i2 && s1 == s2 && t1 == t2
  {
    DigitsBeforeUnderscore(NatToString(i1 + 1), Field(StatusName(s1), NatToString(t1) + ".png"),
      NatToString(i2 + 1), Field(StatusName(s2), NatToString(t2) + ".png"));
    NatToStringInjective(i1 + 1, i2 + 1);
    FixedWidthField(StatusName(s1), NatToString(t1) + ".png", StatusName(s2), NatToString(t2) + ".png");
    assert s1 == s2;
    TimestampInjective(t1, t2);
  }

  /** The timestamp before the `.png` extension is read back unambiguously. */
  lemma TimestampInjective(t1: nat, t2: nat)
    requires NatToString(t1) + ".png" == NatToString(t2) + ".png"
    ensures t1 == t2
  {
    var u1 := NatToString(t1) + ".png";
    var u2 := NatToString(t2) + ".png";
    assert NatToString(t1) == u1[..|u1| - 4] == u2[..|u2| - 4] == NatToString(t2);
    NatToStringInjective(t1, t2);
  }

  /** A run of digits followed by an underscore is read back unambiguously. */
  lemma DigitsBeforeUnderscore(a: string, b: string, c: string, d: string)
    requires forall i :: 0 <= i < |a| ==> '0' <= a[i] <= '9'
    requires forall i :: 0 <= i < |c| ==> '0' <= c[i] <= '9'
    requires Field(a, b) == Field(c, d)
    ensures a == c && b == d
  {
    var s := Field(a, b);
    assert s[|a|] == '_';
    assert Field(c, d)[|c|] == '_';
    assert |a| == |c|;
    assert a == s[..|a|] == c;
    assert b == s[|a| + 1..] == d;
  }

  /** A field of known width is read back unambiguously. */
  lemma FixedWidthField(a: string, b: string, c: string, d: string)
    requires |a| == |c| && Field(a, b) == Field(c, d)
    ensures a == c && b == d
  {
    var s := Field(a, b);
    assert a == s[..|a|] == c;
    assert b == s[|a| + 1..] == d;
  }

  /**
   * The outcome of one URL: a navigation error fails with confidence 30,
   * no screenshot and the first 50 characters of the message; a loaded
   * page fails or passes as the repeated check decides, with the
   * screenshot name when the file was saved.
   */
  function UrlOutcomeOf(visit: Visit, runId: nat, row: nat, timestamp: nat): (o: UrlOutcome)
    ensures o.status == Fail <==> visit.NavigationFailed? || FailDetection(visit.checks).isFail
    ensures o.errorMessage.Some? <==> o.status == Fail
    ensures visit.NavigationFailed? ==> o == UrlOutcome(Fail, None, Some("Navigation error: " + Take(visit.message, 50)), NavigationConfidence)
    ensures visit.Loaded? ==> o.confidence == FailDetection(visit.checks).confidence
    ensures visit.Loaded? && o.status == Fail ==> o.errorMessage == Some(FailDetection(visit.checks).reason)
    ensures o.screenshot.Some? <==> visit.Loaded? && visit.screenshotSaved
    ensures o.screenshot.Some? ==> o.screenshot.value == ScreenshotName(runId, row, o.status, timestamp)
  {
    match visit
    case NavigationFailed(message) => UrlOutcome(Fail, None, Some("Navigation error: " + Take(message, 50)), NavigationConfidence)
    case Loaded(checks, saved) =>
      var d := FailDetection(checks);
      var status := if d.isFail then Fail else Pass;
      UrlOutcome(status, if saved then Some(ScreenshotName(runId, row, status, timestamp)) else None,
        if d.isFail then Some(d.reason) else None, d.confidence)
  }

  /** `process_url_fast`: visit the URL, run the repeated check and name the screenshot. */
  method ProcessUrlFast(visit: Visit, runId: nat, row: nat, timestamp: nat) returns (o: UrlOutcome)
    ensures o == UrlOutcomeOf(visit, runId, row, timestamp)
  {
    match visit
    case NavigationFailed(message) =>
      o := UrlOutcome(Fail, None, Some("Navigation error: " + Take(message, 50)), NavigationConfidence);
    case Loaded(checks, saved) =>
      var d := SimpleFailDetection(checks);
      var status := if d.isFail then Fail else Pass;
      var shot := if saved then Some(ScreenshotName(runId, row, status, timestamp)) else None;
      o := UrlOutcome(status, shot, if d.isFail then Some(d.reason) else None, d.confidence);
  }

  // ---------------------------------------------------------------------------
  // worked cases

  /** A page whose source says "Access Denied" fails on the source layer, and the repeated check reports it with confidence 95. */
  lemma AccessDeniedInSourceFails(body: Option<string>, modals: seq<ModalElement>)
    ensures var p := FailPage(None, Some("Access Denied"), body, modals);
      CheckFailCriteria(p) == Failing(PagePrefix + AccessDenied, AccessDenied)
      && FailDetection([p]) == Detection(true, PagePrefix + AccessDenied, DetectedConfidence)
  {
    var p := FailPage(None, Some("Access Denied"), body, modals);
    var l := Lower("Access Denied");
    assert l == AccessDenied;
    AccessDeniedIsCriterion();
    assert MatchAt(l, FailCriteria[3], 0);
    SourceLayerFirstCriterionWins(p, 3);
    FailDetectionFirstCheckWins([p], 0);
  }

  /** An alert whose text starts "Access denied" (such as "Access denied: session expired") fails the page, and the reason quotes the alert. */
  lemma AccessDeniedAlertFails(p: FailPage)
    requires p.alert.Some? && StartsWith(Strip(p.alert.value), "Access denied")
    ensures CheckFailCriteria(p).isFail && CheckFailCriteria(p).reason == Some(AlertPrefix + Strip(p.alert.value))
  {
    LowerAccessDenied(Strip(p.alert.value));
    assert AnyMatch(FailCriteria, Lower(Strip(p.alert.value)));
  }

  lemma LowerAccessDenied(t: string)
    requires StartsWith(t, "Access denied")
    ensures Contains(Lower(t), FailCriteria[3])
  {
    var l := Lower(t);
    forall i | 0 <= i < 13 ensures l[i] == AccessDenied[i] {
      assert t[i] == "Access denied"[i];
    }
    assert l[..13] == AccessDenied;
    AccessDeniedIsCriterion();
    assert MatchAt(l, FailCriteria[3], 0);
  }
}
