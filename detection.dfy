/**
 * The content-analysis detection engine: which page text counts as an
 * error, which short description of it is reported, and the verdict the
 * engine gives a loaded page. The browser is replaced by a snapshot of
 * what the driver would report for the page.
 */
module Detection {
  import opened Wrappers
  import opened Strings
  import opened Tables

  // ---------------------------------------------------------------------------
  // configuration

  datatype MethodConfig = MethodConfig(enabled: bool, weight: real, timeout: real)

  datatype DetectionConfig = DetectionConfig(
    executionStrategy: string,
    confidenceThreshold: nat,
    maxExecutionTime: nat,
    contentAnalysis: MethodConfig,
    ocrAnalysis: MethodConfig)

  /** A freshly built configuration: content analysis on, OCR off. */
  function DefaultConfig(): (c: DetectionConfig)
    ensures c.executionStrategy == "sequential" && c.confidenceThreshold == 70 && c.maxExecutionTime == 10
    ensures c.contentAnalysis == MethodConfig(true, 1.0, 2.0)
    ensures c.ocrAnalysis == MethodConfig(false, 0.8, 5.0)
  {
    DetectionConfig("sequential", 70, 10, MethodConfig(true, 1.0, 2.0), MethodConfig(false, 0.8, 5.0))
  }

  /** Content analysis only. */
  function ContentOnlyPreset(): (c: DetectionConfig)
    ensures c.contentAnalysis.enabled && !c.ocrAnalysis.enabled
  {
    DefaultConfig().(contentAnalysis := MethodConfig(true, 1.0, 2.0), ocrAnalysis := MethodConfig(false, 0.8, 5.0))
  }

  /** Content analysis and OCR both switched on. */
  function OcrEnabledPreset(): (c: DetectionConfig)
    ensures c.contentAnalysis.enabled && c.ocrAnalysis.enabled
  {
    DefaultConfig().(contentAnalysis := MethodConfig(true, 1.0, 2.0), ocrAnalysis := MethodConfig(true, 0.8, 5.0))
  }

  /** The content-only preset is the default configuration; the OCR preset differs from it only in switching OCR on. */
  lemma PresetsAgreeWithDefault()
    ensures ContentOnlyPreset() == DefaultConfig()
    ensures OcrEnabledPreset() == DefaultConfig().(ocrAnalysis := DefaultConfig().ocrAnalysis.(enabled := true))
  {
  }

  // ---------------------------------------------------------------------------
  // page snapshot and modal content

  /** An element the driver returned: whether it is displayed, its height and its text. */
  datatype Element = Element(displayed: bool, height: int, text: string)

  /**
   * What the driver reports for a loaded page. `bodyWait` is `None` when
   * the body element appeared in time and `Some(message)` when the wait
   * raised. `alert` is the open JavaScript alert's text, if any.
   * `containers` are the elements the modal-container selectors matched,
   * in selector order; `criteriaHits` the elements the fail-criteria
   * XPath queries matched, in criterion order. `title` is `None` when
   * reading the title raised.
   */
  datatype DetectionPage = DetectionPage(
    bodyWait: Option<string>,
    alert: Option<string>,
    containers: seq<Element>,
    criteriaHits: seq<Element>,
    title: Option<string>)

  const AlertTag := "JS_ALERT: "
  const ContainerTag := "MODAL_CONTAINER: "
  const CriteriaTag := "FAIL_CRITERIA_FOUND: "

  /** A report line: its tag followed by the element's text. */
  function Tagged(tag: string, text: string): (line: string)
    ensures StartsWith(line, tag) && |line| == |tag| + |text|
  {
    tag + text
  }

  /** A container is reported when it is displayed, has a height and holds more than 3 characters once stripped. */
  predicate ReportedContainer(e: Element) {
    e.displayed && e.height > 0 && |Strip(e.text)| > 3
  }

  /** One report line per element, in order: the tag followed by the element's stripped text. */
  function TagAll(tag: string, es: seq<Element>): (lines: seq<string>)
    ensures |lines| == |es|
    ensures forall k :: 0 <= k < |es| ==> lines[k] == Tagged(tag, Strip(es[k].text))
  {
    seq(|es|, k requires 0 <= k < |es| => Tagged(tag, Strip(es[k].text)))
  }

  lemma TagAllConcat(tag: string, a: seq<Element>, b: seq<Element>)
    ensures TagAll(tag, a + b) == TagAll(tag, a) + TagAll(tag, b)
  {
    assert forall k :: 0 <= k < |b| ==> (a + b)[|a| + k] == b[k];
  }

  /** Tagging the filtered elements, one element at a time from the front. */
  lemma TagFilterCons(tag: string, es: seq<Element>, p: Element -> bool)
    requires |es| > 0
    ensures TagAll(tag, Filter(es, p))
      == (if p(es[0]) then [Tagged(tag, Strip(es[0].text))] else []) + TagAll(tag, Filter(es[1..], p))
  {
    FilterCons(es, p);
    var rest := Filter(es[1..], p);
    if p(es[0]) {
      TagAllCons(tag, es[0], rest);
    }
  }

  lemma TagAllCons(tag: string, e: Element, es: seq<Element>)
    ensures TagAll(tag, [e] + es) == [Tagged(tag, Strip(e.text))] + TagAll(tag, es)
  {
    TagAllConcat(tag, [e], es);
  }

  /** The container lines, one per reported container. */
  function ContainerLines(es: seq<Element>): (lines: seq<string>)
    ensures |lines| <= |es|
  {
    if |es| == 0 then []
    else
      var rest := ContainerLines(es[1..]);
      if ReportedContainer(es[0]) then [Tagged(ContainerTag, Strip(es[0].text))] + rest
      else rest
  }

  /** Every container line carries the tag and more than 3 characters of text. */
  lemma ContainerLinesTagged(es: seq<Element>)
    ensures forall k :: 0 <= k < |ContainerLines(es)| ==>
      StartsWith(ContainerLines(es)[k], ContainerTag) && |ContainerLines(es)[k]| > |ContainerTag| + 3
  {
    ContainerLinesReported(es);
    var reported := Filter(es, ReportedContainer);
    forall k | 0 <= k < |reported| ensures |Strip(reported[k].text)| > 3 {
      assert reported[k] in reported;
    }
  }

  /** The container lines are, in order, the tagged texts of exactly the reported containers. */
  lemma {:induction false} ContainerLinesReported(es: seq<Element>)
    ensures ContainerLines(es) == TagAll(ContainerTag, Filter(es, ReportedContainer))
  {
    if |es| > 0 {
      ContainerLinesReported(es[1..]);
      TagFilterCons(ContainerTag, es, ReportedContainer);
    }
  }

  /** There is no container line exactly when no container is reported. */
  lemma {:induction false} ContainerLinesEmpty(es: seq<Element>)
    ensures ContainerLines(es) == [] <==> forall k :: 0 <= k < |es| ==> !ReportedContainer(es[k])
  {
    if |es| > 0 {
      ContainerLinesEmpty(es[1..]);
      assert forall k :: 1 <= k < |es| ==> es[k] == es[1..][k - 1];
    }
  }

  /** A fail-criteria hit is reported when it is displayed. */
  predicate ReportedHit(e: Element) {
    e.displayed
  }

  /** The fail-criteria lines, one per displayed hit. */
  function CriteriaLines(es: seq<Element>): (lines: seq<string>)
    ensures |lines| <= |es|
    ensures forall k :: 0 <= k < |lines| ==> StartsWith(lines[k], CriteriaTag)
    ensures lines == [] <==> forall k :: 0 <= k < |es| ==> !ReportedHit(es[k])
  {
    if |es| == 0 then []
    else
      var rest := CriteriaLines(es[1..]);
      if ReportedHit(es[0]) then [Tagged(CriteriaTag, Strip(es[0].text))] + rest
      else
        assert forall k :: 1 <= k < |es| ==> es[k] == es[1..][k - 1];
        rest
  }

  /** The fail-criteria lines are, in order, the tagged texts of exactly the displayed hits. */
  lemma {:induction false} CriteriaLinesReported(es: seq<Element>)
    ensures CriteriaLines(es) == TagAll(CriteriaTag, Filter(es, ReportedHit))
  {
    if |es| > 0 {
      CriteriaLinesReported(es[1..]);
      TagFilterCons(CriteriaTag, es, ReportedHit);
    }
  }

  /** The lines of the modal report: the alert first, then containers, then fail-criteria hits. */
  function ModalLines(page: DetectionPage): (lines: seq<string>)
    ensures page.alert.Some? ==> |lines| > 0 && lines[0] == Tagged(AlertTag, Strip(page.alert.value))
    ensures lines == (if page.alert.Some? then [Tagged(AlertTag, Strip(page.alert.value))] else [])
      + TagAll(ContainerTag, Filter(page.containers, ReportedContainer))
      + TagAll(CriteriaTag, Filter(page.criteriaHits, ReportedHit))
  {
    ContainerLinesReported(page.containers);
    CriteriaLinesReported(page.criteriaHits);
    (if page.alert.Some? then [Tagged(AlertTag, Strip(page.alert.value))] else [])
      + ContainerLines(page.containers) + CriteriaLines(page.criteriaHits)
  }

  /**
   * The report keeps its order: the alert line, if any, is the only line
   * with the alert tag and comes first, and no fail-criteria line comes
   * before a container line.
   */
  lemma ModalLinesOrder(page: DetectionPage)
    ensures var lines := ModalLines(page);
      (forall k :: 0 <= k < |lines| && StartsWith(lines[k], AlertTag) ==> k == 0 && page.alert.Some?)
      && (forall i, j ::
            0 <= i < |lines| && 0 <= j < |lines| && StartsWith(lines[i], ContainerTag) && StartsWith(lines[j], CriteriaTag)
            ==> i < j)
  {
    var pre: seq<string> := if page.alert.Some? then [Tagged(AlertTag, Strip(page.alert.value))] else [];
    var cs := ContainerLines(page.containers);
    var hs := CriteriaLines(page.criteriaHits);
    var lines := pre + cs + hs;
    assert lines == ModalLines(page);
    ContainerLinesTagged(page.containers);
    LeadsWith(pre, AlertTag, 'J');
    LeadsWith(cs, ContainerTag, 'M');
    LeadsWith(hs, CriteriaTag, 'F');
    OrderByFirstChar(pre, cs, hs);
  }

  /** Lines that all start with a tag all start with the tag's first character. */
  lemma LeadsWith(lines: seq<string>, tag: string, c: char)
    requires |tag| > 0 && tag[0] == c
    requires forall k :: 0 <= k < |lines| ==> StartsWith(lines[k], tag)
    ensures forall k :: 0 <= k < |lines| ==> |lines[k]| > 0 && lines[k][0] == c
  {
    forall k | 0 <= k < |lines| ensures |lines[k]| > 0 && lines[k][0] == c {
      assert lines[k][..|tag|] == tag;
    }
  }

  /** Three groups of lines told apart by their first character keep their order when concatenated. */
  lemma OrderByFirstChar(pre: seq<string>, cs: seq<string>, hs: seq<string>)
    requires |pre| <= 1
    requires forall k :: 0 <= k < |pre| ==> |pre[k]| > 0 && pre[k][0] == 'J'
    requires forall k :: 0 <= k < |cs| ==> |cs[k]| > 0 && cs[k][0] == 'M'
    requires forall k :: 0 <= k < |hs| ==> |hs[k]| > 0 && hs[k][0] == 'F'
    ensures var lines := pre + cs + hs;
      (forall k :: 0 <= k < |lines| && StartsWith(lines[k], AlertTag) ==> k == 0 && |pre| == 1)
      && (forall i, j ::
            0 <= i < |lines| && 0 <= j < |lines| && StartsWith(lines[i], ContainerTag) && StartsWith(lines[j], CriteriaTag)
            ==> i < j)
  {
    var lines := pre + cs + hs;
    assert AlertTag[0] == 'J' && ContainerTag[0] == 'M' && CriteriaTag[0] == 'F';
    forall k | 0 <= k < |lines|
      ensures |lines[k]| > 0
      ensures lines[k][0] == (if k < |pre| then 'J' else if k < |pre| + |cs| then 'M' else 'F')
    {
      if k < |pre| {
        assert lines[k] == pre[k];
      } else if k < |pre| + |cs| {
        assert lines[k] == cs[k - |pre|];
      } else {
        assert lines[k] == hs[k - |pre| - |cs|];
      }
    }
  }

  /** All modal and dialog text of the page, one report line per source, joined by newlines. */
  function ModalContent(page: DetectionPage): (r: string)
    ensures forall k :: 0 <= k < |ModalLines(page)| ==> Contains(r, ModalLines(page)[k])
  {
    var lines := ModalLines(page);
    forall k | 0 <= k < |lines| ensures Contains(Join(lines, "\n"), lines[k]) {
      JoinContains(lines, "\n", k);
    }
    Join(lines, "\n")
  }

  /** The report is empty exactly when there is no alert, no reported container and no displayed fail-criteria hit. */
  lemma ModalContentEmpty(page: DetectionPage)
    ensures ModalContent(page) == [] <==>
      page.alert.None?
      && (forall k :: 0 <= k < |page.containers| ==> !ReportedContainer(page.containers[k]))
      && (forall k :: 0 <= k < |page.criteriaHits| ==> !ReportedHit(page.criteriaHits[k]))
  {
    var lines := ModalLines(page);
    ContainerLinesTagged(page.containers);
    ContainerLinesEmpty(page.containers);
    if lines != [] {
      assert StartsWith(lines[0], AlertTag) || StartsWith(lines[0], ContainerTag) || StartsWith(lines[0], CriteriaTag);
      assert |lines[0]| > 0;
      JoinNonEmpty(lines, "\n");
    }
  }

  lemma JoinNonEmpty(parts: seq<string>, sep: string)
    requires |parts| > 0 && |parts[0]| > 0
    ensures |Join(parts, sep)| > 0
  {
  }

  /** An open alert always leads the report. */
  lemma AlertLeadsModalContent(page: DetectionPage)
    requires page.alert.Some?
    ensures StartsWith(ModalContent(page), Tagged(AlertTag, Strip(page.alert.value)))
  {
    JoinPrefix(ModalLines(page), 1, "\n");
  }

  // ---------------------------------------------------------------------------
  // error patterns

  const CriticalPatterns: seq<string> := ["invalid select file:", "invalid select file", "invalid file:", "invalid file", "invalid select"]
  const AuthPatterns: seq<string> := [
    "access denied", "unauthorized", "permission denied", "forbidden", "session expired",
    "login required", "authentication failed"]
  const SystemPatterns: seq<string> := [
    "error occurred", "exception occurred", "not found", "database error", "connection error",
    "timeout", "service unavailable", "404", "403", "500", "502", "503"]

  /** Every pattern the error test looks for, in the order it looks for them. */
  const ErrorPatterns: seq<string> := CriticalPatterns + AuthPatterns + SystemPatterns

  /** Non-empty text whose lower-case form contains a critical, authentication or system pattern. */
  function IsErrorContent(text: string): (r: bool)
    ensures r <==> text != [] && exists k :: 0 <= k < |ErrorPatterns| && Contains(Lower(text), ErrorPatterns[k])
  {
    AnyMatchConcat(CriticalPatterns + AuthPatterns, SystemPatterns, Lower(text));
    AnyMatchConcat(CriticalPatterns, AuthPatterns, Lower(text));
    text != []
    && (AnyMatch(CriticalPatterns, Lower(text)) || AnyMatch(AuthPatterns, Lower(text)) || AnyMatch(SystemPatterns, Lower(text)))
  }

  /** Testing two pattern lists one after the other is testing their concatenation. */
  lemma AnyMatchConcat(a: seq<string>, b: seq<string>, text: string)
    ensures AnyMatch(a + b, text) <==> AnyMatch(a, text) || AnyMatch(b, text)
  {
    if AnyMatch(a, text) {
      var j :| 0 <= j < |a| && Contains(text, a[j]);
      assert (a + b)[j] == a[j];
    }
    if AnyMatch(b, text) {
      var j :| 0 <= j < |b| && Contains(text, b[j]);
      assert (a + b)[|a| + j] == b[j];
    }
    if AnyMatch(a + b, text) {
      var j :| 0 <= j < |a + b| && Contains(text, (a + b)[j]);
      if j >= |a| {
        assert (a + b)[j] == b[j - |a|];
      } else {
        assert (a + b)[j] == a[j];
      }
    }
  }

  // ---------------------------------------------------------------------------
  // error detail

  /** The patterns `extract_error_detail` tests, in order, and the message each one yields. */
  const DetailPatterns: seq<string> := [
    "invalid select file:", "invalid select file", "invalid file:", "invalid file", "access denied",
    "session expired", "not found", "unauthorized", "database error"]
  const DetailMessages: seq<string> := [
    "Invalid select file error (with colon)", "Invalid select file error", "Invalid file error (with colon)",
    "Invalid file error", "Access denied error", "Session expired error", "Page not found error",
    "Unauthorized access error", "Database error"]

  const NoErrorTextMessage := "No error text found"
  const NoDetailsMessage := "Error detected but no specific details found"

  /** The keywords that make a line an error line. */
  const LineErrorKeywords: seq<string> := ["error", "failed", "invalid", "denied"]

  /** A line that is non-blank and, stripped and in lower case, mentions an error keyword. */
  predicate ErrorLine(line: string) {
    Strip(line) != [] && AnyMatch(LineErrorKeywords, Lower(Strip(line)))
  }

  /** The first error line, stripped. */
  function FirstErrorLine(lines: seq<string>): (r: Option<string>)
    ensures r.Some? ==> exists k :: 0 <= k < |lines| && r.value == Strip(lines[k])
    ensures r.Some? ==> r.value != [] && AnyMatch(LineErrorKeywords, Lower(r.value))
  {
    if |lines| == 0 then None
    else if ErrorLine(lines[0]) then Some(Strip(lines[0]))
    else
      var r := FirstErrorLine(lines[1..]);
      assert r.Some? ==> exists k :: 0 <= k < |lines[1..]| && r.value == Strip(lines[1..][k]);
      r
  }

  /** The line found is the first error line; none is found exactly when no line is an error line. */
  lemma FirstErrorLineIsFirst(lines: seq<string>)
    ensures var r := FirstErrorLine(lines);
      (r.Some? ==>
         exists k :: 0 <= k < |lines| && r.value == Strip(lines[k]) && ErrorLine(lines[k])
           && forall j :: 0 <= j < k ==> !ErrorLine(lines[j]))
      && (r.None? <==> forall k :: 0 <= k < |lines| ==> !ErrorLine(lines[k]))
  {
    FirstErrorLineWitness(lines);
    FirstErrorLineNone(lines);
  }

  lemma FirstErrorLineWitness(lines: seq<string>)
    ensures var r := FirstErrorLine(lines);
      r.Some? ==>
        exists k :: 0 <= k < |lines| && r.value == Strip(lines[k]) && ErrorLine(lines[k])
          && forall j :: 0 <= j < k ==> !ErrorLine(lines[j])
  {
    if FirstErrorLine(lines).Some? {
      var k := FirstErrorLineIndex(lines);
    }
  }

  /** The position of the line `FirstErrorLine` finds. */
  lemma {:induction false} FirstErrorLineIndex(lines: seq<string>) returns (k: nat)
    requires FirstErrorLine(lines).Some?
    ensures k < |lines| && FirstErrorLine(lines).value == Strip(lines[k]) && ErrorLine(lines[k])
    ensures forall j :: 0 <= j < k ==> !ErrorLine(lines[j])
  {
    if ErrorLine(lines[0]) {
      k := 0;
    } else {
      assert FirstErrorLine(lines) == FirstErrorLine(lines[1..]);
      var k' := FirstErrorLineIndex(lines[1..]);
      FirstAfterHead(lines, ErrorLine, k');
      k := k' + 1;
    }
  }

  lemma {:induction false} FirstErrorLineNone(lines: seq<string>)
    ensures FirstErrorLine(lines).None? <==> forall k :: 0 <= k < |lines| ==> !ErrorLine(lines[k])
  {
    if |lines| > 0 && !ErrorLine(lines[0]) {
      var tail := lines[1..];
      FirstErrorLineNone(tail);
      assert FirstErrorLine(lines) == FirstErrorLine(tail);
      forall k | 1 <= k < |lines| ensures lines[k] == tail[k - 1] { }
    }
  }

  /** A line with something besides whitespace. */
  predicate NonBlank(line: string) {
    Strip(line) != []
  }

  /** The first non-blank line, stripped. */
  function FirstNonBlankLine(lines: seq<string>): (r: Option<string>)
    ensures r.Some? ==> r.value != []
  {
    if |lines| == 0 then None
    else if NonBlank(lines[0]) then Some(Strip(lines[0]))
    else FirstNonBlankLine(lines[1..])
  }

  /** The line found is the first non-blank line; none is found exactly when every line is blank. */
  lemma FirstNonBlankLineIsFirst(lines: seq<string>)
    ensures var r := FirstNonBlankLine(lines);
      (r.Some? ==>
         exists k :: 0 <= k < |lines| && r.value == Strip(lines[k])
           && forall j :: 0 <= j < k ==> Strip(lines[j]) == [])
      && (r.None? <==> forall k :: 0 <= k < |lines| ==> Strip(lines[k]) == [])
  {
    if FirstNonBlankLine(lines).Some? {
      var k := FirstNonBlankLineIndex(lines);
    }
    FirstNonBlankLineNone(lines);
  }

  lemma {:induction false} FirstNonBlankLineNone(lines: seq<string>)
    ensures FirstNonBlankLine(lines).None? <==> forall k :: 0 <= k < |lines| ==> !NonBlank(lines[k])
  {
    if |lines| > 0 && !NonBlank(lines[0]) {
      var tail := lines[1..];
      FirstNonBlankLineNone(tail);
      assert FirstNonBlankLine(lines) == FirstNonBlankLine(tail);
      forall k | 1 <= k < |lines| ensures lines[k] == tail[k - 1] { }
    }
  }

  /** The position of the line `FirstNonBlankLine` finds. */
  lemma {:induction false} FirstNonBlankLineIndex(lines: seq<string>) returns (k: nat)
    requires FirstNonBlankLine(lines).Some?
    ensures k < |lines| && FirstNonBlankLine(lines).value == Strip(lines[k])
    ensures forall j :: 0 <= j < k ==> Strip(lines[j]) == []
  {
    if NonBlank(lines[0]) {
      assert FirstNonBlankLine(lines) == Some(Strip(lines[0]));
      k := 0;
    } else {
      var tail := lines[1..];
      assert FirstNonBlankLine(lines) == FirstNonBlankLine(tail);
      var k' := FirstNonBlankLineIndex(tail);
      FirstAfterHead(lines, NonBlank, k');
      assert FirstNonBlankLine(lines).value == Strip(tail[k']) == Strip(lines[k' + 1]);
      k := k' + 1;
    }
  }

  /** The line-based description used when no known pattern occurs: an error line cut to 150 characters, else the first non-blank line cut to 100. */
  function LineDetail(text: string): (r: Option<string>)
    ensures r.Some? ==> 0 < |r.value| <= 150
    ensures var lines := SplitOn(text, '\n');
      match FirstErrorLine(lines)
      case Some(l) => r == Some(Take(l, 150)) && StartsWith(l, r.value)
      case None =>
        match FirstNonBlankLine(lines)
        case Some(l) => r == Some(Take(l, 100)) && StartsWith(l, r.value)
        case None => r.None?
  {
    var lines := SplitOn(text, '\n');
    match FirstErrorLine(lines)
    case Some(l) => Some(Take(l, 150))
    case None =>
      match FirstNonBlankLine(lines)
      case Some(l) => Some(Take(l, 100))
      case None => None
  }

  /** A short description of the error in `text`. */
  function ExtractErrorDetail(text: string): (r: string)
    ensures text == [] ==> r == NoErrorTextMessage
    ensures |r| <= 150 || r in DetailMessages
    ensures text != [] ==>
      match FirstMatch(DetailPatterns, Lower(text))
      case Some(k) => k < |DetailMessages| && r == DetailMessages[k]
      case None => r == (if LineDetail(text).Some? then LineDetail(text).value else NoDetailsMessage)
  {
    if text == [] then NoErrorTextMessage
    else
      match FirstMatch(DetailPatterns, Lower(text))
      case Some(k) => DetailMessages[k]
      case None =>
        match LineDetail(text)
        case Some(l) => l
        case None => NoDetailsMessage
  }

  /** The first detail pattern that occurs decides the message: the earlier tests win over the later ones. */
  lemma ErrorDetailFirstPatternWins(text: string, k: nat)
    requires text != [] && k < |DetailPatterns|
    requires Contains(Lower(text), DetailPatterns[k])
    requires forall j :: 0 <= j < k ==> !Contains(Lower(text), DetailPatterns[j])
    ensures ExtractErrorDetail(text) == DetailMessages[k]
  {
  }

  /** Every detail pattern is one of the error patterns, so a pattern-based description is only given for error content. */
  lemma DetailPatternsAreErrorPatterns(text: string, k: nat)
    requires text != [] && k < |DetailPatterns| && Contains(Lower(text), DetailPatterns[k])
    ensures IsErrorContent(text)
  {
    var m: nat := [0, 1, 2, 3, 5, 9, 14, 6, 15][k];
    assert ErrorPatterns[m] == DetailPatterns[k];
  }

  /** Text recognised as an error always yields a specific description: the generic fallback message is never reached. */
  lemma DetectedErrorHasDetail(text: string)
    requires IsErrorContent(text)
    ensures FirstMatch(DetailPatterns, Lower(text)).Some? || LineDetail(text).Some?
  {
    var k :| 0 <= k < |ErrorPatterns| && Contains(Lower(text), ErrorPatterns[k]);
    var i: nat :| i <= |Lower(text)| && MatchAt(Lower(text), ErrorPatterns[k], i);
    PatternStartsVisibly(k);
    assert Lower(text)[i] == ErrorPatterns[k][0];
    assert !IsSpace(text[i]) && text[i] != '\n';
    var lines := SplitOn(text, '\n');
    var j := SplitOnCovers(text, '\n', i);
    StripKeepsVisible(lines[j], text[i]);
    FirstNonBlankLineNone(lines);
  }

  /** Every error pattern begins with a lower-case letter or a digit. */
  lemma PatternStartsVisibly(k: nat)
    requires k < |ErrorPatterns|
    ensures |ErrorPatterns[k]| > 0
    ensures 'a' <= ErrorPatterns[k][0] <= 'z' || '0' <= ErrorPatterns[k][0] <= '9'
  {
  }

  /** Every character of the string other than the separator lands in some part of the split. */
  lemma {:induction false} SplitOnCovers(s: string, c: char, i: nat) returns (j: nat)
    requires i < |s| && s[i] != c
    ensures j < |SplitOn(s, c)| && s[i] in SplitOn(s, c)[j]
  {
    var rest := SplitOn(s[1..], c);
    if i == 0 {
      j := 0;
    } else {
      var j' := SplitOnCovers(s[1..], c, i - 1);
      if s[0] == c {
        j := j' + 1;
      } else if j' == 0 {
        j := 0;
        assert SplitOn(s, c)[0] == [s[0]] + rest[0];
      } else {
        j := j';
        assert SplitOn(s, c)[j] == rest[j'];
      }
    }
  }

  /** A string holding a visible character does not strip to nothing. */
  lemma StripKeepsVisible(s: string, c: char)
    requires c in s && !IsSpace(c)
    ensures Strip(s) != []
  {
    var i :| 0 <= i < |s| && s[i] == c;
    var l := TrimLeft(s);
    assert |s| - |l| <= i;
    assert l[i - (|s| - |l|)] == c;
  }

  // ---------------------------------------------------------------------------
  // verdict

  datatype Status = Pass | Fail

  /** What content analysis reports for a page: the status, the reason and the confidence. */
  datatype Verdict = Verdict(status: Status, reason: string, confidence: nat)

  const TitleErrorPatterns: seq<string> := ["error", "invalid", "denied", "unauthorized", "404", "403", "500"]

  /** Whether the page's title, in lower case, holds an error pattern; a title that cannot be read holds none. */
  predicate TitleShowsError(title: Option<string>)
    ensures TitleShowsError(title) ==> title.Some? && |title.value| >= 3
  {
    if title.Some? then TitlePatternLength(title.value); AnyMatch(TitleErrorPatterns, Lower(title.value))
    else false
  }

  /** Every title pattern has at least three characters, so a title holding one has too. */
  lemma TitlePatternLength(t: string)
    ensures AnyMatch(TitleErrorPatterns, Lower(t)) ==> |t| >= 3
  {
    if AnyMatch(TitleErrorPatterns, Lower(t)) {
      var j :| 0 <= j < |TitleErrorPatterns| && Contains(Lower(t), TitleErrorPatterns[j]);
      assert |TitleErrorPatterns[j]| >= 3;
    }
  }

  /**
   * Content analysis of a page: a body that never appears fails with
   * confidence 70, error text in the modal report fails with 98, an error
   * word in the title fails with 90, and anything else passes with 85.
   */
  function ContentTextDetection(page: DetectionPage): (v: Verdict)
    ensures v.status == Fail <==>
      page.bodyWait.Some? || IsErrorContent(ModalContent(page)) || TitleShowsError(page.title)
    ensures v.confidence in {70, 85, 90, 98}
    ensures v.status == Pass <==> v.confidence == 85
    ensures page.bodyWait.Some? ==> v == Verdict(Fail, "Detection error: " + Take(page.bodyWait.value, 100), 70)
    ensures page.bodyWait.None? && IsErrorContent(ModalContent(page)) ==>
      v.reason == ExtractErrorDetail(ModalContent(page)) && v.confidence == 98
    ensures page.bodyWait.None? && !IsErrorContent(ModalContent(page)) && TitleShowsError(page.title) ==>
      v.reason == "Error in page title: " + page.title.value && v.confidence == 90
    ensures v.status == Pass ==> v.reason == "No errors detected"
  {
    match page.bodyWait
    case Some(e) => Verdict(Fail, "Detection error: " + Take(e, 100), 70)
    case None =>
      var content := ModalContent(page);
      if IsErrorContent(content) then Verdict(Fail, ExtractErrorDetail(content), 98)
      else if TitleShowsError(page.title) then Verdict(Fail, "Error in page title: " + page.title.value, 90)
      else Verdict(Pass, "No errors detected", 85)
  }

  /**
   * Every verdict reaches the default confidence threshold, and error text
   * found in the page is always described by a pattern message or by one
   * of its own lines.
   */
  lemma VerdictMeetsThreshold(page: DetectionPage)
    ensures ContentTextDetection(page).confidence >= DefaultConfig().confidenceThreshold
    ensures page.bodyWait.None? && IsErrorContent(ModalContent(page)) ==>
      ContentTextDetection(page).reason in DetailMessages
      || Some(ContentTextDetection(page).reason) == LineDetail(ModalContent(page))
  {
    if page.bodyWait.None? && IsErrorContent(ModalContent(page)) {
      DetectedErrorHasDetail(ModalContent(page));
    }
  }

  // ---------------------------------------------------------------------------
  // detection result

  datatype Evidence = Evidence(detectionReason: string, methodName: string, confidence: nat)

  datatype DetectionResult = DetectionResult(
    status: Status,
    methodName: string,
    confidence: nat,
    executionTime: nat,
    errorMessage: Option<string>,
    evidence: Evidence)

  /** A result records the verdict; the reason becomes the error message only for a failure. */
  function MakeDetectionResult(v: Verdict, executionTime: nat, methodName: string): (r: DetectionResult)
    ensures r.status == v.status && r.confidence == v.confidence && r.methodName == methodName
    ensures r.errorMessage.Some? <==> v.status == Fail
    ensures r.errorMessage.Some? ==> r.errorMessage.value == v.reason
    ensures r.evidence == Evidence(v.reason, methodName, v.confidence)
  {
    DetectionResult(v.status, methodName, v.confidence, executionTime,
      if v.status == Fail then Some(v.reason) else None,
      Evidence(v.reason, methodName, v.confidence))
  }

  const ContentAnalysis := "content_analysis"

  /**
   * The engine's analysis of a page. With content analysis switched off
   * there is no verdict to report and the engine fails (`Err`).
   * `elapsed` is the time the analysis took, in milliseconds.
   */
  function AnalyzeUrl(config: DetectionConfig, page: DetectionPage, elapsed: nat): (r: Result<DetectionResult, string>)
    ensures r.Ok? <==> config.contentAnalysis.enabled
    ensures r.Ok? ==> var v := ContentTextDetection(page);
      r.value.status == v.status && r.value.confidence == v.confidence && r.value.executionTime == elapsed
      && r.value.methodName == ContentAnalysis
      && (r.value.errorMessage.Some? <==> v.status == Fail)
      && (r.value.errorMessage.Some? ==> r.value.errorMessage.value == v.reason)
      && r.value.evidence == Evidence(v.reason, ContentAnalysis, v.confidence)
  {
    if config.contentAnalysis.enabled then
      Ok(MakeDetectionResult(ContentTextDetection(page), elapsed, ContentAnalysis))
    else Err("status referenced before assignment")
  }

  /** Switching OCR on or off does not change the engine's result. */
  lemma OcrDoesNotChangeAnalysis(c1: DetectionConfig, c2: DetectionConfig, page: DetectionPage, elapsed: nat)
    requires c1.contentAnalysis.enabled == c2.contentAnalysis.enabled
    ensures AnalyzeUrl(c1, page, elapsed) == AnalyzeUrl(c2, page, elapsed)
  {
  }
}
