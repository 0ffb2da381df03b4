/**
 * The small pure helpers of the dashboard (main.py): splitting a stored
 * error message, cleaning error text for display, the navigation-button
 * table, the first-URL check of the authentication page and the input
 * normalisation of the SQL generator.
 */
module Helpers {
  import opened Wrappers
  import opened Strings
  import opened Tables

  // ---------------------------------------------------------------------------
  // parse_error_message

  const ExtractedMarker: string := "| EXTRACTED:"

  /**
   * Splits a stored error message into the browser error and the text
   * extracted from the page, at the first `| EXTRACTED:`; a message without
   * the marker is all browser error. An empty or absent message gives neither.
   */
  function ParseErrorMessage(message: Option<string>): (r: (Option<string>, Option<string>))
    ensures message.None? || message.value == [] ==> r == (None, None)
    ensures message.Some? && message.value != [] && !Contains(message.value, ExtractedMarker) ==>
      r == (Some(Strip(message.value)), None)
    ensures message.Some? && Contains(message.value, ExtractedMarker) ==> r.0.Some? && r.1.Some?
  {
    match message
    case None => (None, None)
    case Some(m) =>
      if m == [] then (None, None)
      else if Contains(m, ExtractedMarker) then
        var parts := SplitFirst(m, ExtractedMarker);
        (Some(Strip(parts.0)), Some(Strip(parts.1)))
      else (Some(Strip(m)), None)
  }

  /**
   * Whatever text surrounds the first marker, the two halves come back
   * stripped: the browser error is the text before the first marker and the
   * extracted text is everything after it, further markers included.
   */
  lemma ParseErrorMessageSplitsAtFirstMarker(before: string, after: string)
    requires !Contains(before + ExtractedMarker[..|ExtractedMarker| - 1], ExtractedMarker)
    ensures ParseErrorMessage(Some(before + ExtractedMarker + after)) == (Some(Strip(before)), Some(Strip(after)))
  {
    SplitFirstUnique(before + ExtractedMarker + after, ExtractedMarker, before, after);
  }

  // ---------------------------------------------------------------------------
  // extract_meaningful_error_text

  const ErrorKeywords: seq<string> := ["error", "fail", "invalid", "denied", "expired", "required", "forbidden"]

  /** `\w` of a regular expression, on the ASCII characters. */
  predicate IsWordChar(c: char) {
    'a' <= c <= 'z' || 'A' <= c <= 'Z' || '0' <= c <= '9' || c == '_'
  }

  /** The characters `[\w\s.,!?:;\-()]` that cleaning keeps. */
  predicate KeptChar(c: char) {
    IsWordChar(c) || IsSpace(c) || c in ".,!?:;-()"
  }

  /** `re.sub(r'[^\w\s.,!?:;\-()]', ' ', s)`: every character outside the kept class becomes a space. */
  function ReplaceUnkept(s: string): (r: string)
    ensures |r| == |s|
    ensures forall i :: 0 <= i < |s| ==> r[i] == (if KeptChar(s[i]) then s[i] else ' ')
  {
    seq(|s|, i requires 0 <= i < |s| => if KeptChar(s[i]) then s[i] else ' ')
  }

  /**
   * Every character outside the kept class becomes a space, then whitespace
   * runs collapse to one space: the cleaned text holds the words of the
   * replaced text, in order, separated by single spaces.
   */
  function CleanErrorText(s: string): (r: string)
    ensures Collapsed(r)
    ensures forall i :: 0 <= i < |r| ==> KeptChar(r[i])
    ensures Words(r) == Words(ReplaceUnkept(s)) && r == Join(Words(r), " ")
  {
    var replaced := ReplaceUnkept(s);
    CollapseKeeps(replaced);
    CollapseSpacesWords(replaced);
    CollapseSpaces(replaced)
  }

  lemma CollapseKeeps(s: string)
    requires forall i :: 0 <= i < |s| ==> KeptChar(s[i])
    ensures forall i :: 0 <= i < |CollapseSpaces(s)| ==> KeptChar(CollapseSpaces(s)[i])
  {
    var ws := Words(s);
    forall i | 0 <= i < |Join(ws, " ")| ensures KeptChar(Join(ws, " ")[i]) {
      JoinChars(ws, " ", i);
      var c := Join(ws, " ")[i];
      if c !in " " {
        var j, k :| 0 <= j < |ws| && 0 <= k < |ws[j]| && c == ws[j][k];
        assert c in s;
      }
    }
  }

  /** Each character of `sep.join(parts)` comes from a part or from the separator. */
  lemma {:induction false} JoinChars(parts: seq<string>, sep: string, i: nat)
    requires i < |Join(parts, sep)|
    ensures Join(parts, sep)[i] in sep || exists j, k :: 0 <= j < |parts| && 0 <= k < |parts[j]| && Join(parts, sep)[i] == parts[j][k]
  {
    if |parts| == 1 {
      assert Join(parts, sep)[i] == parts[0][i];
    } else if |parts| > 1 {
      var tail := Join(parts[1..], sep);
      assert Join(parts, sep) == parts[0] + sep + tail;
      if i < |parts[0]| {
        assert Join(parts, sep)[i] == parts[0][i];
      } else if i < |parts[0]| + |sep| {
        assert Join(parts, sep)[i] == sep[i - |parts[0]|];
      } else {
        JoinChars(parts[1..], sep, i - |parts[0]| - |sep|);
        assert Join(parts, sep)[i] == tail[i - |parts[0]| - |sep|];
        if tail[i - |parts[0]| - |sep|] !in sep {
          var j, k :| 0 <= j < |parts[1..]| && 0 <= k < |parts[1..][j]| && tail[i - |parts[0]| - |sep|] == parts[1..][j][k];
          assert parts[1..][j] == parts[j + 1];
        }
      }
    }
  }

  /** A sentence naming an error keyword, with more than 10 characters once stripped. */
  predicate KeywordSentence(sentence: string) {
    AnyMatch(ErrorKeywords, Lower(sentence)) && |Strip(sentence)| > 10
  }

  /** A sentence with more than 20 characters once stripped. */
  predicate LongSentence(sentence: string) {
    |Strip(sentence)| > 20
  }

  /** The first keyword sentence, if any. */
  function FirstKeywordSentence(sentences: seq<string>): (r: Option<string>)
    ensures r.Some? ==> r.value in sentences && KeywordSentence(r.value)
  {
    if |sentences| == 0 then None
    else if KeywordSentence(sentences[0]) then Some(sentences[0])
    else FirstKeywordSentence(sentences[1..])
  }

  /** The position of the keyword sentence found: every sentence before it fails the test. */
  lemma {:induction false} FirstKeywordSentenceIndex(sentences: seq<string>) returns (k: nat)
    requires FirstKeywordSentence(sentences).Some?
    ensures k < |sentences| && sentences[k] == FirstKeywordSentence(sentences).value
    ensures forall j :: 0 <= j < k ==> !KeywordSentence(sentences[j])
    decreases |sentences|
  {
    if KeywordSentence(sentences[0]) {
      k := 0;
    } else {
      var tail := sentences[1..];
      var k' := FirstKeywordSentenceIndex(tail);
      k := k' + 1;
      FirstAfterHead(sentences, KeywordSentence, k');
    }
  }

  /** No keyword sentence is found exactly when no sentence passes the test. */
  lemma {:induction false} FirstKeywordSentenceNone(sentences: seq<string>)
    ensures FirstKeywordSentence(sentences).None? <==> forall k :: 0 <= k < |sentences| ==> !KeywordSentence(sentences[k])
    decreases |sentences|
  {
    if |sentences| > 0 && !KeywordSentence(sentences[0]) {
      var tail := sentences[1..];
      FirstKeywordSentenceNone(tail);
      forall k | 1 <= k < |sentences| ensures sentences[k] == tail[k - 1] { }
    }
  }

  /** The keyword sentence found is the first one; none is found exactly when no sentence qualifies. */
  lemma {:induction false} FirstKeywordSentenceIsFirst(sentences: seq<string>)
    ensures var r := FirstKeywordSentence(sentences);
      (r.Some? ==>
         exists k :: 0 <= k < |sentences| && sentences[k] == r.value
           && forall j :: 0 <= j < k ==> !KeywordSentence(sentences[j]))
      && (r.None? <==> forall k :: 0 <= k < |sentences| ==> !KeywordSentence(sentences[k]))
  {
    FirstKeywordSentenceNone(sentences);
    if FirstKeywordSentence(sentences).Some? {
      var k := FirstKeywordSentenceIndex(sentences);
    }
  }

  /** The first long sentence, if any. */
  function FirstLongSentence(sentences: seq<string>): (r: Option<string>)
    ensures r.Some? ==> r.value in sentences && LongSentence(r.value)
  {
    if |sentences| == 0 then None
    else if LongSentence(sentences[0]) then Some(sentences[0])
    else FirstLongSentence(sentences[1..])
  }

  /** The position of the long sentence found: every sentence before it fails the test. */
  lemma {:induction false} FirstLongSentenceIndex(sentences: seq<string>) returns (k: nat)
    requires FirstLongSentence(sentences).Some?
    ensures k < |sentences| && sentences[k] == FirstLongSentence(sentences).value
    ensures forall j :: 0 <= j < k ==> !LongSentence(sentences[j])
    decreases |sentences|
  {
    if LongSentence(sentences[0]) {
      k := 0;
    } else {
      var tail := sentences[1..];
      var k' := FirstLongSentenceIndex(tail);
      k := k' + 1;
      FirstAfterHead(sentences, LongSentence, k');
    }
  }

  /** No long sentence is found exactly when no sentence passes the test. */
  lemma {:induction false} FirstLongSentenceNone(sentences: seq<string>)
    ensures FirstLongSentence(sentences).None? <==> forall k :: 0 <= k < |sentences| ==> !LongSentence(sentences[k])
    decreases |sentences|
  {
    if |sentences| > 0 && !LongSentence(sentences[0]) {
      var tail := sentences[1..];
      FirstLongSentenceNone(tail);
      forall k | 1 <= k < |sentences| ensures sentences[k] == tail[k - 1] { }
    }
  }

  /** The long sentence found is the first one; none is found exactly when no sentence qualifies. */
  lemma {:induction false} FirstLongSentenceIsFirst(sentences: seq<string>)
    ensures var r := FirstLongSentence(sentences);
      (r.Some? ==>
         exists k :: 0 <= k < |sentences| && sentences[k] == r.value
           && forall j :: 0 <= j < k ==> !LongSentence(sentences[j]))
      && (r.None? <==> forall k :: 0 <= k < |sentences| ==> !LongSentence(sentences[k]))
  {
    FirstLongSentenceNone(sentences);
    if FirstLongSentence(sentences).Some? {
      var k := FirstLongSentenceIndex(sentences);
    }
  }

  /**
   * Error text shortened for display: cleaned text of at most 150
   * characters is shown whole; longer text is cut down to its first error
   * sentence, else its first long sentence (150 characters at most), else
   * its first 200 characters.
   */
  function ExtractMeaningfulErrorText(text: Option<string>): (r: Option<string>)
    ensures r.None? <==> text.None? || text.value == []
    ensures r.Some? ==> |r.value| <= 200
    ensures text.Some? && text.value != [] && |CleanErrorText(text.value)| <= 150 ==>
      r == Some(CleanErrorText(text.value))
    ensures text.Some? && text.value != [] ==> r == Some(ShortenCleaned(CleanErrorText(text.value)))
  {
    match text
    case None => None
    case Some(t) => if t == [] then None else Some(ShortenCleaned(CleanErrorText(t)))
  }

  /**
   * The length rule applied to already cleaned text: text longer than 150
   * characters is cut at `.`, `!` and `?`, and the first sentence naming
   * an error keyword with more than 10 characters once stripped is shown,
   * else the first with more than 20, stripped and cut to 150 characters;
   * without either, the first 200 characters are shown.
   */
  function ShortenCleaned(cleaned: string): (r: string)
    ensures |r| <= 200
    ensures |cleaned| <= 150 ==> r == cleaned
    ensures |cleaned| > 150 ==>
      var ss := SplitOnAny(cleaned, Terminators);
      if exists k :: 0 <= k < |ss| && KeywordSentence(ss[k]) then
        exists k :: 0 <= k < |ss| && KeywordSentence(ss[k]) && (forall j :: 0 <= j < k ==> !KeywordSentence(ss[j]))
          && r == Take(Strip(ss[k]), 150)
      else if exists k :: 0 <= k < |ss| && LongSentence(ss[k]) then
        exists k :: 0 <= k < |ss| && LongSentence(ss[k]) && (forall j :: 0 <= j < k ==> !LongSentence(ss[j]))
          && r == Take(Strip(ss[k]), 150)
      else
        r == Take(cleaned, 200)
  {
    if |cleaned| > 150 then
      var sentences := SplitOnAny(cleaned, Terminators);
      match FirstKeywordSentence(sentences)
      case Some(s) =>
        KeywordSentenceChosen(sentences);
        Take(Strip(s), 150)
      case None =>
        match FirstLongSentence(sentences)
        case Some(s) =>
          LongSentenceChosen(sentences);
          Take(Strip(s), 150)
        case None =>
          NoSentenceChosen(sentences);
          Take(cleaned, 200)
    else cleaned
  }

  /** A keyword sentence found is at a position with no keyword sentence before it. */
  lemma KeywordSentenceChosen(ss: seq<string>)
    requires FirstKeywordSentence(ss).Some?
    ensures exists k :: 0 <= k < |ss| && KeywordSentence(ss[k])
    ensures exists k ::
      0 <= k < |ss| && KeywordSentence(ss[k]) && (forall j :: 0 <= j < k ==> !KeywordSentence(ss[j])) && ss[k] == FirstKeywordSentence(ss).value
  {
    FirstKeywordSentenceIsFirst(ss);
  }

  /** Without a keyword sentence, a long sentence found is at a position with no long sentence before it. */
  lemma LongSentenceChosen(ss: seq<string>)
    requires FirstKeywordSentence(ss).None? && FirstLongSentence(ss).Some?
    ensures !exists k :: 0 <= k < |ss| && KeywordSentence(ss[k])
    ensures exists k :: 0 <= k < |ss| && LongSentence(ss[k])
    ensures exists k ::
      0 <= k < |ss| && LongSentence(ss[k]) && (forall j :: 0 <= j < k ==> !LongSentence(ss[j])) && ss[k] == FirstLongSentence(ss).value
  {
    FirstKeywordSentenceIsFirst(ss);
    FirstLongSentenceIsFirst(ss);
  }

  /** When neither search finds a sentence, no sentence qualifies for either. */
  lemma NoSentenceChosen(ss: seq<string>)
    requires FirstKeywordSentence(ss).None? && FirstLongSentence(ss).None?
    ensures !exists k :: 0 <= k < |ss| && KeywordSentence(ss[k])
    ensures !exists k :: 0 <= k < |ss| && LongSentence(ss[k])
  {
    FirstKeywordSentenceIsFirst(ss);
    FirstLongSentenceIsFirst(ss);
  }

  /** Sentence-ending punctuation, the separators `re.split(r'[.!?]')` cuts at. */
  const Terminators: set<char> := {'.', '!', '?'}

  /** When long text is cut to a sentence, the shown text holds no sentence-ending punctuation. */
  lemma MeaningfulSentenceHasNoTerminator(cleaned: string)
    requires |cleaned| > 150
    requires var ss := SplitOnAny(cleaned, Terminators);
      FirstKeywordSentence(ss).Some? || FirstLongSentence(ss).Some?
    ensures |ShortenCleaned(cleaned)| <= 150
    ensures forall c :: c in ShortenCleaned(cleaned) ==> c !in Terminators
  {
    var ss := SplitOnAny(cleaned, Terminators);
    var s := if FirstKeywordSentence(ss).Some? then FirstKeywordSentence(ss).value else FirstLongSentence(ss).value;
    assert ShortenCleaned(cleaned) == Take(Strip(s), 150);
    assert s in ss;
    TakeStripChars(s, 150);
  }

  /** A cut-down stripped text only holds characters of the original. */
  lemma TakeStripChars(s: string, n: nat)
    ensures forall c :: c in Take(Strip(s), n) ==> c in s
  {
    StripSubset(s);
    var r := Take(Strip(s), n);
    assert r == Strip(s)[..|r|];
    forall c | c in r ensures c in s {
      var k :| 0 <= k < |r| && r[k] == c;
      assert Strip(s)[k] == c;
    }
  }

  /** `strip()` only removes characters. */
  lemma StripSubset(s: string)
    ensures forall c :: c in Strip(s) ==> c in s
  {
    TrimLeftSubset(s);
    TrimRightSubset(TrimLeft(s));
  }

  lemma TrimLeftSubset(s: string)
    ensures forall c :: c in TrimLeft(s) ==> c in s
  {
  }

  lemma TrimRightSubset(s: string)
    ensures forall c :: c in TrimRight(s) ==> c in s
  {
  }

  // ---------------------------------------------------------------------------
  // get_button_position

  const PagePositions: map<string, int> :=
    map["dashboard" := 1, "new_test" := 2, "history" := 3, "manual_auth" := 4, "sql" := 5]

  /** Column of the highlighted navigation button; unknown pages highlight the first. */
  function GetButtonPosition(page: string): (r: int)
    ensures 1 <= r <= 5
    ensures page !in PagePositions ==> r == 1
  {
    if page in PagePositions then PagePositions[page] else 1
  }

  /** The five pages sit in five different columns, in the order of the navigation bar. */
  lemma ButtonPositionsDistinct()
    ensures GetButtonPosition("dashboard") == 1 && GetButtonPosition("new_test") == 2
    ensures GetButtonPosition("history") == 3 && GetButtonPosition("manual_auth") == 4
    ensures GetButtonPosition("sql") == 5
    ensures forall p, q :: p in PagePositions && q in PagePositions && p != q ==> GetButtonPosition(p) != GetButtonPosition(q)
  {
  }

  // ---------------------------------------------------------------------------
  // authentication page: first valid URL

  /**
   * The authentication page's test for a usable first URL. Only the
   * `http` prefix decides: the empty, `nan` and `none` tests never reject
   * a URL that has it.
   */
  predicate IsAuthenticationUrl(url: string)
    ensures IsAuthenticationUrl(url) <==> StartsWith(url, "http")
  {
    HttpPrefixDecides(url);
    url != [] && url != "nan" && Lower(url) != "none" && StartsWith(url, "http")
  }

  /** A URL starting with `http` is neither empty, nor `nan`, nor `none` in any case. */
  lemma HttpPrefixDecides(url: string)
    ensures StartsWith(url, "http") ==> url != [] && url != "nan" && Lower(url) != "none"
  {
    if StartsWith(url, "http") {
      assert url[0] == 'h';
      assert "nan"[0] == 'n';
      assert Lower(url)[0] == 'h' && "none"[0] == 'n';
    }
  }

  // ---------------------------------------------------------------------------
  // generate_customized_sql_query: input normalisation

  /** The base URL without surrounding whitespace and with exactly the trailing '/' it needs. */
  function NormalizeBaseUrl(surl: string): (r: string)
    ensures EndsWith(r, "/")
    ensures StartsWith(r, Strip(surl))
    ensures |r| <= |Strip(surl)| + 1
  {
    var t := Strip(surl);
    if EndsWith(t, "/") then t else t + "/"
  }

  /** Normalising a normalised base URL changes nothing. */
  lemma NormalizeBaseUrlIdempotent(surl: string)
    ensures NormalizeBaseUrl(NormalizeBaseUrl(surl)) == NormalizeBaseUrl(surl)
  {
    var r := NormalizeBaseUrl(surl);
    var t := Strip(surl);
    assert r[|r| - 1] == '/';
    if t != [] {
      assert r[0] == t[0];
    }
    StripTrimmed(r);
  }

  /** The generator's two inputs after normalisation: the base URL and the menu-set list. */
  function SqlQueryInputs(surl: string, menusets: string): (r: (string, string))
    ensures EndsWith(r.0, "/") && StartsWith(r.0, Strip(surl)) && |r.0| <= |Strip(surl)| + 1
    ensures r.1 == Strip(menusets)
    ensures r.1 != [] ==> !IsSpace(r.1[0]) && !IsSpace(r.1[|r.1| - 1])
  {
    (NormalizeBaseUrl(surl), Strip(menusets))
  }
}
