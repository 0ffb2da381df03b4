/**
 * The Python string operations the core relies on, over `string` (a
 * sequence of `char`): `in` (substring test), `lower`, `strip`,
 * `startswith`/`endswith`, slicing `[:n]`, `split` and `join`.
 */
module Strings {
  import opened Wrappers

  /** Python's `str.isspace()` restricted to the ASCII and Latin-1 whitespace characters. */
  predicate IsSpace(c: char) {
    c == ' ' || c == '\t' || c == '\n' || c == '\r' || c == '\U{000B}' || c == '\U{000C}'
    || c == '\U{001C}' || c == '\U{001D}' || c == '\U{001E}' || c == '\U{001F}'
    || c == '\U{0085}' || c == '\U{00A0}'
  }

  function LowerChar(c: char): (r: char)
    ensures 'A' <= c <= 'Z' ==> 'a' <= r <= 'z'
    ensures !('A' <= c <= 'Z') ==> r == c
  {
    if 'A' <= c <= 'Z' then (c as int + 32) as char else c
  }

  /** `s.lower()` on the ASCII letters; every other character is kept. */
  function Lower(s: string): (r: string)
    ensures |r| == |s|
    ensures forall i :: 0 <= i < |s| ==> r[i] == LowerChar(s[i])
  {
    seq(|s|, i requires 0 <= i < |s| => LowerChar(s[i]))
  }

  /** `sub` occurs in `s` starting at position `i`. */
  predicate MatchAt(s: string, sub: string, i: nat) {
    i + |sub| <= |s| && s[i..i + |sub|] == sub
  }

  /** `sub in s`: the empty string occurs everywhere, and nothing longer than `s` occurs in it. */
  predicate Contains(s: string, sub: string)
    ensures sub == [] ==> Contains(s, sub)
    ensures Contains(s, sub) ==> |sub| <= |s|
  {
    assert sub == [] ==> MatchAt(s, sub, 0);
    exists i: nat | i <= |s| :: MatchAt(s, sub, i)
  }

  /** `s.startswith(prefix)`: a string contains every one of its prefixes. */
  predicate StartsWith(s: string, prefix: string)
    ensures StartsWith(s, prefix) ==> Contains(s, prefix)
  {
    assert |prefix| <= |s| && s[..|prefix|] == prefix ==> MatchAt(s, prefix, 0);
    |prefix| <= |s| && s[..|prefix|] == prefix
  }

  /** `s.endswith(suffix)`: a string contains every one of its suffixes. */
  predicate EndsWith(s: string, suffix: string)
    ensures EndsWith(s, suffix) ==> Contains(s, suffix)
  {
    assert |suffix| <= |s| && s[|s| - |suffix|..] == suffix ==> MatchAt(s, suffix, |s| - |suffix|);
    |suffix| <= |s| && s[|s| - |suffix|..] == suffix
  }

  lemma ContainsAt(s: string, sub: string, i: nat)
    requires MatchAt(s, sub, i)
    ensures Contains(s, sub)
  {
  }

  /** `s[:n]`: the first `n` characters, or all of `s` when it is shorter. */
  function Take(s: string, n: nat): (r: string)
    ensures |r| <= n && |r| <= |s|
    ensures StartsWith(s, r)
    ensures |s| <= n ==> r == s
    ensures |s| > n ==> |r| == n
  {
    if |s| <= n then s else s[..n]
  }

  /** Index of the first pattern of `patterns` that occurs in `text`, if any. */
  function FirstMatch(patterns: seq<string>, text: string): (r: Option<nat>)
    ensures r.Some? ==> r.value < |patterns| && Contains(text, patterns[r.value])
    ensures r.Some? ==> forall j :: 0 <= j < r.value ==> !Contains(text, patterns[j])
    ensures r.None? ==> forall j :: 0 <= j < |patterns| ==> !Contains(text, patterns[j])
  {
    if |patterns| == 0 then None
    else if Contains(text, patterns[0]) then Some(0)
    else match FirstMatch(patterns[1..], text)
      case None => None
      case Some(k) => Some(k + 1)
  }

  /** `any(p in text for p in patterns)` */
  predicate AnyMatch(patterns: seq<string>, text: string) {
    exists j :: 0 <= j < |patterns| && Contains(text, patterns[j])
  }

  lemma FirstMatchIffAny(patterns: seq<string>, text: string)
    ensures FirstMatch(patterns, text).Some? <==> AnyMatch(patterns, text)
  {
  }

  // ---------------------------------------------------------------------------
  // strip

  function TrimLeft(s: string): (r: string)
    ensures |r| <= |s| && r == s[|s| - |r|..]
    ensures r != [] ==> !IsSpace(r[0])
    ensures forall i :: 0 <= i < |s| - |r| ==> IsSpace(s[i])
  {
    if |s| > 0 && IsSpace(s[0]) then TrimLeft(s[1..]) else s
  }

  function TrimRight(s: string): (r: string)
    ensures |r| <= |s| && r == s[..|r|]
    ensures r != [] ==> !IsSpace(r[|r| - 1])
    ensures forall i :: |r| <= i < |s| ==> IsSpace(s[i])
  {
    if |s| > 0 && IsSpace(s[|s| - 1]) then TrimRight(s[..|s| - 1]) else s
  }

  /** `s.strip()`: `s` without its leading and trailing whitespace. */
  function Strip(s: string): (r: string)
    ensures |r| <= |s|
    ensures r != [] ==> !IsSpace(r[0]) && !IsSpace(r[|r| - 1])
  {
    TrimRight(TrimLeft(s))
  }

  /**
   * `strip()` removes only whitespace, and only at the two ends: the result
   * is the slice of `s` between a whitespace prefix and a whitespace suffix.
   */
  lemma StripSlice(s: string)
    ensures var i := |s| - |TrimLeft(s)|; var r := Strip(s);
      i + |r| <= |s| && r == s[i..i + |r|]
      && (forall k :: 0 <= k < i ==> IsSpace(s[k]))
      && (forall k :: i + |r| <= k < |s| ==> IsSpace(s[k]))
  {
    var l := TrimLeft(s);
    var i := |s| - |l|;
    var r := TrimRight(l);
    assert Strip(s) == r;
    SliceOfSuffix(s, i, |r|);
    SpacesAfterSlice(s, i, |r|);
  }

  lemma SliceOfSuffix(s: string, i: nat, n: nat)
    requires i + n <= |s|
    ensures s[i..][..n] == s[i..i + n]
  {
  }

  lemma SpacesAfterSlice(s: string, i: nat, n: nat)
    requires i + n <= |s|
    requires forall k :: n <= k < |s[i..]| ==> IsSpace(s[i..][k])
    ensures forall k :: i + n <= k < |s| ==> IsSpace(s[k])
  {
    forall k | i + n <= k < |s| ensures IsSpace(s[k]) {
      assert s[k] == s[i..][k - i];
    }
  }

  /** A string that neither starts nor ends with whitespace is its own `strip()`. */
  lemma StripTrimmed(s: string)
    requires s != [] ==> !IsSpace(s[0]) && !IsSpace(s[|s| - 1])
    ensures Strip(s) == s
  {
  }

  // ---------------------------------------------------------------------------
  // split and join

  /** `sep.join(parts)` */
  function Join(parts: seq<string>, sep: string): string {
    if |parts| == 0 then ""
    else if |parts| == 1 then parts[0]
    else parts[0] + sep + Join(parts[1..], sep)
  }

  /** `s.split(c)` for a one-character separator: always at least one part, none holding `c`. */
  function SplitOn(s: string, c: char): (parts: seq<string>)
    ensures |parts| >= 1
    ensures forall j :: 0 <= j < |parts| ==> c !in parts[j]
  {
    if |s| == 0 then [""]
    else
      var rest := SplitOn(s[1..], c);
      if s[0] == c then [""] + rest else [[s[0]] + rest[0]] + rest[1..]
  }

  /** Joining the parts of a split with the separator gives back the string. */
  lemma {:induction false} SplitJoin(s: string, c: char)
    ensures Join(SplitOn(s, c), [c]) == s
  {
    if |s| > 0 {
      var rest := SplitOn(s[1..], c);
      SplitJoin(s[1..], c);
      if s[0] == c {
        assert SplitOn(s, c) == [""] + rest;
        assert Join([""] + rest, [c]) == "" + [c] + Join(rest, [c]);
      } else {
        var parts := SplitOn(s, c);
        assert parts == [[s[0]] + rest[0]] + rest[1..];
        if |rest| == 1 {
          assert Join(parts, [c]) == [s[0]] + rest[0];
        } else {
          assert parts[1..] == rest[1..];
          assert Join(rest, [c]) == rest[0] + [c] + Join(rest[1..], [c]);
        }
      }
    }
  }

  /** Splitting a joined list of separator-free parts gives the parts back. */
  lemma {:induction false} JoinSplit(parts: seq<string>, c: char)
    requires |parts| >= 1
    requires forall j :: 0 <= j < |parts| ==> c !in parts[j]
    ensures SplitOn(Join(parts, [c]), c) == parts
  {
    if |parts| == 1 {
      SplitOnNoSeparator(parts[0], c);
    } else {
      JoinSplit(parts[1..], c);
      SplitOnFirstSeparator(parts[0], Join(parts[1..], [c]), c);
      assert Join(parts, [c]) == parts[0] + [c] + Join(parts[1..], [c]);
      assert parts == [parts[0]] + parts[1..];
    }
  }

  /** A string without the separator splits into itself. */
  lemma {:induction false} SplitOnNoSeparator(s: string, c: char)
    requires c !in s
    ensures SplitOn(s, c) == [s]
  {
    if |s| > 0 {
      SplitOnNoSeparator(s[1..], c);
      assert [s[0]] + s[1..] == s;
    }
  }

  /** The part before the first separator is the first part of the split. */
  lemma {:induction false} SplitOnFirstSeparator(x: string, y: string, c: char)
    requires c !in x
    ensures SplitOn(x + [c] + y, c) == [x] + SplitOn(y, c)
  {
    var s := x + [c] + y;
    if |x| == 0 {
      assert s[1..] == y;
    } else {
      SplitOnFirstSeparator(x[1..], y, c);
      assert s[1..] == x[1..] + [c] + y;
      var rest := SplitOn(s[1..], c);
      assert rest == [x[1..]] + SplitOn(y, c);
      assert [x[0]] + x[1..] == x;
      assert SplitOn(s, c) == [[x[0]] + rest[0]] + rest[1..];
    }
  }

  /** Every part of `sep.join(parts)` occurs in it. */
  lemma {:induction false} JoinContains(parts: seq<string>, sep: string, k: nat)
    requires k < |parts|
    ensures Contains(Join(parts, sep), parts[k])
  {
    var j := Join(parts, sep);
    if |parts| == 1 {
      assert MatchAt(j, parts[0], 0);
    } else {
      var tail := Join(parts[1..], sep);
      assert j == parts[0] + sep + tail;
      if k == 0 {
        assert j[..|parts[0]|] == parts[0];
        assert MatchAt(j, parts[0], 0);
      } else {
        JoinContains(parts[1..], sep, k - 1);
        assert parts[1..][k - 1] == parts[k];
        var i: nat :| i <= |tail| && MatchAt(tail, parts[k], i);
        var off := |parts[0]| + |sep|;
        assert j[off + i..off + i + |parts[k]|] == tail[i..i + |parts[k]|];
        assert MatchAt(j, parts[k], off + i);
      }
    }
  }

  /** Joining the first `k` parts gives a prefix of joining all of them. */
  lemma {:induction false} JoinPrefix(parts: seq<string>, k: nat, sep: string)
    requires k <= |parts|
    ensures StartsWith(Join(parts, sep), Join(parts[..k], sep))
  {
    if k == 0 {
    } else if |parts| == 1 {
      assert parts[..k] == parts;
    } else if k == 1 {
      assert parts[..1] == [parts[0]];
    } else {
      JoinPrefix(parts[1..], k - 1, sep);
      assert parts[..k][1..] == parts[1..][..k - 1];
      var tail := Join(parts[1..][..k - 1], sep);
      assert Join(parts[..k], sep) == parts[0] + sep + tail;
      assert Join(parts, sep) == parts[0] + sep + Join(parts[1..], sep);
    }
  }

  /** The number of characters of `s` that are separators. */
  function SeparatorCount(s: string, seps: set<char>): nat {
    if |s| == 0 then 0 else (if s[0] in seps then 1 else 0) + SeparatorCount(s[1..], seps)
  }

  /** `re.split('[...]', s)` for a set of one-character separators: no part holds a separator. */
  function SplitOnAny(s: string, seps: set<char>): (parts: seq<string>)
    ensures |parts| >= 1
    ensures forall j, c :: 0 <= j < |parts| && c in parts[j] ==> c !in seps
  {
    if |s| == 0 then [""]
    else
      var rest := SplitOnAny(s[1..], seps);
      if s[0] in seps then [""] + rest else [[s[0]] + rest[0]] + rest[1..]
  }

  /** A split at a set of separators has one more part than the string has separators. */
  lemma {:induction false} SplitOnAnyCount(s: string, seps: set<char>)
    ensures |SplitOnAny(s, seps)| == SeparatorCount(s, seps) + 1
  {
    if |s| > 0 {
      SplitOnAnyCount(s[1..], seps);
    }
  }

  // ---------------------------------------------------------------------------
  // first occurrence of a marker

  /** The position of the first occurrence of `sub` in `s`, as `s.find(sub)` computes it. */
  function Find(s: string, sub: string): (r: Option<nat>)
    ensures r.Some? ==> MatchAt(s, sub, r.value)
    ensures r.Some? ==> forall j: nat :: j < r.value ==> !MatchAt(s, sub, j)
    ensures r.None? <==> !Contains(s, sub)
    decreases |s|
  {
    if |sub| > |s| then None
    else if s[..|sub|] == sub then
      assert MatchAt(s, sub, 0);
      Some(0)
    else
      FindShift(s, sub);
      match Find(s[1..], sub)
      case None => None
      case Some(k) => Some(k + 1)
  }

  /** Matching in `s` at `j + 1` is matching in `s[1..]` at `j`. */
  lemma FindShift(s: string, sub: string)
    requires |s| > 0
    ensures forall j: nat :: 0 < j ==> (MatchAt(s, sub, j) <==> MatchAt(s[1..], sub, j - 1))
    ensures Contains(s, sub) <==> MatchAt(s, sub, 0) || Contains(s[1..], sub)
  {
    forall j: nat | 0 < j
      ensures MatchAt(s, sub, j) <==> MatchAt(s[1..], sub, j - 1)
    {
      if j + |sub| <= |s| {
        var shifted, here := s[1..][j - 1..j - 1 + |sub|], s[j..j + |sub|];
        forall k | 0 <= k < |sub|
          ensures shifted[k] == here[k]
        {
          assert s[1..][j - 1 + k] == s[j + k];
        }
        assert shifted == here;
      }
    }
    if Contains(s, sub) && !MatchAt(s, sub, 0) {
      var i: nat :| i <= |s| && MatchAt(s, sub, i);
      assert MatchAt(s[1..], sub, i - 1);
    }
    if Contains(s[1..], sub) {
      var i: nat :| i <= |s[1..]| && MatchAt(s[1..], sub, i);
      assert MatchAt(s, sub, i + 1);
    }
  }

  /** `s.split(sep, 1)` when `sep` occurs: the text before its first occurrence and the text after it. */
  function SplitFirst(s: string, sep: string): (r: (string, string))
    requires Contains(s, sep)
    ensures s == r.0 + sep + r.1
    ensures |sep| > 0 ==> !Contains(r.0 + sep[..|sep| - 1], sep)
  {
    var i := Find(s, sep).value;
    SplitAtMatch(s, sep, i);
    FirstMatchPrefix(s, sep, i);
    (s[..i], s[i + |sep|..])
  }

  /**
   * A decomposition `s == before + sep + after` in which `sep` does not
   * occur before the one shown is the one `SplitFirst` finds.
   */
  lemma SplitFirstUnique(s: string, sep: string, before: string, after: string)
    requires |sep| > 0 && s == before + sep + after
    requires !Contains(before + sep[..|sep| - 1], sep)
    ensures Contains(s, sep) && SplitFirst(s, sep) == (before, after)
  {
    assert MatchAt(s, sep, |before|) by {
      assert s[|before|..|before| + |sep|] == sep;
    }
    var r := SplitFirst(s, sep);
    var b', a' := r.0, r.1;
    if |b'| < |before| {
      EarlierMatch(s, sep, before, after, |b'|);
    }
    if |before| < |b'| {
      EarlierMatch(s, sep, b', a', |before|);
    }
    assert b' == s[..|b'|] && before == s[..|before|];
    assert a' == s[|b'| + |sep|..] && after == s[|before| + |sep|..];
  }

  /** An occurrence of `sep` starting before `before` ends shows up in `before + sep[..|sep| - 1]`. */
  lemma EarlierMatch(s: string, sep: string, before: string, after: string, j: nat)
    requires |sep| > 0 && s == before + sep + after
    requires j < |before| && MatchAt(s, sep, j)
    ensures Contains(before + sep[..|sep| - 1], sep)
  {
    var w := before + sep[..|sep| - 1];
    assert w == s[..|before| + |sep| - 1];
    assert w[j..j + |sep|] == s[j..j + |sep|];
    assert MatchAt(w, sep, j);
  }

  lemma SplitAtMatch(s: string, sep: string, i: nat)
    requires MatchAt(s, sep, i)
    ensures s == s[..i] + sep + s[i + |sep|..]
  {
    assert s[..i] + s[i..i + |sep|] + s[i + |sep|..] == s;
  }

  /** Before the first match, and up to one character short of its end, there is no match. */
  lemma FirstMatchPrefix(s: string, sep: string, i: nat)
    requires Find(s, sep) == Some(i)
    ensures |sep| > 0 ==> !Contains(s[..i] + sep[..|sep| - 1], sep)
  {
    if |sep| > 0 {
      var n := i + |sep| - 1;
      assert s[i..i + |sep|] == sep;
      assert sep[..|sep| - 1] == s[i..n];
      var w := s[..i] + sep[..|sep| - 1];
      assert w == s[..n] by {
        assert s[..n] == s[..i] + s[i..n];
      }
      if Contains(w, sep) {
        var j: nat :| j <= |w| && MatchAt(w, sep, j);
        assert j < i;
        assert s[j..j + |sep|] == w[j..j + |sep|];
        assert MatchAt(s, sep, j);
      }
    }
  }

  // ---------------------------------------------------------------------------
  // whitespace runs

  /** `s.split()`: the maximal runs of non-whitespace characters, in order. */
  function Words(s: string): (ws: seq<string>)
    ensures forall j :: 0 <= j < |ws| ==> ws[j] != [] && forall i :: 0 <= i < |ws[j]| ==> !IsSpace(ws[j][i])
    ensures |s| > 0 && !IsSpace(s[0]) ==> |ws| > 0 && ws[0][0] == s[0]
    ensures forall j, i :: 0 <= j < |ws| && 0 <= i < |ws[j]| ==> ws[j][i] in s
  {
    if |s| == 0 then []
    else
      var rest := Words(s[1..]);
      if IsSpace(s[0]) then rest
      else if |s| > 1 && !IsSpace(s[1]) then [[s[0]] + rest[0]] + rest[1..]
      else [[s[0]]] + rest
  }

  /**
   * A string whose every whitespace character is a single ' ' standing
   * between two non-whitespace characters: no leading or trailing
   * whitespace and no runs.
   */
  ghost predicate Collapsed(s: string) {
    forall i :: 0 <= i < |s| && IsSpace(s[i]) ==>
      s[i] == ' ' && 0 < i < |s| - 1 && !IsSpace(s[i - 1]) && !IsSpace(s[i + 1])
  }

  /** `' '.join(s.split())` */
  function CollapseSpaces(s: string): (r: string)
    ensures Collapsed(r)
  {
    var ws := Words(s);
    JoinWordsCollapsed(ws);
    Join(ws, " ")
  }

  lemma {:induction false} JoinWordsCollapsed(ws: seq<string>)
    requires forall j :: 0 <= j < |ws| ==> ws[j] != [] && forall i :: 0 <= i < |ws[j]| ==> !IsSpace(ws[j][i])
    ensures Collapsed(Join(ws, " "))
    ensures |ws| > 0 ==> |Join(ws, " ")| > 0 && !IsSpace(Join(ws, " ")[0])
  {
    if |ws| > 1 {
      JoinWordsCollapsed(ws[1..]);
      var tail := Join(ws[1..], " ");
      var r := Join(ws, " ");
      assert r == ws[0] + " " + tail;
      forall i | 0 <= i < |r| && IsSpace(r[i])
        ensures r[i] == ' ' && 0 < i < |r| - 1 && !IsSpace(r[i - 1]) && !IsSpace(r[i + 1])
      {
        if i == |ws[0]| {
          assert r[i - 1] == ws[0][|ws[0]| - 1];
          assert r[i + 1] == tail[0];
        } else if i > |ws[0]| {
          assert r[i] == tail[i - |ws[0]| - 1];
          var k := i - |ws[0]| - 1;
          assert tail[k] == ' ' && 0 < k < |tail| - 1;
          assert r[i - 1] == tail[k - 1] && r[i + 1] == tail[k + 1];
        }
      }
    }
  }

  /** A word followed by whitespace (or by nothing) is the first word of the split. */
  lemma {:induction false} WordsWord(w: string, t: string)
    requires w != [] && forall i :: 0 <= i < |w| ==> !IsSpace(w[i])
    requires t != [] ==> IsSpace(t[0])
    ensures Words(w + t) == [w] + Words(t)
  {
    var s := w + t;
    assert s[1..] == w[1..] + t;
    if |w| == 1 {
      assert s[1..] == t && w == [s[0]];
      if t != [] {
        assert s[1] == t[0];
      }
    } else {
      WordsWord(w[1..], t);
      assert s[1] == w[1];
      assert [s[0]] + w[1..] == w;
    }
  }

  /** Every element is a non-empty word without whitespace, as `split()` yields. */
  ghost predicate AllWords(ws: seq<string>) {
    forall j :: 0 <= j < |ws| ==> ws[j] != [] && forall i :: 0 <= i < |ws[j]| ==> !IsSpace(ws[j][i])
  }

  /** Splitting words joined by single spaces gives the words back. */
  lemma {:induction false} WordsJoin(ws: seq<string>)
    requires AllWords(ws)
    ensures Words(Join(ws, " ")) == ws
    decreases |ws|, 1
  {
    if |ws| == 1 {
      WordsWord(ws[0], "");
      assert ws[0] + "" == ws[0];
    } else if |ws| > 1 {
      WordsJoinStep(ws[0], ws[1..]);
      assert ws == [ws[0]] + ws[1..];
    }
  }

  lemma {:induction false} WordsJoinStep(w: string, rest: seq<string>)
    requires w != [] && forall i :: 0 <= i < |w| ==> !IsSpace(w[i])
    requires AllWords(rest) && rest != []
    ensures Words(Join([w] + rest, " ")) == [w] + rest
    decreases |rest| + 1, 0
  {
    var tail := Join(rest, " ");
    WordsJoin(rest);
    LeadingSpaceWords(tail);
    WordsWord(w, " " + tail);
    assert ([w] + rest)[1..] == rest;
    assert Join([w] + rest, " ") == w + (" " + tail);
  }

  lemma LeadingSpaceWords(t: string)
    ensures Words(" " + t) == Words(t)
  {
    assert (" " + t)[1..] == t;
  }

  /** `' '.join(s.split())` keeps the words of `s` and is its own collapse. */
  lemma CollapseSpacesWords(s: string)
    ensures Words(CollapseSpaces(s)) == Words(s)
    ensures CollapseSpaces(s) == Join(Words(CollapseSpaces(s)), " ")
  {
    WordsJoin(Words(s));
  }

  /** Collapsed text has no leading or trailing whitespace, so `strip()` leaves it alone. */
  lemma CollapsedIsStripped(s: string)
    requires Collapsed(s)
    ensures Strip(s) == s
  {
    CollapsedEnds(s);
    StripTrimmed(s);
  }

  lemma CollapsedEnds(s: string)
    requires Collapsed(s)
    ensures s != [] ==> !IsSpace(s[0]) && !IsSpace(s[|s| - 1])
  {
  }

  // ---------------------------------------------------------------------------
  // decimal rendering of numbers

  function DigitChar(d: nat): char
    requires d < 10
  {
    "0123456789"[d]
  }

  function DigitValue(c: char): nat {
    if '0' <= c <= '9' then c as int - '0' as int else 0
  }

  /** `str(n)` for a natural number. */
  function NatToString(n: nat): (r: string)
    ensures |r| >= 1
    ensures forall i :: 0 <= i < |r| ==> '0' <= r[i] <= '9'
  {
    if n < 10 then [DigitChar(n)] else NatToString(n / 10) + [DigitChar(n % 10)]
  }

  /** `int(s)` for a string of decimal digits. */
  function ParseNat(s: string): nat {
    if |s| == 0 then 0 else ParseNat(s[..|s| - 1]) * 10 + DigitValue(s[|s| - 1])
  }

  /** Rendering a number in decimal and reading it back gives the number. */
  lemma {:induction false} ParseNatToString(n: nat)
    ensures ParseNat(NatToString(n)) == n
  {
    if n >= 10 {
      ParseNatToString(n / 10);
      var s := NatToString(n);
      assert s[..|s| - 1] == NatToString(n / 10);
      assert DigitValue(s[|s| - 1]) == n % 10;
      assert ParseNat(s) == (n / 10) * 10 + n % 10;
    } else {
      assert NatToString(n)[..0] == "";
    }
  }

  /** Distinct numbers render as distinct strings. */
  lemma NatToStringInjective(m: nat, n: nat)
    requires NatToString(m) == NatToString(n)
    ensures m == n
  {
    ParseNatToString(m);
    ParseNatToString(n);
  }
}
