/**
 * Ordering and selection helpers for the in-memory tables: a stable
 * insertion sort by an integer key and an order-keeping filter.
 */
module Tables {
  predicate SortedBy<T>(s: seq<T>, key: T -> int) {
    forall i, j :: 0 <= i < j < |s| ==> key(s[i]) <= key(s[j])
  }

  /** Inserts `x` after every element whose key is not larger, so equal keys keep their order. */
  function InsertBy<T(!new)>(x: T, s: seq<T>, key: T -> int): (r: seq<T>)
    ensures |r| == |s| + 1
    ensures forall y :: y in r <==> y in s || y == x
    ensures multiset(r) == multiset(s) + multiset{x}
    ensures r[0] == x || (|s| > 0 && r[0] == s[0])
    ensures SortedBy(s, key) ==> SortedBy(r, key)
  {
    if |s| == 0 then [x]
    else if key(x) < key(s[0]) then [x] + s
    else
      var rest := InsertBy(x, s[1..], key);
      assert s == [s[0]] + s[1..];
      InsertAfterHeadSorted(x, s, rest, key);
      [s[0]] + rest
  }

  /** Putting the smallest-keyed head of a sorted `s` before a sorted insertion into its tail keeps the order. */
  lemma InsertAfterHeadSorted<T>(x: T, s: seq<T>, rest: seq<T>, key: T -> int)
    requires |s| > 0 && key(s[0]) <= key(x)
    requires forall y :: y in rest <==> y in s[1..] || y == x
    ensures SortedBy(s, key) && SortedBy(rest, key) ==> SortedBy([s[0]] + rest, key)
  {
    if SortedBy(s, key) && SortedBy(rest, key) {
      var r := [s[0]] + rest;
      forall i, j | 0 <= i < j < |r| ensures key(r[i]) <= key(r[j]) {
        if i == 0 {
          assert r[j] == rest[j - 1] && rest[j - 1] in rest;
          if rest[j - 1] != x {
            var m :| 0 <= m < |s[1..]| && s[1..][m] == rest[j - 1];
            assert s[1..][m] == s[m + 1];
          }
        } else {
          assert r[i] == rest[i - 1] && r[j] == rest[j - 1];
        }
      }
    }
  }

  /** `ORDER BY key`: the elements of `s` sorted by `key`, ties in their original order. */
  function SortBy<T(!new)>(s: seq<T>, key: T -> int): (r: seq<T>)
    ensures SortedBy(r, key)
    ensures multiset(r) == multiset(s)
    ensures forall x :: x in r <==> x in s
  {
    if |s| == 0 then []
    else
      assert s == s[..|s| - 1] + [s[|s| - 1]];
      InsertBy(s[|s| - 1], SortBy(s[..|s| - 1], key), key)
  }

  /** `WHERE p`: the elements of `s` that satisfy `p`, in order. */
  function Filter<T(!new)>(s: seq<T>, p: T -> bool): (r: seq<T>)
    ensures |r| <= |s|
    ensures forall x :: x in r <==> x in s && p(x)
  {
    if |s| == 0 then []
    else
      var init := Filter(s[..|s| - 1], p);
      assert s == s[..|s| - 1] + [s[|s| - 1]];
      if p(s[|s| - 1]) then init + [s[|s| - 1]] else init
  }

  /** Filtering keeps order: filtering a concatenation filters each part and concatenates the results. */
  lemma {:induction false} FilterConcat<T(!new)>(s: seq<T>, t: seq<T>, p: T -> bool)
    ensures Filter(s + t, p) == Filter(s, p) + Filter(t, p)
  {
    if |t| > 0 {
      var t' := t[..|t| - 1];
      FilterConcat(s, t', p);
      assert (s + t)[..|s + t| - 1] == s + t';
      assert (s + t)[|s + t| - 1] == t[|t| - 1];
    } else {
      assert s + t == s;
    }
  }

  /** Filtering from the front: the first element, if it satisfies `p`, then the filtered rest. */
  lemma FilterCons<T(!new)>(s: seq<T>, p: T -> bool)
    requires |s| > 0
    ensures Filter(s, p) == (if p(s[0]) then [s[0]] else []) + Filter(s[1..], p)
  {
    var head := [s[0]];
    assert s == head + s[1..];
    FilterConcat(head, s[1..], p);
    assert head[..0] == [];
  }

  lemma FilterCounts<T(!new)>(s: seq<T>, p: T -> bool)
    ensures forall x :: multiset(Filter(s, p))[x] == if p(x) then multiset(s)[x] else 0
  {
    forall x { FilterCount(s, p, x); }
  }

  /** Filtering keeps multiplicities: an element that satisfies `p` occurs as often as in `s`, any other not at all. */
  lemma {:induction false} FilterCount<T(!new)>(s: seq<T>, p: T -> bool, x: T)
    ensures multiset(Filter(s, p))[x] == if p(x) then multiset(s)[x] else 0
  {
    if |s| > 0 {
      var init := s[..|s| - 1];
      FilterCount(init, p, x);
      assert s == init + [s[|s| - 1]];
    }
  }

  /** A first match in the tail, behind a head that does not match, is a first match of the whole. */
  lemma FirstAfterHead<T>(s: seq<T>, p: T -> bool, k: nat)
    requires 0 <= k < |s| - 1 && !p(s[0]) && p(s[1..][k])
    requires forall j :: 0 <= j < k ==> !p(s[1..][j])
    ensures s[k + 1] == s[1..][k] && p(s[k + 1])
    ensures forall j :: 0 <= j < k + 1 ==> !p(s[j])
  {
    forall j | 0 <= j < k + 1 ensures !p(s[j]) {
      if j > 0 { assert s[j] == s[1..][j - 1]; }
    }
  }
}

/**
 * The persistence layer: test runs and test results held in memory, the
 * updates the worker and the pages make to them, and the statistics
 * computed over the results. A run's id is its position in the run table
 * plus one, as the database's auto-increment key assigns it.
 */
module Database {
  import opened Wrappers
  import opened Strings
  import opened Tables

  datatype JobStatus = Pending | WaitingLogin | Running | Completed | Failed

  datatype ResultStatus = Pass | Fail | Skip | Uncertain

  datatype TestRun = TestRun(
    id: nat,
    userId: nat,
    databaseName: string,
    testName: string,
    status: JobStatus,
    progress: real,
    totalUrls: nat,
    passed: nat,
    failed: nat,
    skipped: nat,
    successRate: real,
    createdDate: nat,
    completedDate: Option<nat>,
    urlColumn: string,
    uploadedFilename: string,
    configFilename: Option<string>,
    detectionPreset: Option<string>)

  datatype TestResult = TestResult(
    testRunId: nat,
    rowNumber: int,
    url: string,
    status: ResultStatus,
    screenshotFilename: Option<string>,
    pageTitle: Option<string>,
    errorMessage: Option<string>,
    confidence: Option<int>,
    executionTime: Option<int>,
    detectionMethod: Option<string>,
    evidence: Option<string>,
    methodsUsed: Option<string>)

  /** A value handed to `add_test_result` for its evidence or methods: absent, a string, a list or a dictionary. */
  datatype FieldValue = Absent | Text(text: string) | ListOf(items: seq<string>) | Dict(entries: seq<(string, string)>)

  /** Python truthiness of such a value. */
  predicate FieldTruthy(v: FieldValue) {
    match v
    case Absent => false
    case Text(t) => t != []
    case ListOf(items) => items != []
    case Dict(entries) => entries != []
  }

  /**
   * The stored evidence: a dictionary as its JSON text (`dumps` stands for
   * the JSON encoder), a string as itself, a list as its Python string form
   * (`show` stands for `str`), and an empty value as nothing.
   */
  function StoredEvidence(v: FieldValue, dumps: seq<(string, string)> -> string, show: FieldValue -> string): (r: Option<string>)
    ensures r.Some? <==> FieldTruthy(v)
    ensures r.Some? ==> r.value == match v
      case Dict(entries) => dumps(entries)
      case Text(t) => t
      case _ => show(v)
  {
    if !FieldTruthy(v) then None
    else if v.Dict? then Some(dumps(v.entries))
    else if v.Text? then Some(v.text)
    else Some(show(v))
  }

  /**
   * The stored list of methods: a list as its items joined with `", "`, a
   * string as itself, a dictionary as its Python string form, and an empty
   * value as nothing.
   */
  function StoredMethods(v: FieldValue, show: FieldValue -> string): (r: Option<string>)
    ensures r.Some? <==> FieldTruthy(v)
    ensures r.Some? ==> r.value == match v
      case ListOf(items) => Join(items, ", ")
      case Text(t) => t
      case _ => show(v)
  {
    if !FieldTruthy(v) then None
    else if v.ListOf? then Some(Join(v.items, ", "))
    else if v.Text? then Some(v.text)
    else Some(show(v))
  }

  /** A stored list of clean method names reads back as the list (the partner of `StoredMethods`). */
  lemma StoredMethodsRoundTrip(items: seq<string>, show: FieldValue -> string)
    requires |items| >= 1
    requires forall i :: 0 <= i < |items| ==> CleanName(items[i])
    ensures StoredMethods(ListOf(items), show).Some?
    ensures MethodNames(StoredMethods(ListOf(items), show).value) == items
  {
    MethodNamesRoundTrip(items);
  }

  /** The names read back from a stored list of methods: split at commas, each stripped. */
  function MethodNames(stored: string): (names: seq<string>)
    ensures |names| >= 1
  {
    var parts := SplitOn(stored, ',');
    seq(|parts|, i requires 0 <= i < |parts| => Strip(parts[i]))
  }

  /** A method name as the pages write it: no comma and no surrounding whitespace. */
  predicate CleanName(m: string) {
    ',' !in m && (m != [] ==> !IsSpace(m[0]) && !IsSpace(m[|m| - 1]))
  }

  /** Storing a list of clean method names and reading it back gives the list again. */
  lemma MethodNamesRoundTrip(items: seq<string>)
    requires |items| >= 1
    requires forall i :: 0 <= i < |items| ==> CleanName(items[i])
    ensures MethodNames(Join(items, ", ")) == items
  {
    var padded := Padded(items);
    JoinPadded(items, padded);
    PaddedParts(items);
    JoinSplit(padded, ',');
    assert SplitOn(Join(items, ", "), ',') == padded;
  }

  /** Every item but the first behind one space. */
  function Padded(items: seq<string>): (padded: seq<string>)
    requires |items| >= 1
    ensures |padded| == |items| && padded[0] == items[0]
    ensures forall i :: 1 <= i < |items| ==> padded[i] == " " + items[i]
  {
    seq(|items|, i requires 0 <= i < |items| => if i == 0 then items[0] else " " + items[i])
  }

  /** The padded parts of clean names hold no comma and strip back to the names. */
  lemma PaddedParts(items: seq<string>)
    requires |items| >= 1
    requires forall i :: 0 <= i < |items| ==> CleanName(items[i])
    ensures forall i :: 0 <= i < |items| ==> ',' !in Padded(items)[i] && Strip(Padded(items)[i]) == items[i]
  {
    forall i | 0 <= i < |items| ensures ',' !in Padded(items)[i] && Strip(Padded(items)[i]) == items[i] {
      PaddedPart(items, i);
    }
  }

  lemma PaddedPart(items: seq<string>, i: nat)
    requires i < |items|
    requires CleanName(items[i])
    ensures ',' !in Padded(items)[i] && Strip(Padded(items)[i]) == items[i]
  {
    var p := Padded(items)[i];
    if i > 0 {
      assert p == " " + items[i];
      StripLeadingSpace(items[i]);
    } else {
      assert p == items[0];
      StripTrimmed(items[0]);
    }
  }

  /** Joining with `", "` is joining with `","` after prefixing every later item with a space. */
  lemma {:induction false} JoinPadded(items: seq<string>, padded: seq<string>)
    requires |items| >= 1 && |padded| == |items|
    requires padded[0] == items[0]
    requires forall i :: 1 <= i < |items| ==> padded[i] == " " + items[i]
    ensures Join(items, ", ") == Join(padded, ",")
  {
    if |items| > 1 {
      var tail := [items[1]] + items[2..];
      assert items[1..] == tail;
      var ptail := [items[1]] + padded[2..];
      JoinPadded(items[1..], ptail);
      assert Join(items[1..], ", ") == Join(ptail, ",");
      assert Join(padded, ",") == padded[0] + "," + Join(padded[1..], ",");
      assert padded[1..] == [" " + items[1]] + padded[2..];
      JoinFirst(items[1], " ", padded[2..]);
      assert ptail == [items[1]] + padded[2..];
    }
  }

  /** Prefixing the first part of a join prefixes the join. */
  lemma JoinFirst(first: string, pre: string, rest: seq<string>)
    ensures Join([pre + first] + rest, ",") == pre + Join([first] + rest, ",")
  {
    if |rest| > 0 {
      assert ([pre + first] + rest)[1..] == rest;
      assert ([first] + rest)[1..] == rest;
    }
  }

  /** Stripping a clean name behind one space gives the name. */
  lemma StripLeadingSpace(m: string)
    requires CleanName(m)
    ensures ',' !in " " + m && Strip(" " + m) == m
  {
    assert (" " + m)[1..] == m;
    assert TrimLeft(" " + m) == TrimLeft(m);
    StripTrimmed(m);
  }

  // ---------------------------------------------------------------------------
  // run records

  /** A new run: pending, no progress, no counts yet. */
  function NewTestRun(id: nat, userId: nat, databaseName: string, testName: string, totalUrls: nat, urlColumn: string,
                      uploadedFilename: string, configFilename: Option<string>, detectionPreset: Option<string>, now: nat): (r: TestRun)
    ensures r.id == id && r.status == Pending && r.progress == 0.0
    ensures r.passed == 0 && r.failed == 0 && r.skipped == 0 && r.completedDate.None?
  {
    TestRun(id, userId, databaseName, testName, Pending, 0.0, totalUrls, 0, 0, 0, 0.0, now, None,
      urlColumn, uploadedFilename, configFilename, detectionPreset)
  }

  /**
   * A status update: the status is always set, the progress only when one
   * is given, and the completion date only when the run completes; every
   * other field keeps its value.
   */
  function WithStatus(r: TestRun, status: JobStatus, progress: Option<real>, now: nat): (r': TestRun)
    ensures r'.status == status
    ensures r'.progress == (if progress.Some? then progress.value else r.progress)
    ensures r'.completedDate == (if status == Completed then Some(now) else r.completedDate)
    ensures r'.(status := r.status, progress := r.progress, completedDate := r.completedDate) == r
  {
    r.(status := status,
       progress := if progress.Some? then progress.value else r.progress,
       completedDate := if status == Completed then Some(now) else r.completedDate)
  }

  /** The final counts of a run; every other field keeps its value. */
  function WithResults(r: TestRun, passed: nat, failed: nat, skipped: nat, successRate: real): (r': TestRun)
    ensures r'.passed == passed && r'.failed == failed && r'.skipped == skipped && r'.successRate == successRate
    ensures r'.(passed := r.passed, failed := r.failed, skipped := r.skipped, successRate := r.successRate) == r
  {
    r.(passed := passed, failed := failed, skipped := skipped, successRate := successRate)
  }

  /** Whether the worker still has something to do for a run: it is neither running nor finished. */
  predicate Open(r: TestRun)
    ensures Open(r) <==> r.status !in {Running, Completed, Failed}
  {
    r.status == Pending || r.status == WaitingLogin
  }

  /** `get_pending_jobs`: the pending and waiting runs, oldest first. */
  function PendingJobs(runs: seq<TestRun>): (jobs: seq<TestRun>)
    ensures SortedBy(jobs, (r: TestRun) => r.createdDate as int)
    ensures forall r :: r in jobs <==> r in runs && Open(r)
    ensures multiset(jobs) == multiset(Filter(runs, Open))
  {
    SortBy(Filter(runs, Open), (r: TestRun) => r.createdDate as int)
  }

  /** A run's results in row order: each of the run's results as often as it is stored, and no other. */
  function ResultsOfRun(results: seq<TestResult>, runId: nat): (rs: seq<TestResult>)
    ensures SortedBy(rs, (t: TestResult) => t.rowNumber)
    ensures forall t :: t in rs <==> t in results && t.testRunId == runId
    ensures forall t :: multiset(rs)[t] == if t.testRunId == runId then multiset(results)[t] else 0
  {
    var ofRun := (t: TestResult) => t.testRunId == runId;
    FilterCounts(results, ofRun);
    SortBy(Filter(results, ofRun), (t: TestResult) => t.rowNumber)
  }

  // ---------------------------------------------------------------------------
  // statistics

  datatype ConfidenceBuckets = ConfidenceBuckets(high: nat, medium: nat, low: nat)

  /** Counts one result into the high (80 and over), medium (60 and over) or low bucket; a result without confidence is not counted. */
  function AddToBuckets(b: ConfidenceBuckets, confidence: Option<int>): (b': ConfidenceBuckets)
    ensures b'.high + b'.medium + b'.low == b.high + b.medium + b.low + (if confidence.Some? then 1 else 0)
    ensures b'.high >= b.high && b'.medium >= b.medium && b'.low >= b.low
    ensures b'.high == b.high + (if confidence.Some? && confidence.value >= 80 then 1 else 0)
    ensures b'.low == b.low + (if confidence.Some? && confidence.value < 60 then 1 else 0)
  {
    match confidence
    case None => b
    case Some(c) =>
      if c >= 80 then b.(high := b.high + 1)
      else if c >= 60 then b.(medium := b.medium + 1)
      else b.(low := b.low + 1)
  }

  /** The number of results that carry a confidence. */
  function CountConfident(rs: seq<TestResult>): nat {
    if |rs| == 0 then 0
    else CountConfident(rs[..|rs| - 1]) + (if rs[|rs| - 1].confidence.Some? then 1 else 0)
  }

  /** The confidence distribution of a list of results. */
  function BucketsOf(rs: seq<TestResult>): (b: ConfidenceBuckets)
    ensures b.high + b.medium + b.low == CountConfident(rs)
  {
    if |rs| == 0 then ConfidenceBuckets(0, 0, 0)
    else AddToBuckets(BucketsOf(rs[..|rs| - 1]), rs[|rs| - 1].confidence)
  }

  predicate HighConfidence(t: TestResult) {
    t.confidence.Some? && t.confidence.value >= 80
  }

  predicate MediumConfidence(t: TestResult) {
    t.confidence.Some? && 60 <= t.confidence.value < 80
  }

  predicate LowConfidence(t: TestResult) {
    t.confidence.Some? && t.confidence.value < 60
  }

  /**
   * Each bucket counts exactly its results: the high bucket those with a
   * confidence of 80 or more, the medium one those from 60 up to 80, the
   * low one those under 60.
   */
  lemma {:induction false} BucketsCount(rs: seq<TestResult>)
    ensures BucketsOf(rs) == ConfidenceBuckets(
      |Filter(rs, HighConfidence)|, |Filter(rs, MediumConfidence)|, |Filter(rs, LowConfidence)|)
  {
    if |rs| > 0 {
      BucketsCount(rs[..|rs| - 1]);
    }
  }

  /** Per-method counts of `get_test_results_with_analytics`. */
  datatype MethodPerformance = MethodPerformance(count: nat, pass: nat, fail: nat)

  /** Python truthiness of an optional method name. */
  predicate HasMethod(t: TestResult) {
    t.detectionMethod.Some? && t.detectionMethod.value != []
  }

  /** A result with a method adds one to that method's count, and to its passes or fails; every other entry is kept. */
  function AddPerformance(m: map<string, MethodPerformance>, t: TestResult): (r: map<string, MethodPerformance>)
    ensures r.Keys == if HasMethod(t) then m.Keys + {t.detectionMethod.value} else m.Keys
    ensures forall k :: k in m && !(HasMethod(t) && k == t.detectionMethod.value) ==> r[k] == m[k]
    ensures HasMethod(t) ==> r[t.detectionMethod.value].count == (if t.detectionMethod.value in m then m[t.detectionMethod.value].count else 0) + 1
  {
    if !HasMethod(t) then m
    else
      var k := t.detectionMethod.value;
      var p := if k in m then m[k] else MethodPerformance(0, 0, 0);
      m[k := MethodPerformance(p.count + 1,
                               if t.status == Pass then p.pass + 1 else p.pass,
                               if t.status == Fail then p.fail + 1 else p.fail)]
  }

  /** Every method seen gets an entry, and its passes and fails never exceed its count. */
  function PerformanceOf(rs: seq<TestResult>): (m: map<string, MethodPerformance>)
    ensures forall k :: k in m ==> m[k].pass + m[k].fail <= m[k].count && m[k].count > 0
  {
    if |rs| == 0 then map[]
    else
      var init := PerformanceOf(rs[..|rs| - 1]);
      AddPerformance(init, rs[|rs| - 1])
  }

  /**
   * Each method's performance entry counts exactly that method's results,
   * its passes and its fails; a method without an entry has no results.
   */
  lemma {:induction false} PerformanceCountsResults(rs: seq<TestResult>, k: string)
    ensures k in PerformanceOf(rs) ==> PerformanceOf(rs)[k] == MethodPerformance(
      CountMethod(rs, k, {Pass, Fail, Skip, Uncertain}), CountMethod(rs, k, {Pass}), CountMethod(rs, k, {Fail}))
    ensures k !in PerformanceOf(rs) ==> forall statuses :: CountMethod(rs, k, statuses) == 0
  {
    if |rs| > 0 {
      var init := rs[..|rs| - 1];
      var t := rs[|rs| - 1];
      PerformanceCountsResults(init, k);
      assert PerformanceOf(rs) == AddPerformance(PerformanceOf(init), t);
      if HasMethod(t) && t.detectionMethod.value == k {
        var m := PerformanceOf(init);
        var p := if k in m then m[k] else MethodPerformance(0, 0, 0);
        assert p == MethodPerformance(CountMethod(init, k, {Pass, Fail, Skip, Uncertain}),
          CountMethod(init, k, {Pass}), CountMethod(init, k, {Fail}));
      }
    }
  }

  /** The counting part of the analytics of one run's results. */
  datatype Analytics = Analytics(totalResults: nat, distribution: ConfidenceBuckets, methodPerformance: map<string, MethodPerformance>)

  /** Per-method counts of `get_detection_method_stats`. */
  datatype MethodStats = MethodStats(total: nat, pass: nat, fail: nat, uncertain: nat)

  /** A result with a method adds one to that method's total, and to exactly one of its passes, fails and uncertain; every other entry is kept. */
  function AddStats(m: map<string, MethodStats>, t: TestResult): (r: map<string, MethodStats>)
    ensures r.Keys == if HasMethod(t) then m.Keys + {t.detectionMethod.value} else m.Keys
    ensures forall k :: k in m && !(HasMethod(t) && k == t.detectionMethod.value) ==> r[k] == m[k]
    ensures HasMethod(t) ==> r[t.detectionMethod.value].total == (if t.detectionMethod.value in m then m[t.detectionMethod.value].total else 0) + 1
  {
    if !HasMethod(t) then m
    else
      var k := t.detectionMethod.value;
      var s := if k in m then m[k] else MethodStats(0, 0, 0, 0);
      m[k := if t.status == Pass then s.(total := s.total + 1, pass := s.pass + 1)
             else if t.status == Fail then s.(total := s.total + 1, fail := s.fail + 1)
             else s.(total := s.total + 1, uncertain := s.uncertain + 1)]
  }

  /** Each result with a method adds one to its method's total and to exactly one of pass, fail and uncertain. */
  function StatsOf(rs: seq<TestResult>): (m: map<string, MethodStats>)
    ensures forall k :: k in m ==> m[k].total == m[k].pass + m[k].fail + m[k].uncertain && m[k].total > 0
  {
    if |rs| == 0 then map[]
    else
      var init := StatsOf(rs[..|rs| - 1]);
      AddStats(init, rs[|rs| - 1])
  }

  /** The number of results of method `k` whose status is one of `statuses`. */
  function CountMethod(rs: seq<TestResult>, k: string, statuses: set<ResultStatus>): nat {
    if |rs| == 0 then 0
    else
      var t := rs[|rs| - 1];
      CountMethod(rs[..|rs| - 1], k, statuses) + (if HasMethod(t) && t.detectionMethod.value == k && t.status in statuses then 1 else 0)
  }

  /**
   * Each method's entry counts exactly that method's results: all of them,
   * the passes, the fails, and everything else as uncertain; a method
   * without an entry has no results.
   */
  lemma {:induction false} StatsCountResults(rs: seq<TestResult>, k: string)
    ensures k in StatsOf(rs) ==> StatsOf(rs)[k] == MethodStats(CountMethod(rs, k, {Pass, Fail, Skip, Uncertain}),
      CountMethod(rs, k, {Pass}), CountMethod(rs, k, {Fail}), CountMethod(rs, k, {Skip, Uncertain}))
    ensures k !in StatsOf(rs) ==> forall statuses :: CountMethod(rs, k, statuses) == 0
  {
    if |rs| > 0 {
      var init := rs[..|rs| - 1];
      var t := rs[|rs| - 1];
      StatsCountResults(init, k);
      assert StatsOf(rs) == AddStats(StatsOf(init), t);
      if HasMethod(t) && t.detectionMethod.value == k {
        var m := StatsOf(init);
        var s := if k in m then m[k] else MethodStats(0, 0, 0, 0);
        assert s == MethodStats(CountMethod(init, k, {Pass, Fail, Skip, Uncertain}),
          CountMethod(init, k, {Pass}), CountMethod(init, k, {Fail}), CountMethod(init, k, {Skip, Uncertain}));
      }
    }
  }

  /** Adds the names of one stored method list to the usage counts; a name listed twice counts twice. */
  function AddUsage(usage: map<string, nat>, names: seq<string>): (r: map<string, nat>)
    ensures usage.Keys <= r.Keys
    ensures forall k :: k in usage ==> usage[k] <= r[k]
  {
    if |names| == 0 then usage
    else
      var n := names[|names| - 1];
      var u := AddUsage(usage, names[..|names| - 1]);
      u[n := if n in u then u[n] + 1 else 1]
  }

  /** A name's count grows by the number of times it is listed; the counts gain exactly the names listed. */
  lemma {:induction false} AddUsageCounts(usage: map<string, nat>, names: seq<string>, k: string)
    ensures k in AddUsage(usage, names) <==> k in usage || k in names
    ensures k in AddUsage(usage, names) ==>
      AddUsage(usage, names)[k] == (if k in usage then usage[k] else 0) + multiset(names)[k]
  {
    if |names| > 0 {
      var init := names[..|names| - 1];
      AddUsageCounts(usage, init, k);
      assert names == init + [names[|names| - 1]];
    }
  }

  lemma AddUsageKeys(usage: map<string, nat>, names: seq<string>)
    ensures forall k :: k in AddUsage(usage, names) <==> k in usage || k in names
  {
    forall k {
      AddUsageCounts(usage, names, k);
    }
  }

  /** Python truthiness of a stored list of methods. */
  predicate HasMethodsUsed(t: TestResult) {
    t.methodsUsed.Some? && t.methodsUsed.value != []
  }

  /** The number of times `k` is named across the stored method lists of the results. */
  function NameCount(rs: seq<TestResult>, k: string): nat {
    if |rs| == 0 then 0
    else
      var t := rs[|rs| - 1];
      NameCount(rs[..|rs| - 1], k) + (if HasMethodsUsed(t) then multiset(MethodNames(t.methodsUsed.value))[k] else 0)
  }

  /** A method's usage count is the number of times it is named across the results; unnamed methods have no entry. */
  lemma {:induction false} UsageCounts(rs: seq<TestResult>, k: string)
    ensures k in UsageOf(rs) <==> NameCount(rs, k) > 0
    ensures k in UsageOf(rs) ==> UsageOf(rs)[k] == NameCount(rs, k)
  {
    if |rs| > 0 {
      var t := rs[|rs| - 1];
      var init := rs[..|rs| - 1];
      UsageCounts(init, k);
      if HasMethodsUsed(t) {
        AddUsageCounts(UsageOf(init), MethodNames(t.methodsUsed.value), k);
      }
    }
  }

  /** How often each method is named across a run's results. */
  function UsageOf(rs: seq<TestResult>): (u: map<string, nat>)
    ensures forall k :: k in u ==> exists i :: 0 <= i < |rs| && rs[i].methodsUsed.Some? && k in MethodNames(rs[i].methodsUsed.value)
  {
    if |rs| == 0 then map[]
    else
      var t := rs[|rs| - 1];
      var init := UsageOf(rs[..|rs| - 1]);
      assert forall i :: 0 <= i < |rs| - 1 ==> rs[..|rs| - 1][i] == rs[i];
      if t.methodsUsed.Some? && t.methodsUsed.value != [] then
        AddUsageKeys(init, MethodNames(t.methodsUsed.value));
        AddUsage(init, MethodNames(t.methodsUsed.value)) else init
  }

  /** The sum of the recorded execution times; results without one add nothing. */
  function TotalTime(rs: seq<TestResult>): (total: int)
    ensures (forall i :: 0 <= i < |rs| ==> rs[i].executionTime.None?) ==> total == 0
    ensures (forall i :: 0 <= i < |rs| && rs[i].executionTime.Some? ==> rs[i].executionTime.value >= 0) ==> total >= 0
  {
    if |rs| == 0 then 0
    else TotalTime(rs[..|rs| - 1]) + (if rs[|rs| - 1].executionTime.Some? then rs[|rs| - 1].executionTime.value else 0)
  }

  predicate IsUncertain(t: TestResult) {
    t.status == Uncertain
  }

  /** The number of results marked uncertain. */
  function CountUncertain(rs: seq<TestResult>): (n: nat)
    ensures n == |Filter(rs, IsUncertain)|
  {
    if |rs| == 0 then 0
    else CountUncertain(rs[..|rs| - 1]) + (if rs[|rs| - 1].status == Uncertain then 1 else 0)
  }

  /** One more name adds one to its count, starting from zero. */
  lemma AddUsageStep(usage: map<string, nat>, names: seq<string>, j: nat)
    requires j < |names|
    ensures var u := AddUsage(usage, names[..j]);
      AddUsage(usage, names[..j + 1]) == u[names[j] := if names[j] in u then u[names[j]] + 1 else 1]
  {
    assert names[..j + 1][..j] == names[..j];
  }

  /** How each total of the summary grows by one more result. */
  lemma BreakdownStep(rs: seq<TestResult>, i: nat)
    requires i < |rs|
    ensures var t := rs[i];
      TotalTime(rs[..i + 1]) == TotalTime(rs[..i]) + (if t.executionTime.Some? then t.executionTime.value else 0)
      && UsageOf(rs[..i + 1]) == (if t.methodsUsed.Some? && t.methodsUsed.value != [] then AddUsage(UsageOf(rs[..i]), MethodNames(t.methodsUsed.value)) else UsageOf(rs[..i]))
      && BucketsOf(rs[..i + 1]) == AddToBuckets(BucketsOf(rs[..i]), t.confidence)
      && CountUncertain(rs[..i + 1]) == CountUncertain(rs[..i]) + (if t.status == Uncertain then 1 else 0)
  {
    assert rs[..i + 1][..i] == rs[..i];
  }

  /** The counting part of `get_hybrid_detection_summary`. */
  datatype Summary = Summary(
    runId: nat,
    name: string,
    preset: Option<string>,
    totalUrls: nat,
    status: JobStatus,
    totalTime: int,
    methodUsage: map<string, nat>,
    pass: nat,
    fail: nat,
    uncertain: nat,
    distribution: ConfidenceBuckets)

  // ---------------------------------------------------------------------------
  // the manager

  class DatabaseManager {
    /** The run table; the run with id `i + 1` is `runs[i]`. */
    var runs: seq<TestRun>
    /** The result table, in insertion order. */
    var results: seq<TestResult>
    /**
     * How many more result writes succeed before one raises; `None` when
     * writes never raise. This stands for the database failures the worker
     * has to survive.
     */
    var writeBudget: Option<nat>

    ghost predicate Valid()
      reads this
    {
      forall i :: 0 <= i < |runs| ==> runs[i].id == i + 1
    }

    constructor(writeBudget: Option<nat>)
      ensures Valid() && runs == [] && results == [] && this.writeBudget == writeBudget
    {
      runs := [];
      results := [];
      this.writeBudget := writeBudget;
    }

    /** The run with the given id, if there is one. */
    function RunById(id: nat): (r: Option<TestRun>)
      reads this
      requires Valid()
      ensures r.Some? <==> exists i :: 0 <= i < |runs| && runs[i].id == id
      ensures r.Some? ==> r.value in runs && r.value.id == id
    {
      if 1 <= id <= |runs| then Some(runs[id - 1]) else None
    }

    /** `create_test_run`: a new pending run with the next id. */
    method CreateTestRun(userId: nat, databaseName: string, testName: string, totalUrls: nat, urlColumn: string,
                         uploadedFilename: string, configFilename: Option<string>, detectionPreset: Option<string>, now: nat)
      returns (id: nat)
      requires Valid()
      modifies this
      ensures Valid()
      ensures id == |old(runs)| + 1
      ensures runs == old(runs) + [NewTestRun(id, userId, databaseName, testName, totalUrls, urlColumn,
                                              uploadedFilename, configFilename, detectionPreset, now)]
      ensures results == old(results) && writeBudget == old(writeBudget)
    {
      id := |runs| + 1;
      runs := runs + [NewTestRun(id, userId, databaseName, testName, totalUrls, urlColumn,
                                 uploadedFilename, configFilename, detectionPreset, now)];
    }

    /** `update_test_run_status`: changes only the named run, and nothing when there is no such run. */
    method UpdateTestRunStatus(id: nat, status: JobStatus, progress: Option<real>, now: nat)
      requires Valid()
      modifies this
      ensures Valid()
      ensures runs == if 1 <= id <= |old(runs)| then old(runs)[id - 1 := WithStatus(old(runs)[id - 1], status, progress, now)] else old(runs)
      ensures results == old(results) && writeBudget == old(writeBudget)
    {
      if 1 <= id <= |runs| {
        runs := runs[id - 1 := WithStatus(runs[id - 1], status, progress, now)];
      }
    }

    /** `update_test_run_results`: stores the final counts of the named run, if there is one. */
    method UpdateTestRunResults(id: nat, passed: nat, failed: nat, skipped: nat, successRate: real)
      requires Valid()
      modifies this
      ensures Valid()
      ensures runs == if 1 <= id <= |old(runs)| then old(runs)[id - 1 := WithResults(old(runs)[id - 1], passed, failed, skipped, successRate)] else old(runs)
      ensures results == old(results) && writeBudget == old(writeBudget)
    {
      if 1 <= id <= |runs| {
        runs := runs[id - 1 := WithResults(runs[id - 1], passed, failed, skipped, successRate)];
      }
    }

    /**
     * `add_test_result`: converts the evidence and the methods and appends
     * the row. A write that raises (`ok` false) stores nothing.
     */
    method AddTestResult(testRunId: nat, rowNumber: int, url: string, status: ResultStatus, screenshot: Option<string>,
                         pageTitle: Option<string>, errorMessage: Option<string>, confidence: Option<int>,
                         executionTime: Option<int>, detectionMethod: Option<string>, evidence: FieldValue,
                         methodsUsed: FieldValue, dumps: seq<(string, string)> -> string, show: FieldValue -> string)
      returns (ok: bool)
      modifies this
      ensures ok <==> old(writeBudget) != Some(0)
      ensures ok ==> results == old(results) + [TestResult(testRunId, rowNumber, url, status, screenshot, pageTitle, errorMessage,
        confidence, executionTime, detectionMethod, StoredEvidence(evidence, dumps, show), StoredMethods(methodsUsed, show))]
      ensures ok ==> writeBudget == if old(writeBudget).Some? then Some(old(writeBudget).value - 1) else None
      ensures !ok ==> results == old(results) && writeBudget == old(writeBudget)
      ensures runs == old(runs)
    {
      if writeBudget == Some(0) {
        return false;
      }
      results := results + [TestResult(testRunId, rowNumber, url, status, screenshot, pageTitle, errorMessage,
        confidence, executionTime, detectionMethod, StoredEvidence(evidence, dumps, show), StoredMethods(methodsUsed, show))];
      if writeBudget.Some? {
        writeBudget := Some(writeBudget.value - 1);
      }
      ok := true;
    }

    /** `get_pending_jobs`. */
    function GetPendingJobs(): (jobs: seq<TestRun>)
      reads this
      ensures jobs == PendingJobs(runs)
    {
      PendingJobs(runs)
    }

    /** `get_test_results`: the run's results ordered by row number. */
    function GetTestResults(runId: nat): (rs: seq<TestResult>)
      reads this
      ensures rs == ResultsOfRun(results, runId)
      ensures SortedBy(rs, (t: TestResult) => t.rowNumber)
      ensures forall t :: multiset(rs)[t] == if t.testRunId == runId then multiset(results)[t] else 0
    {
      ResultsOfRun(results, runId)
    }

    /** `get_test_results_with_analytics`, its counting part: one pass over the run's results. */
    method GetTestResultsWithAnalytics(runId: nat) returns (rs: seq<TestResult>, a: Analytics)
      ensures rs == ResultsOfRun(results, runId)
      ensures a == Analytics(|rs|, BucketsOf(rs), PerformanceOf(rs))
      ensures a.distribution == ConfidenceBuckets(
        |Filter(rs, HighConfidence)|, |Filter(rs, MediumConfidence)|, |Filter(rs, LowConfidence)|)
      ensures forall k :: k in a.methodPerformance ==>
        a.methodPerformance[k] == MethodPerformance(
          CountMethod(rs, k, {Pass, Fail, Skip, Uncertain}), CountMethod(rs, k, {Pass}), CountMethod(rs, k, {Fail}))
    {
      rs := ResultsOfRun(results, runId);
      a := Analyze(rs);
      BucketsCount(rs);
      forall k | k in a.methodPerformance
        ensures a.methodPerformance[k] == MethodPerformance(
          CountMethod(rs, k, {Pass, Fail, Skip, Uncertain}), CountMethod(rs, k, {Pass}), CountMethod(rs, k, {Fail}))
      {
        PerformanceCountsResults(rs, k);
      }
    }

    /** The counting loops of `get_test_results_with_analytics`. */
    static method Analyze(rs: seq<TestResult>) returns (a: Analytics)
      ensures a == Analytics(|rs|, BucketsOf(rs), PerformanceOf(rs))
    {
      var buckets := ConfidenceBuckets(0, 0, 0);
      var perf: map<string, MethodPerformance> := map[];
      var i := 0;
      while i < |rs|
        invariant 0 <= i <= |rs|
        invariant buckets == BucketsOf(rs[..i])
        invariant perf == PerformanceOf(rs[..i])
      {
        assert rs[..i + 1][..i] == rs[..i];
        assert BucketsOf(rs[..i + 1]) == AddToBuckets(BucketsOf(rs[..i]), rs[i].confidence);
        assert PerformanceOf(rs[..i + 1]) == AddPerformance(PerformanceOf(rs[..i]), rs[i]);
        var t := rs[i];
        buckets := CountConfidence(buckets, t);
        perf := CountPerformance(perf, t);
        i := i + 1;
      }
      assert rs[..i] == rs;
      a := Analytics(|rs|, buckets, perf);
    }

    /**
     * One result's step of the confidence distribution: the result adds one
     * to the bucket whose predicate it meets, and to none when it has no
     * confidence.
     */
    static method CountConfidence(b: ConfidenceBuckets, t: TestResult) returns (b': ConfidenceBuckets)
      ensures b' == AddToBuckets(b, t.confidence)
      ensures b'.high == b.high + (if HighConfidence(t) then 1 else 0)
      ensures b'.medium == b.medium + (if MediumConfidence(t) then 1 else 0)
      ensures b'.low == b.low + (if LowConfidence(t) then 1 else 0)
    {
      b' := b;
      if t.confidence.Some? {
        if t.confidence.value >= 80 {
          b' := b'.(high := b'.high + 1);
        } else if t.confidence.value >= 60 {
          b' := b'.(medium := b'.medium + 1);
        } else {
          b' := b'.(low := b'.low + 1);
        }
      }
    }

    /** One result's step of the per-method performance counts. */
    static method CountPerformance(perf0: map<string, MethodPerformance>, t: TestResult) returns (perf: map<string, MethodPerformance>)
      ensures perf == AddPerformance(perf0, t)
    {
      perf := perf0;
      if HasMethod(t) {
        var k := t.detectionMethod.value;
        if k !in perf {
          perf := perf[k := MethodPerformance(0, 0, 0)];
        }
        var p := perf[k];
        p := p.(count := p.count + 1);
        if t.status == Pass {
          p := p.(pass := p.pass + 1);
        } else if t.status == Fail {
          p := p.(fail := p.fail + 1);
        }
        perf := perf[k := p];
      }
    }

    /** One result's step of the per-method statistics. */
    static method CountStats(stats0: map<string, MethodStats>, t: TestResult) returns (stats: map<string, MethodStats>)
      ensures stats == AddStats(stats0, t)
    {
      stats := stats0;
      if HasMethod(t) {
        var k := t.detectionMethod.value;
        if k !in stats {
          stats := stats[k := MethodStats(0, 0, 0, 0)];
        }
        var s := stats[k];
        s := s.(total := s.total + 1);
        if t.status == Pass {
          s := s.(pass := s.pass + 1);
        } else if t.status == Fail {
          s := s.(fail := s.fail + 1);
        } else {
          s := s.(uncertain := s.uncertain + 1);
        }
        stats := stats[k := s];
      }
    }

    /** Counts per detection method over the given results. */
    static method CountMethods(rs: seq<TestResult>) returns (stats: map<string, MethodStats>)
      ensures stats == StatsOf(rs)
    {
      stats := map[];
      var i := 0;
      while i < |rs|
        invariant 0 <= i <= |rs|
        invariant stats == StatsOf(rs[..i])
      {
        assert rs[..i + 1][..i] == rs[..i];
        assert StatsOf(rs[..i + 1]) == AddStats(StatsOf(rs[..i]), rs[i]);
        stats := CountStats(stats, rs[i]);
        i := i + 1;
      }
      assert rs[..i] == rs;
    }

    /**
     * `get_detection_method_stats` as written: without a user the counts
     * cover every result; with a user id the query joins the result table
     * to the run table, which share no foreign key, and the join raises.
     */
    method GetDetectionMethodStats(userId: Option<nat>) returns (r: Result<map<string, MethodStats>, string>)
      ensures r.Err? <==> userId.Some? && userId.value != 0
      ensures r.Ok? ==> r.value == StatsOf(results)
    {
      if userId.Some? && userId.value != 0 {
        return Err("no foreign key relates test results to test runs");
      }
      var stats := CountMethods(results);
      r := Ok(stats);
    }

    /** The results that belong to runs of the given user. */
    function ResultsOfUser(userId: nat): (rs: seq<TestResult>)
      reads this
      requires Valid()
      ensures forall t :: t in rs <==> t in results && RunById(t.testRunId).Some? && RunById(t.testRunId).value.userId == userId
      ensures forall t ::
        multiset(rs)[t] == if RunById(t.testRunId).Some? && RunById(t.testRunId).value.userId == userId
                           then multiset(results)[t] else 0
    {
      var table := runs;
      var ofUser := (t: TestResult) => 1 <= t.testRunId <= |table| && table[t.testRunId - 1].userId == userId;
      FilterCounts(results, ofUser);
      Filter(results, ofUser)
    }

    /** `get_detection_method_stats` as intended: a user id restricts the counts to that user's runs. */
    method GetDetectionMethodStatsForUser(userId: Option<nat>) returns (stats: map<string, MethodStats>)
      requires Valid()
      ensures stats == StatsOf(if userId.Some? && userId.value != 0 then ResultsOfUser(userId.value) else results)
    {
      if userId.Some? && userId.value != 0 {
        stats := CountMethods(ResultsOfUser(userId.value));
      } else {
        stats := CountMethods(results);
      }
    }

    /** `get_hybrid_detection_summary`, its counting part; `None` for an unknown run. */
    method GetHybridDetectionSummary(runId: nat) returns (s: Option<Summary>)
      requires Valid()
      ensures s.None? <==> RunById(runId).None?
      ensures s.Some? ==>
        var run := RunById(runId).value;
        var rs := ResultsOfRun(results, runId);
        s.value == Summary(run.id, run.testName, run.detectionPreset, run.totalUrls, run.status, TotalTime(rs),
                           UsageOf(rs), run.passed, run.failed, CountUncertain(rs), BucketsOf(rs))
    {
      if !(1 <= runId <= |runs|) {
        return None;
      }
      var run := runs[runId - 1];
      var rs := ResultsOfRun(results, runId);
      var totalTime, usage, uncertain, buckets := Breakdown(rs);
      s := Some(Summary(run.id, run.testName, run.detectionPreset, run.totalUrls, run.status, totalTime,
                        usage, run.passed, run.failed, uncertain, buckets));
    }

    /** The loop over a run's results in `get_hybrid_detection_summary`. */
    static method Breakdown(rs: seq<TestResult>)
      returns (totalTime: int, usage: map<string, nat>, uncertain: nat, buckets: ConfidenceBuckets)
      ensures totalTime == TotalTime(rs) && usage == UsageOf(rs)
      ensures uncertain == CountUncertain(rs) && buckets == BucketsOf(rs)
    {
      totalTime, usage, uncertain, buckets := 0, map[], 0, ConfidenceBuckets(0, 0, 0);
      var i := 0;
      while i < |rs|
        invariant 0 <= i <= |rs|
        invariant totalTime == TotalTime(rs[..i])
        invariant usage == UsageOf(rs[..i])
        invariant buckets == BucketsOf(rs[..i])
        invariant uncertain == CountUncertain(rs[..i])
      {
        BreakdownStep(rs, i);
        var t := rs[i];
        if t.executionTime.Some? {
          totalTime := totalTime + t.executionTime.value;
        }
        if t.methodsUsed.Some? && t.methodsUsed.value != [] {
          usage := CountNames(usage, MethodNames(t.methodsUsed.value));
        }
        buckets := CountConfidence(buckets, t);
        if t.status == Uncertain {
          uncertain := uncertain + 1;
        }
        i := i + 1;
      }
      assert rs[..i] == rs;
    }

    /** Adds one to the usage count of every name in the list. */
    static method CountNames(usage0: map<string, nat>, names: seq<string>) returns (usage: map<string, nat>)
      ensures usage == AddUsage(usage0, names)
    {
      usage := usage0;
      var j := 0;
      while j < |names|
        invariant 0 <= j <= |names|
        invariant usage == AddUsage(usage0, names[..j])
      {
        AddUsageStep(usage0, names, j);
        var n := names[j];
        usage := usage[n := if n in usage then usage[n] + 1 else 1];
        j := j + 1;
      }
      assert names[..j] == names;
    }
  }
}
