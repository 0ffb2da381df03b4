/**
 * The background worker: the buffer of result rows written to the database
 * in batches, the hand-over of the session the user logged in with, the
 * loop over the rows of an uploaded spreadsheet, and one step of the
 * dispatch loop that moves jobs from pending to waiting for login to
 * running to completed or failed.
 *
 * The browser is replaced by what it shows: each row carries the visit of
 * its URL (`FailCheck.Visit`) and the title the browser reports; the
 * sessions directory is a map from file name to what the file parses as.
 */
module Worker {
  import opened Wrappers
  import opened Strings
  import DB = Database
  import FC = FailCheck
  import S = Session
  import H = Helpers
  import opened Tables

  /** Results are written once this many are buffered. */
  const BatchSize := 5

  /** Progress is reported, and a flush attempted, on every row whose label plus one is a multiple of this. */
  const ProgressEvery := 5

  /** The number of jobs one dispatch step looks at. */
  const JobsPerStep := 10

  const DetectionMethodTag := "fast_invalid_file_detection"
  const MethodsUsedTag := "invalid_select_file_only"

  /** The progress a job gets when it starts waiting for the user to log in. */
  const WaitingProgress := 5.0

  // ---------------------------------------------------------------------------
  // buffered rows

  /** The arguments the row loop hands to `add_test_result`, kept in the buffer until a flush. */
  datatype ResultRecord = ResultRecord(
    testRunId: nat,
    rowNumber: nat,
    url: string,
    status: FC.Status,
    screenshot: Option<string>,
    pageTitle: Option<string>,
    errorMessage: Option<string>,
    confidence: nat)

  /** The status stored for a verdict: PASS stays PASS and FAIL stays FAIL, never UNCERTAIN. */
  function DbStatus(s: FC.Status): (r: DB.ResultStatus)
    ensures r == DB.Pass <==> s == FC.Pass
    ensures r == DB.Fail <==> s == FC.Fail
  {
    match s
    case Pass => DB.Pass
    case Fail => DB.Fail
  }

  /** The evidence argument: the error message, absent when there is none. */
  function EvidenceValue(e: Option<string>): (v: DB.FieldValue)
    ensures v == DB.Absent <==> e.None?
    ensures e.Some? ==> v.Text? && v.text == e.value
  {
    if e.Some? then DB.Text(e.value) else DB.Absent
  }

  /**
   * The row the database stores for a buffered record: execution time 0,
   * the fixed method names, and the error message as evidence (an empty
   * message is stored as nothing).
   */
  function StoredRecord(r: ResultRecord): (t: DB.TestResult)
    ensures t.testRunId == r.testRunId && t.rowNumber == r.rowNumber && t.url == r.url
    ensures t.status == DbStatus(r.status) && t.confidence == Some(r.confidence as int)
    ensures t.evidence.Some? <==> r.errorMessage.Some? && r.errorMessage.value != []
  {
    DB.TestResult(r.testRunId, r.rowNumber, r.url, DbStatus(r.status), r.screenshot, r.pageTitle, r.errorMessage,
      Some(r.confidence as int), Some(0), Some(DetectionMethodTag),
      if r.errorMessage.Some? && r.errorMessage.value != [] then r.errorMessage else None,
      Some(MethodsUsedTag))
  }

  /** What `add_test_result` stores for a record, whatever the JSON encoder and `str` do. */
  lemma AddTestResultStoresRecord(r: ResultRecord, dumps: seq<(string, string)> -> string, show: DB.FieldValue -> string)
    ensures DB.StoredEvidence(EvidenceValue(r.errorMessage), dumps, show) == StoredRecord(r).evidence
    ensures DB.StoredMethods(DB.Text(MethodsUsedTag), show) == StoredRecord(r).methodsUsed
  {
  }

  function StoredAll(rs: seq<ResultRecord>): (ts: seq<DB.TestResult>)
    ensures |ts| == |rs|
    ensures forall i :: 0 <= i < |rs| ==> ts[i] == StoredRecord(rs[i])
  {
    seq(|rs|, i requires 0 <= i < |rs| => StoredRecord(rs[i]))
  }

  lemma StoredAllConcat(a: seq<ResultRecord>, b: seq<ResultRecord>)
    ensures StoredAll(a + b) == StoredAll(a) + StoredAll(b)
  {
    assert |StoredAll(a + b)| == |StoredAll(a) + StoredAll(b)|;
    forall i | 0 <= i < |a| + |b| ensures StoredAll(a + b)[i] == (StoredAll(a) + StoredAll(b))[i] {
      if i < |a| {
        assert (a + b)[i] == a[i];
      } else {
        assert (a + b)[i] == b[i - |a|];
      }
    }
  }

  /** How many of `n` writes succeed when only `budget` more may (`None`: all of them). */
  function Written(budget: Option<nat>, n: nat): (w: nat)
    ensures w <= n
    ensures budget.None? ==> w == n
  {
    if budget.Some? && budget.value < n then budget.value else n
  }

  /** What is left of the budget after those writes: each successful write uses up one, and a budget smaller than `n` is used up. */
  function Remaining(budget: Option<nat>, n: nat): (r: Option<nat>)
    ensures r.Some? <==> budget.Some?
    ensures budget.Some? ==> r.value + Written(budget, n) == budget.value
    ensures budget.Some? && budget.value <= n ==> r == Some(0)
  {
    if budget.Some? then Some(budget.value - Written(budget, n)) else None
  }

  /** Whether a flush writes: only a non-empty buffer, and without `force` only a full batch. */
  predicate FlushDue(buffer: seq<ResultRecord>, force: bool)
    ensures !force ==> (FlushDue(buffer, force) <==> |buffer| >= BatchSize)
    ensures force ==> (FlushDue(buffer, force) <==> |buffer| > 0)
  {
    buffer != [] && (force || |buffer| >= BatchSize)
  }

  // ---------------------------------------------------------------------------
  // rows

  /**
   * One row of the uploaded spreadsheet after rows without a URL were
   * dropped: its index label in the original sheet, the URL cell as text,
   * whether reading the row raises, what visiting the URL gives, the title
   * the browser reports afterwards (`None` when it cannot be read) and the
   * clock reading used in the screenshot name.
   */
  datatype Row = Row(index: nat, cell: string, faulty: bool, visit: FC.Visit, title: Option<string>, timestamp: nat)

  /** The worker's test for a URL worth visiting: only the `http` prefix decides, the other tests never reject such a URL. */
  predicate RowUrlUsable(url: string)
    ensures RowUrlUsable(url) <==> StartsWith(url, "http")
  {
    if StartsWith(url, "http") then
      assert url[0] == 'h' && "nan"[0] == 'n';
      url != [] && url != "nan" && StartsWith(url, "http")
    else false
  }

  /** The worker's test and the authentication page's test accept the same URLs. */
  lemma UsableUrlPredicatesAgree(url: string)
    ensures RowUrlUsable(url) <==> H.IsAuthenticationUrl(url)
  {
  }

  /** Whether the row's URL is visited, and with it whether the row is buffered. */
  predicate Visited(row: Row) {
    !row.faulty && RowUrlUsable(row.cell)
  }

  /** The page title stored with a result: at most 100 characters, nothing when it is empty or unreadable. */
  function PageTitle(title: Option<string>): (r: Option<string>)
    ensures r.Some? ==> |r.value| <= 100 && r.value != []
    ensures r.None? <==> title.None? || title.value == []
  {
    if title.Some? && title.value != [] then Some(Take(title.value, 100)) else None
  }

  /** The buffered record of a visited row. */
  function RecordOf(runId: nat, row: Row): (r: ResultRecord)
    ensures r.testRunId == runId && r.rowNumber == row.index && r.url == row.cell
    ensures var o := FC.UrlOutcomeOf(row.visit, runId, row.index, row.timestamp);
      r.status == o.status && r.screenshot == o.screenshot && r.errorMessage == o.errorMessage
      && r.confidence == o.confidence
    ensures r.pageTitle == PageTitle(row.title)
  {
    var o := FC.UrlOutcomeOf(row.visit, runId, row.index, row.timestamp);
    ResultRecord(runId, row.index, row.cell, o.status, o.screenshot, PageTitle(row.title), o.errorMessage, o.confidence)
  }

  /**
   * What a row's record means for the page behind it: a navigation error
   * fails with confidence 30 and no screenshot, and a loaded page carries
   * the repeated check's verdict.
   */
  lemma RecordOfOutcome(runId: nat, row: Row)
    ensures row.visit.NavigationFailed? ==>
      RecordOf(runId, row).confidence == FC.NavigationConfidence && RecordOf(runId, row).screenshot.None?
    ensures row.visit.Loaded? ==>
      RecordOf(runId, row).confidence == FC.FailDetection(row.visit.checks).confidence
      && (RecordOf(runId, row).status == FC.Fail <==> FC.FailDetection(row.visit.checks).isFail)
  {
  }

  /** The records the row loop buffers, in row order. */
  function RecordsOf(runId: nat, rows: seq<Row>): (rs: seq<ResultRecord>)
    ensures |rs| <= |rows|
  {
    if |rows| == 0 then []
    else
      var init := RecordsOf(runId, rows[..|rows| - 1]);
      var row := rows[|rows| - 1];
      if Visited(row) then init + [RecordOf(runId, row)] else init
  }

  /** The counters of the row loop. */
  datatype Tally = Tally(passed: nat, failed: nat, skipped: nat)

  /** Counting a row adds one to exactly one counter: failed for a faulty row, skipped for an unusable URL, else its verdict. */
  function CountRow(t: Tally, runId: nat, row: Row): (t': Tally)
    ensures t'.passed + t'.failed + t'.skipped == t.passed + t.failed + t.skipped + 1
    ensures t'.passed >= t.passed && t'.failed >= t.failed && t'.skipped >= t.skipped
    ensures t'.skipped == t.skipped + 1 <==> SkippedRow(row)
    ensures t'.passed == t.passed + 1 <==> Visited(row) && RecordOf(runId, row).status == FC.Pass
  {
    if row.faulty then t.(failed := t.failed + 1)
    else if !RowUrlUsable(row.cell) then t.(skipped := t.skipped + 1)
    else if FC.UrlOutcomeOf(row.visit, runId, row.index, row.timestamp).status == FC.Pass then t.(passed := t.passed + 1)
    else t.(failed := t.failed + 1)
  }

  /** Every row is counted exactly once: as passed, failed or skipped. */
  function TallyOf(runId: nat, rows: seq<Row>): (t: Tally)
    ensures t.passed + t.failed + t.skipped == |rows|
  {
    if |rows| == 0 then Tally(0, 0, 0)
    else CountRow(TallyOf(runId, rows[..|rows| - 1]), runId, rows[|rows| - 1])
  }

  /** The number of rows that raise. */
  function Faulty(rows: seq<Row>): nat {
    if |rows| == 0 then 0
    else Faulty(rows[..|rows| - 1]) + (if rows[|rows| - 1].faulty then 1 else 0)
  }

  /**
   * Every visited row is buffered and counted as passed or failed, and
   * every faulty row is counted without a record; `TallyCounts` says
   * which counter each one reaches.
   */
  lemma {:induction false} RecordsMatchTally(runId: nat, rows: seq<Row>)
    ensures |RecordsOf(runId, rows)| + Faulty(rows) == TallyOf(runId, rows).passed + TallyOf(runId, rows).failed
    ensures |RecordsOf(runId, rows)| + Faulty(rows) + TallyOf(runId, rows).skipped == |rows|
  {
    if |rows| > 0 {
      RecordsMatchTally(runId, rows[..|rows| - 1]);
    }
  }

  /** A row that does not raise but whose URL is not usable. */
  predicate SkippedRow(row: Row) {
    !row.faulty && !RowUrlUsable(row.cell)
  }

  predicate RecordPassed(r: ResultRecord) {
    r.status == FC.Pass
  }

  predicate RecordFailed(r: ResultRecord) {
    r.status == FC.Fail
  }

  /**
   * The counters count what the rows became: the passes are the records
   * that passed, the failures the records that failed plus the faulty
   * rows, the skips the rows with an unusable URL, and there is one record
   * per visited row.
   */
  lemma {:induction false} TallyCounts(runId: nat, rows: seq<Row>)
    ensures var t, rs := TallyOf(runId, rows), RecordsOf(runId, rows);
      t.passed == |Filter(rs, RecordPassed)|
      && t.failed == |Filter(rs, RecordFailed)| + Faulty(rows)
      && t.skipped == |Filter(rows, SkippedRow)|
      && |rs| == |Filter(rows, Visited)|
  {
    if |rows| > 0 {
      var init := rows[..|rows| - 1];
      var row := rows[|rows| - 1];
      TallyCounts(runId, init);
      var rs := RecordsOf(runId, init);
      if Visited(row) {
        var r := RecordOf(runId, row);
        var all := rs + [r];
        assert all[..|all| - 1] == rs;
        assert RecordsOf(runId, rows) == all;
      } else {
        assert RecordsOf(runId, rows) == rs;
      }
    }
  }

  /** Labels as pandas keeps them after dropping rows: strictly increasing. */
  predicate LabelsIncrease(rows: seq<Row>) {
    forall i, j :: 0 <= i < j < |rows| ==> rows[i].index < rows[j].index
  }

  /** Every buffered row number is the label of a row of the sheet. */
  lemma {:induction false} RecordsComeFromRows(runId: nat, rows: seq<Row>)
    ensures forall i :: 0 <= i < |RecordsOf(runId, rows)| ==> exists k :: 0 <= k < |rows| && RecordsOf(runId, rows)[i].rowNumber == rows[k].index
  {
    if |rows| > 0 {
      var init := rows[..|rows| - 1];
      RecordsComeFromRows(runId, init);
      var rs := RecordsOf(runId, init);
      var all := RecordsOf(runId, rows);
      var last := rows[|rows| - 1];
      assert all == if Visited(last) then rs + [RecordOf(runId, last)] else rs;
      forall i | 0 <= i < |all| ensures exists k :: 0 <= k < |rows| && all[i].rowNumber == rows[k].index {
        if i < |rs| {
          assert all[i] == rs[i];
          var k :| 0 <= k < |init| && rs[i].rowNumber == init[k].index;
          assert rows[k] == init[k];
        } else {
          assert all[i].rowNumber == rows[|rows| - 1].index;
        }
      }
    } else {
      assert RecordsOf(runId, rows) == [];
    }
  }

  /**
   * The buffered row numbers follow the sheet's order, so reading a run's
   * results back by row number gives them in the order they were visited.
   */
  lemma {:induction false} RecordsFollowRows(runId: nat, rows: seq<Row>)
    requires LabelsIncrease(rows)
    ensures forall i, j :: 0 <= i < j < |RecordsOf(runId, rows)| ==> RecordsOf(runId, rows)[i].rowNumber < RecordsOf(runId, rows)[j].rowNumber
  {
    if |rows| > 0 {
      var init := rows[..|rows| - 1];
      assert LabelsIncrease(init);
      RecordsFollowRows(runId, init);
      RecordsComeFromRows(runId, init);
      var rs := RecordsOf(runId, init);
      var last := rows[|rows| - 1];
      if Visited(last) {
        forall i | 0 <= i < |rs| ensures rs[i].rowNumber < last.index {
          var k :| 0 <= k < |init| && rs[i].rowNumber == init[k].index;
        }
        var all := RecordsOf(runId, rows);
        assert all == rs + [RecordOf(runId, last)];
        forall i, j | 0 <= i < j < |all| ensures all[i].rowNumber < all[j].rowNumber {
          assert all[i] == rs[i];
          if j < |rs| {
            assert all[j] == rs[j];
          }
        }
      } else {
        assert RecordsOf(runId, rows) == rs;
      }
    }
  }

  // ---------------------------------------------------------------------------
  // progress and success rate

  /**
   * The progress the row loop reports after the row with index label
   * `index`, as written: the label is taken for a position, but pandas
   * keeps the labels of the rows it dropped, so later labels exceed the
   * number of rows that remain.
   */
  function ProgressAsWritten(index: nat, total: nat): (p: real)
    requires total > 0
    ensures index < total ==> 0.0 < p <= 100.0
    ensures index >= total ==> p > 100.0
  {
    PercentBounds((index + 1) as real, total as real);
    (index + 1) as real / total as real * 100.0
  }

  /** With the first of ten rows dropped, the row labelled 9 reports more than 100 percent. */
  lemma ProgressAsWrittenExceeds100()
    ensures ProgressAsWritten(9, 9) > 100.0
  {
  }

  /** The progress after `done` of `total` rows, by position. */
  function Progress(done: nat, total: nat): (p: real)
    requires 0 < done <= total
    ensures 0.0 < p <= 100.0
    ensures done == total ==> p == 100.0
  {
    PercentBounds(done as real, total as real);
    done as real / total as real * 100.0
  }

  /** A row that reports progress: it is visited and its label plus one is a multiple of `ProgressEvery`. */
  predicate Reports(row: Row)
    ensures Reports(row) ==> Visited(row) && row.index + 1 >= ProgressEvery
  {
    Visited(row) && (row.index + 1) % ProgressEvery == 0
  }

  /**
   * The job's progress once the first `n` rows are processed, starting
   * from `p0`: each reporting row overwrites it with its position's
   * progress.
   */
  function ProgressAfter(p0: real, rows: seq<Row>, n: nat): (p: real)
    requires n <= |rows|
    ensures 0.0 <= p0 <= 100.0 ==> 0.0 <= p <= 100.0
    decreases n
  {
    if n == 0 then p0
    else if Reports(rows[n - 1]) then Progress(n, |rows|)
    else ProgressAfter(p0, rows, n - 1)
  }

  /** With no reporting row among the first `n`, the progress is the starting one. */
  lemma {:induction false} ProgressAfterNoReport(p0: real, rows: seq<Row>, n: nat)
    requires n <= |rows|
    requires forall j :: 0 <= j < n ==> !Reports(rows[j])
    ensures ProgressAfter(p0, rows, n) == p0
    decreases n
  {
    if n > 0 {
      ProgressAfterNoReport(p0, rows, n - 1);
    }
  }

  /** The progress after `n` rows is the one written by the last reporting row among them, at its position. */
  lemma {:induction false} ProgressAfterLastReport(p0: real, rows: seq<Row>, n: nat, k: nat)
    requires k < n <= |rows| && Reports(rows[k])
    requires forall j :: k < j < n ==> !Reports(rows[j])
    ensures ProgressAfter(p0, rows, n) == Progress(k + 1, |rows|)
    decreases n
  {
    if n - 1 > k {
      ProgressAfterLastReport(p0, rows, n - 1, k);
    }
  }

  /** A percentage `part / whole * 100` is in (0, 100] for a part up to the whole and above 100 beyond it. */
  lemma PercentBounds(part: real, whole: real)
    requires 0.0 < whole
    ensures 0.0 < part <= whole ==> 0.0 < part / whole * 100.0 <= 100.0
    ensures part == whole ==> part / whole * 100.0 == 100.0
    ensures 0.0 <= part < whole ==> 0.0 <= part / whole * 100.0 < 100.0
    ensures part > whole ==> part / whole * 100.0 > 100.0
  {
    var q := part / whole;
    assert q * whole == part;
    assert (q - 1.0) * whole == part - whole;
  }

  /** `passed / (passed + failed) * 100`, and 0 when nothing was passed or failed. */
  function SuccessRate(passed: nat, failed: nat): (r: real)
    ensures 0.0 <= r <= 100.0
    ensures r == 100.0 <==> passed > 0 && failed == 0
    ensures r == 0.0 <==> passed == 0
  {
    if passed + failed > 0 then
      PercentBounds(passed as real, (passed + failed) as real);
      passed as real / (passed + failed) as real * 100.0
    else 0.0
  }

  // ---------------------------------------------------------------------------
  // session files

  /** The ready marker the login page writes for a job. */
  function AuthFile(id: nat): (f: string)
    ensures StartsWith(f, "sessions/auth_ready_") && EndsWith(f, ".txt")
  {
    "sessions/auth_ready_" + NatToString(id) + ".txt"
  }

  /** The session data the login page saves for a job. */
  function SessionFile(id: nat): (f: string)
    ensures StartsWith(f, "sessions/session_data_") && EndsWith(f, ".json")
  {
    "sessions/session_data_" + NatToString(id) + ".json"
  }

  /** Different jobs never share a session file, and no job's ready marker is another's session data. */
  lemma SessionFilesDistinct(a: nat, b: nat)
    ensures AuthFile(a) != SessionFile(b)
    ensures AuthFile(a) == AuthFile(b) ==> a == b
    ensures SessionFile(a) == SessionFile(b) ==> a == b
  {
    assert AuthFile(a)[9] == 'a';
    assert SessionFile(b)[9] == 's';
    if AuthFile(a) == AuthFile(b) {
      StripAffixes("sessions/auth_ready_", NatToString(a), NatToString(b), ".txt");
      NatToStringInjective(a, b);
    }
    if SessionFile(a) == SessionFile(b) {
      StripAffixes("sessions/session_data_", NatToString(a), NatToString(b), ".json");
      NatToStringInjective(a, b);
    }
  }

  lemma StripAffixes(p: string, x: string, y: string, q: string)
    requires p + x + q == p + y + q
    ensures x == y
  {
    var s := p + x + q;
    assert |x| == |y|;
    assert x == s[|p|..|p| + |x|] == y;
  }

  /** Whether the sessions directory holds both files of a job. */
  predicate SessionReady(files: map<string, Option<S.SessionData>>, id: nat) {
    AuthFile(id) in files && SessionFile(id) in files
  }

  // ---------------------------------------------------------------------------
  // dispatch

  datatype Action = MoveToWaiting | StartProcessing | KeepWaiting | Ignore

  /**
   * What one dispatch step does with a job: a pending job starts waiting
   * for login; a waiting job is processed once both of its session files
   * exist and keeps waiting otherwise.
   */
  function Dispatch(job: DB.TestRun, files: map<string, Option<S.SessionData>>): (a: Action)
    ensures a == MoveToWaiting <==> job.status == DB.Pending
    ensures a == StartProcessing <==> job.status == DB.WaitingLogin && SessionReady(files, job.id)
    ensures a == KeepWaiting <==> job.status == DB.WaitingLogin && !SessionReady(files, job.id)
  {
    if job.status == DB.Pending then MoveToWaiting
    else if job.status == DB.WaitingLogin then (if SessionReady(files, job.id) then StartProcessing else KeepWaiting)
    else Ignore
  }

  /** The jobs one step looks at: the first ten pending or waiting jobs, oldest first. */
  function PendingJobsFast(runs: seq<DB.TestRun>): (jobs: seq<DB.TestRun>)
    ensures |jobs| <= JobsPerStep && |jobs| <= |DB.PendingJobs(runs)|
    ensures forall r :: r in jobs ==> r in runs && DB.Open(r)
    ensures jobs == DB.PendingJobs(runs)[..|jobs|]
    ensures |DB.PendingJobs(runs)| >= JobsPerStep ==> |jobs| == JobsPerStep
    ensures |DB.PendingJobs(runs)| < JobsPerStep ==> jobs == DB.PendingJobs(runs)
  {
    var all := DB.PendingJobs(runs);
    if |all| <= JobsPerStep then all else all[..JobsPerStep]
  }

  /**
   * The status a job ends with after it was processed: failed with no
   * progress when the session could not be handed over or the upload could
   * not be read, completed otherwise.
   */
  function FinalStatus(sessionHandedOver: bool, upload: Option<seq<Row>>): (s: DB.JobStatus)
    ensures s == DB.Completed || s == DB.Failed
    ensures s == DB.Completed <==> sessionHandedOver && upload.Some?
  {
    if sessionHandedOver && upload.Some? then DB.Completed else DB.Failed
  }

  /** Whether the session files of a job are there, the session parses and its replay gives a browser. */
  predicate HandedOver(files: map<string, Option<S.SessionData>>, id: nat, env: S.BrowserEnv)
    ensures HandedOver(files, id, env) ==> AuthFile(id) in files && SessionFile(id) in files
  {
    SessionReady(files, id) && files[SessionFile(id)].Some? && S.Hydrate(files[SessionFile(id)].value, env).Some?
  }

  /**
   * A run's record after it was processed: failed with no progress, or
   * completed with progress 100, the completion date and the counts of its
   * rows. Every other field keeps its value.
   */
  function ProcessedRun(run: DB.TestRun, handedOver: bool, upload: Option<seq<Row>>, now: nat): (r: DB.TestRun)
    ensures r.status == FinalStatus(handedOver, upload)
    ensures r.status == DB.Failed ==> r == run.(status := DB.Failed, progress := 0.0)
    ensures r.id == run.id && r.userId == run.userId && r.testName == run.testName && r.totalUrls == run.totalUrls
    ensures r.status == DB.Completed ==>
      var t := TallyOf(run.id, upload.value);
      r.progress == 100.0 && r.completedDate == Some(now)
      && r.passed + r.failed + r.skipped == |upload.value|
      && r.passed == t.passed && r.failed == t.failed && r.skipped == t.skipped
      && r.successRate == SuccessRate(t.passed, t.failed)
    ensures r.status == DB.Completed ==>
      r.(status := run.status, progress := run.progress, completedDate := run.completedDate, passed := run.passed,
         failed := run.failed, skipped := run.skipped, successRate := run.successRate) == run
  {
    if FinalStatus(handedOver, upload) == DB.Failed then run.(status := DB.Failed, progress := 0.0)
    else
      var t := TallyOf(run.id, upload.value);
      run.(status := DB.Completed, progress := 100.0, completedDate := Some(now),
        passed := t.passed, failed := t.failed, skipped := t.skipped, successRate := SuccessRate(t.passed, t.failed))
  }

  // ---------------------------------------------------------------------------
  // the worker

  class HybridBackgroundWorker {
    const db: DB.DatabaseManager
    /** The JSON encoder and Python's `str` the database layer uses for evidence. */
    const dumps: seq<(string, string)> -> string
    const show: DB.FieldValue -> string
    /** The rows waiting to be written. */
    var pendingResults: seq<ResultRecord>
    /** The sessions directory: each file present, with the session it parses as (`None`: unreadable). */
    var files: map<string, Option<S.SessionData>>
    /** The testing browser kept between jobs. */
    var persistent: Option<S.Browser>
    var loopCount: nat

    ghost predicate Valid()
      reads this, db
    {
      db.Valid()
    }

    constructor(db: DB.DatabaseManager, dumps: seq<(string, string)> -> string, show: DB.FieldValue -> string,
                files: map<string, Option<S.SessionData>>)
      requires db.Valid()
      ensures Valid() && this.db == db && this.files == files
      ensures pendingResults == [] && persistent.None? && loopCount == 0
    {
      this.db := db;
      this.dumps := dumps;
      this.show := show;
      pendingResults := [];
      this.files := files;
      persistent := None;
      loopCount := 0;
    }

    /** `add_result_to_batch`: one record at the end of the buffer, nothing else changes. */
    method AddResultToBatch(r: ResultRecord)
      modifies this
      ensures pendingResults == old(pendingResults) + [r]
      ensures files == old(files) && persistent == old(persistent) && loopCount == old(loopCount)
    {
      pendingResults := pendingResults + [r];
    }

    /**
     * `flush_pending_results`: an empty buffer, or a buffer short of a
     * batch without `force`, is left alone. Otherwise the records are
     * written in order until a write raises, and the buffer is emptied
     * either way: records after a failed write are lost.
     */
    method FlushPendingResults(force: bool)
      requires Valid()
      modifies this, db
      ensures Valid()
      ensures !FlushDue(old(pendingResults), force) ==>
        pendingResults == old(pendingResults) && db.results == old(db.results) && db.writeBudget == old(db.writeBudget)
      ensures FlushDue(old(pendingResults), force) ==>
        var n := Written(old(db.writeBudget), |old(pendingResults)|);
        pendingResults == [] &&
        db.results == old(db.results) + StoredAll(old(pendingResults)[..n]) &&
        db.writeBudget == Remaining(old(db.writeBudget), |old(pendingResults)|)
      ensures db.runs == old(db.runs)
      ensures files == old(files) && persistent == old(persistent) && loopCount == old(loopCount)
    {
      if !FlushDue(pendingResults, force) {
        return;
      }
      var buffer := pendingResults;
      var budget := db.writeBudget;
      var n := Written(budget, |buffer|);
      var i := 0;
      var ok := true;
      while i < |buffer| && ok
        invariant 0 <= i <= n
        decreases |buffer| - i + (if ok then 1 else 0)
        invariant ok ==> db.writeBudget == if budget.Some? then Some(budget.value - i) else None
        invariant !ok ==> i == n && db.writeBudget == Remaining(budget, |buffer|)
        invariant db.results == old(db.results) + StoredAll(buffer[..i])
        invariant db.runs == old(db.runs)
        invariant pendingResults == buffer && files == old(files) && persistent == old(persistent) && loopCount == old(loopCount)
      {
        var r := buffer[i];
        ok := WriteRecord(r);
        if ok {
          StoredAllConcat(buffer[..i], [r]);
          assert buffer[..i + 1] == buffer[..i] + [r];
          i := i + 1;
        }
      }
      pendingResults := [];
    }

    /** One `add_test_result` call of a flush: the record's stored form is appended unless the write raises. */
    method WriteRecord(r: ResultRecord) returns (ok: bool)
      requires Valid()
      modifies db
      ensures Valid()
      ensures ok <==> old(db.writeBudget) != Some(0)
      ensures ok ==> db.results == old(db.results) + StoredAll([r])
      ensures ok ==> db.writeBudget == if old(db.writeBudget).Some? then Some(old(db.writeBudget).value - 1) else None
      ensures !ok ==> db.results == old(db.results) && db.writeBudget == old(db.writeBudget)
      ensures db.runs == old(db.runs)
    {
      AddTestResultStoresRecord(r, dumps, show);
      ok := db.AddTestResult(r.testRunId, r.rowNumber, r.url, DbStatus(r.status), r.screenshot, r.pageTitle,
        r.errorMessage, Some(r.confidence as int), Some(0), Some(DetectionMethodTag),
        EvidenceValue(r.errorMessage), DB.Text(MethodsUsedTag), dumps, show);
    }

    /**
     * `wait_for_authentication_fast`: both session files must exist and the
     * session file must parse; the session is then replayed into a new
     * browser and, when that works, both files are removed.
     */
    method WaitForAuthenticationFast(id: nat, env: S.BrowserEnv) returns (browser: Option<S.Browser>)
      modifies this
      ensures browser.Some? <==>
        SessionReady(old(files), id) && old(files)[SessionFile(id)].Some? &&
        S.Hydrate(old(files)[SessionFile(id)].value, env).Some?
      ensures browser.Some? ==>
        browser.value == S.Hydrate(old(files)[SessionFile(id)].value, env).value.browser &&
        files == old(files) - {AuthFile(id), SessionFile(id)}
      ensures browser.None? ==> files == old(files)
      ensures pendingResults == old(pendingResults) && persistent == old(persistent) && loopCount == old(loopCount)
    {
      if !SessionReady(files, id) {
        return None;
      }
      var data := files[SessionFile(id)];
      if data.None? {
        return None;
      }
      var hydrated := S.Hydrate(data.value, env);
      if hydrated.None? {
        return None;
      }
      files := files - {AuthFile(id), SessionFile(id)};
      browser := Some(hydrated.value.browser);
    }

    /**
     * `get_or_create_authenticated_driver`: the persistent browser is kept
     * while its title (`None` when it cannot be read) shows no login page;
     * otherwise it is dropped and a new one is made from the session files,
     * which becomes the persistent browser when that works.
     */
    method GetOrCreateAuthenticatedDriver(id: nat, env: S.BrowserEnv, title: Option<string>)
      returns (browser: Option<S.Browser>)
      modifies this
      ensures old(persistent).Some? && title.Some? && !S.Evicts(title.value) ==>
        browser == old(persistent) && persistent == old(persistent) && files == old(files)
      ensures !(old(persistent).Some? && title.Some? && !S.Evicts(title.value)) ==>
        (browser.Some? <==> HandedOver(old(files), id, env)) && persistent == browser
      ensures !(old(persistent).Some? && title.Some? && !S.Evicts(title.value)) && browser.Some? ==>
        browser.value == S.Hydrate(old(files)[SessionFile(id)].value, env).value.browser &&
        files == old(files) - {AuthFile(id), SessionFile(id)}
      ensures browser.None? ==> files == old(files)
      ensures pendingResults == old(pendingResults) && loopCount == old(loopCount)
    {
      if persistent.Some? {
        if title.Some? && !S.Evicts(title.value) {
          return persistent;
        }
        persistent := None;
      }
      browser := WaitForAuthenticationFast(id, env);
      if browser.Some? {
        persistent := browser;
      }
    }

    /** `process_pending_to_waiting_fast`: the job waits for login with progress 5. */
    method ProcessPendingToWaitingFast(id: nat, now: nat) returns (ok: bool)
      requires Valid()
      modifies db
      ensures Valid() && ok
      ensures db.runs == if 1 <= id <= |old(db.runs)|
        then old(db.runs)[id - 1 := DB.WithStatus(old(db.runs)[id - 1], DB.WaitingLogin, Some(WaitingProgress), now)]
        else old(db.runs)
      ensures db.results == old(db.results) && db.writeBudget == old(db.writeBudget)
    {
      db.UpdateTestRunStatus(id, DB.WaitingLogin, Some(WaitingProgress), now);
      ok := true;
    }

    /**
     * The row loop of `process_test_run_fast`. Each row is skipped, or
     * visited, counted and buffered; every row whose label plus one is a
     * multiple of five also reports progress and flushes a full buffer.
     * Progress is reported by position (see `ProgressAsWritten`).
     */
    method ProcessRows(runId: nat, rows: seq<Row>, now: nat) returns (tally: Tally)
      requires Valid()
      requires 1 <= runId <= |db.runs| && db.runs[runId - 1].status == DB.Running
      requires 0.0 <= db.runs[runId - 1].progress <= 100.0
      modifies this, db
      ensures Valid()
      ensures tally == TallyOf(runId, rows)
      ensures |db.runs| == |old(db.runs)|
      ensures db.runs == old(db.runs)[runId - 1 := old(db.runs)[runId - 1].(progress := db.runs[runId - 1].progress)]
      ensures db.runs[runId - 1].progress == ProgressAfter(old(db.runs)[runId - 1].progress, rows, |rows|)
      ensures 0.0 <= db.runs[runId - 1].progress <= 100.0
      ensures old(db.writeBudget).None? ==>
        (db.writeBudget.None? && db.results + StoredAll(pendingResults) == old(db.results) + StoredAll(old(pendingResults) + RecordsOf(runId, rows)))
      ensures files == old(files) && persistent == old(persistent) && loopCount == old(loopCount)
    {
      tally := Tally(0, 0, 0);
      var i := 0;
      assert db.runs == old(db.runs)[runId - 1 := old(db.runs)[runId - 1].(progress := db.runs[runId - 1].progress)];
      while i < |rows|
        invariant RowLoop(runId, rows, i, tally, old(db.runs), old(db.results), old(pendingResults), old(db.writeBudget))
        invariant files == old(files) && persistent == old(persistent) && loopCount == old(loopCount)
      {
        tally := ProcessRow(runId, rows, i, tally, now, old(db.runs), old(db.results), old(pendingResults), old(db.writeBudget));
        i := i + 1;
      }
      assert rows[..i] == rows;
    }

    /**
     * The state of the row loop after `i` rows, relative to the state it
     * started from: the counters so far, only the job's progress changed
     * (and kept within 0 to 100), and, when writes never fail, every
     * record so far either written or still buffered, in order.
     */
    ghost predicate RowLoop(runId: nat, rows: seq<Row>, i: nat, tally: Tally, runs0: seq<DB.TestRun>,
                            results0: seq<DB.TestResult>, pending0: seq<ResultRecord>, budget0: Option<nat>)
      reads this, db
    {
      Valid() &&
      LoopState(runId, rows, i, tally, runs0, results0, pending0, budget0, db.runs, db.results, pendingResults, db.writeBudget)
    }

    /** One pass of the row loop. */
    method ProcessRow(runId: nat, rows: seq<Row>, i: nat, tally0: Tally, now: nat, ghost runs0: seq<DB.TestRun>,
                      ghost results0: seq<DB.TestResult>, ghost pending0: seq<ResultRecord>, ghost budget0: Option<nat>)
      returns (tally: Tally)
      requires i < |rows| && RowLoop(runId, rows, i, tally0, runs0, results0, pending0, budget0)
      modifies this, db
      ensures RowLoop(runId, rows, i + 1, tally, runs0, results0, pending0, budget0)
      ensures files == old(files) && persistent == old(persistent) && loopCount == old(loopCount)
    {
      RowStep(runId, rows, i);
      if Visited(rows[i]) {
        tally := CountVisitedRow(runId, rows, i, tally0, now, runs0, results0, pending0, budget0);
      } else {
        tally := CountRow(tally0, runId, rows[i]);
      }
    }

    /** A row whose URL is visited: visit it, count it and keep the loop's invariant. */
    method CountVisitedRow(runId: nat, rows: seq<Row>, i: nat, tally0: Tally, now: nat, ghost runs0: seq<DB.TestRun>,
                           ghost results0: seq<DB.TestResult>, ghost pending0: seq<ResultRecord>, ghost budget0: Option<nat>)
      returns (tally: Tally)
      requires i < |rows| && Visited(rows[i]) && RowLoop(runId, rows, i, tally0, runs0, results0, pending0, budget0)
      modifies this, db
      ensures RowLoop(runId, rows, i + 1, tally, runs0, results0, pending0, budget0)
      ensures files == old(files) && persistent == old(persistent) && loopCount == old(loopCount)
    {
      var row := rows[i];
      ghost var before := pendingResults;
      ghost var written := db.results;
      ghost var mid := db.runs;
      ghost var budget := db.writeBudget;
      var status := VisitRow(runId, row, i + 1, |rows|, now);
      tally := if status == FC.Pass then tally0.(passed := tally0.passed + 1) else tally0.(failed := tally0.failed + 1);
      VisitedStep(runId, rows, i, tally0, tally, runs0, results0, pending0, budget0,
                  mid, written, before, budget, db.runs, db.results, pendingResults, db.writeBudget);
    }

    /**
     * One row with a usable URL: visit it, buffer its record and, when its
     * label plus one is a multiple of five, report progress and flush a
     * full buffer.
     */
    method VisitRow(runId: nat, row: Row, done: nat, total: nat, now: nat) returns (status: FC.Status)
      requires Valid() && Visited(row)
      requires 1 <= runId <= |db.runs| && db.runs[runId - 1].status == DB.Running
      requires 0 < done <= total
      modifies this, db
      ensures Valid()
      ensures status == RecordOf(runId, row).status
      ensures (row.index + 1) % ProgressEvery != 0 ==>
        db.runs == old(db.runs) && db.results == old(db.results) && db.writeBudget == old(db.writeBudget) &&
        pendingResults == old(pendingResults) + [RecordOf(runId, row)]
      ensures (row.index + 1) % ProgressEvery == 0 ==>
        db.runs == old(db.runs)[runId - 1 := old(db.runs)[runId - 1].(progress := Progress(done, total))]
      ensures (row.index + 1) % ProgressEvery == 0 && !FlushDue(old(pendingResults) + [RecordOf(runId, row)], false) ==>
        pendingResults == old(pendingResults) + [RecordOf(runId, row)] &&
        db.results == old(db.results) && db.writeBudget == old(db.writeBudget)
      ensures (row.index + 1) % ProgressEvery == 0 && FlushDue(old(pendingResults) + [RecordOf(runId, row)], false) ==>
        var buffered := old(pendingResults) + [RecordOf(runId, row)];
        var n := Written(old(db.writeBudget), |buffered|);
        pendingResults == [] && db.results == old(db.results) + StoredAll(buffered[..n]) &&
        db.writeBudget == Remaining(old(db.writeBudget), |buffered|)
      ensures old(db.writeBudget).None? ==>
        (db.writeBudget.None? && db.results + StoredAll(pendingResults) == old(db.results) + StoredAll(old(pendingResults) + [RecordOf(runId, row)]))
      ensures files == old(files) && persistent == old(persistent) && loopCount == old(loopCount)
    {
      var o := FC.ProcessUrlFast(row.visit, runId, row.index, row.timestamp);
      status := o.status;
      var record := ResultRecord(runId, row.index, row.cell, o.status, o.screenshot, PageTitle(row.title), o.errorMessage, o.confidence);
      assert record == RecordOf(runId, row);
      AddResultToBatch(record);
      if (row.index + 1) % ProgressEvery == 0 {
        ghost var run := db.runs[runId - 1];
        db.UpdateTestRunStatus(runId, DB.Running, Some(Progress(done, total)), now);
        assert db.runs[runId - 1] == run.(progress := Progress(done, total));
        ghost var buffered := pendingResults;
        FlushPendingResults(false);
        if old(db.writeBudget).None? && FlushDue(buffered, false) {
          assert buffered[..|buffered|] == buffered;
        }
      }
    }

    /**
     * `process_test_run_fast`: the job runs; without a handed-over session
     * or a readable upload (`None`) it fails with no progress; otherwise the
     * rows are processed, the buffer is flushed and the job completes with
     * progress 100, its counts and its success rate. The buffer is always
     * empty afterwards.
     */
    method ProcessTestRunFast(id: nat, env: S.BrowserEnv, upload: Option<seq<Row>>, now: nat)
      returns (handedOver: bool)
      requires Valid()
      requires 1 <= id <= |db.runs|
      modifies this, db
      ensures Valid()
      ensures handedOver <==> HandedOver(old(files), id, env)
      ensures |db.runs| == |old(db.runs)|
      ensures forall j :: 0 <= j < |db.runs| && j != id - 1 ==> db.runs[j] == old(db.runs)[j]
      ensures db.runs[id - 1] == ProcessedRun(old(db.runs)[id - 1], handedOver, upload, now)
      ensures files == if handedOver then old(files) - {AuthFile(id), SessionFile(id)} else old(files)
      ensures pendingResults == []
      ensures FinalStatus(handedOver, upload) == DB.Completed && old(db.writeBudget).None? ==>
        db.results == old(db.results) + StoredAll(old(pendingResults) + RecordsOf(id, upload.value))
      ensures persistent == old(persistent) && loopCount == old(loopCount)
    {
      ghost var run0 := db.runs[id - 1];
      db.UpdateTestRunStatus(id, DB.Running, Some(0.0), now);
      var browser := WaitForAuthenticationFast(id, env);
      handedOver := browser.Some?;
      if browser.None? || upload.None? {
        db.UpdateTestRunStatus(id, DB.Failed, Some(0.0), now);
        FailedRun(run0, handedOver, upload, now);
        FlushPendingResults(true);
        return;
      }
      RunningRunCompletes(run0, upload.value, now);
      CompleteRun(id, upload.value, now);
    }

    /**
     * The rest of `process_test_run_fast` once the session was handed over
     * and the upload was read: process the rows, flush the buffer and mark
     * the run completed with its counts.
     */
    method CompleteRun(id: nat, rows: seq<Row>, now: nat)
      requires Valid()
      requires 1 <= id <= |db.runs| && db.runs[id - 1].status == DB.Running && db.runs[id - 1].progress == 0.0
      modifies this, db
      ensures Valid()
      ensures |db.runs| == |old(db.runs)|
      ensures forall j :: 0 <= j < |db.runs| && j != id - 1 ==> db.runs[j] == old(db.runs)[j]
      ensures db.runs[id - 1] == ProcessedRun(old(db.runs)[id - 1], true, Some(rows), now)
      ensures pendingResults == []
      ensures old(db.writeBudget).None? ==>
        db.results == old(db.results) + StoredAll(old(pendingResults) + RecordsOf(id, rows))
      ensures files == old(files) && persistent == old(persistent) && loopCount == old(loopCount)
    {
      ghost var run0 := db.runs[id - 1];
      assert run0.id == id;
      var tally := ProcessRows(id, rows, now);
      ghost var buffered := pendingResults;
      FlushPendingResults(true);
      if old(db.writeBudget).None? && buffered != [] {
        assert buffered[..|buffered|] == buffered;
      }
      ghost var progressed := db.runs[id - 1];
      db.UpdateTestRunStatus(id, DB.Completed, Some(100.0), now);
      db.UpdateTestRunResults(id, tally.passed, tally.failed, tally.skipped, SuccessRate(tally.passed, tally.failed));
      CompletedRun(run0, progressed, rows, now);
      FlushPendingResults(true);
    }

    /**
     * One pass of `run_hybrid`'s loop: count the pass, take the first ten
     * pending or waiting jobs, move each pending one to waiting for login,
     * and process each waiting one whose session files are there.
     * `uploads` holds the readable uploads by job id. Jobs that were
     * neither pending nor waiting are left alone.
     */
    method RunHybridStep(env: S.BrowserEnv, uploads: map<nat, seq<Row>>, now: nat) returns (jobs: seq<DB.TestRun>)
      requires Valid()
      modifies this, db
      ensures Valid()
      ensures loopCount == old(loopCount) + 1
      ensures jobs == PendingJobsFast(old(db.runs))
      ensures |db.runs| == |old(db.runs)|
      ensures forall j :: 0 <= j < |db.runs| && !DB.Open(old(db.runs)[j]) ==> db.runs[j] == old(db.runs)[j]
      ensures forall j :: 0 <= j < |db.runs| && old(db.runs)[j] !in jobs ==> db.runs[j] == old(db.runs)[j]
      ensures persistent == old(persistent)
    {
      loopCount := loopCount + 1;
      jobs := PendingJobsFast(db.runs);
      ghost var runs0 := db.runs;
      JobsAreRows(runs0, jobs);
      var i := 0;
      while i < |jobs|
        invariant 0 <= i <= |jobs|
        invariant JobsAt(runs0, jobs)
        invariant Valid()
        invariant KeptOutside(runs0, db.runs, jobs)
        invariant loopCount == old(loopCount) + 1 && persistent == old(persistent)
      {
        DispatchNext(jobs, i, runs0, env, uploads, now);
        i := i + 1;
      }
    }

    /** Dispatches the `i`-th job of a step; every run that is not one of the step's jobs stays as it was. */
    method DispatchNext(jobs: seq<DB.TestRun>, i: nat, ghost runs0: seq<DB.TestRun>, env: S.BrowserEnv,
                        uploads: map<nat, seq<Row>>, now: nat)
      requires i < |jobs| && Valid()
      requires JobsAt(runs0, jobs)
      requires KeptOutside(runs0, db.runs, jobs)
      modifies this, db
      ensures Valid() && KeptOutside(runs0, db.runs, jobs)
      ensures loopCount == old(loopCount) && persistent == old(persistent)
    {
      var job := jobs[i];
      assert job in jobs;
      ghost var before := db.runs;
      var _ := DispatchJob(job, env, uploads, now);
      OutsideRunsKept(runs0, before, db.runs, jobs, job.id - 1);
    }

    /** What one step does with one job, as `Dispatch` decides; only that job's record can change. */
    method DispatchJob(job: DB.TestRun, env: S.BrowserEnv, uploads: map<nat, seq<Row>>, now: nat) returns (action: Action)
      requires Valid() && 1 <= job.id <= |db.runs|
      modifies this, db
      ensures Valid()
      ensures action == Dispatch(job, old(files))
      ensures OnlyChanged(old(db.runs), db.runs, job.id - 1)
      ensures action == MoveToWaiting ==>
        db.runs[job.id - 1] == DB.WithStatus(old(db.runs)[job.id - 1], DB.WaitingLogin, Some(WaitingProgress), now)
        && files == old(files)
      ensures action == StartProcessing ==>
        db.runs[job.id - 1] == ProcessedRun(old(db.runs)[job.id - 1], HandedOver(old(files), job.id, env),
          if job.id in uploads then Some(uploads[job.id]) else None, now)
      ensures action == StartProcessing ==>
        files == if HandedOver(old(files), job.id, env) then old(files) - {AuthFile(job.id), SessionFile(job.id)} else old(files)
      ensures action == KeepWaiting || action == Ignore ==> db.runs == old(db.runs) && files == old(files)
      ensures persistent == old(persistent) && loopCount == old(loopCount)
    {
      action := Dispatch(job, files);
      match action {
        case MoveToWaiting =>
          var _ := ProcessPendingToWaitingFast(job.id, now);
        case StartProcessing =>
          var upload := if job.id in uploads then Some(uploads[job.id]) else None;
          var _ := ProcessTestRunFast(job.id, env, upload, now);
        case KeepWaiting =>
        case Ignore =>
      }
    }
  }

  /** The two status updates of a run that cannot be processed leave it failed with no progress. */
  lemma FailedRun(run: DB.TestRun, handedOver: bool, upload: Option<seq<Row>>, now: nat)
    requires FinalStatus(handedOver, upload) == DB.Failed
    ensures DB.WithStatus(DB.WithStatus(run, DB.Running, Some(0.0), now), DB.Failed, Some(0.0), now)
      == ProcessedRun(run, handedOver, upload, now)
  {
  }

  /** The updates of a processed run, whatever progress the row loop reported, leave it completed with its counts. */
  lemma CompletedRun(run: DB.TestRun, progressed: DB.TestRun, rows: seq<Row>, now: nat)
    requires progressed == run.(progress := progressed.progress)
    ensures var t := TallyOf(run.id, rows);
      DB.WithResults(DB.WithStatus(progressed, DB.Completed, Some(100.0), now),
        t.passed, t.failed, t.skipped, SuccessRate(t.passed, t.failed))
      == ProcessedRun(run, true, Some(rows), now)
  {
  }

  /**
   * The record left by the completion updates of background_worker.py:723-748
   * as written, given whether a result commit raised earlier in the job.
   * Nothing on the worker's path rolls the session back after such a commit,
   * so both updates raise and are swallowed, and the record keeps what the
   * row loop left.
   */
  function CompletionAsWritten(progressed: DB.TestRun, commitRaised: bool, rows: seq<Row>, now: nat): (r: DB.TestRun)
    ensures commitRaised ==> r == progressed
    ensures !commitRaised ==> r.status == DB.Completed && r.progress == 100.0 && r.completedDate == Some(now)
  {
    if commitRaised then progressed
    else
      var t := TallyOf(progressed.id, rows);
      DB.WithResults(DB.WithStatus(progressed, DB.Completed, Some(100.0), now),
        t.passed, t.failed, t.skipped, SuccessRate(t.passed, t.failed))
  }

  /**
   * As written, a job whose result commit raised stays `running`: it is not
   * open, so no later step picks it up, and it never reaches the completed
   * record the processing promises.
   */
  lemma RaisedCommitStrandsRun(run: DB.TestRun, progressed: DB.TestRun, rows: seq<Row>, now: nat)
    requires progressed == run.(status := DB.Running, progress := progressed.progress)
    ensures var r := CompletionAsWritten(progressed, true, rows, now);
      r.status == DB.Running && !DB.Open(r) && r != ProcessedRun(run, true, Some(rows), now)
  {
  }

  /** Marking a run as running first does not change what processing it makes of it. */
  lemma RunningRunCompletes(run: DB.TestRun, rows: seq<Row>, now: nat)
    ensures ProcessedRun(DB.WithStatus(run, DB.Running, Some(0.0), now), true, Some(rows), now)
      == ProcessedRun(run, true, Some(rows), now)
  {
  }

  /** Every run of `runs0` that is not one of `jobs` is as it was. */
  ghost predicate KeptOutside(runs0: seq<DB.TestRun>, runs: seq<DB.TestRun>, jobs: seq<DB.TestRun>) {
    |runs| == |runs0| && forall j :: 0 <= j < |runs| && runs0[j] !in jobs ==> runs[j] == runs0[j]
  }

  /** Changing only the record of one of the jobs keeps every other run as it was. */
  lemma OutsideRunsKept(runs0: seq<DB.TestRun>, before: seq<DB.TestRun>, after: seq<DB.TestRun>,
                        jobs: seq<DB.TestRun>, k: int)
    requires 0 <= k < |runs0| && runs0[k] in jobs
    requires KeptOutside(runs0, before, jobs) && OnlyChanged(before, after, k)
    ensures KeptOutside(runs0, after, jobs)
  {
  }

  /** Only the run at index `k` may differ. */
  ghost predicate OnlyChanged(before: seq<DB.TestRun>, after: seq<DB.TestRun>, k: int) {
    |after| == |before| && forall j :: 0 <= j < |after| && j != k ==> after[j] == before[j]
  }

  /** One more row: the records and the counters of the longer prefix. */
  lemma RowStep(runId: nat, rows: seq<Row>, i: nat)
    requires i < |rows|
    ensures RecordsOf(runId, rows[..i + 1]) ==
      RecordsOf(runId, rows[..i]) + (if Visited(rows[i]) then [RecordOf(runId, rows[i])] else [])
    ensures TallyOf(runId, rows[..i + 1]) == CountRow(TallyOf(runId, rows[..i]), runId, rows[i])
  {
    assert rows[..i + 1][..i] == rows[..i];
  }

  /**
   * The row loop's invariant on plain values: the counters so far, only the
   * job's progress changed, to the progress the reporting rows so far
   * wrote, and, when writes never fail, every record so far either
   * written or still buffered.
   */
  ghost predicate LoopState(runId: nat, rows: seq<Row>, i: nat, tally: Tally, runs0: seq<DB.TestRun>,
                            results0: seq<DB.TestResult>, pending0: seq<ResultRecord>, budget0: Option<nat>,
                            runs: seq<DB.TestRun>, results: seq<DB.TestResult>, pending: seq<ResultRecord>, budget: Option<nat>)
  {
    i <= |rows| && tally == TallyOf(runId, rows[..i]) &&
    1 <= runId <= |runs0| && runs0[runId - 1].status == DB.Running && |runs| == |runs0| &&
    runs == runs0[runId - 1 := runs0[runId - 1].(progress := runs[runId - 1].progress)] &&
    0.0 <= runs0[runId - 1].progress <= 100.0 &&
    runs[runId - 1].progress == ProgressAfter(runs0[runId - 1].progress, rows, i) &&
    (budget0.None? ==>
      budget.None? && results + StoredAll(pending) == results0 + StoredAll(pending0 + RecordsOf(runId, rows[..i])))
  }

  /** Visiting row `i` (state `a` to state `b`) and counting its verdict keeps the row loop's invariant. */
  lemma VisitedStep(runId: nat, rows: seq<Row>, i: nat, tally0: Tally, tally: Tally, runs0: seq<DB.TestRun>,
                    results0: seq<DB.TestResult>, pending0: seq<ResultRecord>, budget0: Option<nat>,
                    runsA: seq<DB.TestRun>, resultsA: seq<DB.TestResult>, pendingA: seq<ResultRecord>, budgetA: Option<nat>,
                    runsB: seq<DB.TestRun>, resultsB: seq<DB.TestResult>, pendingB: seq<ResultRecord>, budgetB: Option<nat>)
    requires i < |rows| && Visited(rows[i])
    requires LoopState(runId, rows, i, tally0, runs0, results0, pending0, budget0, runsA, resultsA, pendingA, budgetA)
    requires tally == if RecordOf(runId, rows[i]).status == FC.Pass then tally0.(passed := tally0.passed + 1)
                      else tally0.(failed := tally0.failed + 1)
    requires (rows[i].index + 1) % ProgressEvery == 0 ==>
      runsB == runsA[runId - 1 := runsA[runId - 1].(progress := Progress(i + 1, |rows|))]
    requires (rows[i].index + 1) % ProgressEvery != 0 ==> runsB == runsA
    requires budgetA.None? ==>
      budgetB.None? && resultsB + StoredAll(pendingB) == resultsA + StoredAll(pendingA + [RecordOf(runId, rows[i])])
    ensures LoopState(runId, rows, i + 1, tally, runs0, results0, pending0, budget0, runsB, resultsB, pendingB, budgetB)
  {
    assert Reports(rows[i]) <==> (rows[i].index + 1) % ProgressEvery == 0;
    ReportedStep(runId, rows, i, tally0, tally, runs0, results0, pending0, budget0,
                 runsA, resultsA, pendingA, budgetA, runsB, resultsB, pendingB, budgetB);
  }

  /** `VisitedStep`, with the job's progress update stated through `Reports`. */
  lemma ReportedStep(runId: nat, rows: seq<Row>, i: nat, tally0: Tally, tally: Tally, runs0: seq<DB.TestRun>,
                     results0: seq<DB.TestResult>, pending0: seq<ResultRecord>, budget0: Option<nat>,
                     runsA: seq<DB.TestRun>, resultsA: seq<DB.TestResult>, pendingA: seq<ResultRecord>, budgetA: Option<nat>,
                     runsB: seq<DB.TestRun>, resultsB: seq<DB.TestResult>, pendingB: seq<ResultRecord>, budgetB: Option<nat>)
    requires i < |rows| && Visited(rows[i])
    requires LoopState(runId, rows, i, tally0, runs0, results0, pending0, budget0, runsA, resultsA, pendingA, budgetA)
    requires tally == if RecordOf(runId, rows[i]).status == FC.Pass then tally0.(passed := tally0.passed + 1)
                      else tally0.(failed := tally0.failed + 1)
    requires Reports(rows[i]) ==> runsB == runsA[runId - 1 := runsA[runId - 1].(progress := Progress(i + 1, |rows|))]
    requires !Reports(rows[i]) ==> runsB == runsA
    requires budgetA.None? ==>
      budgetB.None? && resultsB + StoredAll(pendingB) == resultsA + StoredAll(pendingA + [RecordOf(runId, rows[i])])
    ensures LoopState(runId, rows, i + 1, tally, runs0, results0, pending0, budget0, runsB, resultsB, pendingB, budgetB)
  {
    RowStep(runId, rows, i);
    CountVisited(tally0, runId, rows[i]);
    ProgressOnlyTrans(runs0, runsA, runsB, runId - 1);
    if budget0.None? {
      NoLossStep(resultsA, pendingA, results0, pending0 + RecordsOf(runId, rows[..i]), RecordOf(runId, rows[i]));
    }
  }

  /** A visited row is counted by its record's verdict. */
  lemma CountVisited(t: Tally, runId: nat, row: Row)
    requires Visited(row)
    ensures CountRow(t, runId, row)
      == if RecordOf(runId, row).status == FC.Pass then t.(passed := t.passed + 1) else t.(failed := t.failed + 1)
  {
  }

  /**
   * Appending the same record to the buffer and to the records so far
   * keeps "written plus buffered is what was there plus the records".
   */
  lemma NoLossStep(written: seq<DB.TestResult>, before: seq<ResultRecord>, start: seq<DB.TestResult>,
                   earlier: seq<ResultRecord>, record: ResultRecord)
    requires written + StoredAll(before) == start + StoredAll(earlier)
    ensures written + StoredAll(before + [record]) == start + StoredAll(earlier + [record])
  {
    StoredAllConcat(before, [record]);
    StoredAllConcat(earlier, [record]);
    calc {
      written + StoredAll(before + [record]);
      written + (StoredAll(before) + StoredAll([record]));
      (written + StoredAll(before)) + StoredAll([record]);
      (start + StoredAll(earlier)) + StoredAll([record]);
      start + (StoredAll(earlier) + StoredAll([record]));
      start + StoredAll(earlier + [record]);
    }
  }

  /** Two changes that each touch only one run's progress touch only that run's progress. */
  lemma ProgressOnlyTrans(a: seq<DB.TestRun>, b: seq<DB.TestRun>, c: seq<DB.TestRun>, k: nat)
    requires k < |a| && |b| == |a| && |c| == |a|
    requires b == a[k := a[k].(progress := b[k].progress)]
    requires c == b || c == b[k := b[k].(progress := c[k].progress)]
    ensures c == a[k := a[k].(progress := c[k].progress)]
  {
  }

  /** Every job is an open run of the table, found at its id. */
  ghost predicate JobsAt(runs: seq<DB.TestRun>, jobs: seq<DB.TestRun>) {
    forall r :: r in jobs ==> 1 <= r.id <= |runs| && runs[r.id - 1] == r && DB.Open(r)
  }

  /** The jobs of a step are rows of the run table, found at their id. */
  lemma JobsAreRows(runs: seq<DB.TestRun>, jobs: seq<DB.TestRun>)
    requires forall i :: 0 <= i < |runs| ==> runs[i].id == i + 1
    requires jobs == PendingJobsFast(runs)
    ensures JobsAt(runs, jobs)
  {
    forall r | r in jobs ensures 1 <= r.id <= |runs| && runs[r.id - 1] == r && DB.Open(r) {
      assert r in runs && DB.Open(r);
      RowAtId(runs, r);
    }
  }

  /** A row of a run table whose ids are positions plus one sits at its id. */
  lemma RowAtId(runs: seq<DB.TestRun>, r: DB.TestRun)
    requires forall i :: 0 <= i < |runs| ==> runs[i].id == i + 1
    requires r in runs
    ensures 1 <= r.id <= |runs| && runs[r.id - 1] == r
  {
    var k :| 0 <= k < |runs| && runs[k] == r;
  }
}
