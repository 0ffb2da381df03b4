# URL tester: worker, detection and persistence, modelled in Dafny

The system tests a spreadsheet of URLs against a web application that needs a login.

- A Streamlit front end (`main.py`) takes the upload and creates a *test run*.
- The user logs in in a temporary browser. The front end captures that session into two files:
  - `sessions/auth_ready_N.txt`
  - `sessions/session_data_N.json`
- A background worker (`background_worker.py`) moves each run from `pending` to `waiting_login`.
- Once both session files exist, the worker replays the session into its own browser. It then visits every URL of the sheet.
- For each page, the worker decides PASS or FAIL by a layered fail check over:
  - the alert,
  - the page source,
  - the body text,
  - the visible modal elements.
- The worker buffers one result row per URL and writes the rows to the database in batches of five.
- At the end, the run is completed or failed.
- `detection_engine.py` is a second, content-based classifier of a page. It reports a verdict with a confidence.
- `database.py` stores runs and results and computes counting statistics over them.

The model replaces the browser by what it shows:
- a `FailPage` or `DetectionPage` snapshot for each check;
- a `Visit` per URL;
- a `BrowserEnv` describing how a replayed session behaves.

The sessions directory is a map from file name to the parsed session. The database is a class holding a run table, a result table and a budget of writes that succeed; the budget stands for database failures.

Modules, one per file:

| module | file | models |
|---|---|---|
| `Wrappers` | wrappers.dfy | `Option` and `Result` |
| `Strings` | strings.dfy | the Python string operations used: `lower`, `strip`, `split`, `join`, `in`, `find`, slicing, `str(int)` |
| `Helpers` | helpers.dfy | the pure helpers of `main.py` |
| `Detection` | detection.dfy | `detection_engine.py` |
| `FailCheck` | failcheck.dfy | the fail check, the repeated check, the URL outcome and the screenshot name of the worker |
| `Session` | session.dfy | cookie replay, base URL and login indicators of the worker; session capture of `main.py` |
| `Tables`, `Database` | database.dfy | `database.py` |
| `Worker` | worker.dfy | the state and control logic of `HybridBackgroundWorker` |

## Model

| member | source | states |
|---|---|---|
| Strings.Lower | detection_engine.py:169 | `lower()` keeps the length, maps each ASCII capital to its small letter and keeps every other character. |
| Strings.Strip | background_worker.py:272 | The stripped text is no longer than the input and neither starts nor ends with whitespace. |
| Strings.StripSlice | background_worker.py:272 | `strip()` removes only whitespace, and only at the ends: the result is a slice of the input with only whitespace before and after it. |
| Strings.Take | detection_engine.py:256 | `s[:n]` is the first `n` characters, or all of a shorter string, and is a prefix of it. |
| Strings.SplitOn | background_worker.py:464 | `split` on one character gives at least one part, and no part holds the separator. |
| Strings.Join | background_worker.py:464 | `sep.join(parts)`: the parts with the separator between them. What it promises is proved in `SplitJoin`, `JoinSplit` and `JoinContains`. |
| Strings.SplitOnAny | main.py:180 | `re.split` on a character class gives at least one part, and no part holds a separator. |
| Strings.SplitOnAnyCount | main.py:180 | The split has exactly one part more than the text has separators. |
| Strings.Contains | background_worker.py:311 | Python's `in` on strings: the empty string occurs in every string, and nothing longer than the text occurs in it. |
| Strings.StartsWith | background_worker.py:653 | `startswith`: a string that starts with a prefix contains it. |
| Strings.EndsWith | main.py:2127 | `endswith`: a string that ends with a suffix contains it. |
| Strings.FirstMatch | background_worker.py:310-312 | The index of the first pattern that occurs in the text, with no earlier pattern occurring. None exactly when no pattern occurs. |
| Strings.SplitJoin | background_worker.py:464 | Joining the parts of a split with the separator gives the string back. |
| Strings.JoinSplit | database.py:263 | Splitting a join of separator-free parts gives the parts back. |
| Strings.JoinContains | detection_engine.py:154 | Every part occurs in the joined string. |
| Strings.Find | main.py:160 | The position found is the first occurrence of the marker, and there is none exactly when the marker does not occur. |
| Strings.SplitFirst | main.py:160 | `split(sep, 1)` gives the text before and after the first occurrence: together with the marker they make the string, and the marker does not occur earlier. |
| Strings.SplitFirstUnique | main.py:160 | Any decomposition around a first occurrence is the one `split(sep, 1)` gives. |
| Strings.Words | main.py:175 | `split()` gives non-empty words without whitespace. |
| Strings.CollapseSpaces | main.py:175 | `' '.join(s.split())` has no leading or trailing whitespace, and every space stands alone between two non-space characters. |
| Strings.CollapseSpacesWords | main.py:175 | `' '.join(s.split())` keeps the words of the input, and collapsing it again changes nothing. |
| Strings.NatToString | background_worker.py:422-423 | `str(n)` is at least one decimal digit. |
| Strings.ParseNatToString | background_worker.py:422-423 | Reading `str(n)` back as a decimal number gives `n`. |
| Strings.NatToStringInjective | background_worker.py:422-423 | Different numbers give different strings. |
| Helpers.ParseErrorMessage | main.py:153-165 | An empty or missing message gives `(None, None)`. Without the marker it gives the stripped message and `None`. With the marker both parts are present. |
| Helpers.ParseErrorMessageSplitsAtFirstMarker | main.py:159-163 | A message holding `| EXTRACTED:` is split at the first occurrence, and both sides are returned stripped. |
| Helpers.CleanErrorText | main.py:174-175 | Cleaned text holds only word characters, whitespace and `.,!?:;-()`. Whitespace runs are single spaces, and the text has no leading or trailing whitespace. Its words are the words of the input once every other character is turned into a space, joined by single spaces. |
| Helpers.ReplaceUnkept | main.py:174 | The substitution keeps the length, keeps every word character, whitespace and `.,!?:;-()`, and turns every other character into a space. |
| Helpers.ExtractMeaningfulErrorText | main.py:168-193 | `None` exactly for empty input. The result is never longer than 200 characters. Cleaned text of at most 150 characters is returned unchanged; longer cleaned text is shortened by `ShortenCleaned`. |
| Helpers.ShortenCleaned | main.py:178-193 | Text of 150 or fewer characters is kept as is. Longer text is cut at `.`, `!` and `?`: the first sentence that names an error keyword and has more than 10 characters once stripped is shown, stripped and cut to 150; without one, the first sentence with more than 20 characters once stripped, cut the same way; without either, the first 200 characters. The result is never longer than 200. |
| Helpers.FirstKeywordSentence | main.py:183-186 | The chosen sentence is one of the sentences. It names an error keyword and is longer than 10 characters once stripped. |
| Helpers.FirstLongSentence | main.py:189-191 | The chosen sentence is one of the sentences and is longer than 20 characters once stripped. |
| Helpers.FirstKeywordSentenceIsFirst | main.py:183-186 | The sentence chosen is the first that names an error keyword and is longer than 10 characters once stripped. None is chosen exactly when no sentence qualifies. |
| Helpers.FirstLongSentenceIsFirst | main.py:189-191 | The sentence chosen is the first longer than 20 characters once stripped. None is chosen exactly when no sentence qualifies. |
| Helpers.FirstKeywordSentenceIndex | main.py:183-186 | Gives the position of the chosen keyword sentence: no sentence before it names an error keyword with more than 10 characters once stripped. |
| Helpers.FirstKeywordSentenceNone | main.py:183-186 | No keyword sentence is chosen exactly when no sentence qualifies. |
| Helpers.FirstLongSentenceIndex | main.py:189-191 | Gives the position of the chosen long sentence: no sentence before it has more than 20 characters once stripped. |
| Helpers.FirstLongSentenceNone | main.py:189-191 | No long sentence is chosen exactly when no sentence qualifies. |
| Helpers.MeaningfulSentenceHasNoTerminator | main.py:178-191 | When long text is cut to a sentence, the result has at most 150 characters and no `.`, `!` or `?`. |
| Helpers.GetButtonPosition | main.py:452-461 | The column is always 1 to 5, and an unknown page gives 1. |
| Helpers.ButtonPositionsDistinct | main.py:452-461 | dashboard, new_test, history, manual_auth and sql map to 1 to 5, and no two pages share a column. |
| Helpers.NormalizeBaseUrl | main.py:2127-2129 | The base URL is the stripped input followed by at most one added `/`, and it always ends with `/`. |
| Helpers.NormalizeBaseUrlIdempotent | main.py:2127-2129 | Normalising a normalised base URL changes nothing. |
| Helpers.SqlQueryInputs | main.py:2127-2131 | The URL is the stripped input followed by at most one `/`, and it ends with `/`. The menu-set list is the stripped input, with no whitespace at either end. |
| Helpers.IsAuthenticationUrl | main.py:886 | A first URL is usable exactly when it starts with `http`. |
| Detection.DefaultConfig | detection_engine.py:11-18 | Sequential strategy, threshold 70, limit 10. Content analysis is on (1.0, 2.0) and OCR is off (0.8, 5.0). |
| Detection.ContentOnlyPreset | detection_engine.py:20-28 | Content analysis on, OCR off. |
| Detection.OcrEnabledPreset | detection_engine.py:30-38 | Content analysis and OCR both on. |
| Detection.PresetsAgreeWithDefault | detection_engine.py:20-38 | The content-only preset is the default configuration. The OCR preset differs from it only in OCR being enabled. |
| Detection.ContainerLines | detection_engine.py:118-128 | At most one line per matched container. |
| Detection.ContainerLinesTagged | detection_engine.py:118-128 | Every container report line is `MODAL_CONTAINER: ` followed by more than 3 characters of stripped text. |
| Detection.ContainerLinesReported | detection_engine.py:118-128 | The container lines are, in order, `MODAL_CONTAINER: ` plus the stripped text of exactly the displayed, non-zero-height containers with more than 3 characters. |
| Detection.ContainerLinesEmpty | detection_engine.py:118-128 | There is no container line exactly when no container is displayed, non-zero-height and holding stripped text longer than 3 characters. |
| Detection.CriteriaLines | detection_engine.py:141-151 | One `FAIL_CRITERIA_FOUND: ` line per displayed hit, and no line when no hit is displayed. |
| Detection.CriteriaLinesReported | detection_engine.py:141-151 | The fail-criteria lines are, in order, `FAIL_CRITERIA_FOUND: ` plus the stripped text of exactly the displayed hits. |
| Detection.ModalLines | detection_engine.py:83-154 | The report is, in order: the `JS_ALERT: ` line of an open alert with its stripped text; one `MODAL_CONTAINER: ` line per reported container (displayed, with a height, more than 3 characters once stripped), with its stripped text; one `FAIL_CRITERIA_FOUND: ` line per displayed hit, with its stripped text. |
| Detection.ModalLinesOrder | detection_engine.py:83-154 | A `JS_ALERT: ` line can only be the first line, and only with an open alert. Every container line comes before every fail-criteria line. |
| Detection.ModalContent | detection_engine.py:153-157 | Every report line occurs in the newline-joined report. |
| Detection.ModalContentEmpty | detection_engine.py:81-157 | The report is empty exactly when there is no alert, no reported container and no displayed fail-criteria hit. |
| Detection.AlertLeadsModalContent | detection_engine.py:83-88 | An open alert always starts the newline-joined report. |
| Detection.IsErrorContent | detection_engine.py:163-221 | True exactly when the text is non-empty and its lower-case form contains a critical, authentication or system pattern. |
| Detection.FirstErrorLine | detection_engine.py:252-256 | The line found is a stripped line of the text. It is non-empty and holds `error`, `failed`, `invalid` or `denied`. |
| Detection.FirstErrorLineIsFirst | detection_engine.py:252-256 | The line found is the first line that, stripped and in lower case, holds an error keyword. None is found exactly when no line does. |
| Detection.FirstNonBlankLine | detection_engine.py:259-261 | The line found is non-empty. |
| Detection.FirstNonBlankLineIsFirst | detection_engine.py:259-261 | The line found is the first non-blank line, stripped. None is found exactly when every line strips to nothing. |
| Detection.LineDetail | detection_engine.py:251-263 | The first error line, cut to 150 characters. Without one, the first non-blank line cut to 100. Without either, none. The detail found is non-empty, at most 150 characters, and a prefix of its line. |
| Detection.ExtractErrorDetail | detection_engine.py:224-263 | Empty text gives `No error text found`. Otherwise the message of the first detail pattern in the lower-case text, else the line detail, else `Error detected but no specific details found`. Every detail is a fixed message or at most 150 characters. |
| Detection.ErrorDetailFirstPatternWins | detection_engine.py:232-249 | The message of the first matching pattern in the fixed chain is returned, whatever later patterns also match. |
| Detection.DetailPatternsAreErrorPatterns | detection_engine.py:163-249 | Text that selects a detail message is always error content. |
| Detection.DetectedErrorHasDetail | detection_engine.py:224-263 | Error content is always described by a pattern message or by one of its own lines. It never falls through to the no-details message. |
| Detection.ContentTextDetection | detection_engine.py:266-315 | FAIL exactly when the body wait raised, the modal report is error content, or the title holds an error word. A raised wait gives `Detection error: ` plus 100 characters, confidence 70. Error content gives its extracted detail, confidence 98. An error title gives `Error in page title: ` plus the title, confidence 90. PASS gives `No errors detected`, confidence 85, and 85 occurs only for PASS. |
| Detection.TitleShowsError | detection_engine.py:292-300 | A title that shows an error was readable and has at least 3 characters. |
| Detection.VerdictMeetsThreshold | detection_engine.py:286-290 | Every verdict reaches the default threshold of 70. A content failure's reason is a pattern message or a line of the content. |
| Detection.MakeDetectionResult | detection_engine.py:63-74 | The error message is the reason exactly for FAIL. The evidence records reason, method and confidence. |
| Detection.AnalyzeUrl | detection_engine.py:45-74 | With content analysis off, the engine raises (`Err`). With it on, the result has the content verdict's status and confidence, the given execution time and the `content_analysis` method. Its error message is present exactly for FAIL and is then the verdict's reason. The evidence records reason, method and confidence. |
| Detection.OcrDoesNotChangeAnalysis | detection_engine.py:45-60 | Two configurations that agree on content analysis give the same analysis, whatever OCR is set to. |
| FailCheck.AlertCheck | background_worker.py:270-303 | A failing alert names a fail phrase as its criterion. When the stripped lower-case text holds a fail phrase, the alert fails with the `Alert: ` reason and the first phrase in list order. Otherwise a failing alert has the `Access denied alert: ` reason and the `access denied` criterion. |
| FailCheck.AlertCheckIff | background_worker.py:276-296 | The alert fails exactly when its stripped lower-case text holds a fail phrase or `denied`. Any other alert lets the check go on. |
| FailCheck.AccessDeniedAlertTestRedundant | background_worker.py:276-296 | Alert text holding `access denied` always fails with the `Alert: ` reason, never the access-denied alert reason. |
| FailCheck.LayerCheck | background_worker.py:305-332 | A text layer fails exactly when it holds a fail phrase. The first phrase in list order wins and names the reason. |
| FailCheck.ModalCheck | background_worker.py:334-361 | The modal layer fails exactly when some displayed element with text holds a fail phrase. The first such element decides, with the first phrase its text holds (`LayerCheck` with `Found in modal: `). |
| FailCheck.CheckFailCriteria | background_worker.py:254-367 | A non-fail result is exactly `(False, None, None)`. A fail always names a reason and one of the fail phrases. |
| FailCheck.CheckFailCriteriaIff | background_worker.py:254-367 | A page fails exactly when its alert fails, or a later layer holds a phrase and every earlier layer could be read. |
| FailCheck.CheckFailCriteriaReason | background_worker.py:254-361 | The first failing layer names the reason, in the order alert, page, body, modal, each with its own prefix. |
| FailCheck.CheckFailCriteriaLayers | background_worker.py:305-367 | When the alert does not fail, the result is the page-source layer's first phrase if it has one, else the body layer's, else the modal layer's; an unreadable source or body, or no match anywhere, gives not-fail. |
| FailCheck.SourceLayerFirstCriterionWins | background_worker.py:270-317 | When the alert does not fail (or there is none), the first phrase in the page source decides, whatever the body and modals hold. |
| FailCheck.Window | background_worker.py:155-158 | At most three checks are made, the first ones in order. |
| FailCheck.FirstFailing | background_worker.py:158-172 | The index found is the first failing verdict. No index means no verdict fails. |
| FailCheck.VerdictIs | background_worker.py:160-165 | Each verdict is true exactly when the fail check of its own inspection fails. |
| FailCheck.InspectAt | background_worker.py:158-172 | One inspection, after passing ones, gives its own verdict. A failing one fixes the repeated check to its reason with confidence 95. |
| FailCheck.FailDetection | background_worker.py:148-175 | A failure is reported with confidence 95. Otherwise the result is `(False, "No fail criteria detected", 85)`. |
| FailCheck.FailDetectionIff | background_worker.py:158-172 | The repeated check fails exactly when one of the first three inspections fails. |
| FailCheck.FailDetectionFirstCheckWins | background_worker.py:166-170 | The first failing check's reason is reported with confidence 95. |
| FailCheck.FailureAfterPasses | background_worker.py:160-170 | A failing inspection after passing ones decides the repeated check: its reason, confidence 95. |
| FailCheck.FailDetectionNoneFails | background_worker.py:172-175 | When none of the first three inspections fails, the result is `(False, "No fail criteria detected", 85)`. |
| FailCheck.SimpleFailDetection | background_worker.py:148-175 | The loop returns exactly the repeated-check result. |
| FailCheck.ScreenshotNameInjective | background_worker.py:404-407 | Two screenshot names are equal only for the same run, row, status and timestamp. |
| FailCheck.StatusName | background_worker.py:406 | The status in a screenshot name is four letters, and `PASS` exactly for a pass. |
| FailCheck.ScreenshotName | background_worker.py:404-407 | Every screenshot name starts with `screenshot_` and ends with `.png`. |
| FailCheck.RowFieldsInjective | background_worker.py:404-407 | The row, status and timestamp fields of a screenshot name determine all three values. |
| FailCheck.UrlOutcomeOf | background_worker.py:369-402 | A navigation error is `FAIL`, with no screenshot, `Navigation error: ` plus 50 characters, and confidence 30. A loaded page fails as the repeated check decides, with its confidence, and a failure's message is the repeated check's reason. The error message is present exactly for FAIL. The screenshot name is present exactly when the file was saved. |
| FailCheck.ProcessUrlFast | background_worker.py:369-402 | The method returns exactly the URL outcome. |
| FailCheck.AccessDeniedInSourceFails | background_worker.py:305-317 | A page whose source says `Access Denied` fails on the page layer with confidence 95. |
| FailCheck.AccessDeniedAlertFails | background_worker.py:276-285 | An alert starting `Access denied` fails the page, and the reason quotes the alert. |
| Session.NormalizeCookie | background_worker.py:518-538 | A cookie is usable exactly when it has a name and a value. The domain is kept only when truthy. The path is kept when truthy and is `/` otherwise. The flags are copied. |
| Session.NormalizeCookieRoundTrip | background_worker.py:518-538 | A cookie dictionary with a path and a non-empty domain normalises back to itself. |
| Session.AppliedCookies | background_worker.py:518-547 | The browser never holds more cookies than were stored. |
| Session.AppliedCookiesFromStored | background_worker.py:518-547 | Every applied cookie is the normalisation of a stored cookie that the browser accepted. |
| Session.AppliedCookiesAll | background_worker.py:518-547 | When every cookie normalises and is accepted, all of them are applied in order. |
| Session.ApplySessionCookies | background_worker.py:508-580 | The loop applies exactly the accepted normalised cookies. Applied plus failed equals the stored count, and the result is always success. |
| Session.BaseUrl | background_worker.py:463-464 | The base URL is a prefix of the URL, and its `/`-separated fields are the URL's first three fields (all of them when there are fewer). |
| Session.BaseUrlIdempotent | background_worker.py:463-464 | Taking the base URL of a base URL changes nothing. |
| Session.SessionUrl | background_worker.py:463 | `get('current_url', default)`: the captured URL, or the default site when none is recorded. |
| Session.BaseUrlOfThreeFields | background_worker.py:464 | A URL with exactly three `/`-separated fields is its own base URL. |
| Session.DefaultSessionUrlSplit | background_worker.py:463 | The default site's URL splits into the scheme, an empty field and the host. |
| Session.DefaultSessionUrlIsBase | background_worker.py:463-475 | The default site is its own base URL. So the test URL's default (`base_url`, line 475) is the same page as the domain URL's default (line 463). |
| Session.LoginIndicatorsDisagree | background_worker.py:485-486 | Every title that evicts the persistent browser also makes hydration warn. The title `Invalid` warns but does not evict. |
| Session.Evicts | background_worker.py:597 | The persistent browser is dropped exactly when its lower-case title holds `login`, `sign in` or `authenticate`. |
| Session.HydrationWarns | background_worker.py:485-486 | Hydration warns exactly when the title evicts the browser or holds `invalid`. |
| Session.Hydrate | background_worker.py:452-506 | A browser is returned exactly when it starts and navigation does not raise. It holds the applied cookies. A login-looking title only warns. The pages opened are the base URL, then the captured URL (or the default site); the first is a prefix of the second, and the browser ends on the second. |
| Session.CaptureSession | main.py:1094-1143 | No cookies means no session. With cookies, a URL without `/` or with at least three `/`-fields is captured. A captured session keeps the cookies, URL and title. It has a domain exactly when the URL has a `/`, and the domain is the URL's third `/`-field. |
| Session.DomainInUrl | main.py:1132 | The third `/`-separated field of a URL occurs in the URL. |
| Session.CapturedDomainEndsBaseUrl | background_worker.py:463-464 | The base URL the worker opens for a captured session ends with the captured domain. |
| Database.StoredEvidence | database.py:251-257 | Evidence is stored exactly when truthy: a dictionary as JSON, a string as itself, anything else as `str`. |
| Database.StoredMethods | database.py:259-265 | Methods are stored exactly when truthy: a list joined with `, `, a string as itself, anything else as `str`. |
| Database.StoredMethodsRoundTrip | database.py:259-265 | A stored list of clean method names reads back as the same list. |
| Database.MethodNames | database.py:468 | Reading a stored list always gives at least one name. |
| Database.MethodNamesRoundTrip | database.py:468 | Splitting `', '.join(names)` at commas and stripping each part gives the names back. |
| Database.NewTestRun | database.py:27-48 | A new run is pending with progress 0, no counts and no completion date. |
| Database.WithStatus | database.py:217-226 | The status is always set. The progress changes only when given. The completion date is stamped only for `completed`. No other field changes. |
| Database.WithResults | database.py:228-236 | The four counts are set and no other field changes. |
| Database.PendingJobs | database.py:180-184 | Exactly the pending and waiting runs, ordered by creation date, each once. |
| Database.Open | database.py:180-184 | A run is open exactly when it is neither running, completed nor failed. |
| Database.ResultsOfRun | database.py:292-294 | Exactly the run's results, each as often as in the table, ordered by row number. |
| Database.BucketsOf | database.py:320-327 | The high, medium and low buckets add up to the number of results with a confidence; `BucketsCount` gives each bucket as its own count. |
| Database.AddToBuckets | database.py:474-481 | A result with a confidence adds one to exactly one bucket: high for 80 and above, low below 60, medium otherwise. One without adds nothing. |
| Database.BucketsCount | database.py:320-327 | The buckets are the numbers of results with confidence at least 80, from 60 to 79, and below 60. |
| Database.PerformanceOf | database.py:330-344 | Every method with an entry has a positive count, and its passes and fails never exceed it. |
| Database.AddPerformance | database.py:333-344 | A result with a method adds that method's entry if missing and one to its count; every other entry is kept, and a result without a method changes nothing. The passes and fails are pinned by `PerformanceCountsResults`. |
| Database.PerformanceCountsResults | database.py:330-344 | Each entry counts exactly that method's results, passes and fails. A method without an entry has no results. |
| Database.StatsOf | database.py:370-388 | Every entry's total is its pass, fail and uncertain counts added up, and is positive. |
| Database.AddStats | database.py:373-388 | A result with a method adds that method's entry if missing and one to its total; every other entry is kept, and a result without a method changes nothing. The split into pass, fail and uncertain is pinned by `StatsCountResults`. |
| Database.StatsCountResults | database.py:370-388 | Each entry counts exactly that method's results, with every status other than PASS and FAIL as uncertain. A method without an entry has no results. |
| Database.AddUsage | database.py:466-472 | No count is lost and none decreases. The exact counts are pinned by `AddUsageCounts`. |
| Database.AddUsageCounts | database.py:469-472 | Each name's count grows by the number of times the list names it, starting from zero. The counts gain exactly the names listed. |
| Database.UsageOf | database.py:466-472 | Every counted method is named by some result's stored method list; the counts themselves are stated by `UsageCounts`. |
| Database.UsageCounts | database.py:466-472 | A method has a usage entry exactly when some stored list names it, and the entry is the number of times it is named. |
| Database.TotalTime | database.py:455-459 | The total is 0 when no result has a time, and never negative when no time is. |
| Database.CountUncertain | database.py:483-484 | The number of results whose status is UNCERTAIN. |
| Database.DatabaseManager.constructor | database.py:73-84 | The tables start empty. |
| Database.DatabaseManager.RunById | database.py:288-290 | The run with the given id, present exactly when one exists. |
| Database.DatabaseManager.CreateTestRun | database.py:200-215 | Appends a new pending run with the next id and returns that id. Nothing else changes. |
| Database.DatabaseManager.UpdateTestRunStatus | database.py:217-226 | Only the named run changes, as `WithStatus` says. A missing id changes nothing. |
| Database.DatabaseManager.UpdateTestRunResults | database.py:228-236 | Only the named run's counts change. A missing id changes nothing. |
| Database.DatabaseManager.AddTestResult | database.py:246-282 | A write that does not raise appends exactly one converted row. One that raises stores nothing. |
| Database.DatabaseManager.GetPendingJobs | database.py:180-184 | The pending and waiting runs, oldest first. |
| Database.DatabaseManager.GetTestResults | database.py:292-294 | The run's results in row order, each as often as in the table, and no other result. |
| Database.DatabaseManager.GetTestResultsWithAnalytics | database.py:296-354 | The run's results with their count. The high, medium and low buckets count the results with confidence at least 80, from 60 to 79, and below 60. Each method's entry counts that method's results, passes and fails. |
| Database.DatabaseManager.Analyze | database.py:300-344 | The counting loops compute exactly the buckets and the per-method performance. |
| Database.DatabaseManager.CountConfidence | database.py:320-327 | One result adds one to the high bucket when its confidence is 80 or more, to the medium one from 60 up to 80, to the low one under 60, and to none without a confidence: the step of `BucketsOf`, whose meaning `BucketsCount` proves. |
| Database.DatabaseManager.CountPerformance | database.py:330-344 | One result adds to exactly its method's performance entry. |
| Database.DatabaseManager.CountStats | database.py:370-388 | One result adds to exactly its method's statistics entry. |
| Database.DatabaseManager.CountMethods | database.py:370-388 | The loop computes exactly the per-method statistics. |
| Database.DatabaseManager.GetDetectionMethodStats | database.py:361-407 | As written: without a user id the counts cover every result. A user id makes the join raise. |
| Database.DatabaseManager.ResultsOfUser | database.py:364-366 | Exactly the results whose run belongs to the user, each as often as in the table. |
| Database.DatabaseManager.GetDetectionMethodStatsForUser | database.py:361-407 | As intended: a user id restricts the counts to that user's runs. |
| Database.DatabaseManager.GetHybridDetectionSummary | database.py:409-486 | `None` exactly for an unknown run. Otherwise the run's fields, total time, method usage, uncertain count and confidence buckets. |
| Database.DatabaseManager.Breakdown | database.py:454-484 | The loop computes exactly the total time, usage, uncertain count and buckets. |
| Database.DatabaseManager.CountNames | database.py:466-472 | The loop adds exactly one use per listed name. |
| Tables.InsertBy | database.py:183-184 | One insertion step of `ORDER BY`: the input plus the element, as a multiset, sorted when the input is. |
| Tables.SortBy | database.py:183-184 | `ORDER BY`: sorted by the key, and a permutation of the input. |
| Tables.Filter | database.py:181-183 | `WHERE`: an element is kept exactly when it is in the input and satisfies the condition, and the result is never longer than the input; order and multiplicities are stated by `FilterConcat` and `FilterCount`. |
| Tables.FilterConcat | database.py:181-183 | Filtering keeps order: the filter of a concatenation is the concatenation of the filters. |
| Tables.FilterCount | database.py:181-183 | Filtering keeps multiplicity: a kept element occurs as often as in the input, and any other not at all. |
| Worker.DbStatus | background_worker.py:679-692 | A verdict is stored as PASS exactly when it passed and as FAIL exactly when it failed, never as UNCERTAIN. |
| Worker.EvidenceValue | background_worker.py:679-692 | The evidence argument is absent exactly when there is no error message, and otherwise is that message as text. `AddTestResultStoresRecord` states what the database then stores. |
| Worker.StoredRecord | background_worker.py:679-692 | The stored row keeps the run, row label, URL, status and confidence of the record. Its evidence is present exactly when the error message is non-empty. |
| Worker.AddTestResultStoresRecord | background_worker.py:679-692 | `add_test_result` stores exactly that row for a buffered record, whatever the JSON encoder and `str` do. |
| Worker.StoredAllConcat | background_worker.py:116-117 | Writing two runs of records stores both, in order. |
| Worker.StoredAll | background_worker.py:116-117 | The rows stored for a batch are the records' stored rows, one per record and in order. |
| Worker.Remaining | background_worker.py:116-117 | Each successful write uses up one unit of the budget; a budget no larger than the batch is used up, and no budget stays no budget. |
| Worker.Written | background_worker.py:116-117 | No more records are written than are buffered, and all of them when writes never raise. |
| Worker.UsableUrlPredicatesAgree | background_worker.py:653 | The worker's URL test agrees with the authentication page's test at main.py:886. The extra `none` test there never decides. |
| Worker.RowUrlUsable | background_worker.py:653 | A row is visited exactly when its URL starts with `http`. |
| Worker.PageTitle | background_worker.py:673-676 | The stored title has at most 100 characters. It is absent exactly when the title is empty or unreadable. |
| Worker.RecordOf | background_worker.py:658-692 | The record carries the run id, the row's label as row number and the URL, the outcome's status, screenshot, error message and confidence, and the page title cut to 100 characters. |
| Worker.RecordOfOutcome | background_worker.py:660-692 | A navigation error gives a record with confidence 30 and no screenshot. A loaded page gives the repeated check's confidence and fails exactly when that check does. |
| Worker.RecordsOf | background_worker.py:649-692 | At most one record per row. |
| Worker.CountRow | background_worker.py:653-670 | Each row adds one to exactly one counter. It is skipped exactly when its URL is unusable, and passed exactly when it is visited and its record passes. |
| Worker.CountVisited | background_worker.py:664-668 | A visited row adds one to passed when its record passes and to failed otherwise. |
| Worker.TallyOf | background_worker.py:649-711 | Every row is counted exactly once: passed, failed or skipped. |
| Worker.TallyCounts | background_worker.py:649-711 | Passed is the number of passing records. Failed is the number of failing records plus the rows that raised. Skipped is the number of unusable rows. There is one record per visited row. |
| Worker.RecordsMatchTally | background_worker.py:649-711 | Every visited row is buffered and counted as passed or failed. A row that raises is counted failed without a record. Skipped rows are neither. |
| Worker.RecordsFollowRows | background_worker.py:649-681 | When the sheet's labels increase, the buffered row numbers strictly increase. |
| Worker.RecordsComeFromRows | background_worker.py:649-681 | Each buffered row number is the label of a row of the sheet. |
| Worker.Progress | background_worker.py:695-697 | Progress by position is between 0 and 100, and 100 after the last row. |
| Worker.ProgressAfter | background_worker.py:694-697 | The job's progress after the first `n` rows: the start value, overwritten by each reporting row. It stays within 0 to 100 when the start value does. |
| Worker.ProgressAfterNoReport | background_worker.py:694-697 | With no reporting row among the first `n`, the progress is the starting one. |
| Worker.ProgressAfterLastReport | background_worker.py:694-697 | Otherwise it is the position-based progress of the last reporting row. |
| Worker.ProgressAsWritten | background_worker.py:695-697 | The label-based progress is in (0, 100] for a label below the row count and above 100 otherwise. |
| Worker.ProgressAsWrittenExceeds100 | background_worker.py:695-697 | With the first of ten rows dropped, the row labelled 9 reports more than 100 percent. |
| Worker.SuccessRate | background_worker.py:717-718 | The rate is between 0 and 100. It is 100 exactly when something passed and nothing failed, and 0 exactly when nothing passed. |
| Worker.AuthFile | background_worker.py:422 | The ready marker of a job is `sessions/auth_ready_` followed by the job id and `.txt`; `SessionFilesDistinct` shows that no two jobs share one. |
| Worker.SessionFile | background_worker.py:423 | The session data of a job is `sessions/session_data_` followed by the job id and `.json`. |
| Worker.SessionFilesDistinct | background_worker.py:422-423 | No two jobs share a session file, and no ready marker is a session-data file. |
| Worker.Dispatch | background_worker.py:853-873 | A pending job moves to waiting. A waiting job is processed exactly when both of its files exist, and keeps waiting otherwise. |
| Worker.SessionReady | background_worker.py:867-870 | A waiting job's session is ready when both the auth file and the session file exist (also the test at line 428). |
| Worker.PendingJobsFast | background_worker.py:101-108 | The first ten of the pending and waiting jobs, oldest first. There are exactly ten when at least ten are open, and all of them when fewer are open. |
| Worker.FinalStatus | background_worker.py:619-635 | The job ends completed exactly when the session was handed over and the upload was read, and failed otherwise. |
| Worker.ProcessedRun | background_worker.py:615-737 | A processed run has the final status. A failed one is the old record with status failed and progress 0. A completed one has progress 100, the completion date, the counts of its rows adding up to the row count, and their success rate, and every other field keeps its value. |
| Worker.FailedRun | background_worker.py:615-629 | Marking a run running with progress 0 and then failed with progress 0 gives the failed processed run. |
| Worker.Reports | background_worker.py:695 | Only a visited row whose label plus one is at least 5 reports progress. `VisitRow` states what a reporting row does. |
| Worker.HandedOver | background_worker.py:420-450 | A handed-over session has both files present. `WaitForAuthenticationFast` states that a browser is returned exactly when it holds. |
| Worker.CompletionAsWritten | background_worker.py:723-748 | As written: after a raised result commit the completion updates leave the record as the rows left it; without one the run is completed with progress 100 and the completion date. |
| Worker.RaisedCommitStrandsRun | background_worker.py:723-748 | As written, a job whose result commit raised stays `running`, is not open for a later step, and differs from the completed processed run. |
| Worker.CompletedRun | background_worker.py:724-737 | Marking a run completed with progress 100 and then writing its counts gives the completed processed run, whatever progress the rows reported. |
| Worker.RunningRunCompletes | background_worker.py:615-737 | Marking a run running first does not change its completed processed record. |
| Worker.JobsAreRows | background_worker.py:101-108 | Each job of a step is the open row of the run table at its id. |
| Worker.HybridBackgroundWorker.constructor | background_worker.py:51-66 | An empty buffer, no persistent browser and loop count 0. |
| Worker.HybridBackgroundWorker.AddResultToBatch | background_worker.py:125-126 | Exactly one record is appended to the end of the buffer, and nothing else changes. |
| Worker.HybridBackgroundWorker.FlushPendingResults | background_worker.py:110-123 | An empty buffer, or a short buffer without `force`, changes nothing. Otherwise the records are written in order until a write raises, and the buffer is emptied either way. |
| Worker.HybridBackgroundWorker.WriteRecord | background_worker.py:116-117 | One write of a buffered record. It succeeds exactly when the database accepts the write. A success appends the record's stored form to the results and uses up one write. A raised write leaves the results unchanged. The runs are never touched. |
| Worker.FlushDue | background_worker.py:111-114 | A non-forced flush writes exactly when a full batch of 5 is buffered. A forced flush writes exactly when the buffer is not empty. |
| Worker.HybridBackgroundWorker.WaitForAuthenticationFast | background_worker.py:420-450 | A browser is returned exactly when both files exist, the session parses and the replay succeeds. Only then are both files removed. |
| Worker.HybridBackgroundWorker.GetOrCreateAuthenticatedDriver | background_worker.py:592-609 | The persistent browser is kept while its title is readable and shows no login word; nothing else changes then. Otherwise the session is replayed: a browser comes back exactly when the session was handed over, it is the replayed browser, both session files are removed, and it becomes the persistent one. Without a browser the files stay. |
| Worker.HybridBackgroundWorker.ProcessPendingToWaitingFast | background_worker.py:793-798 | The job waits for login with progress 5, and the step succeeds. |
| Worker.HybridBackgroundWorker.ProcessRows | background_worker.py:649-711 | The counters are the tally of the rows. Only the job's progress changes: it ends as `ProgressAfter` of the rows, the value written by the last reporting row, and stays within 0 to 100. Without write failures, every record is either written or still buffered, in order. The model treats a raised result commit as rolled back (see Findings and Left out). |
| Worker.HybridBackgroundWorker.ProcessRow | background_worker.py:650-711 | One row keeps the loop's invariant: the counts, the progress bound and the no-loss relation. |
| Worker.HybridBackgroundWorker.CountVisitedRow | background_worker.py:659-699 | A visited row is counted by its outcome and keeps the loop's invariant. |
| Worker.VisitedStep | background_worker.py:659-699 | Visiting a row and counting its verdict keeps the counts, the progress bound and the no-loss relation. |
| Worker.HybridBackgroundWorker.VisitRow | background_worker.py:659-699 | The row's record is buffered with the outcome's status. When the row's label plus one is not a multiple of 5, nothing else changes. When it is, the job's progress is set to the position-based value and a non-forced flush follows: with a full batch, the records are written in order up to the first failing write and the buffer is emptied; otherwise the buffer keeps the record. The model treats a raised result commit as rolled back (see Findings and Left out). |
| Worker.HybridBackgroundWorker.ProcessTestRunFast | background_worker.py:611-791 | The job's new record is `ProcessedRun`: failed with progress 0 without a handed-over session or a readable upload, otherwise completed with progress 100, the completion date, the tally and the success rate. Other jobs are untouched, the two session files are removed exactly when the session was handed over, and the buffer ends empty. Without write failures, every row's record is stored. The model treats a raised result commit as rolled back (see Findings and Left out). |
| Worker.HybridBackgroundWorker.CompleteRun | background_worker.py:641-737 | After the rows, the running job is the completed processed run, other runs are untouched, and the buffer is empty. Without write failures, every record is stored. The model treats a raised result commit as rolled back (see Findings and Left out). |
| Worker.HybridBackgroundWorker.RunHybridStep | background_worker.py:836-873 | The step counts one loop and looks at the first ten open jobs. Every run that is not one of those jobs, and every run that was neither pending nor waiting, is untouched. The model treats a raised result commit as rolled back (see Findings and Left out). |
| Worker.HybridBackgroundWorker.DispatchNext | background_worker.py:853-873 | Handling one job keeps every run outside the step's jobs as it was. |
| Worker.OutsideRunsKept | background_worker.py:853-873 | A change to one job's record keeps every run outside the jobs as it was. |
| Worker.HybridBackgroundWorker.DispatchJob | background_worker.py:853-873 | The job is handled as `Dispatch` decides, and only its record can change. A pending job waits with progress 5 and the session files are kept. A job that starts processing ends as `ProcessedRun` says, and its two session files are removed exactly when its session was handed over. A job that keeps waiting changes nothing. The model treats a raised result commit as rolled back (see Findings and Left out). |

## Left out

- The browser is replaced by page snapshots, and the wall clock by explicit values. Not modelled:
  - Selenium calls, CSS and XPath selector semantics, and ChromeDriver start-up;
  - the sleeps, the `max_wait_time` arithmetic and `time.time`.

  A timestamp and an elapsed time are parameters instead.
- The `while True` of `run_hybrid`, its `KeyboardInterrupt` handling, the hand-over between the Streamlit process and the worker, and the `subprocess` launch of the worker. Concurrency is not modelled; one step of the loop is.
- File I/O and parsing are abstracted:
  - `load_urls_from_file` (pandas, `dropna`) becomes the upload parameter: `None` when the file cannot be read, and otherwise its rows with their pandas labels;
  - `json.load` becomes a parsed session or `None`;
  - `os.remove` removes keys from the sessions map;
  - local and session storage replay is not modelled.
- Evidence encoding: `json.dumps` and Python's `str` of a list or dictionary are parameters (`dumps`, `show`).
- Float arithmetic:
  - progress and the success rate are Dafny `real`, without rounding;
  - the average confidence and execution time in `get_test_results_with_analytics`, `get_detection_method_stats` and `get_hybrid_detection_summary` are left out, along with `avg_time_per_url`, `accuracy_by_confidence` and `update_test_run_analytics`.
- Detection.IsErrorContent: `str.lower` is modelled for ASCII letters only; the same holds wherever `Strings.Lower` is used.
- Strings.Strip: Python's whitespace is taken as the ASCII whitespace plus U+001C to U+001F, U+0085 and U+00A0, not every Unicode space.
- Helpers.CleanErrorText: the regular-expression class `\w` is taken over ASCII letters, digits and `_`, so a non-ASCII letter is replaced by a space where Python keeps it.
- Helpers.FirstKeywordSentence: its own contract states only that a sentence found qualifies; that it is the first and that none is found exactly when none qualifies is proved in `FirstKeywordSentenceIsFirst`.
- Helpers.FirstLongSentence: its own contract states only that a sentence found qualifies; first-ness and completeness are proved in `FirstLongSentenceIsFirst`.
- Detection.FirstErrorLine: its own contract states only that the line found is an error line of the text; first-ness and completeness are proved in `FirstErrorLineIsFirst`.
- Detection.FirstNonBlankLine: its own contract states only that the line found is non-empty; first-ness and completeness are proved in `FirstNonBlankLineIsFirst`.
- Worker.TallyOf: its own contract states only the total; which counter each row reaches is proved in `TallyCounts`.
- Worker.RecordsMatchTally: states only sums; the split into passed, failed and skipped is proved in `TallyCounts`.
- Database.BucketsOf: its own contract states only the sum of the buckets; each bucket's threshold is proved in `BucketsCount`.
- Database.UsageOf: its own contract states only that counted methods are named; the counts are proved in `UsageCounts`.
- Tables.Filter: its own contract states membership and length; order and multiplicities are proved in `FilterConcat` and `FilterCount`.
- Detection.ModalLines: the outer exception that makes the report `""` is not modelled. Driver failures inside it are modelled as the elements it skips.
- Detection.ContentTextDetection: an exception anywhere inside is modelled only as the body wait failing. The `str(e)[:100]` message is the first 100 characters of the given message.
- FailCheck.CheckFailCriteria: a layer that raises is `None` in the snapshot and ends the check as not-fail, as the outer `except` does. Modal selectors that raise are modelled as returning no elements.
- Worker.ProcessRows: a row that raises is counted as failed before it is visited (the `faulty` flag). A row that raises after being buffered is not modelled.
- Worker.ProcessRows: the `else: skipped += 1` branch after PASS and FAIL cannot be reached, since every outcome is one of the two.
- Worker.HybridBackgroundWorker.ProcessTestRunFast: exceptions raised by the run-status updates themselves, and the `except` path that re-marks the run, are not modelled. The database calls do not raise here, except result writes.
- Worker.HybridBackgroundWorker.ProcessTestRunFast: the direct write of the final counts through the session, and the fallback `update_test_run_status('completed')`, are modelled as one `update_test_run_results` call with the same values.
- Worker.HybridBackgroundWorker.RunHybridStep: states that every run outside its jobs, and every closed run, is unchanged. It does not collect each job's new record over the loop; `DispatchJob` states that record per call, through `ProcessedRun` and `WithStatus`.
- Worker.HybridBackgroundWorker.ProcessRows: reports progress by position (`Progress(done, total)`), the corrected formula, not the label-based `(idx + 1) / total_urls * 100` of background_worker.py:695-697 (see Findings).
- Worker.HybridBackgroundWorker.ProcessRows: the no-loss property is stated only when writes never raise. With a failing write, the records after it are lost, as `FlushPendingResults` states.
- Worker.HybridBackgroundWorker.VisitRow: after a raised result commit, the model still sets the job's progress at a reporting row. As written, the session is never rolled back, so the update at background_worker.py:697 raises, the row is counted failed as well, and the flush is skipped.
- Worker.HybridBackgroundWorker.ProcessRows: after a raised result commit, the model's counters and progress are those of a rolled-back session, not the program's (see `VisitRow`).
- Worker.HybridBackgroundWorker.CompleteRun: after a raised result commit, the model still ends with the completed processed run. As written, both completion updates raise and are swallowed, and the run stays `running` (`RaisedCommitStrandsRun`).
- Worker.HybridBackgroundWorker.ProcessTestRunFast: after a raised result commit, the model's end state is the completed processed run, not the `running` record the program leaves.
- Worker.HybridBackgroundWorker.DispatchJob: its processing branch ends as `ProcessedRun` for every write budget. As written, a raised result commit leaves the job `running`.
- Worker.HybridBackgroundWorker.RunHybridStep: the model lets every later query and update of the step succeed after a raised result commit. As written, the session refuses them, and `get_pending_jobs_fast` returns no jobs from then on (background_worker.py:101-108).
- Database: `confidence` and `execution_time` are integers, as the worker writes them.
- Database: users, password hashing, schema migration, `get_waiting_login_jobs`, `get_user_test_runs`, `get_user_databases` and `close` are left out. They are outside the worker's state logic.
- Database.DatabaseManager.GetHybridDetectionSummary: loading the detection configuration file is left out (file I/O). The summary's configuration is not part of the model.
- Database.PerformanceOf: the per-method average confidence is left out (float average).
- Session.ApplySessionCookies: a cookie is rejected either because it lacks a name or value, or because the browser refuses it (the `accepts` parameter).
- Session.Hydrate: whether the browser accepts a cookie (`accepts`) does not depend on the page it is set on (the base URL). The browser is not modelled further.
- The Streamlit pages of `main.py` and everything in `st.session_state` are left out. So is the SQL template body beyond its two inputs.

## Findings

| source | as written | input that shows it | evidently intended | confidence | as-written member | corrected member |
|---|---|---|---|---|---|---|
| background_worker.py:695-697 | progress is `(idx + 1) / total_urls * 100`, where `idx` is the pandas label that survives `dropna` (background_worker.py:140-141) and `total_urls` counts only the rows left | a sheet of 10 rows whose first URL cell is empty: 9 rows remain, and the row labelled 9 reports 10 / 9 * 100 ≈ 111 percent | progress by position, at most 100 | not executed | Worker.ProgressAsWrittenExceeds100 | Worker.Progress |
| database.py:364-366 | `query.join(TestRun)` with no foreign key or relationship between `TestResult` and `TestRun` (database.py:51-69) | `get_detection_method_stats(user_id=1)` | the statistics of the results of that user's runs | not executed | Database.DatabaseManager.GetDetectionMethodStats | Database.DatabaseManager.GetDetectionMethodStatsForUser |
| database.py:280-281 | after `session.commit()` of a result raises, nothing on the worker's path calls `rollback()` (the only call is in the schema migration, database.py:106), so the session refuses every later query and update: the progress update at background_worker.py:697 raises and the row is also counted failed, the completion updates at lines 726 and 745 raise and are swallowed, and `get_pending_jobs_fast` returns no jobs | a handed-over session and 10 usable PASS rows labelled 0 to 9, with the commit at the flush after label 4 raising: the run is left `running` at progress 50 and is never picked up again | the failed write is rolled back and the job completes with its counts | not executed | Worker.RaisedCommitStrandsRun | Worker.HybridBackgroundWorker.CompleteRun |
