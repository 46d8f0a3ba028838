# UE4 functional-test log report, modelled in Dafny

This project models the report generator of `TemaranGHATestRunnerForUE4`. The
program reads an Unreal Engine automation log line by line and works out
which functional tests ran. A test is opened by a line holding the marker
`LogFunctionalTest: Running tests indicated by Repro String`. Every line
holding `LogAutomationController: Error:` is attributed to the current
test. The program then appends a Markdown/HTML step summary and returns an
exit code: 0 when every test passed, 1 when one failed, 2 when the log does
not exist.

The model has two layers, followed by worked examples.

- **Specification functions** on values:
  - `Text`: ordinal `Contains`/`IndexOf`, decimal formatting, lines.
  - `Classifier.Interesting`: the category filter.
  - `FunctionalTests.RenderTest`: `FunctionalTest.ToString`.
  - `Aggregation.Step` / `Aggregation.Scan`: one loop iteration, and the loop over a log prefix.
  - `Report.Summary` / `Report.RunSpec`: the summary lines and the outcome of `Main`.
- **Imperative code** in the source's own form, proved against those functions:
  - the class `FunctionalTest`, whose `succeeded` and `errors` fields are updated in place;
  - `Classifier.IsInterestingLine`: the category loop with `break`;
  - `FunctionalTest.Render`: the `+=` loop of `ToString`;
  - `Runner.ScanLog`: the `foreach` with `continue`, a `currentTest` cursor, and `allTests`/`failedTests` as sequences of object references with set-like add;
  - `Runner.WriteSummary` and `Runner.Run`.
- **Scenarios**: concrete logs run end to end through `RunSpec`, with the
  exact summary lines and exit code.

`allTests` and `failedTests` are `HashSet`s of references in the source. They
are modelled as insertion-ordered sequences without duplicates. The scan
state keeps them as indices, and the runner keeps them as distinct objects.
The summary is modelled as the list of strings passed to `WriteLine`.

Two behaviours of the code are easy to misread, and the model keeps both:

- A test's name is everything after the marker, so the space that follows
  the marker is kept in the name. The line `...Repro String MyTest` gives
  the name `" MyTest"`.
- An error line seen before any test has been opened dereferences a null
  `currentTest`. The exception escapes `Main`, so no summary is written and
  `Main` returns no value. The model makes this an explicit outcome
  (`NullCurrentTest` / `NullDereference`, for which `MainReturn` is `None`).

## Model

| member | source | states |
|---|---|---|
| `Text.IndexOf` | TemaranGHATestRunnerForUE4/Program.cs:96-97 | -1 exactly when the marker does not occur in the line; otherwise the marker occurs at the result and at no earlier index |
| `Text.NatToString` | TemaranGHATestRunnerForUE4/Program.cs:120 | a count is written as at least one decimal digit, with no leading zero |
| `Text.ParseNatToString` | TemaranGHATestRunnerForUE4/Program.cs:120 | reading back the decimal text of a count gives the count |
| `Classifier.Interesting` | TemaranGHATestRunnerForUE4/Program.cs:80-88 | whether the line contains one of the categories; its meaning is stated by `InterestingExactly` and computed by the loop `IsInterestingLine` |
| `FunctionalTests.RenderTest` | TemaranGHATestRunnerForUE4/Program.cs:46-55 | `ToString()` of a test value; its form is stated by `RenderTestIsJoin` and `RenderTestSplits`, and the `+=` loop `FunctionalTest.Render` is proved equal to it |
| `Aggregation.OpenTest` | TemaranGHATestRunnerForUE4/Program.cs:96-105 | the identity check on values; it keeps the state well formed, and `StepOpensTest`, `OpenTestAppends` and `StepKeepsInv` state its effect |
| `Aggregation.RecordError` | TemaranGHATestRunnerForUE4/Program.cs:106-111 | the error check on values, faulting on an unset cursor; it keeps the state well formed, and `StepRecordsError`, `StepFaults` and `StepKeepsInv` state its effect |
| `Aggregation.Step` | TemaranGHATestRunnerForUE4/Program.cs:80-111 | one iteration of the loop over the log; it keeps the state well formed, and `StepQuietLine`, `StepOpensTest`, `StepRecordsError`, `StepFaults` and `StepKeepsInv` characterise it |
| `Aggregation.Scan` | TemaranGHATestRunnerForUE4/Program.cs:78-112 | the loop over the log, stopping at the first null dereference; a fault is on a line of the log, and `ScanKeepsInv`, `ScanFollowsLog`, `ScanCounts`, `ScanCursorUnset` and `ScanFaultsOnOrphanError` state its result |
| `Report.Summary` | TemaranGHATestRunnerForUE4/Program.cs:116-126 | the `WriteLine` arguments for the given tests and failed count; `ReportCountLine` and `ReportListsTests` state its lines |
| `Report.RunSpec` | TemaranGHATestRunnerForUE4/Program.cs:65-131 | the outcome of `Main` after argument parsing; `Runner.Run` is proved equal to it, and `MainReturnValues`, `ReportCountLine`, `ReportListsTests` and the scenarios state what it gives |
| `Report.MainReturn` | TemaranGHATestRunnerForUE4/Program.cs:65-134 | the value `Main` returns for an outcome; `MainReturnValues` states when it is 2, 0, 1 or none |
| `Classifier.IsInterestingLine` | TemaranGHATestRunnerForUE4/Program.cs:80-88 | the loop with `break` returns true exactly when some category occurs in the line |
| `Classifier.InterestingExactly` | TemaranGHATestRunnerForUE4/Program.cs:60 | a line is interesting exactly when it contains `LogAutomationController`, `LogAutomationCommandLine` or `LogFunctionalTest` anywhere |
| `FunctionalTests.FunctionalTest.constructor` | TemaranGHATestRunnerForUE4/Program.cs:99-103 | a new test has the given name, is succeeded and has no errors |
| `FunctionalTests.FunctionalTest.Render` | TemaranGHATestRunnerForUE4/Program.cs:46-55 | the `+=` loop yields the rendering of the test's current value |
| `FunctionalTests.RenderTestIsJoin` | TemaranGHATestRunnerForUE4/Program.cs:46-55 | the rendering is `:heavy_check_mark: name` or `:x: name`, then `\n\t` plus each error in order, i.e. those lines joined by newlines |
| `FunctionalTests.RenderTestSplits` | TemaranGHATestRunnerForUE4/Program.cs:48-51 | for a name and errors without newlines, splitting the rendering at newlines gives back the heading line and one tab-indented line per error |
| `Aggregation.TestName` | TemaranGHATestRunnerForUE4/Program.cs:101 | the name is the suffix of the line that starts right after the first occurrence of the identity marker |
| `Aggregation.MarkerLinesAreInteresting` | TemaranGHATestRunnerForUE4/Program.cs:60-61 | every line with the identity or the error marker passes the category filter |
| `Aggregation.StepQuietLine` | TemaranGHATestRunnerForUE4/Program.cs:90-93 | an uninteresting line, or one with neither marker, leaves tests, failed tests and cursor unchanged |
| `Aggregation.StepOpensTest` | TemaranGHATestRunnerForUE4/Program.cs:96-105 | an identity line appends one succeeded test with no errors and that name, leaves earlier tests unchanged and makes the new test current; if the line is also an error line, the error goes to the new test |
| `Aggregation.StepRecordsError` | TemaranGHATestRunnerForUE4/Program.cs:106-111 | an error line that opens no test faults exactly when no test is current; otherwise the current test becomes failed with the whole line appended to its errors, joins the failed tests only if not already there, and no other test changes |
| `Aggregation.StepFaults` | TemaranGHATestRunnerForUE4/Program.cs:106-108 | a step faults exactly on an error line that opens no test while the cursor is unset |
| `Aggregation.StepKeepsInv` | TemaranGHATestRunnerForUE4/Program.cs:96-111 | each step keeps the invariant: the cursor is the last test; failed tests are a duplicate-free subset of all tests, in discovery order; a test is failed exactly when it is listed there and exactly when it has errors |
| `Aggregation.ScanKeepsInv` | TemaranGHATestRunnerForUE4/Program.cs:74-112 | the invariant holds after every log that scans to the end |
| `Aggregation.ScanFollowsLog` | TemaranGHATestRunnerForUE4/Program.cs:78-112 | tests appear in the order of the identity lines, one per identity line and named after it; the tests' errors, concatenated, are exactly the log's error lines in order |
| `Aggregation.ScanCounts` | TemaranGHATestRunnerForUE4/Program.cs:116-120 | the number of failed tests is at most the number of tests, and equals the number of tests that failed; there are no failed tests exactly when every test succeeded |
| `Aggregation.ScanCursorUnset` | TemaranGHATestRunnerForUE4/Program.cs:74 | the cursor is null exactly while no identity line has been read |
| `Aggregation.ScanCompleteHasNoOrphan` | TemaranGHATestRunnerForUE4/Program.cs:106-108 | a log that scans to the end has no error line before its first identity line |
| `Aggregation.ScanFaultIsFirstOrphan` | TemaranGHATestRunnerForUE4/Program.cs:106-108 | a faulting scan stops at an error line with no identity line up to it, and at the first such line |
| `Aggregation.ScanFaultsOnOrphanError` | TemaranGHATestRunnerForUE4/Program.cs:106-108 | the scan dereferences a null `currentTest` exactly when an error line comes before every identity line, and then at the first such line |
| `Report.MainReturnValues` | TemaranGHATestRunnerForUE4/Program.cs:65-131 | `Main` returns 2 exactly when the log is missing; 0 exactly when every test of an existing log succeeded; 1 exactly when one failed; nothing exactly when an error precedes every identity line |
| `Report.ReportCountLine` | TemaranGHATestRunnerForUE4/Program.cs:116-120 | the count line shows in decimal the number of succeeded tests (never negative) over the number of identity lines; it is green exactly when the exit code is 0 |
| `Report.ReportListsTests` | TemaranGHATestRunnerForUE4/Program.cs:118-126 | after title, rule, count line and `Tests ran:` comes one line per test, in discovery order, each the rendered test in the status colour |
| `Report.EmptyLogReport` | TemaranGHATestRunnerForUE4/Program.cs:116-121 | an empty log gives `0/0 tests succeeded!` in green, no test lines and exit code 0 |
| `Scenarios.StartLineName` | TemaranGHATestRunnerForUE4/Program.cs:96-101 | the line `LogFunctionalTest: Running tests indicated by Repro String MyTest` opens a test named `" MyTest"`, with the leading space |
| `Scenarios.FailingTestReport` | TemaranGHATestRunnerForUE4/Program.cs:65-131 | that line followed by `LogAutomationController: Error: boom` gives `0/1 tests succeeded!` in red, the test rendered as `:x:` with the error on a tab-indented line, and exit code 1 |
| `Scenarios.PassingTestReport` | TemaranGHATestRunnerForUE4/Program.cs:65-131 | that line alone gives `1/1 tests succeeded!` in green, the test rendered as `:heavy_check_mark:`, and exit code 0 |
| `Scenarios.OrphanErrorCrashes` | TemaranGHATestRunnerForUE4/Program.cs:106-108 | the error line before the identity line dereferences the null `currentTest` on line 0, and `Main` returns no value |
| `Runner.FaultPersists` | TemaranGHATestRunnerForUE4/Program.cs:106-108 | once a prefix of the log faults, the whole log faults at the same line: nothing after the fault is read |
| `Runner.OpenIfIdentity` | TemaranGHATestRunnerForUE4/Program.cs:96-105 | on objects: the identity check creates a fresh test object, appends it to `allTests` and makes it current, as `OpenTest` does on values |
| `Runner.AttributeError` | TemaranGHATestRunnerForUE4/Program.cs:106-111 | on objects: the error check faults when `currentTest` is null; otherwise it updates that object's fields in place and adds it to `failedTests` once, as `RecordError` does on values |
| `Runner.ScanLog` | TemaranGHATestRunnerForUE4/Program.cs:74-112 | the loop stops at the line where `Scan` faults; otherwise `allTests` is duplicate-free and holds `Scan`'s tests in order, and `failedTests` holds the same objects as `allTests` at `Scan`'s failed indices |
| `Runner.WriteSummary` | TemaranGHATestRunnerForUE4/Program.cs:114-129 | the lines written are `Summary` of the objects' current values and the failed count |
| `Runner.Run` | TemaranGHATestRunnerForUE4/Program.cs:65-131 | the run's outcome, with summary and exit code, is `RunSpec` of the log's existence and lines |

## Left out

- Command-line parsing (`Options`, `Parser.Default.ParseArguments`) is left out. A parse failure leaves `returnVal` at 2, as a missing log does; only the missing log is modelled, as the `logExists` parameter.
- `File.Exists` and `File.ReadAllLines` are parameters: `logExists` and the line sequence.
- The `Logging` console output (the echo of each interesting line, the invalid-path message) is left out. It is a side effect only.
- Appending to the file named by `GITHUB_STEP_SUMMARY` is left out. The model returns the `WriteLine` arguments instead. Line terminators, a missing environment variable and I/O errors are not modelled.
- `Text.IndexOf`: `string.IndexOf(string)` compares with the current culture in .NET. The model compares ordinally, like `string.Contains`. The two can differ on characters that the culture ignores, and on combining sequences at the marker's edges: a combining mark right after the marker's final `g` makes the culture-sensitive search return -1 while `Contains` still holds.
- `Text.IntToString`: the negative sign is culture-dependent in .NET. It is written as `-` here. The count is proved never negative, so this is never used.
- `HashSet` hashing and enumeration are not modelled. Enumeration is taken to follow insertion order, which is what a set that only ever grows yields.
- The runtime's exit status after the unhandled null dereference is left out. `MainReturn` gives `None` there because `Main` returns no value.
- The 32-bit range of `Count` and of the exit code is not modelled. Counts are unbounded naturals.
- The object-initialiser form `new FunctionalTest { Name = ..., TestSucceeded = true }` is modelled as one constructor. The parameterless constructor's `TestSucceeded = false` is never observable.
- The loop body is split into the methods `OpenIfIdentity` and `AttributeError`. In the source both checks are inline in `Main`.
- The S3 uploader, the smoke tester and the experiments program are not part of this model.
