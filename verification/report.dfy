/** The step summary the runner appends after the scan, and the value `Main`
    returns. Each element of a summary is the argument of one `WriteLine`. */
module Report {
  import opened Text
  import opened FunctionalTests
  import opened Aggregation

  const Title: string := "Test run report! :rocket:"
  const Rule: string := "----------------"
  const TestsRanHeading: string := "Tests ran:"

  /** One colour for the whole report, chosen by `failedTests.Count == 0`. */
  function StatusColor(failedCount: int): string {
    if failedCount == 0 then "green" else "red"
  }

  function Span(color: string, text: string): string {
    "<span style=\"color: " + color + "\">" + text + "</span>"
  }

  /** `{passed}/{total} tests succeeded!` in the status colour. */
  function CountLine(color: string, passed: int, total: int): string {
    Span(color, IntToString(passed) + "/" + IntToString(total) + " tests succeeded!")
  }

  /** One rendered test; the format string ends in its own "\n". */
  function TestLine(color: string, t: TestRecord): string {
    Span(color, RenderTest(t)) + "\n"
  }

  function Header(tests: seq<TestRecord>, failedCount: int): seq<string> {
    var color := StatusColor(failedCount);
    [Title, Rule, CountLine(color, |tests| - failedCount, |tests|), TestsRanHeading]
  }

  function Body(color: string, tests: seq<TestRecord>): seq<string> {
    seq(|tests|, k requires 0 <= k < |tests| => TestLine(color, tests[k]))
  }

  lemma BodySnoc(color: string, tests: seq<TestRecord>, k: nat)
    requires k < |tests|
    ensures Body(color, tests[..k + 1]) == Body(color, tests[..k]) + [TestLine(color, tests[k])]
  {
  }

  /** The whole summary for the given tests and `failedTests.Count`. */
  function Summary(tests: seq<TestRecord>, failedCount: int): seq<string> {
    Header(tests, failedCount) + Body(StatusColor(failedCount), tests)
  }

  /** How a run ends. */
  datatype RunOutcome =
    | LogNotFound
      // the input path does not exist; nothing is scanned or written
    | NullDereference(line: nat)
      // `currentTest` was null when this (zero-based) error line was attributed:
      // the exception leaves `Main`, and no summary is written
    | Reported(summary: seq<string>, exitCode: int)
      // the summary was appended and `Main` returns the exit code

  /** What `Main` returns: 2 unless the scan and the report completed; no value
      when the exception escapes it. */
  function MainReturn(o: RunOutcome): Option<int> {
    match o
    case LogNotFound => Some(2)
    case NullDereference(_) => None
    case Reported(_, code) => Some(code)
  }

  /** The run on a log that exists or not, with the given lines. */
  function RunSpec(logExists: bool, lines: seq<string>): RunOutcome {
    if !logExists then LogNotFound
    else
      match Scan(lines)
      case NullCurrentTest(i) => NullDereference(i)
      case Scanned(st) =>
        Reported(Summary(st.tests, |st.failed|), if |st.failed| == 0 then 0 else 1)
  }

  /** Number of tests that succeeded. */
  function PassedCount(tests: seq<TestRecord>): nat {
    |tests| - FailedCount(tests)
  }

  /** `Main` returns 0 exactly when every test found in an existing log
      succeeded, 1 exactly when one of them failed, 2 exactly when the log
      does not exist, and nothing when an error line precedes every identity
      line. */
  lemma MainReturnValues(logExists: bool, lines: seq<string>)
    ensures MainReturn(RunSpec(logExists, lines)) == Some(2) <==> !logExists
    ensures MainReturn(RunSpec(logExists, lines)) == None
            <==> logExists && exists i :: OrphanErrorAt(lines, i)
    ensures MainReturn(RunSpec(logExists, lines)) == Some(0)
            <==> logExists && Scan(lines).Scanned?
                 && forall k :: 0 <= k < |Scan(lines).state.tests| ==> Scan(lines).state.tests[k].succeeded
    ensures MainReturn(RunSpec(logExists, lines)) == Some(1)
            <==> logExists && Scan(lines).Scanned?
                 && exists k :: 0 <= k < |Scan(lines).state.tests| && !Scan(lines).state.tests[k].succeeded
  {
    ScanFaultsOnOrphanError(lines);
    if logExists && Scan(lines).Scanned? {
      ScanCounts(lines);
    }
  }

  // The next three lemmas only unfold a definition. Each is called where
  // that one fact is needed, so that the larger proofs do not unfold the
  // whole summary and stay cheap and stable.

  /** On a log that scans to the end, the run reports `Summary` of the
      final state. */
  lemma RunReports(lines: seq<string>)
    requires Scan(lines).Scanned?
    ensures var st := Scan(lines).state;
      RunSpec(true, lines) == Reported(Summary(st.tests, |st.failed|), if |st.failed| == 0 then 0 else 1)
  {
  }

  /** The third summary line is the count line. */
  lemma SummaryCountLine(tests: seq<TestRecord>, failedCount: int)
    ensures Summary(tests, failedCount)[2] == CountLine(StatusColor(failedCount), |tests| - failedCount, |tests|)
  {
  }

  /** For counts that are never negative, the count line is written in
      plain decimal. */
  lemma CountLineDecimal(color: string, passed: nat, total: nat)
    ensures CountLine(color, passed, total)
            == Span(color, NatToString(passed) + "/" + NatToString(total) + " tests succeeded!")
  {
    NatIntToString(passed);
    NatIntToString(total);
  }

  /** The count line of a summary whose failed count is the number of
      failed tests, for `total` identity lines, one per test. */
  lemma CountLineOf(tests: seq<TestRecord>, failedCount: nat, total: nat)
    requires failedCount == FailedCount(tests) && total == |tests|
    ensures Summary(tests, failedCount)[2]
            == Span(StatusColor(failedCount),
                    NatToString(PassedCount(tests)) + "/" + NatToString(total) + " tests succeeded!")
    ensures ParseNat(NatToString(PassedCount(tests))) == PassedCount(tests)
  {
    SummaryCountLine(tests, failedCount);
    CountLineDecimal(StatusColor(failedCount), PassedCount(tests), total);
    ParseNatToString(PassedCount(tests));
  }

  /** The count line states, in decimal, how many tests succeeded out of how
      many identity lines the log had; it is green exactly when the exit code
      is 0. */
  lemma ReportCountLine(lines: seq<string>)
    requires Scan(lines).Scanned?
    ensures var st := Scan(lines).state;
      var o := RunSpec(true, lines);
      && o.Reported?
      && (o.exitCode == 0 <==> StatusColor(|st.failed|) == "green")
      && o.summary[2] == Span(StatusColor(|st.failed|),
                              NatToString(PassedCount(st.tests)) + "/"
                              + NatToString(|IdentityNames(lines)|) + " tests succeeded!")
      && ParseNat(NatToString(PassedCount(st.tests))) == PassedCount(st.tests)
  {
    var st := Scan(lines).state;
    ScanCounts(lines);
    ScanFollowsLog(lines);
    RunReports(lines);
    CountLineOf(st.tests, |st.failed|, |IdentityNames(lines)|);
  }

  /** After the four header lines the summary holds one line per test, in the
      order of the identity lines, each the rendered test in the status colour. */
  lemma ReportListsTests(lines: seq<string>)
    requires Scan(lines).Scanned?
    ensures var st := Scan(lines).state;
      var o := RunSpec(true, lines);
      && o.Reported?
      && o.summary[..4] == [Title, Rule, o.summary[2], TestsRanHeading]
      && |o.summary| == 4 + |IdentityNames(lines)|
      && forall k :: 0 <= k < |st.tests| ==>
           && st.tests[k].name == IdentityNames(lines)[k]
           && o.summary[4 + k] == TestLine(StatusColor(|st.failed|), st.tests[k])
  {
    ScanFollowsLog(lines);
    var st := Scan(lines).state;
    forall k | 0 <= k < |st.tests|
      ensures st.tests[k].name == IdentityNames(lines)[k]
    {
      assert Names(st.tests)[k] == st.tests[k].name;
    }
  }

  lemma EmptyCountLine()
    ensures CountLine("green", 0, 0) == "<span style=\"color: green\">0/0 tests succeeded!</span>"
  {
    CountLineDecimal("green", 0, 0);
    SingleDigits();
  }

  /** An empty log: no tests, "0/0 tests succeeded!" in green, exit code 0. */
  lemma EmptyLogReport()
    ensures RunSpec(true, []) == Reported(
              [Title, Rule, "<span style=\"color: green\">0/0 tests succeeded!</span>", TestsRanHeading], 0)
  {
    assert Scan([]) == Scanned(Initial);
    EmptyCountLine();
    assert Summary([], 0) == [Title, Rule, CountLine("green", 0, 0), TestsRanHeading];
  }
}
