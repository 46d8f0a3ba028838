/** The single pass over the log that reconstructs which functional tests ran
    and which error lines belong to each of them, stated as a function of the
    lines read so far. The imperative loop in `Runner.ScanLog` is proved
    against `Scan`. */
module Aggregation {
  import opened Text
  import opened Classifier
  import opened FunctionalTests

  /** `FunctionalTestIdentityString`: a new test starts on a line holding it. */
  const IdentityMarker: string := "LogFunctionalTest" + ": Running tests indicated by Repro String"

  /** The controller's error prefix: the line is an error of the current test. */
  const ErrorMarker: string := "LogAutomationController" + ": Error:"

  datatype Option<T> = None | Some(value: T)

  /** The scan's local state: `allTests` in discovery order, `failedTests` as
      indices into `allTests` in the order they were added, and the
      `currentTest` cursor as an index. */
  datatype ScanState = ScanState(tests: seq<TestRecord>, failed: seq<nat>, current: Option<nat>)

  /** Before the first line: no test, nothing failed, no current test. */
  const Initial: ScanState := ScanState([], [], None)

  /** One step either goes on, or dereferences a `currentTest` that is still null. */
  datatype StepResult = Stepped(state: ScanState) | NoCurrentTest

  /** A whole scan either finishes, or stops with a null dereference at the
      given (zero-based) line. */
  datatype ScanResult = Scanned(state: ScanState) | NullCurrentTest(line: nat)

  /** Indices in the state point at tests that exist. */
  predicate WellFormed(st: ScanState) {
    && (st.current.Some? ==> st.current.value < |st.tests|)
    && (forall j :: 0 <= j < |st.failed| ==> st.failed[j] < |st.tests|)
  }

  predicate IsIdentityLine(line: string) {
    Contains(line, IdentityMarker)
  }

  predicate IsErrorLine(line: string) {
    Contains(line, ErrorMarker)
  }

  /** `line.Substring(index + FunctionalTestIdentityString.Length)` with the
      index of the marker's first occurrence: everything after the marker. */
  function TestName(line: string): (name: string)
    requires IsIdentityLine(line)
    ensures exists i :: 0 <= i && OccursAt(line, IdentityMarker, i)
                        && name == line[i + |IdentityMarker|..]
                        && forall j :: 0 <= j < i ==> !OccursAt(line, IdentityMarker, j)
  {
    var i := IndexOf(line, IdentityMarker);
    line[i + |IdentityMarker|..]
  }

  /** The identity check: a new, succeeded test without errors is appended to
      `allTests` and becomes `currentTest`. */
  function OpenTest(st: ScanState, line: string): (r: ScanState)
    requires WellFormed(st)
    ensures WellFormed(r)
  {
    if IndexOf(line, IdentityMarker) != -1 then
      ScanState(st.tests + [TestRecord(TestName(line), true, [])], st.failed, Some(|st.tests|))
    else st
  }

  /** The error check: the current test fails, the whole line is appended to
      its errors, and it is added to `failedTests` unless already there. */
  function RecordError(st: ScanState, line: string): (r: StepResult)
    requires WellFormed(st)
    ensures r.Stepped? ==> WellFormed(r.state)
  {
    match st.current
    case None => NoCurrentTest
    case Some(k) =>
      var t := st.tests[k];
      Stepped(ScanState(st.tests[k := TestRecord(t.name, false, t.errors + [line])],
                        if k in st.failed then st.failed else st.failed + [k],
                        st.current))
  }

  /** One iteration of the loop over the log lines. Uninteresting lines are
      skipped; otherwise the identity check and then, independently, the error
      check run on the same line. */
  function Step(st: ScanState, line: string): (r: StepResult)
    requires WellFormed(st)
    ensures r.Stepped? ==> WellFormed(r.state)
  {
    if !Interesting(line) then Stepped(st)
    else
      var after := OpenTest(st, line);
      if IsErrorLine(line) then RecordError(after, line) else Stepped(after)
  }

  /** The state after the loop has read `lines` in order. */
  function Scan(lines: seq<string>): (r: ScanResult)
    ensures r.Scanned? ==> WellFormed(r.state)
    ensures r.NullCurrentTest? ==> r.line < |lines|
    decreases |lines|
  {
    if lines == [] then Scanned(Initial)
    else
      match Scan(lines[..|lines| - 1])
      case NullCurrentTest(i) => NullCurrentTest(i)
      case Scanned(st) =>
        match Step(st, lines[|lines| - 1])
        case NoCurrentTest => NullCurrentTest(|lines| - 1)
        case Stepped(st') => Scanned(st')
  }

  // ---------------------------------------------------------------------
  // Views of the log and of the tests.

  /** The names the identity lines of the log announce, in log order. */
  function IdentityNames(lines: seq<string>): seq<string>
    decreases |lines|
  {
    if lines == [] then []
    else
      var last := lines[|lines| - 1];
      IdentityNames(lines[..|lines| - 1]) + (if IsIdentityLine(last) then [TestName(last)] else [])
  }

  /** The error lines of the log, in log order. */
  function ErrorLines(lines: seq<string>): seq<string>
    decreases |lines|
  {
    if lines == [] then []
    else
      var last := lines[|lines| - 1];
      ErrorLines(lines[..|lines| - 1]) + (if IsErrorLine(last) then [last] else [])
  }

  function Names(tests: seq<TestRecord>): seq<string> {
    seq(|tests|, k requires 0 <= k < |tests| => tests[k].name)
  }

  /** Every test's errors, test after test. */
  function AllErrors(tests: seq<TestRecord>): seq<string>
    decreases |tests|
  {
    if tests == [] then [] else AllErrors(tests[..|tests| - 1]) + tests[|tests| - 1].errors
  }

  function FailedCount(tests: seq<TestRecord>): (n: nat)
    ensures n <= |tests|
    decreases |tests|
  {
    if tests == [] then 0
    else FailedCount(tests[..|tests| - 1]) + (if tests[|tests| - 1].succeeded then 0 else 1)
  }

  /** The invariant of the scan:
      - the current test is the most recently discovered one;
      - `failedTests` is a subset of `allTests`, without duplicates, in
        discovery order;
      - a test is in `failedTests` exactly when it failed, and it failed
        exactly when it has errors;
      - so `failedTests` has as many entries as there are failed tests. */
  predicate Inv(st: ScanState) {
    && st.current == (if st.tests == [] then None else Some(|st.tests| - 1))
    && (forall j :: 0 <= j < |st.failed| ==> st.failed[j] < |st.tests|)
    && (forall i, j :: 0 <= i < j < |st.failed| ==> st.failed[i] < st.failed[j])
    && (forall k :: 0 <= k < |st.tests| ==> (k in st.failed <==> !st.tests[k].succeeded))
    && (forall k :: 0 <= k < |st.tests| ==> Consistent(st.tests[k]))
    && |st.failed| == FailedCount(st.tests)
  }

  // ---------------------------------------------------------------------
  // One step.

  /** Both markers contain a category, so every line that holds a marker is
      interesting: the category filter never hides an identity or error line. */
  lemma MarkerLinesAreInteresting(line: string)
    requires IsIdentityLine(line) || IsErrorLine(line)
    ensures Interesting(line)
  {
    if IsIdentityLine(line) {
      assert Categories[2] == "LogFunctionalTest";
      assert IdentityMarker[..|Categories[2]|] == Categories[2];
      PrefixContained(IdentityMarker, Categories[2]);
      ContainsTransitive(line, IdentityMarker, Categories[2]);
    } else {
      assert Categories[0] == "LogAutomationController";
      assert ErrorMarker[..|Categories[0]|] == Categories[0];
      PrefixContained(ErrorMarker, Categories[0]);
      ContainsTransitive(line, ErrorMarker, Categories[0]);
    }
  }

  /** An uninteresting line changes nothing; nor does an interesting line
      that holds neither marker. */
  lemma StepQuietLine(st: ScanState, line: string)
    requires WellFormed(st)
    requires !Interesting(line) || (!IsIdentityLine(line) && !IsErrorLine(line))
    ensures Step(st, line) == Stepped(st)
  {
  }

  /** An identity line appends one new test named after the text that follows
      the marker, leaves the earlier tests alone and makes the new test
      current. If the same line is also an error line, the error goes to
      the new test. */
  lemma StepOpensTest(st: ScanState, line: string)
    requires WellFormed(st)
    requires IsIdentityLine(line)
    ensures Step(st, line).Stepped?
    ensures var r := Step(st, line).state;
      && |r.tests| == |st.tests| + 1
      && r.tests[..|st.tests|] == st.tests
      && r.tests[|st.tests|].name == TestName(line)
      && r.current == Some(|st.tests|)
      && (!IsErrorLine(line) ==> r.tests[|st.tests|] == TestRecord(TestName(line), true, []) && r.failed == st.failed)
      && (IsErrorLine(line) ==> r.tests[|st.tests|] == TestRecord(TestName(line), false, [line])
                                && r.failed == st.failed + [|st.tests|])
  {
    MarkerLinesAreInteresting(line);
    var after := OpenTest(st, line);
    assert after.tests[..|st.tests|] == st.tests;
    if IsErrorLine(line) {
      assert |st.tests| !in st.failed;
    }
  }

  /** An error line that opens no test: with no current test the scan
      faults; otherwise the current test is marked failed, the whole line is
      appended to its errors, it enters `failedTests` at most once, and no
      other test changes. */
  lemma StepRecordsError(st: ScanState, line: string)
    requires WellFormed(st)
    requires IsErrorLine(line) && !IsIdentityLine(line)
    ensures Step(st, line).NoCurrentTest? <==> st.current.None?
    ensures st.current.Some? ==>
      var k := st.current.value;
      var r := Step(st, line).state;
      && |r.tests| == |st.tests|
      && r.tests[k] == TestRecord(st.tests[k].name, false, st.tests[k].errors + [line])
      && (forall j :: 0 <= j < |st.tests| && j != k ==> r.tests[j] == st.tests[j])
      && (k in st.failed ==> r.failed == st.failed)
      && (k !in st.failed ==> r.failed == st.failed + [k])
      && r.current == st.current
  {
    MarkerLinesAreInteresting(line);
  }

  lemma FailedCountSnoc(tests: seq<TestRecord>, t: TestRecord)
    ensures FailedCount(tests + [t]) == FailedCount(tests) + (if t.succeeded then 0 else 1)
  {
    assert (tests + [t])[..|tests|] == tests;
  }

  lemma AllErrorsSnoc(tests: seq<TestRecord>, t: TestRecord)
    ensures AllErrors(tests + [t]) == AllErrors(tests) + t.errors
  {
    assert (tests + [t])[..|tests|] == tests;
  }

  lemma OpenTestKeepsInv(st: ScanState, line: string)
    requires Inv(st)
    ensures Inv(OpenTest(st, line))
  {
    if IndexOf(line, IdentityMarker) != -1 {
      var t := TestRecord(TestName(line), true, []);
      FailedCountSnoc(st.tests, t);
      var r := OpenTest(st, line);
      forall k | 0 <= k < |r.tests|
        ensures k in r.failed <==> !r.tests[k].succeeded
      {
        if k == |st.tests| {
          assert k !in st.failed;
        }
      }
    }
  }

  /** The error step on a state whose current test is the last one: the state
      after it, with the last test replaced by its failed version. */
  lemma RecordErrorShape(st: ScanState, line: string)
    requires Inv(st) && st.current.Some?
    ensures var k := |st.tests| - 1;
      var t' := TestRecord(st.tests[k].name, false, st.tests[k].errors + [line]);
      && st.current == Some(k)
      && st.tests == st.tests[..k] + [st.tests[k]]
      && RecordError(st, line).Stepped?
      && RecordError(st, line).state.tests == st.tests[..k] + [t']
  {
  }

  lemma RecordErrorKeepsFailedOrder(st: ScanState, line: string)
    requires Inv(st) && st.current.Some?
    ensures var r := RecordError(st, line).state;
      && (forall j :: 0 <= j < |r.failed| ==> r.failed[j] < |r.tests|)
      && (forall i, j :: 0 <= i < j < |r.failed| ==> r.failed[i] < r.failed[j])
  {
    var k := st.current.value;
    var r := RecordError(st, line).state;
    if k !in st.failed {
      forall i, j | 0 <= i < j < |r.failed|
        ensures r.failed[i] < r.failed[j]
      {
        if j == |st.failed| {
          assert st.failed[i] in st.failed;
        }
      }
    }
  }

  lemma RecordErrorKeepsFailedExactly(st: ScanState, line: string)
    requires Inv(st) && st.current.Some?
    ensures var r := RecordError(st, line).state;
      && (forall k :: 0 <= k < |r.tests| ==> (k in r.failed <==> !r.tests[k].succeeded))
      && (forall k :: 0 <= k < |r.tests| ==> Consistent(r.tests[k]))
  {
    var c := st.current.value;
    var r := RecordError(st, line).state;
    forall k | 0 <= k < |r.tests|
      ensures (k in r.failed <==> !r.tests[k].succeeded) && Consistent(r.tests[k])
    {
      if k != c {
        assert r.tests[k] == st.tests[k];
        assert k in r.failed <==> k in st.failed;
      }
    }
  }

  lemma RecordErrorKeepsCount(st: ScanState, line: string)
    requires Inv(st) && st.current.Some?
    ensures |RecordError(st, line).state.failed| == FailedCount(RecordError(st, line).state.tests)
  {
    var k := |st.tests| - 1;
    var t := st.tests[k];
    var t' := TestRecord(t.name, false, t.errors + [line]);
    RecordErrorShape(st, line);
    FailedCountSnoc(st.tests[..k], t);
    FailedCountSnoc(st.tests[..k], t');
  }

  lemma RecordErrorKeepsInv(st: ScanState, line: string)
    requires Inv(st)
    requires RecordError(st, line).Stepped?
    ensures Inv(RecordError(st, line).state)
  {
    RecordErrorKeepsFailedOrder(st, line);
    RecordErrorKeepsFailedExactly(st, line);
    RecordErrorKeepsCount(st, line);
  }

  /** Every step keeps the invariant. */
  lemma StepKeepsInv(st: ScanState, line: string)
    requires Inv(st)
    requires Step(st, line).Stepped?
    ensures Inv(Step(st, line).state)
  {
    if Interesting(line) {
      OpenTestKeepsInv(st, line);
      if IsErrorLine(line) {
        RecordErrorKeepsInv(OpenTest(st, line), line);
      }
    }
  }

  lemma OpenTestAppends(st: ScanState, line: string)
    requires WellFormed(st)
    ensures Names(OpenTest(st, line).tests)
            == Names(st.tests) + (if IsIdentityLine(line) then [TestName(line)] else [])
    ensures AllErrors(OpenTest(st, line).tests) == AllErrors(st.tests)
  {
    if IsIdentityLine(line) {
      AllErrorsSnoc(st.tests, TestRecord(TestName(line), true, []));
    }
  }

  lemma RecordErrorAppends(st: ScanState, line: string)
    requires Inv(st) && st.current.Some?
    ensures Names(RecordError(st, line).state.tests) == Names(st.tests)
    ensures AllErrors(RecordError(st, line).state.tests) == AllErrors(st.tests) + [line]
  {
    var k := |st.tests| - 1;
    var t := st.tests[k];
    var t' := TestRecord(t.name, false, t.errors + [line]);
    RecordErrorShape(st, line);
    AllErrorsSnoc(st.tests[..k], t);
    AllErrorsSnoc(st.tests[..k], t');
  }

  /** What one step adds to the names and to the collected errors. */
  lemma StepAppends(st: ScanState, line: string)
    requires Inv(st)
    requires Step(st, line).Stepped?
    ensures Names(Step(st, line).state.tests)
            == Names(st.tests) + (if IsIdentityLine(line) then [TestName(line)] else [])
    ensures AllErrors(Step(st, line).state.tests)
            == AllErrors(st.tests) + (if IsErrorLine(line) then [line] else [])
  {
    if IsIdentityLine(line) || IsErrorLine(line) {
      MarkerLinesAreInteresting(line);
      OpenTestAppends(st, line);
      if IsErrorLine(line) {
        OpenTestKeepsInv(st, line);
        RecordErrorAppends(OpenTest(st, line), line);
      }
    }
  }

  // ---------------------------------------------------------------------
  // The whole scan.

  /** The invariant holds after any log that scans without a fault. */
  lemma {:induction false} ScanKeepsInv(lines: seq<string>)
    requires Scan(lines).Scanned?
    ensures Inv(Scan(lines).state)
    decreases |lines|
  {
    if lines != [] {
      var pre := lines[..|lines| - 1];
      ScanKeepsInv(pre);
      StepKeepsInv(Scan(pre).state, lines[|lines| - 1]);
    }
  }

  /** Tests appear in the order their identity lines appear in the log, one
      per identity line, named after the text that follows the marker; and
      the error lines of the log are distributed over the tests without loss,
      duplication or reordering. */
  lemma {:induction false} ScanFollowsLog(lines: seq<string>)
    requires Scan(lines).Scanned?
    ensures Names(Scan(lines).state.tests) == IdentityNames(lines)
    ensures |Scan(lines).state.tests| == |IdentityNames(lines)|
    ensures AllErrors(Scan(lines).state.tests) == ErrorLines(lines)
    decreases |lines|
  {
    if lines != [] {
      var pre := lines[..|lines| - 1];
      ScanFollowsLog(pre);
      ScanKeepsInv(pre);
      StepAppends(Scan(pre).state, lines[|lines| - 1]);
    }
  }

  /** The passed count of the report, `allTests.Count - failedTests.Count`,
      is never negative and is exactly the number of tests that succeeded. */
  lemma ScanCounts(lines: seq<string>)
    requires Scan(lines).Scanned?
    ensures var st := Scan(lines).state;
      && |st.failed| <= |st.tests|
      && |st.failed| == FailedCount(st.tests)
      && (st.failed == [] <==> forall k :: 0 <= k < |st.tests| ==> st.tests[k].succeeded)
  {
    ScanKeepsInv(lines);
    var st := Scan(lines).state;
    if st.failed != [] {
      assert st.failed[0] in st.failed;
    }
  }

  // ---------------------------------------------------------------------
  // The null dereference.

  /** Line `i` is an error line and no line up to and including it opened a
      test: `currentTest` is still null when line `i` is attributed. */
  predicate OrphanErrorAt(lines: seq<string>, i: int) {
    && 0 <= i < |lines|
    && IsErrorLine(lines[i])
    && forall j :: 0 <= j <= i ==> !IsIdentityLine(lines[j])
  }

  lemma {:induction false} NoIdentityNames(lines: seq<string>)
    ensures IdentityNames(lines) == [] <==> forall j :: 0 <= j < |lines| ==> !IsIdentityLine(lines[j])
    decreases |lines|
  {
    if lines != [] {
      var pre := lines[..|lines| - 1];
      NoIdentityNames(pre);
      assert forall j :: 0 <= j < |pre| ==> pre[j] == lines[j];
    }
  }

  /** `currentTest` is null exactly while no identity line has been read. */
  lemma ScanCursorUnset(lines: seq<string>)
    requires Scan(lines).Scanned?
    ensures Scan(lines).state.current.None? <==> forall j :: 0 <= j < |lines| ==> !IsIdentityLine(lines[j])
  {
    ScanKeepsInv(lines);
    ScanFollowsLog(lines);
    NoIdentityNames(lines);
  }

  /** A step faults exactly on an error line that opens no test while no
      test is current. */
  lemma StepFaults(st: ScanState, line: string)
    requires WellFormed(st)
    ensures Step(st, line).NoCurrentTest? <==> IsErrorLine(line) && !IsIdentityLine(line) && st.current.None?
  {
    if IsErrorLine(line) {
      MarkerLinesAreInteresting(line);
    }
  }

  lemma OrphanInPrefix(lines: seq<string>, n: nat)
    requires n <= |lines|
    ensures forall j :: 0 <= j < n ==> (OrphanErrorAt(lines[..n], j) <==> OrphanErrorAt(lines, j))
  {
  }

  /** A log that scans to the end has no orphan error line. */
  lemma {:induction false} ScanCompleteHasNoOrphan(lines: seq<string>)
    requires Scan(lines).Scanned?
    ensures forall i :: !OrphanErrorAt(lines, i)
    decreases |lines|
  {
    if lines != [] {
      var n := |lines| - 1;
      var pre := lines[..n];
      assert Scan(pre).Scanned?;
      ScanCompleteHasNoOrphan(pre);
      OrphanInPrefix(lines, n);
      ScanCursorUnset(pre);
      StepFaults(Scan(pre).state, lines[n]);
      assert !OrphanErrorAt(lines, n);
    }
  }

  /** A scan that faults does so at the first orphan error line. */
  lemma {:induction false} ScanFaultIsFirstOrphan(lines: seq<string>)
    requires Scan(lines).NullCurrentTest?
    ensures OrphanErrorAt(lines, Scan(lines).line)
    ensures forall j :: 0 <= j < Scan(lines).line ==> !OrphanErrorAt(lines, j)
    decreases |lines|
  {
    var n := |lines| - 1;
    var pre := lines[..n];
    OrphanInPrefix(lines, n);
    if Scan(pre).NullCurrentTest? {
      ScanFaultIsFirstOrphan(pre);
    } else {
      ScanCompleteHasNoOrphan(pre);
      ScanCursorUnset(pre);
      StepFaults(Scan(pre).state, lines[n]);
    }
  }

  /** The scan faults exactly when the log has an error line before any
      identity line, and then at the first such line. */
  lemma ScanFaultsOnOrphanError(lines: seq<string>)
    ensures Scan(lines).NullCurrentTest? <==> exists i :: OrphanErrorAt(lines, i)
    ensures Scan(lines).NullCurrentTest? ==>
              && OrphanErrorAt(lines, Scan(lines).line)
              && forall j :: 0 <= j < Scan(lines).line ==> !OrphanErrorAt(lines, j)
  {
    if Scan(lines).NullCurrentTest? {
      ScanFaultIsFirstOrphan(lines);
    } else {
      ScanCompleteHasNoOrphan(lines);
    }
  }
}
