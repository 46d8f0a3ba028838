/** The body of the runner's `Main` once the options are parsed: the loop over
    the log lines that builds the test objects in place, the summary writer,
    and the exit code. Each method is proved against the functions of
    `Aggregation` and `Report`. */
module Runner {
  import opened Text
  import opened Classifier
  import opened FunctionalTests
  import opened Aggregation
  import opened Report

  /** The objects hold exactly the given records, position by position. */
  predicate Mirrors(objs: seq<FunctionalTest>, recs: seq<TestRecord>)
    reads objs
  {
    |objs| == |recs| && forall k :: 0 <= k < |objs| ==> objs[k].View() == recs[k]
  }

  /** No test object occurs twice (a `HashSet` holds each reference once). */
  predicate Distinct(objs: seq<FunctionalTest>) {
    forall i, j :: 0 <= i < j < |objs| ==> objs[i] != objs[j]
  }

  /** `failedTests` holds the objects at the given indices of `allTests`. */
  predicate FailedAre(failedTests: seq<FunctionalTest>, allTests: seq<FunctionalTest>, indices: seq<nat>) {
    && |failedTests| == |indices|
    && forall j :: 0 <= j < |indices| ==> indices[j] < |allTests| && failedTests[j] == allTests[indices[j]]
  }

  /** The current value of every object, in order. */
  function Views(objs: seq<FunctionalTest>): seq<TestRecord>
    reads objs
  {
    seq(|objs|, k requires 0 <= k < |objs| reads objs => objs[k].View())
  }

  lemma MirrorsAreViews(objs: seq<FunctionalTest>, recs: seq<TestRecord>)
    requires Mirrors(objs, recs)
    ensures Views(objs) == recs
  {
  }

  /** A faulted prefix faults the whole log at the same line: the loop stops
      at the first null dereference. */
  lemma {:induction false} FaultPersists(lines: seq<string>, n: nat)
    requires n <= |lines|
    requires Scan(lines[..n]).NullCurrentTest?
    ensures Scan(lines) == Scan(lines[..n])
    decreases |lines| - n
  {
    if n < |lines| {
      assert lines[..n + 1][..n] == lines[..n];
      FaultPersists(lines, n + 1);
    } else {
      assert lines[..n] == lines;
    }
  }

  /** Reading one more line of a log whose prefix scanned to the end. */
  lemma ScanExtend(lines: seq<string>, n: nat)
    requires n < |lines| && Scan(lines[..n]).Scanned?
    ensures Scan(lines[..n + 1]) == match Step(Scan(lines[..n]).state, lines[n])
                                    case NoCurrentTest => NullCurrentTest(n)
                                    case Stepped(s) => Scanned(s)
  {
    assert lines[..n + 1][..n] == lines[..n];
  }

  /** The loop's local state stands for the scan state `st`: the objects of
      `allTests` are distinct and hold the records of `st`, `failedTests`
      holds the objects at `st.failed`, and `currentTest` is the object at
      `st.current`, null when there is none. */
  predicate Tracks(st: ScanState, currentTest: FunctionalTest?, allTests: seq<FunctionalTest>, failedTests: seq<FunctionalTest>)
    reads allTests
  {
    && Distinct(allTests)
    && Mirrors(allTests, st.tests)
    && FailedAre(failedTests, allTests, st.failed)
    && (currentTest == null <==> st.current.None?)
    && (st.current.Some? ==> st.current.value < |allTests| && currentTest == allTests[st.current.value])
  }

  /** The identity check of one interesting line: a new test object is
      created, appended to `allTests` and made current. */
  method OpenIfIdentity(line: string, currentTest: FunctionalTest?, allTests: seq<FunctionalTest>,
                        failedTests: seq<FunctionalTest>, ghost st: ScanState)
    returns (current': FunctionalTest?, all': seq<FunctionalTest>)
    requires WellFormed(st) && Tracks(st, currentTest, allTests, failedTests)
    ensures Tracks(OpenTest(st, line), current', all', failedTests)
    ensures forall k :: 0 <= k < |all'| ==> all'[k] in allTests || fresh(all'[k])
  {
    current', all' := currentTest, allTests;
    var index := IndexOf(line, IdentityMarker);
    if index != -1 {
      current' := new FunctionalTest(line[index + |IdentityMarker|..]);
      all' := allTests + [current'];
    }
  }

  /** The error check of one interesting line, once the identity check has
      run: with no current test it faults; otherwise the current test object
      is marked failed, the line appended to its errors, and the object added
      to `failedTests` unless it is there already. */
  method AttributeError(line: string, currentTest: FunctionalTest?, allTests: seq<FunctionalTest>,
                        failedTests: seq<FunctionalTest>, ghost st: ScanState)
    returns (faulted: bool, failed': seq<FunctionalTest>)
    requires WellFormed(st) && Tracks(st, currentTest, allTests, failedTests)
    modifies allTests
    ensures faulted <==> RecordError(st, line).NoCurrentTest?
    ensures !faulted ==> Tracks(RecordError(st, line).state, currentTest, allTests, failed')
  {
    failed' := failedTests;
    if currentTest == null {
      return true, failed';
    }
    faulted := false;
    var c := st.current.value;
    currentTest.succeeded := false;
    currentTest.errors := currentTest.errors + [line];
    if currentTest !in failedTests {
      failed' := failedTests + [currentTest];
      assert c !in st.failed;
    } else {
      var j :| 0 <= j < |failedTests| && failedTests[j] == currentTest;
      assert allTests[st.failed[j]] == allTests[c];
    }
  }

  /** The `foreach` over the log lines. On a fault it stops, as the exception
      does; otherwise it hands back `allTests` and `failedTests`, whose objects
      hold what `Scan` computes. */
  method ScanLog(lines: seq<string>) returns (fault: Option<nat>, allTests: seq<FunctionalTest>, failedTests: seq<FunctionalTest>)
    ensures Scan(lines).NullCurrentTest? ==> fault == Some(Scan(lines).line)
    ensures Scan(lines).Scanned? ==>
      && fault == None
      && Distinct(allTests)
      && Mirrors(allTests, Scan(lines).state.tests)
      && FailedAre(failedTests, allTests, Scan(lines).state.failed)
  {
    var currentTest: FunctionalTest? := null;
    allTests := [];
    failedTests := [];
    fault := None;
    ghost var st := Initial;
    for i := 0 to |lines|
      invariant Scan(lines[..i]) == Scanned(st)
      invariant Tracks(st, currentTest, allTests, failedTests)
      invariant forall k :: 0 <= k < |allTests| ==> fresh(allTests[k])
    {
      var line := lines[i];
      ScanExtend(lines, i);
      var isInterestingLine := IsInterestingLine(line);
      if !isInterestingLine {
        continue;
      }
      currentTest, allTests := OpenIfIdentity(line, currentTest, allTests, failedTests, st);
      ghost var withTest := OpenTest(st, line);
      assert Step(st, line) == if IsErrorLine(line) then RecordError(withTest, line) else Stepped(withTest);
      if Contains(line, ErrorMarker) {
        var faulted;
        faulted, failedTests := AttributeError(line, currentTest, allTests, failedTests, withTest);
        if faulted {
          fault := Some(i);
          FaultPersists(lines, i + 1);
          return;
        }
      }
      st := Step(st, line).state;
    }
    assert lines[..|lines|] == lines;
  }

  /** Writes the summary: the header, then every test as `ToString()` renders
      it, in the order of `allTests`. */
  method WriteSummary(allTests: seq<FunctionalTest>, failedTests: seq<FunctionalTest>) returns (summary: seq<string>)
    ensures summary == Summary(Views(allTests), |failedTests|)
  {
    var statusColor := if |failedTests| == 0 then "green" else "red";
    summary := [Title, Rule, CountLine(statusColor, |allTests| - |failedTests|, |allTests|), TestsRanHeading];
    ghost var tests := Views(allTests);
    assert summary == Header(tests, |failedTests|) + Body(statusColor, tests[..0]);
    for k := 0 to |allTests|
      invariant summary == Header(tests, |failedTests|) + Body(statusColor, tests[..k])
    {
      var rendered := allTests[k].Render();
      assert rendered == RenderTest(tests[k]);
      BodySnoc(statusColor, tests, k);
      summary := summary + [Span(statusColor, rendered) + "\n"];
    }
    assert tests[..|allTests|] == tests;
  }

  /** `Main` after argument parsing: check the log exists, scan it, write the
      summary and compute the exit code. */
  method Run(logExists: bool, lines: seq<string>) returns (outcome: RunOutcome)
    ensures outcome == RunSpec(logExists, lines)
  {
    if !logExists {
      return LogNotFound;
    }
    var fault, allTests, failedTests := ScanLog(lines);
    if fault.Some? {
      return NullDereference(fault.value);
    }
    var summary := WriteSummary(allTests, failedTests);
    MirrorsAreViews(allTests, Scan(lines).state.tests);
    outcome := Reported(summary, if |failedTests| == 0 then 0 else 1);
  }
}
