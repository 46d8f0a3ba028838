/** Concrete logs, with the outcome the model gives them proved line by line. */
module Scenarios {
  import opened Text
  import opened FunctionalTests
  import opened Aggregation
  import opened Report

  const StartLine: string := IdentityMarker + " MyTest"
  const ErrorLine: string := "LogAutomationController: Error: boom"

  /** The name is taken from just after the marker, space included. */
  lemma StartLineName()
    ensures IsIdentityLine(StartLine) && TestName(StartLine) == " MyTest"
  {
    assert StartLine[..|IdentityMarker|] == IdentityMarker;
    PrefixContained(StartLine, IdentityMarker);
    assert OccursAt(StartLine, IdentityMarker, 0);
    assert IndexOf(StartLine, IdentityMarker) == 0;
  }

  /** The identity line has no capital E, which the error marker has. */
  lemma StartLineIsNoError()
    ensures !IsErrorLine(StartLine)
  {
    assert forall j :: 0 <= j < |StartLine| ==> StartLine[j] != 'E';
    assert ErrorMarker[25] == 'E';
    MissingCharNotContained(StartLine, ErrorMarker, 25);
  }

  lemma ErrorLineFacts()
    ensures IsErrorLine(ErrorLine) && !IsIdentityLine(ErrorLine)
  {
    assert ErrorLine[..|ErrorMarker|] == ErrorMarker;
    PrefixContained(ErrorLine, ErrorMarker);
  }

  const Opened: ScanState := ScanState([TestRecord(" MyTest", true, [])], [], Some(0))
  const Failed: ScanState := ScanState([TestRecord(" MyTest", false, [ErrorLine])], [0], Some(0))

  lemma ScanStartLine()
    ensures Scan([StartLine]) == Scanned(Opened)
  {
    StartLineName();
    StartLineIsNoError();
    assert [StartLine][..0] == [];
    StepOpensTest(Initial, StartLine);
  }

  lemma ScanBothLines()
    ensures Scan([StartLine, ErrorLine]) == Scanned(Failed)
  {
    ScanStartLine();
    ErrorLineFacts();
    assert [StartLine, ErrorLine][..1] == [StartLine];
    StepRecordsError(Opened, ErrorLine);
    var r := Step(Opened, ErrorLine).state;
    assert r.tests[0] == Failed.tests[0];
    assert r.tests == Failed.tests;
    assert r.failed == [0];
  }

  lemma FailedRendering()
    ensures RenderTest(Failed.tests[0]) == ":x:  MyTest\n\t" + ErrorLine
  {
    assert [ErrorLine][..0] == [];
    assert ErrorBlock([ErrorLine]) == "\n\t" + ErrorLine;
    assert ":x:" + " " + " MyTest" + "\n\t" == ":x:  MyTest\n\t";
  }

  lemma FailedCountLine()
    ensures CountLine("red", 0, 1) == "<span style=\"color: red\">0/1 tests succeeded!</span>"
  {
    CountLineDecimal("red", 0, 1);
    SingleDigits();
  }

  /** One test that logs an error: the test keeps the space after the
      marker in its name, fails with that one error, the report reads
      "0/1" in red, and `Main` returns 1. */
  lemma FailingTestReport()
    ensures RunSpec(true, [StartLine, ErrorLine]) == Reported(
      [ Title, Rule,
        "<span style=\"color: red\">0/1 tests succeeded!</span>",
        TestsRanHeading,
        Span("red", ":x:  MyTest\n\t" + ErrorLine) + "\n" ], 1)
  {
    ScanBothLines();
    FailedRendering();
    FailedCountLine();
    assert Body("red", Failed.tests) == [TestLine("red", Failed.tests[0])];
  }

  lemma PassedRendering()
    ensures RenderTest(Opened.tests[0]) == ":heavy_check_mark:  MyTest"
  {
    assert ErrorBlock([]) == "";
  }

  lemma PassedCountLine()
    ensures CountLine("green", 1, 1) == "<span style=\"color: green\">1/1 tests succeeded!</span>"
  {
    CountLineDecimal("green", 1, 1);
    SingleDigits();
  }

  /** One test without errors: "1/1" in green, and `Main` returns 0. */
  lemma PassingTestReport()
    ensures RunSpec(true, [StartLine]) == Reported(
      [ Title, Rule,
        "<span style=\"color: green\">1/1 tests succeeded!</span>",
        TestsRanHeading,
        Span("green", ":heavy_check_mark:  MyTest") + "\n" ], 0)
  {
    ScanStartLine();
    PassedRendering();
    PassedCountLine();
    assert Body("green", Opened.tests) == [TestLine("green", Opened.tests[0])];
  }

  /** An error before any test: the scan dereferences the null current test
      on the first line, and `Main` returns no value. */
  lemma OrphanErrorCrashes()
    ensures RunSpec(true, [ErrorLine, StartLine]) == NullDereference(0)
    ensures MainReturn(RunSpec(true, [ErrorLine, StartLine])) == None
  {
    ErrorLineFacts();
    var lines := [ErrorLine, StartLine];
    assert lines[..1] == [ErrorLine];
    assert [ErrorLine][..0] == [];
    StepFaults(Initial, ErrorLine);
    assert Scan([ErrorLine]) == NullCurrentTest(0);
  }
}
