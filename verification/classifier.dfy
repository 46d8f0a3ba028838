/** Which log lines the test runner looks at: a line is interesting when one
    of the three log categories of the automation system occurs anywhere in it. */
module Classifier {
  import opened Text

  /** `InterestingLogCategories`, in the order the runner tries them. */
  const Categories: seq<string> := ["LogAutomationController", "LogAutomationCommandLine", "LogFunctionalTest"]

  /** The line mentions at least one interesting category. */
  predicate Interesting(line: string) {
    exists k :: 0 <= k < |Categories| && Contains(line, Categories[k])
  }

  /** Spelled out: the three categories, each matched as a substring. */
  lemma InterestingExactly(line: string)
    ensures Interesting(line) <==> Contains(line, "LogAutomationController")
                                   || Contains(line, "LogAutomationCommandLine")
                                   || Contains(line, "LogFunctionalTest")
  {
    assert Categories[0] == "LogAutomationController";
    assert Categories[1] == "LogAutomationCommandLine";
    assert Categories[2] == "LogFunctionalTest";
  }

  /** The classification loop of the runner: try each category in turn and
      stop at the first one the line contains. */
  method IsInterestingLine(line: string) returns (interesting: bool)
    ensures interesting <==> Interesting(line)
  {
    interesting := false;
    var k := 0;
    while k < |Categories|
      invariant 0 <= k <= |Categories|
      invariant !interesting
      invariant forall j :: 0 <= j < k ==> !Contains(line, Categories[j])
    {
      if Contains(line, Categories[k]) {
        interesting := true;
        break;
      }
      k := k + 1;
    }
  }
}
