/** One functional test found in the log: its name, whether it succeeded and
    the error lines attributed to it, and how it is rendered in the report. */
module FunctionalTests {
  import opened Text

  /** The value of a test at one moment: `Name`, `TestSucceeded`, `Errors`. */
  datatype TestRecord = TestRecord(name: string, succeeded: bool, errors: seq<string>)

  /** A test has failed exactly when some error line was attributed to it. */
  predicate Consistent(t: TestRecord) {
    !t.succeeded <==> t.errors != []
  }

  /** The status glyph that opens a rendered test. */
  function Glyph(succeeded: bool): string {
    if succeeded then ":heavy_check_mark:" else ":x:"
  }

  /** Every error appended as a new tab-indented line. */
  function ErrorBlock(errors: seq<string>): string
    decreases |errors|
  {
    if errors == [] then "" else ErrorBlock(errors[..|errors| - 1]) + "\n\t" + errors[|errors| - 1]
  }

  /** `FunctionalTest.ToString()`. */
  function RenderTest(t: TestRecord): string {
    Glyph(t.succeeded) + " " + t.name + ErrorBlock(t.errors)
  }

  /** What a reader sees: the glyph and name on one line, then one
      tab-indented line per error, in the order they were recorded. */
  function RenderedLines(t: TestRecord): (lines: seq<string>)
    ensures |lines| == 1 + |t.errors|
    ensures lines[0] == Glyph(t.succeeded) + " " + t.name
    ensures forall k :: 0 <= k < |t.errors| ==> lines[k + 1] == "\t" + t.errors[k]
  {
    [Glyph(t.succeeded) + " " + t.name] + seq(|t.errors|, k requires 0 <= k < |t.errors| => "\t" + t.errors[k])
  }

  lemma {:induction false} JoinLinesSnoc(lines: seq<string>, last: string)
    requires |lines| >= 1
    ensures JoinLines(lines + [last]) == JoinLines(lines) + "\n" + last
    decreases |lines|
  {
    if |lines| > 1 {
      assert (lines + [last])[1..] == lines[1..] + [last];
      JoinLinesSnoc(lines[1..], last);
    }
  }

  lemma RenderedLinesSnoc(t: TestRecord, e: string)
    ensures RenderedLines(t.(errors := t.errors + [e])) == RenderedLines(t) + ["\t" + e]
  {
  }

  lemma RenderTestSnoc(t: TestRecord, e: string)
    ensures RenderTest(t.(errors := t.errors + [e])) == RenderTest(t) + "\n" + ("\t" + e)
  {
    var es := t.errors + [e];
    assert es[..|es| - 1] == t.errors;
    assert ErrorBlock(es) == ErrorBlock(t.errors) + "\n\t" + e;
  }

  /** The rendered text is the rendered lines joined by newlines. */
  lemma {:induction false} RenderTestIsJoin(t: TestRecord)
    ensures RenderTest(t) == JoinLines(RenderedLines(t))
    decreases |t.errors|
  {
    if t.errors != [] {
      var n := |t.errors|;
      var e := t.errors[n - 1];
      var shorter := t.(errors := t.errors[..n - 1]);
      assert shorter.(errors := shorter.errors + [e]) == t;
      var lines := RenderedLines(shorter);
      RenderTestIsJoin(shorter);
      RenderedLinesSnoc(shorter, e);
      JoinLinesSnoc(lines, "\t" + e);
      RenderTestSnoc(shorter, e);
    }
  }

  /** Names and error lines come from single log lines, so they hold no
      newline; then cutting the rendered test at its newlines recovers the
      heading and each error exactly, one per line and in order. */
  lemma RenderTestSplits(t: TestRecord)
    requires HasNoNewline(t.name)
    requires forall k :: 0 <= k < |t.errors| ==> HasNoNewline(t.errors[k])
    ensures SplitLines(RenderTest(t)) == RenderedLines(t)
  {
    var lines := RenderedLines(t);
    var head := Glyph(t.succeeded) + " " + t.name;
    assert HasNoNewline(head) by {
      forall k | 0 <= k < |head|
        ensures head[k] != '\n'
      {
        if k >= |Glyph(t.succeeded)| + 1 {
          assert head[k] == t.name[k - |Glyph(t.succeeded)| - 1];
        }
      }
    }
    forall k | 0 <= k < |lines|
      ensures HasNoNewline(lines[k])
    {
      if k > 0 {
        assert lines[k] == "\t" + t.errors[k - 1];
        assert HasNoNewline(t.errors[k - 1]);
      }
    }
    RenderTestIsJoin(t);
    SplitJoin(lines);
  }

  /** A test record whose `TestSucceeded` and `Errors` are updated in place. */
  class FunctionalTest {
    var name: string
    var succeeded: bool
    var errors: seq<string>

    /** `new FunctionalTest { Name = name, TestSucceeded = true }`: the
        parameterless constructor's `TestSucceeded = false` is overwritten by
        the initialiser before the object is used. */
    constructor (name: string)
      ensures this.name == name && succeeded && errors == []
    {
      this.name := name;
      succeeded := true;
      errors := [];
    }

    /** The current value of this test. */
    function View(): TestRecord
      reads this
    {
      TestRecord(name, succeeded, errors)
    }

    /** `ToString()`: the glyph and the name, then the errors appended one by one. */
    method Render() returns (s: string)
      ensures s == RenderTest(View())
    {
      s := Glyph(succeeded) + " " + name;
      for k := 0 to |errors|
        invariant s == Glyph(succeeded) + " " + name + ErrorBlock(errors[..k])
      {
        assert errors[..k + 1][..k] == errors[..k];
        s := s + "\n\t" + errors[k];
      }
      assert errors[..|errors|] == errors;
    }
  }
}
