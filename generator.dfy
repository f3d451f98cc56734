/**
 * `BenchmarkGenerator.convert`: turning a bug report into a pytest benchmark
 * case. The completeness of the report gives a confidence in quarter steps,
 * each missing field among steps, expected and actual behaviour gives a note,
 * the actual behaviour gives tags, and the test module is rendered from two
 * text templates.
 */
module Generator {
  import opened Text
  import opened Models
  import opened Extract

  // ---------------------------------------------------------------------------
  // Escaping
  // ---------------------------------------------------------------------------

  /** `s.replace('"', '\\"')`: a backslash before every double quote. */
  function Escape(s: string): (r: string)
    ensures |r| >= |s|
    ensures r == [] <==> s == []
    ensures r == [] || r[0] != '"'
    ensures '"' !in s ==> r == s
    ensures forall i :: 0 < i < |r| && r[i] == '"' ==> r[i - 1] == '\\'
  {
    if s == [] then []
    else
      var rest := Escape(s[1..]);
      var piece := if s[0] == '"' then "\\\"" else [s[0]];
      assert forall i :: |piece| <= i < |piece + rest| ==> (piece + rest)[i] == rest[i - |piece|];
      piece + rest
  }

  /** Reading an escaped string back: a backslash followed by a quote stands for the quote. */
  function Unescape(s: string): string
  {
    if s == [] then []
    else if |s| >= 2 && s[0] == '\\' && s[1] == '"' then "\"" + Unescape(s[2..])
    else [s[0]] + Unescape(s[1..])
  }

  /** Escaping loses nothing: the original text can be read back. */
  lemma {:induction false} UnescapeEscape(s: string)
    ensures Unescape(Escape(s)) == s
  {
    if s != [] {
      UnescapeEscape(s[1..]);
      var rest := Escape(s[1..]);
      if s[0] == '"' {
        assert Escape(s) == "\\\"" + rest;
        assert Escape(s)[2..] == rest;
      } else {
        assert Escape(s) == [s[0]] + rest;
        assert Escape(s)[1..] == rest;
      }
    }
  }

  // ---------------------------------------------------------------------------
  // Templates
  // ---------------------------------------------------------------------------

  /** Python's `a or b` on strings. */
  function OrElse(s: string, default: string): string {
    if s != "" then s else default
  }

  /** An expected or actual behaviour as the docstring shows it: escaped, or "see description" when
      the report leaves it empty; the escaped text reads back as the behaviour. */
  function FieldText(s: string): (r: string)
    ensures s == "" ==> r == "see description"
    ensures s != "" ==> r == Escape(s) && Unescape(r) == s
  {
    UnescapeEscape(s);
    OrElse(Escape(s), "see description")
  }

  /** One comment line per step, numbered from one. */
  function StepComment(n: nat, step: string): string {
    "    # " + NatToString(n) + ". " + step
  }

  /** The comment lines for a list of steps: line i numbers step i from one. */
  function StepCommentLines(steps: seq<string>): (r: seq<string>)
    ensures |r| == |steps|
    ensures forall i :: 0 <= i < |steps| ==> r[i] == StepComment(i + 1, steps[i])
  {
    seq(|steps|, i requires 0 <= i < |steps| => StepComment(i + 1, steps[i]))
  }

  const NoStepsComment := "    # No steps provided."

  /** The steps block of the test body: the numbered comment lines joined by line breaks, or the
      placeholder; since a comment line is never empty, the placeholder is used exactly when
      there are no steps. */
  function StepsComments(steps: seq<string>): (r: string)
    ensures r != ""
    ensures steps == [] ==> r == NoStepsComment
    ensures steps != [] ==> r == Join("\n", StepCommentLines(steps))
  {
    OrElse(Join("\n", StepCommentLines(steps)), NoStepsComment)
  }

  /** The pieces of text, concatenated in order. */
  function Concat(pieces: seq<string>): string
  {
    if pieces == [] then "" else pieces[0] + Concat(pieces[1..])
  }

  /** The test function template, filled in: its signature, its docstring and its body. */
  function TestFunction(testName: string, title: string, bugId: string, expected: string, actual: string,
                        stepsComments: string): string
  {
    TestSignature(testName) + (TestDocstring(title, bugId, expected, actual) + TestBody(stepsComments, expected))
  }

  function TestSignature(testName: string): string {
    "def test_" + testName + "() -> None:\n"
  }

  function RegressionLine(title: string): string {
    "    \"\"\"Regression for: " + title + "\n"
  }

  function OriginalBugLine(bugId: string): string {
    "    Original bug: " + bugId + "\n"
  }

  function ExpectedLine(expected: string): string {
    "    Expected: " + expected + "\n"
  }

  function ActualLine(actual: string): string {
    "    Actual (buggy): " + actual + "\n"
  }

  function TestDocstring(title: string, bugId: string, expected: string, actual: string): string {
    Concat([RegressionLine(title), "\n", OriginalBugLine(bugId), ExpectedLine(expected), ActualLine(actual),
            "    \"\"\"\n"])
  }

  /** The heading comment of the test body and the steps block under it. */
  function StepsBlock(stepsComments: string): string {
    "    # Steps to reproduce:\n" + stepsComments + "\n"
  }

  function TestBody(stepsComments: string, expected: string): string {
    StepsBlock(stepsComments) + BodyTail(expected)
  }

  const TodoLine := "    # TODO: Replace with actual module/function call\n"

  /** The placeholder that closes the test body. */
  function BodyTail(expected: string): string {
    TodoLine + Concat([
      "    # The following assertion documents the expected correct behavior.\n",
      "    # Run this test to confirm the bug is fixed.\n",
      "    raise NotImplementedError(\n",
      "        \"Implement this test: reproduce the bug, then assert the fix.\"\n",
      "        \"\\nExpected: ", expected, "\"\n",
      "    )\n"])
  }

  /** The first line of a generated module: a docstring naming the bug, with the title unescaped. */
  function ModuleHeader(bugId: string, title: string): string {
    "\"\"\"Regression test generated from bug: " + bugId + " \U{2014} " + title + "\"\"\"\n"
  }

  const SetupImports := "import pytest"

  /** The test module template, filled in. */
  function TestModule(bugId: string, title: string, setupImports: string, testFunction: string): string {
    (ModuleHeader(bugId, title) + setupImports) + ("\n\n\n" + testFunction + "\n")
  }

  /** The setup code, as the dedented template yields it. */
  const SetupTemplate := "import pytest\n# Add your module imports here, e.g.:\n# from mypackage.module import function_under_test\n"

  // ---------------------------------------------------------------------------
  // What a conversion produces
  // ---------------------------------------------------------------------------

  const NoStepsNote := "No steps to reproduce \U{2014} test body will be a placeholder."

  /** The verifier reaches a character of a long string literal only from the literal's end, so
      proofs about the note's first characters see it in two halves. */
  lemma NoStepsNoteHalves()
    ensures NoStepsNote == "No steps to reproduce \U{2014} " + "test body will be a placeholder."
  { }

  const NoExpectedNote := "No expected behavior specified."
  const NoActualNote := "No actual behavior specified."

  /** How many of steps, expected, actual and description the report fills in. */
  function Completeness(bug: BugReport): (n: nat)
    ensures n <= 4
  {
    (if bug.steps != [] then 1 else 0) + (if bug.expected != "" then 1 else 0)
    + (if bug.actual != "" then 1 else 0) + (if bug.description != "" then 1 else 0)
  }

  /** The notes, one per missing field among steps, expected and actual, in that order. */
  function MissingNotes(bug: BugReport): seq<string> {
    (if bug.steps == [] then [NoStepsNote] else [])
    + (if bug.expected == "" then [NoExpectedNote] else [])
    + (if bug.actual == "" then [NoActualNote] else [])
  }

  /** The tags: always "regression", then one per keyword the lowercased actual behaviour contains. */
  function TagsFor(actual: string): seq<string> {
    ["regression"]
    + (if actual != "" && Contains(Lower(actual), "error") then ["error-handling"] else [])
    + (if actual != "" && Contains(Lower(actual), "exception") then ["exception"] else [])
  }

  /** The name of the test function, from the title or else the bug id. */
  function TestName(bug: BugReport): string {
    SanitiseIdentifier(OrElse(bug.title, bug.bugId))
  }

  /** The rendered test module, before it is stored (and trimmed) in the benchmark case. */
  function TestCode(bug: BugReport): string {
    var f := TestFunction(TestName(bug), Escape(bug.title), bug.bugId,
                          FieldText(bug.expected),
                          FieldText(bug.actual),
                          StepsComments(bug.steps));
    TestModule(bug.bugId, bug.title, SetupImports, f)
  }

  lemma NotesTrimmed(bug: BugReport)
    ensures AllTrimmed(MissingNotes(bug))
  {
    NoStepsNoteHalves();
    assert IsTrimmed(NoStepsNote) && IsTrimmed(NoExpectedNote) && IsTrimmed(NoActualNote);
  }

  lemma TagsTrimmed(actual: string)
    ensures AllTrimmed(TagsFor(actual))
  {
    assert IsTrimmed("regression") && IsTrimmed("error-handling") && IsTrimmed("exception");
  }

  /** The benchmark case generated for a valid report, with `caseId` the generated case id. */
  function BenchmarkFor(bug: BugReport, caseId: string): (b: BenchmarkCase)
    requires ValidBugReport(bug) && ShortUuid(caseId)
    ensures ValidBenchmarkCase(b)
    ensures b.caseId == caseId && b.sourceBug == bug.bugId
    ensures b.tags == TagsFor(bug.actual)
    ensures b.expectedResult == OrElse(bug.expected, "no error")
    ensures b.setupCode == Trim(SetupTemplate) && b.testCode == Trim(TestCode(bug))
  {
    BenchmarkWith(bug, caseId, TestCode(bug))
  }

  /** The benchmark case for a valid report once its test module is rendered as `code`. */
  function BenchmarkWith(bug: BugReport, caseId: string, code: string): (b: BenchmarkCase)
    requires ValidBugReport(bug) && ShortUuid(caseId)
    ensures ValidBenchmarkCase(b)
    ensures b.caseId == caseId && b.sourceBug == bug.bugId
    ensures b.tags == TagsFor(bug.actual)
    ensures b.expectedResult == OrElse(bug.expected, "no error")
    ensures b.setupCode == Trim(SetupTemplate) && b.testCode == Trim(code)
  {
    var expected := OrElse(bug.expected, "no error");
    var tags := TagsFor(bug.actual);
    assert IsTrimmed("no error");
    TrimFixpoint(expected);
    ShortUuidIsId(caseId);
    TrimFixpoint(bug.bugId);
    TagsTrimmed(bug.actual);
    TrimEachTrimmed(tags);
    var res := NewBenchmarkCase(caseId, bug.bugId, SetupTemplate, code, expected, tags);
    assert res.Success? && res.value.tags == tags && res.value.expectedResult == expected;
    res.value
  }

  /** The conversion of a valid report. */
  function ConvertSpec(bug: BugReport, caseId: string): (r: ConversionResult)
    requires ValidBugReport(bug) && ShortUuid(caseId)
    ensures ValidConversionResult(r)
    ensures r.bug == bug && r.benchmark == BenchmarkFor(bug, caseId)
    ensures r.confidence == Completeness(bug) as real / 4.0
    ensures r.notes == MissingNotes(bug)
  {
    var b := BenchmarkFor(bug, caseId);
    var c := Completeness(bug) as real / 4.0;
    var notes := MissingNotes(bug);
    NotesTrimmed(bug);
    TrimEachTrimmed(notes);
    assert 0.0 <= c <= 1.0;
    var res := NewConversionResult(bug, b, c, notes);
    assert res.Success? && res.value.benchmark == b && res.value.confidence == c;
    res.value
  }

  /** The first part of `convert`: a quarter for every filled field, a note for every missing one
      among steps, expected and actual. */
  method ScoreAndNotes(bug: BugReport) returns (confidence: real, notes: seq<string>)
    ensures confidence == Completeness(bug) as real / 4.0
    ensures notes == MissingNotes(bug)
  {
    notes := [];
    confidence := 0.0;
    if bug.steps != [] {
      confidence := confidence + 0.25;
    } else {
      notes := notes + [NoStepsNote];
    }
    if bug.expected != "" {
      confidence := confidence + 0.25;
    } else {
      notes := notes + [NoExpectedNote];
    }
    if bug.actual != "" {
      confidence := confidence + 0.25;
    } else {
      notes := notes + [NoActualNote];
    }
    if bug.description != "" {
      confidence := confidence + 0.25;
    }
  }

  /** The tagging part of `convert`: "regression", then a tag per keyword found. */
  method Tags(actual: string) returns (tags: seq<string>)
    ensures tags == TagsFor(actual)
  {
    tags := ["regression"];
    if actual != "" && Contains(Lower(actual), "error") {
      tags := tags + ["error-handling"];
    }
    if actual != "" && Contains(Lower(actual), "exception") {
      tags := tags + ["exception"];
    }
  }

  /** The rendering part of `convert`: the test function, then the module around it. */
  method RenderTestCode(bug: BugReport) returns (testCode: string)
    ensures testCode == TestCode(bug)
    ensures StartsWith(testCode, ModuleHeader(bug.bugId, bug.title) + SetupImports + "\n\n\n"
                                 + TestSignature(TestName(bug)))
    ensures Contains(testCode, RegressionLine(Escape(bug.title)))
    ensures Contains(testCode, OriginalBugLine(bug.bugId))
    ensures Contains(testCode, ExpectedLine(FieldText(bug.expected)))
    ensures Contains(testCode, ActualLine(FieldText(bug.actual)))
    ensures Contains(testCode, StepsBlock(StepsComments(bug.steps)))
  {
    var testName := SanitiseIdentifier(OrElse(bug.title, bug.bugId));
    var testFunction := TestFunction(testName, Escape(bug.title), bug.bugId,
                                     FieldText(bug.expected),
                                     FieldText(bug.actual),
                                     StepsComments(bug.steps));
    testCode := TestModule(bug.bugId, bug.title, SetupImports, testFunction);
    TestModuleContents(bug.bugId, bug.title, testName, Escape(bug.title),
                       FieldText(bug.expected),
                       FieldText(bug.actual), StepsComments(bug.steps));
  }

  /** The benchmark case `convert` builds from the rendered code and the tags. */
  method MakeBenchmark(bug: BugReport, caseId: string, testCode: string) returns (benchmark: BenchmarkCase)
    requires ValidBugReport(bug) && ShortUuid(caseId)
    ensures benchmark == BenchmarkWith(bug, caseId, testCode)
  {
    var tags := Tags(bug.actual);
    ShortUuidIsId(caseId);
    TrimFixpoint(bug.bugId);
    var made := NewBenchmarkCase(caseId, bug.bugId, SetupTemplate, testCode,
                                 OrElse(bug.expected, "no error"), tags);
    assert made.Success?;
    benchmark := made.value;
  }

  /** `BenchmarkGenerator.convert`. */
  method Convert(bug: BugReport, caseId: string) returns (r: ConversionResult)
    requires ValidBugReport(bug) && ShortUuid(caseId)
    ensures r == ConvertSpec(bug, caseId)
  {
    var confidence, notes := ScoreAndNotes(bug);
    var testCode := RenderTestCode(bug);
    var benchmark := MakeBenchmark(bug, caseId, testCode);
    NotesTrimmed(bug);
    TrimEachTrimmed(notes);
    var result := NewConversionResult(bug, benchmark, confidence, notes);
    assert result.Success?;
    r := result.value;
  }

  // ---------------------------------------------------------------------------
  // Properties
  // ---------------------------------------------------------------------------

  /** The confidence is a quarter per filled field: a full report scores 1.0, an empty one 0.0. */
  lemma ConfidenceSpec(bug: BugReport)
    ensures var c := Completeness(bug) as real / 4.0;
            0.0 <= c <= 1.0
            && (c == 1.0 <==> bug.steps != [] && bug.expected != "" && bug.actual != "" && bug.description != "")
            && (c == 0.0 <==> bug.steps == [] && bug.expected == "" && bug.actual == "" && bug.description == "")
  {
  }

  /** Steps and expected behaviour alone give half. */
  lemma ConfidenceHalf(bug: BugReport)
    requires bug.steps != [] && bug.expected != "" && bug.actual == "" && bug.description == ""
    ensures Completeness(bug) as real / 4.0 == 0.5
  {
  }

  /** Each note names one missing field among steps, expected and actual; a missing description
      never gives one; the notes come in field order and there are as many as there are gaps. */
  lemma NotesSpec(bug: BugReport)
    ensures var n := MissingNotes(bug);
            (NoStepsNote in n <==> bug.steps == [])
            && (NoExpectedNote in n <==> bug.expected == "")
            && (NoActualNote in n <==> bug.actual == "")
            && (forall i :: 0 <= i < |n| ==> n[i] in {NoStepsNote, NoExpectedNote, NoActualNote})
            && (bug.steps == [] ==> n[0] == NoStepsNote)
            && (bug.actual == "" ==> n[|n| - 1] == NoActualNote)
            && |n| == 3 - ((if bug.steps != [] then 1 else 0) + (if bug.expected != "" then 1 else 0)
                           + (if bug.actual != "" then 1 else 0))
  {
    NoStepsNoteHalves();
    assert NoStepsNote[3] != NoExpectedNote[3] && NoStepsNote[3] != NoActualNote[3];
    assert NoExpectedNote[3] != NoActualNote[3];
  }

  /** "regression" comes first; "error-handling" is there exactly when the lowercased actual
      behaviour contains "error", and "exception" exactly when it contains "exception". */
  lemma TagsSpec(actual: string)
    ensures var t := TagsFor(actual);
            t[0] == "regression" && 1 <= |t| <= 3
            && ("error-handling" in t <==> Contains(Lower(actual), "error"))
            && ("exception" in t <==> Contains(Lower(actual), "exception"))
  {
    assert Lower("") == "";
    assert "regression"[0] != "error-handling"[0] && "regression"[0] != "exception"[0];
    assert "error-handling"[1] != "exception"[1];
  }

  /** The stored test module opens with the header docstring, which carries the title as it is,
      quotes unescaped, followed by the imports. */
  lemma TestCodeHeader(bug: BugReport)
    ensures StartsWith(Trim(TestCode(bug)), ModuleHeader(bug.bugId, bug.title) + SetupImports)
  {
    var f := TestFunction(TestName(bug), Escape(bug.title), bug.bugId,
                          FieldText(bug.expected),
                          FieldText(bug.actual),
                          StepsComments(bug.steps));
    ModuleHeaderKept(bug.bugId, bug.title, f);
  }

  /** Whatever the test function, trimming the module keeps its header and imports. */
  lemma ModuleHeaderKept(bugId: string, title: string, f: string)
    ensures StartsWith(Trim(TestModule(bugId, title, SetupImports, f)), ModuleHeader(bugId, title) + SetupImports)
  {
    var p := ModuleHeader(bugId, title) + SetupImports;
    assert p[0] == '"' && p[|p| - 1] == 't';
    TrimKeepsPrefix(p, "\n\n\n" + f + "\n");
  }

  /** The rendered test function opens with its signature, `def test_<name>() -> None:`. */
  lemma TestFunctionOpens(testName: string, title: string, bugId: string, expected: string, actual: string,
                          stepsComments: string)
    ensures StartsWith(TestFunction(testName, title, bugId, expected, actual, stepsComments),
                       "def test_" + testName + "() -> None:\n")
  {
    var sig := TestSignature(testName);
    var rest := TestDocstring(title, bugId, expected, actual) + TestBody(stepsComments, expected);
    assert TestFunction(testName, title, bugId, expected, actual, stepsComments) == sig + rest;
    StartsWithAppend(sig, rest);
  }

  /** A piece of a concatenation is found in the whole. */
  lemma {:induction false} ConcatHasPiece(pieces: seq<string>, j: nat)
    requires j < |pieces|
    ensures Contains(Concat(pieces), pieces[j])
    decreases j
  {
    if j == 0 {
      StartsWithAppend(pieces[0], Concat(pieces[1..]));
    } else {
      ConcatHasPiece(pieces[1..], j - 1);
      ContainsAppendLeft(pieces[0], Concat(pieces[1..]), pieces[j]);
    }
  }

  /** Text found in the test function is found in the module built around it. */
  lemma ModuleHasFunctionText(bugId: string, title: string, f: string, sub: string)
    requires Contains(f, sub)
    ensures Contains(TestModule(bugId, title, SetupImports, f), sub)
  {
    ContainsAppendLeft("\n\n\n", f, sub);
    ContainsAppendRight("\n\n\n" + f, "\n", sub);
    ContainsAppendLeft(ModuleHeader(bugId, title) + SetupImports, "\n\n\n" + f + "\n", sub);
  }

  /** Whatever fills the templates, the module opens with its header, the imports, two blank
      lines and the test function's signature, and carries the four docstring lines (title,
      bug id, expected, actual) and the steps block under its heading comment. */
  lemma TestModuleContents(bugId: string, title: string, testName: string, docTitle: string,
                           expected: string, actual: string, stepsComments: string)
    ensures var m := TestModule(bugId, title, SetupImports,
                                TestFunction(testName, docTitle, bugId, expected, actual, stepsComments));
            StartsWith(m, ModuleHeader(bugId, title) + SetupImports + "\n\n\n" + TestSignature(testName))
            && Contains(m, RegressionLine(docTitle)) && Contains(m, OriginalBugLine(bugId))
            && Contains(m, ExpectedLine(expected)) && Contains(m, ActualLine(actual))
            && Contains(m, StepsBlock(stepsComments))
  {
    var sig := TestSignature(testName);
    var docPieces := [RegressionLine(docTitle), "\n", OriginalBugLine(bugId), ExpectedLine(expected),
                      ActualLine(actual), "    \"\"\"\n"];
    var doc := TestDocstring(docTitle, bugId, expected, actual);
    var body := TestBody(stepsComments, expected);
    var f := TestFunction(testName, docTitle, bugId, expected, actual, stepsComments);
    var head := ModuleHeader(bugId, title) + SetupImports;
    assert TestModule(bugId, title, SetupImports, f) == (head + "\n\n\n" + sig) + ((doc + body) + "\n");
    StartsWithAppend(head + "\n\n\n" + sig, (doc + body) + "\n");
    forall j | 0 <= j < |docPieces| ensures Contains(f, docPieces[j]) {
      ConcatHasPiece(docPieces, j);
      ContainsAppendRight(doc, body, docPieces[j]);
      ContainsAppendLeft(sig, doc + body, docPieces[j]);
    }
    ModuleHasFunctionText(bugId, title, f, docPieces[0]);
    ModuleHasFunctionText(bugId, title, f, docPieces[2]);
    ModuleHasFunctionText(bugId, title, f, docPieces[3]);
    ModuleHasFunctionText(bugId, title, f, docPieces[4]);
    assert body == StepsBlock(stepsComments) + (body[|StepsBlock(stepsComments)|..]);
    StartsWithAppend(StepsBlock(stepsComments), body[|StepsBlock(stepsComments)|..]);
    ContainsAppendLeft(doc, body, StepsBlock(stepsComments));
    ContainsAppendLeft(sig, doc + body, StepsBlock(stepsComments));
    ModuleHasFunctionText(bugId, title, f, StepsBlock(stepsComments));
  }

  lemma Regroup(a: string, b: string, c: string, s: string, d: string, sb: string, bt: string)
    ensures (a + b) + (c + (s + (d + (sb + bt))) + "\n") == (a + b + c) + (s + d + sb) + (bt + "\n")
  { }

  /** Each of three adjacent pieces of a text lies in any text that holds them together. */
  lemma ContainsThree(stored: string, x: string, y: string, z: string)
    requires Contains(stored, x + y + z)
    ensures Contains(stored, x) && Contains(stored, y) && Contains(stored, z)
  {
    ContainsMiddle([], x, y + z);
    assert [] + x + (y + z) == x + y + z;
    ContainsMiddle(x, y, z);
    ContainsMiddle(x + y, z, []);
    assert x + y + z + [] == x + y + z;
    ContainsTrans(stored, x + y + z, x);
    ContainsTrans(stored, x + y + z, y);
    ContainsTrans(stored, x + y + z, z);
  }

  /** The trim that stores the module keeps everything from the function's signature to its steps
      block, since the header before it and the placeholder after it are not blank. */
  lemma StoredModuleMiddle(bugId: string, title: string, testName: string, docTitle: string,
                           expected: string, actual: string, stepsComments: string)
    ensures Contains(Trim(TestModule(bugId, title, SetupImports,
                                     TestFunction(testName, docTitle, bugId, expected, actual, stepsComments))),
                     TestSignature(testName) + TestDocstring(docTitle, bugId, expected, actual)
                     + StepsBlock(stepsComments))
  {
    var mh := ModuleHeader(bugId, title);
    var s := TestSignature(testName);
    var d := TestDocstring(docTitle, bugId, expected, actual);
    var sb := StepsBlock(stepsComments);
    var bt := BodyTail(expected);
    var f := TestFunction(testName, docTitle, bugId, expected, actual, stepsComments);
    assert f == s + (d + (sb + bt));
    assert TestModule(bugId, title, SetupImports, f) == (mh + SetupImports) + ("\n\n\n" + f + "\n");
    Regroup(mh, SetupImports, "\n\n\n", s, d, sb, bt);
    var head := mh + SetupImports + "\n\n\n";
    var tail := bt + "\n";
    assert mh[0] == '"';
    assert head[0] == mh[0];
    assert TodoLine[51] == 'l';  // the last letter of the TODO line
    assert bt[51] == TodoLine[51];
    assert tail[51] == bt[51];
    TrimKeepsMiddle(head, s + d + sb, tail, 0, 51);
  }

  /** What survives the trim that stores the module: the function's signature, its docstring lines
      and its steps block. */
  lemma StoredModuleContents(bugId: string, title: string, testName: string, docTitle: string,
                             expected: string, actual: string, stepsComments: string)
    ensures var m := Trim(TestModule(bugId, title, SetupImports,
                                     TestFunction(testName, docTitle, bugId, expected, actual, stepsComments)));
            Contains(m, "def test_" + testName + "() -> None:")
            && Contains(m, RegressionLine(docTitle)) && Contains(m, OriginalBugLine(bugId))
            && Contains(m, ExpectedLine(expected)) && Contains(m, ActualLine(actual))
            && Contains(m, StepsBlock(stepsComments))
  {
    var stored := Trim(TestModule(bugId, title, SetupImports,
                                  TestFunction(testName, docTitle, bugId, expected, actual, stepsComments)));
    var sig := "def test_" + testName + "() -> None:";
    var s := TestSignature(testName);
    var d := TestDocstring(docTitle, bugId, expected, actual);
    StoredModuleMiddle(bugId, title, testName, docTitle, expected, actual, stepsComments);
    ContainsThree(stored, s, d, StepsBlock(stepsComments));

    ContainsMiddle([], sig, "\n");
    assert [] + sig + "\n" == s;
    ContainsTrans(stored, s, sig);

    var docPieces := [RegressionLine(docTitle), "\n", OriginalBugLine(bugId), ExpectedLine(expected),
                      ActualLine(actual), "    \"\"\"\n"];
    assert d == Concat(docPieces);
    forall j | 0 <= j < |docPieces| ensures Contains(stored, docPieces[j]) {
      ConcatHasPiece(docPieces, j);
      ContainsTrans(stored, d, docPieces[j]);
    }
    assert Contains(stored, docPieces[0]) && Contains(stored, docPieces[2]);
    assert Contains(stored, docPieces[3]) && Contains(stored, docPieces[4]);
  }

  /** The test code `convert` stores (trimmed, see `BenchmarkFor`) still holds the test function's
      signature, its docstring lines, the steps block and every numbered step. */
  lemma StoredTestCodeContents(bug: BugReport)
    ensures var m := Trim(TestCode(bug));
            Contains(m, "def test_" + TestName(bug) + "() -> None:")
            && Contains(m, RegressionLine(Escape(bug.title))) && Contains(m, OriginalBugLine(bug.bugId))
            && Contains(m, ExpectedLine(FieldText(bug.expected)))
            && Contains(m, ActualLine(FieldText(bug.actual)))
            && Contains(m, StepsBlock(StepsComments(bug.steps)))
            && forall i :: 0 <= i < |bug.steps| ==> Contains(m, StepComment(i + 1, bug.steps[i]))
  {
    var sc := StepsComments(bug.steps);
    StoredModuleContents(bug.bugId, bug.title, TestName(bug), Escape(bug.title),
                         FieldText(bug.expected), FieldText(bug.actual), sc);
    var m := Trim(TestCode(bug));
    forall i | 0 <= i < |bug.steps| ensures Contains(m, StepComment(i + 1, bug.steps[i])) {
      var lines := StepCommentLines(bug.steps);
      JoinHasPart("\n", lines, i);
      ContainsMiddle("    # Steps to reproduce:\n", sc, "\n");
      ContainsTrans(StepsBlock(sc), sc, lines[i]);
      ContainsTrans(m, StepsBlock(sc), lines[i]);
    }
  }

  /** Read back line by line, the steps block holds one numbered comment per step, in order, when
      no step spans lines; without steps it is the single placeholder line. */
  lemma StepsCommentsLines(steps: seq<string>)
    requires forall i :: 0 <= i < |steps| ==> NoNewline(steps[i])
    ensures SplitLines(StepsComments(steps)) == if steps == [] then [NoStepsComment] else StepCommentLines(steps)
  {
    if steps == [] {
      SplitLinesJoin([NoStepsComment]);
    } else {
      var ls := StepCommentLines(steps);
      forall i | 0 <= i < |ls| ensures NoNewline(ls[i]) {
      }
      SplitLinesJoin(ls);
    }
  }

  /** The test name is an identifier in every report: non-empty, at most 60 characters, lower-case
      letters, digits and single underscores, not starting with an underscore. */
  lemma TestNameIsIdentifier(bug: BugReport)
    ensures var n := TestName(bug);
            0 < |n| <= 60 && IdentChars(n) && NoDoubleUnderscore(n) && n[0] != '_'
  {
  }
}
