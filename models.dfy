/**
 * The three record types of the converter: a structured bug report, the
 * pytest benchmark case generated from it, and the outcome of a conversion.
 * Each is a datatype, a validity predicate stating its field constraints,
 * and a constructor that behaves as the validating model does: every string
 * field is trimmed of surrounding whitespace as it is stored (`Text.Trim`,
 * which unlike `str.strip` keeps the separators '\x1c' to '\x1f'), absent
 * fields take their defaults, and a constraint that fails is reported instead
 * of a record.
 */
module Models {
  import opened Text
  import opened Wrappers

  datatype BugReport = BugReport(
    bugId: string,
    title: string,
    description: string,
    steps: seq<string>,
    expected: string,
    actual: string,
    environment: map<string, string>)

  datatype BenchmarkCase = BenchmarkCase(
    caseId: string,
    sourceBug: string,
    setupCode: string,
    testCode: string,
    expectedResult: string,
    tags: seq<string>)

  /** The confidence is a real number; every value the generator produces is a multiple of 0.25. */
  datatype ConversionResult = ConversionResult(
    bug: BugReport,
    benchmark: BenchmarkCase,
    confidence: real,
    notes: seq<string>)

  /** A rejected construction or assignment: the names of the fields whose constraint failed,
      in declaration order. */
  datatype ValidationError = ValidationError(fields: seq<string>)

  predicate AllTrimmed(items: seq<string>) {
    forall i :: 0 <= i < |items| ==> IsTrimmed(items[i])
  }

  /** A non-empty identifier with no surrounding whitespace (`min_length=1` after trimming). */
  predicate ValidId(s: string) {
    s != "" && IsTrimmed(s)
  }

  predicate ValidBugReport(b: BugReport) {
    ValidId(b.bugId)
    && IsTrimmed(b.title) && IsTrimmed(b.description)
    && IsTrimmed(b.expected) && IsTrimmed(b.actual)
    && AllTrimmed(b.steps)
  }

  predicate ValidBenchmarkCase(c: BenchmarkCase) {
    ValidId(c.caseId) && ValidId(c.sourceBug)
    && IsTrimmed(c.setupCode) && IsTrimmed(c.testCode) && IsTrimmed(c.expectedResult)
    && AllTrimmed(c.tags)
  }

  predicate ValidConversionResult(r: ConversionResult) {
    ValidBugReport(r.bug) && ValidBenchmarkCase(r.benchmark)
    && 0.0 <= r.confidence <= 1.0
    && AllTrimmed(r.notes)
  }

  /** Whitespace trimming applied to every item of a list of strings. */
  function TrimEach(items: seq<string>): (r: seq<string>)
    ensures |r| == |items|
    ensures forall i :: 0 <= i < |items| ==> r[i] == Trim(items[i])
    ensures AllTrimmed(r)
  {
    seq(|items|, i requires 0 <= i < |items| => Trim(items[i]))
  }

  /** Trimming items that are already trimmed leaves them as they are. */
  lemma TrimEachTrimmed(items: seq<string>)
    requires AllTrimmed(items)
    ensures TrimEach(items) == items
  {
    forall i | 0 <= i < |items| ensures Trim(items[i]) == items[i] {
      TrimFixpoint(items[i]);
    }
  }

  /** Building a BugReport: strings are trimmed, and a bug id that trims to nothing is rejected. */
  function NewBugReport(
    bugId: string,
    title: string := "",
    description: string := "",
    steps: seq<string> := [],
    expected: string := "",
    actual: string := "",
    environment: map<string, string> := map[]): (r: Result<BugReport, ValidationError>)
    ensures r.Success? <==> Trim(bugId) != ""
    ensures r.Failure? ==> r.error.fields == ["bug_id"]
    ensures r.Success? ==> ValidBugReport(r.value)
    ensures r.Success? ==> r.value.bugId == Trim(bugId) && r.value.title == Trim(title)
                           && r.value.description == Trim(description)
                           && r.value.steps == TrimEach(steps)
                           && r.value.expected == Trim(expected) && r.value.actual == Trim(actual)
                           && r.value.environment == environment
  {
    var b := BugReport(Trim(bugId), Trim(title), Trim(description), TrimEach(steps),
                       Trim(expected), Trim(actual), environment);
    if b.bugId == "" then Failure(ValidationError(["bug_id"])) else Success(b)
  }

  /** Fields left out of a BugReport take the empty string, list or mapping, never a null. */
  lemma BugReportDefaults(bugId: string)
    requires Trim(bugId) != ""
    ensures NewBugReport(bugId).Success?
    ensures var b := NewBugReport(bugId).value;
            b.title == "" && b.description == "" && b.steps == [] && b.expected == ""
            && b.actual == "" && b.environment == map[]
  {
    assert Trim("") == "";
  }

  /** The text fields of a BugReport that can be reassigned. */
  datatype BugTextField = BugIdField | TitleField | DescriptionField | ExpectedField | ActualField

  /** Assigning a text field re-runs validation: the value is trimmed, and an empty bug id is
      rejected, leaving the report as it was. */
  function AssignBugText(b: BugReport, field: BugTextField, value: string): (r: Result<BugReport, ValidationError>)
    ensures r.Failure? <==> field == BugIdField && Trim(value) == ""
    ensures ValidBugReport(b) && r.Success? ==> ValidBugReport(r.value)
    ensures r.Success? ==> r.value.steps == b.steps && r.value.environment == b.environment
    ensures field == BugIdField && Trim(value) != "" ==> r == Success(b.(bugId := Trim(value)))
    ensures field == TitleField ==> r == Success(b.(title := Trim(value)))
    ensures field == DescriptionField ==> r == Success(b.(description := Trim(value)))
    ensures field == ExpectedField ==> r == Success(b.(expected := Trim(value)))
    ensures field == ActualField ==> r == Success(b.(actual := Trim(value)))
  {
    var v := Trim(value);
    match field
    case BugIdField => if v == "" then Failure(ValidationError(["bug_id"])) else Success(b.(bugId := v))
    case TitleField => Success(b.(title := v))
    case DescriptionField => Success(b.(description := v))
    case ExpectedField => Success(b.(expected := v))
    case ActualField => Success(b.(actual := v))
  }

  /** Building a BenchmarkCase: strings are trimmed, and both identifiers must be non-empty. */
  function NewBenchmarkCase(
    caseId: string,
    sourceBug: string,
    setupCode: string := "",
    testCode: string := "",
    expectedResult: string := "",
    tags: seq<string> := []): (r: Result<BenchmarkCase, ValidationError>)
    ensures r.Success? <==> Trim(caseId) != "" && Trim(sourceBug) != ""
    ensures r.Failure? ==> r.error.fields != []
                           && ("case_id" in r.error.fields <==> Trim(caseId) == "")
                           && ("source_bug" in r.error.fields <==> Trim(sourceBug) == "")
    ensures r.Success? ==> ValidBenchmarkCase(r.value)
    ensures r.Success? ==> r.value.caseId == Trim(caseId) && r.value.sourceBug == Trim(sourceBug)
                           && r.value.setupCode == Trim(setupCode) && r.value.testCode == Trim(testCode)
                           && r.value.expectedResult == Trim(expectedResult)
                           && r.value.tags == TrimEach(tags)
  {
    var errors := (if Trim(caseId) == "" then ["case_id"] else [])
                  + (if Trim(sourceBug) == "" then ["source_bug"] else []);
    if errors != [] then Failure(ValidationError(errors))
    else Success(BenchmarkCase(Trim(caseId), Trim(sourceBug), Trim(setupCode), Trim(testCode),
                               Trim(expectedResult), TrimEach(tags)))
  }

  /** The text fields of a BenchmarkCase that can be reassigned. */
  datatype CaseTextField = CaseIdField | SourceBugField | SetupCodeField | TestCodeField | ExpectedResultField

  /** Assigning a text field of a BenchmarkCase re-runs validation: the value is trimmed, and an
      identifier that trims to nothing is rejected, leaving the case as it was. */
  function AssignCaseText(c: BenchmarkCase, field: CaseTextField, value: string): (r: Result<BenchmarkCase, ValidationError>)
    ensures r.Failure? <==> (field == CaseIdField || field == SourceBugField) && Trim(value) == ""
    ensures r.Failure? ==> r.error.fields == [if field == CaseIdField then "case_id" else "source_bug"]
    ensures ValidBenchmarkCase(c) && r.Success? ==> ValidBenchmarkCase(r.value)
    ensures r.Success? ==> r.value.tags == c.tags
    ensures field == CaseIdField && Trim(value) != "" ==> r == Success(c.(caseId := Trim(value)))
    ensures field == SourceBugField && Trim(value) != "" ==> r == Success(c.(sourceBug := Trim(value)))
    ensures field == SetupCodeField ==> r == Success(c.(setupCode := Trim(value)))
    ensures field == TestCodeField ==> r == Success(c.(testCode := Trim(value)))
    ensures field == ExpectedResultField ==> r == Success(c.(expectedResult := Trim(value)))
  {
    var v := Trim(value);
    match field
    case CaseIdField => if v == "" then Failure(ValidationError(["case_id"])) else Success(c.(caseId := v))
    case SourceBugField => if v == "" then Failure(ValidationError(["source_bug"])) else Success(c.(sourceBug := v))
    case SetupCodeField => Success(c.(setupCode := v))
    case TestCodeField => Success(c.(testCode := v))
    case ExpectedResultField => Success(c.(expectedResult := v))
  }

  /** Fields left out of a BenchmarkCase take the empty string or the empty list. */
  lemma BenchmarkCaseDefaults(caseId: string, sourceBug: string)
    requires Trim(caseId) != "" && Trim(sourceBug) != ""
    ensures NewBenchmarkCase(caseId, sourceBug).Success?
    ensures var c := NewBenchmarkCase(caseId, sourceBug).value;
            c.setupCode == "" && c.testCode == "" && c.expectedResult == "" && c.tags == []
  {
    assert Trim("") == "";
  }

  /** Building a ConversionResult: the confidence must lie in [0, 1]; the two records it owns are
      taken as they are (already validated), and the notes are trimmed. */
  function NewConversionResult(
    bug: BugReport,
    benchmark: BenchmarkCase,
    confidence: real := 0.0,
    notes: seq<string> := []): (r: Result<ConversionResult, ValidationError>)
    ensures r.Success? <==> 0.0 <= confidence <= 1.0
    ensures r.Failure? ==> r.error.fields == ["confidence"]
    ensures r.Success? && ValidBugReport(bug) && ValidBenchmarkCase(benchmark) ==> ValidConversionResult(r.value)
    ensures r.Success? ==> r.value.bug == bug && r.value.benchmark == benchmark
                           && r.value.confidence == confidence && r.value.notes == TrimEach(notes)
  {
    if 0.0 <= confidence <= 1.0 then Success(ConversionResult(bug, benchmark, confidence, TrimEach(notes)))
    else Failure(ValidationError(["confidence"]))
  }

  /** Assigning the confidence re-runs validation: a value outside [0, 1] is rejected, leaving the
      result as it was; any other value replaces the confidence and nothing else. */
  function AssignConfidence(res: ConversionResult, confidence: real): (r: Result<ConversionResult, ValidationError>)
    ensures r.Success? <==> 0.0 <= confidence <= 1.0
    ensures r.Failure? ==> r.error.fields == ["confidence"]
    ensures r.Success? ==> r.value == res.(confidence := confidence)
    ensures ValidConversionResult(res) && r.Success? ==> ValidConversionResult(r.value)
  {
    if 0.0 <= confidence <= 1.0 then Success(res.(confidence := confidence))
    else Failure(ValidationError(["confidence"]))
  }

  // Generated identifiers

  predicate IsHex(c: char) { IsDigit(c) || ('a' <= c <= 'f') }

  /** `str(uuid.uuid4())[:12]`: eight hex digits, a hyphen, three hex digits. */
  predicate ShortUuid(s: string) {
    |s| == 12 && s[8] == '-' && forall i :: 0 <= i < 12 && i != 8 ==> IsHex(s[i])
  }

  lemma ShortUuidIsId(s: string)
    requires ShortUuid(s)
    ensures Trim(s) == s && ValidId(s)
  {
    assert !IsTrimSpace(s[0]) && !IsTrimSpace(s[11]);
    TrimFixpoint(s);
  }

  /** `uuid.uuid4().hex[:8]`: eight hex digits. */
  predicate ShortHex(s: string) {
    |s| == 8 && forall i :: 0 <= i < 8 ==> IsHex(s[i])
  }
}
