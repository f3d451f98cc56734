/**
 * `BenchmarkSuite`: an append-only collection of benchmark cases and its
 * export as pytest files. The output directory is a map from file name to
 * file content; exporting adds a `conftest.py` when the directory has none and
 * writes one `test_<safe id>.py` per case, in order, so a later case whose
 * safe id coincides with an earlier one's overwrites its file.
 */
module Suite {
  import opened Text
  import opened Wrappers
  import opened Assign
  import opened Models

  /** A directory: file names to file contents. */
  type Dir = map<string, string>

  const ConftestName := "conftest.py"
  const ConftestContent := "\"\"\"Conftest for aumai-bug2bench generated benchmarks.\"\"\"\n"

  /** `re.sub(r"[^a-z0-9_]", "_", case_id.lower())`: every character of the lowercased id is kept
      or replaced by an underscore, one for one. */
  function SafeId(caseId: string): (r: string)
    ensures |r| == |caseId|
    ensures forall i :: 0 <= i < |r| ==> IsLowerAlnum(r[i]) || r[i] == '_'
    ensures forall i :: 0 <= i < |r| ==> (IsLowerAlnum(LowerChar(caseId[i])) || caseId[i] == '_' <==> r[i] == LowerChar(caseId[i]))
    ensures forall i :: 0 <= i < |r| ==>
              r[i] == if IsLowerAlnum(LowerChar(caseId[i])) || caseId[i] == '_' then LowerChar(caseId[i]) else '_'
  {
    seq(|caseId|, i requires 0 <= i < |caseId| =>
      var c := LowerChar(caseId[i]);
      if IsLowerAlnum(c) || c == '_' then c else '_')
  }

  function CaseFileName(c: BenchmarkCase): string {
    "test_" + SafeId(c.caseId) + ".py"
  }

  function CaseFileContent(c: BenchmarkCase): string {
    c.setupCode + "\n\n" + c.testCode
  }

  /** One file write per case, in order. */
  function FileWrites(cases: seq<BenchmarkCase>): (r: seq<Option<(string, string)>>)
    ensures |r| == |cases|
    ensures forall i :: 0 <= i < |cases| ==> r[i] == Some((CaseFileName(cases[i]), CaseFileContent(cases[i])))
  {
    seq(|cases|, i requires 0 <= i < |cases| => Some((CaseFileName(cases[i]), CaseFileContent(cases[i]))))
  }

  /** The directory with a conftest.py added if it has none. */
  function WithConftest(dir: Dir): Dir {
    if ConftestName in dir then dir else dir[ConftestName := ConftestContent]
  }

  /** The directory after exporting `cases` into `dir`. */
  function ExportSpec(dir: Dir, cases: seq<BenchmarkCase>): Dir {
    AssignAll(WithConftest(dir), FileWrites(cases))
  }

  class BenchmarkSuite {
    var cases: seq<BenchmarkCase>

    constructor()
      ensures cases == []
    {
      cases := [];
    }

    /** `add_case`: appends one case. */
    method AddCase(c: BenchmarkCase)
      modifies this
      ensures cases == old(cases) + [c]
    {
      cases := cases + [c];
    }

    /** `cases`: a fresh list with the suite's cases, which the caller may change freely. */
    method Cases() returns (r: array<BenchmarkCase>)
      ensures fresh(r) && r[..] == cases
    {
      r := new BenchmarkCase[|cases|];
      for i := 0 to |cases|
        invariant r[..i] == cases[..i]
      {
        r[i] := cases[i];
      }
    }

    /** `export_pytest`: the conftest first, then one file per case. */
    method ExportPytest(dir: Dir) returns (out: Dir)
      ensures out == ExportSpec(dir, cases)
    {
      out := dir;
      if ConftestName !in out {
        out := out[ConftestName := ConftestContent];
      }
      ghost var writes := FileWrites(cases);
      for i := 0 to |cases|
        invariant out == AssignAll(WithConftest(dir), writes[..i])
      {
        var c := cases[i];
        var safeId := SafeId(c.caseId);
        out := out["test_" + safeId + ".py" := c.setupCode + "\n\n" + c.testCode];
        assert writes[..i + 1][..i] == writes[..i];
      }
      assert writes[..|cases|] == writes;
    }
  }

  lemma CaseFileNotConftest(c: BenchmarkCase)
    ensures CaseFileName(c) != ConftestName
  {
    assert CaseFileName(c)[0] == 't' && ConftestName[0] == 'c';
  }

  /** Exporting keeps an existing conftest.py as it was and creates the standard one otherwise. */
  lemma ExportConftest(dir: Dir, cases: seq<BenchmarkCase>)
    ensures ConftestName in ExportSpec(dir, cases)
    ensures ExportSpec(dir, cases)[ConftestName] ==
            if ConftestName in dir then dir[ConftestName] else ConftestContent
  {
    var writes := FileWrites(cases);
    forall i | 0 <= i < |writes| ensures !Sets(writes[i], ConftestName) {
      CaseFileNotConftest(cases[i]);
    }
    AssignUnset(WithConftest(dir), writes, ConftestName);
  }

  /** Every case's file holds the setup and test code, unless a later case writes the same file. */
  lemma ExportCaseFile(dir: Dir, cases: seq<BenchmarkCase>, i: nat)
    requires i < |cases|
    requires forall j :: i < j < |cases| ==> CaseFileName(cases[j]) != CaseFileName(cases[i])
    ensures CaseFileName(cases[i]) in ExportSpec(dir, cases)
    ensures ExportSpec(dir, cases)[CaseFileName(cases[i])] == CaseFileContent(cases[i])
  {
    AssignLastAt(WithConftest(dir), FileWrites(cases), i, CaseFileName(cases[i]));
  }

  /** A file that is neither conftest.py nor a case's file is left alone. */
  lemma ExportLeavesOthers(dir: Dir, cases: seq<BenchmarkCase>, name: string)
    requires name != ConftestName
    requires forall j :: 0 <= j < |cases| ==> CaseFileName(cases[j]) != name
    ensures name in ExportSpec(dir, cases) <==> name in dir
    ensures name in dir ==> ExportSpec(dir, cases)[name] == dir[name]
  {
    AssignUnset(WithConftest(dir), FileWrites(cases), name);
  }

  /** Every file in the exported directory was there before, is conftest.py, or is a case's file. */
  lemma ExportFiles(dir: Dir, cases: seq<BenchmarkCase>, name: string)
    requires name in ExportSpec(dir, cases)
    ensures name in dir || name == ConftestName || exists j :: 0 <= j < |cases| && CaseFileName(cases[j]) == name
  {
    var writes := FileWrites(cases);
    AssignFrom(WithConftest(dir), writes, name);
    if name !in WithConftest(dir) || ExportSpec(dir, cases)[name] != WithConftest(dir)[name] {
      var j :| 0 <= j < |writes| && writes[j] == Some((name, ExportSpec(dir, cases)[name]));
      assert CaseFileName(cases[j]) == name;
    }
  }

  /** An empty suite exported into an empty directory yields only conftest.py. */
  lemma ExportEmpty()
    ensures ExportSpec(map[], []) == map[ConftestName := ConftestContent]
  {
  }

  /** Case ids that differ only in case or in characters outside [a-z0-9_] share a file: exporting
      "Ab-1" and then "ab_1" leaves only the second one's file. */
  lemma ExportCollision(c1: BenchmarkCase, c2: BenchmarkCase)
    requires c1.caseId == "Ab-1" && c2.caseId == "ab_1"
    ensures CaseFileName(c1) == CaseFileName(c2)
    ensures ExportSpec(map[], [c1, c2])[CaseFileName(c1)] == CaseFileContent(c2)
  {
    assert SafeId(c1.caseId) == SafeId(c2.caseId);
    ExportCaseFile(map[], [c1, c2], 1);
  }

  /** The generated case ids, eight hex digits, a hyphen and three hex digits, keep their digits and
      have the hyphen replaced. */
  lemma SafeShortUuid(caseId: string)
    requires ShortUuid(caseId)
    ensures SafeId(caseId) == caseId[..8] + "_" + caseId[9..]
  {
  }
}
