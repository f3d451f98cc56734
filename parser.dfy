/**
 * `BugParser`: turning the text of a bug report, or a GitHub issue, into a
 * `BugReport`.
 *
 * A report is split into sections by Markdown headings: every heading pattern
 * is run over the whole text, the hits are sorted by offset, and each section
 * runs from its hit to the next one, minus the first line, stripped. A later
 * heading of the same kind replaces an earlier one. Only when there is no
 * heading at all are `Label: value` lines tried instead, and then the first
 * line for a label wins. The title falls back to the first line that is not
 * blank once '#' marks are removed, and the description to the next five
 * non-blank lines.
 *
 * The uuid-based identifiers are parameters here.
 */
module Parser {
  import opened Text
  import opened Wrappers
  import opened Assign
  import opened Patterns
  import opened Extract
  import opened Models

  // ---------------------------------------------------------------------------
  // Heading hits
  // ---------------------------------------------------------------------------

  /** A heading hit: the offset where the match starts and the section it opens. */
  type Hit = (nat, Section)

  function Tagged(offsets: seq<nat>, section: Section): (r: seq<Hit>)
    ensures |r| == |offsets|
    ensures forall i :: 0 <= i < |r| ==> r[i] == (offsets[i], section)
  {
    seq(|offsets|, i requires 0 <= i < |offsets| => (offsets[i], section))
  }

  /** The hits of the first `n` heading patterns, pattern by pattern, each in text order. */
  function RuleHits(text: string, n: nat): (r: seq<Hit>)
    requires n <= |HeadingRules|
    ensures forall i :: 0 <= i < |r| ==> r[i].0 < |text|
  {
    if n == 0 then []
    else RuleHits(text, n - 1) + Tagged(FindIter(text, HeadingRules[n - 1], 0), HeadingRules[n - 1].section)
  }

  function Hits(text: string): seq<Hit>
  {
    RuleHits(text, |HeadingRules|)
  }

  /** No heading pattern matches anywhere exactly when there are no hits. */
  lemma {:induction false} NoHits(text: string, n: nat)
    requires n <= |HeadingRules|
    ensures RuleHits(text, n) == [] <==>
              forall k: nat, p: nat :: k < n && p <= |text| ==> HeadingAt(text, p, HeadingRules[k]).None?
  {
    if n > 0 {
      var rule := HeadingRules[n - 1];
      NoHits(text, n - 1);
      FindIterEmpty(text, rule, 0);
      var a := RuleHits(text, n - 1);
      var b := Tagged(FindIter(text, rule, 0), rule.section);
      assert RuleHits(text, n) == a + b;
      if RuleHits(text, n) == [] {
        assert a == [] && FindIter(text, rule, 0) == [];
        forall k: nat, p: nat | k < n && p <= |text| ensures HeadingAt(text, p, HeadingRules[k]).None? {
          if k == n - 1 {
            assert HeadingRules[k] == rule;
          }
        }
      } else if a == [] {
        assert FindIter(text, rule, 0) != [];
        var p: nat :| p <= |text| && HeadingAt(text, p, rule).Some?;
        assert HeadingAt(text, p, HeadingRules[n - 1]).Some?;
      }
    }
  }

  // ---------------------------------------------------------------------------
  // Sorting the hits by offset (`list.sort` with a key: stable)
  // ---------------------------------------------------------------------------

  predicate SortedByOffset(ps: seq<Hit>) {
    forall i, j :: 0 <= i < j < |ps| ==> ps[i].0 <= ps[j].0
  }

  /** Places `h` after every hit whose offset is not greater, so equal offsets keep their order. */
  function Insert(h: Hit, ps: seq<Hit>): (r: seq<Hit>)
    ensures multiset(r) == multiset(ps) + multiset{h}
    ensures SortedByOffset(ps) ==> SortedByOffset(r)
  {
    if ps == [] then [h]
    else if h.0 < ps[0].0 then [h] + ps
    else
      var rest := Insert(h, ps[1..]);
      assert ps == [ps[0]] + ps[1..];
      InsertSorted(h, ps, rest);
      [ps[0]] + rest
  }

  lemma InsertSorted(h: Hit, ps: seq<Hit>, rest: seq<Hit>)
    requires ps != [] && ps[0].0 <= h.0 && multiset(rest) == multiset(ps[1..]) + multiset{h}
    requires SortedByOffset(ps) ==> SortedByOffset(rest)
    ensures SortedByOffset(ps) ==> SortedByOffset([ps[0]] + rest)
  {
    if SortedByOffset(ps) {
      forall k | 0 <= k < |rest| ensures ps[0].0 <= rest[k].0 {
        assert rest[k] in multiset(rest);
        if rest[k] != h {
          assert rest[k] in multiset(ps[1..]);
          var j :| 0 <= j < |ps[1..]| && ps[1..][j] == rest[k];
          assert ps[j + 1] == rest[k];
        }
      }
      var r := [ps[0]] + rest;
      forall i, j | 0 <= i < j < |r| ensures r[i].0 <= r[j].0 {
        if i > 0 { assert r[i] == rest[i - 1] && r[j] == rest[j - 1]; } else { assert r[j] == rest[j - 1]; }
      }
    }
  }

  function SortByOffset(ps: seq<Hit>): (r: seq<Hit>)
    ensures multiset(r) == multiset(ps)
    ensures SortedByOffset(r)
  {
    if ps == [] then []
    else
      assert ps == ps[..|ps| - 1] + [ps[|ps| - 1]];
      Insert(ps[|ps| - 1], SortByOffset(ps[..|ps| - 1]))
  }

  /** Sorting keeps every hit, so the sorted offsets still lie inside the text. */
  lemma SortedHitsInText(text: string, ps: seq<Hit>)
    requires forall i :: 0 <= i < |ps| ==> ps[i].0 < |text|
    ensures forall i :: 0 <= i < |SortByOffset(ps)| ==> SortByOffset(ps)[i].0 < |text|
    ensures |SortByOffset(ps)| == |ps|
  {
    var r := SortByOffset(ps);
    assert |r| == |multiset(r)| == |multiset(ps)| == |ps|;
    forall i | 0 <= i < |r| ensures r[i].0 < |text| {
      assert r[i] in multiset(ps);
    }
  }

  // ---------------------------------------------------------------------------
  // The section map
  // ---------------------------------------------------------------------------

  /** Hits that can delimit sections: in offset order and inside the text. */
  predicate Ordered(text: string, ps: seq<Hit>) {
    SortedByOffset(ps) && forall i :: 0 <= i < |ps| ==> ps[i].0 < |text|
  }

  /** Where section `i` ends: at the next hit, or at the end of the text. */
  function SectionEnd(text: string, ps: seq<Hit>, i: nat): (e: nat)
    requires Ordered(text, ps) && i < |ps|
    ensures ps[i].0 <= e <= |text|
  {
    if i + 1 < |ps| then ps[i + 1].0 else |text|
  }

  /** The text between a hit and the end of its section, without its first line. */
  function SectionBody(text: string, start: nat, end: nat): string
    requires start <= end <= |text|
  {
    var c := text[start..end];
    var h := IndexOf(c, '\n');
    if h < |c| then c[h + 1..] else c
  }

  /** A section's content: its body, stripped. */
  function SectionText(text: string, start: nat, end: nat): string
    requires start <= end <= |text|
  {
    Strip(SectionBody(text, start, end))
  }

  /** A section whose hit lies on a blank line (which `\s*` allows when a blank line precedes the
      heading) loses only that blank line: the heading line itself stays in the content. */
  lemma HeadingLineKept(text: string, start: nat, end: nat)
    requires start < end <= |text| && text[start] == '\n'
    ensures SectionText(text, start, end) == Strip(text[start + 1..end])
  {
    assert text[start..end][0] == '\n';
    assert text[start..end][1..] == text[start + 1..end];
  }

  lemma SectionBodyAfter(text: string, start: nat, end: nat, k: nat)
    requires start <= k < end <= |text| && text[k] == '\n'
    requires forall j :: start <= j < k ==> text[j] != '\n'
    ensures SectionBody(text, start, end) == text[k + 1..end]
  {
    var c := text[start..end];
    assert forall j :: 0 <= j < k - start ==> c[j] == text[start + j];
    IndexOfAt(c, '\n', k - start);
    assert c[k - start + 1..] == text[k + 1..end];
  }

  /** Otherwise the content starts on the line after the hit. */
  lemma HeadingLineSkipped(text: string, start: nat, end: nat, k: nat)
    requires start <= k < end <= |text| && text[k] == '\n'
    requires forall j :: start <= j < k ==> text[j] != '\n'
    ensures SectionText(text, start, end) == Strip(text[k + 1..end])
  {
    SectionBodyAfter(text, start, end, k);
  }

  /** `section_map[name] = content` for every hit, in offset order. */
  function HeadingEntries(text: string, ps: seq<Hit>): (r: seq<Option<(Section, string)>>)
    requires Ordered(text, ps)
    ensures |r| == |ps|
  {
    seq(|ps|, i requires 0 <= i < |ps| => Some((ps[i].1, SectionText(text, ps[i].0, SectionEnd(text, ps, i)))))
  }

  /** The candidates one line offers in inline mode, one per inline pattern, in pattern order. */
  function LineInlineEntries(line: string): (r: seq<Option<(Section, string)>>)
    ensures |r| == |InlineRules|
  {
    seq(|InlineRules|, j requires 0 <= j < |InlineRules| =>
      var m := InlineMatch(line, InlineRules[j]);
      if m.Some? then Some((InlineRules[j].section, Strip(m.value))) else None)
  }

  function InlineEntries(lines: seq<string>): seq<Option<(Section, string)>>
  {
    FlatMap(LineInlineEntries, lines)
  }

  /** The hits in offset order. */
  function SortedHits(text: string): (ps: seq<Hit>)
    ensures Ordered(text, ps)
    ensures ps == [] <==> Hits(text) == []
  {
    SortedHitsInText(text, Hits(text));
    SortByOffset(Hits(text))
  }

  /** The section map: from the headings when there is at least one, otherwise from inline labels. */
  function SectionMap(text: string): map<Section, string>
  {
    var ps := SortedHits(text);
    if ps != [] then AssignAll(map[], HeadingEntries(text, ps))
    else SetDefaultAll(map[], InlineEntries(SplitLines(text)))
  }

  /** `section_map.get(name, "")`. */
  function Get(m: map<Section, string>, name: Section): string
  {
    if name in m then m[name] else ""
  }

  // ---------------------------------------------------------------------------
  // Fallbacks
  // ---------------------------------------------------------------------------

  /** A line with surrounding whitespace and leading '#' marks removed. */
  function Cleaned(line: string): string
  {
    Strip(LStripChar(Strip(line), '#'))
  }

  /** Every line, cleaned. */
  function CleanedLines(lines: seq<string>): (r: seq<string>)
    ensures |r| == |lines|
    ensures forall i :: 0 <= i < |lines| ==> r[i] == Cleaned(lines[i])
  {
    seq(|lines|, i requires 0 <= i < |lines| => Cleaned(lines[i]))
  }

  /** The first non-empty string, or "" when there is none. */
  function FirstNonEmpty(cs: seq<string>): string
    decreases |cs|
  {
    if cs == [] then ""
    else if cs[0] != "" then cs[0]
    else FirstNonEmpty(cs[1..])
  }

  /** The first non-empty string is empty exactly when all are; otherwise it is one of them, with
      only empty strings before it. */
  lemma {:induction false} FirstNonEmptySpec(cs: seq<string>)
    ensures FirstNonEmpty(cs) == "" <==> forall i :: 0 <= i < |cs| ==> cs[i] == ""
    ensures FirstNonEmpty(cs) != "" ==>
              exists i :: 0 <= i < |cs| && FirstNonEmpty(cs) == cs[i] && forall j :: 0 <= j < i ==> cs[j] == ""
    decreases |cs|
  {
    if cs != [] && cs[0] == "" {
      var rest := cs[1..];
      FirstNonEmptySpec(rest);
      assert forall i :: 1 <= i < |cs| ==> cs[i] == rest[i - 1];
      if FirstNonEmpty(rest) != "" {
        var i :| 0 <= i < |rest| && FirstNonEmpty(rest) == rest[i] && forall j :: 0 <= j < i ==> rest[j] == "";
        assert FirstNonEmpty(cs) == cs[i + 1];
      }
    }
  }

  /** The fallback title: the first line that is not empty once cleaned, cleaned. */
  function FirstTitle(lines: seq<string>): string
  {
    FirstNonEmpty(CleanedLines(lines))
  }

  /** The lines that are not blank, in order (`ln.strip()` is empty exactly on blank lines, by
      `StripEmpty`). */
  function NonBlank(lines: seq<string>): seq<string>
    decreases |lines|
  {
    if lines == [] then []
    else if !AllSpace(lines[0]) then [lines[0]] + NonBlank(lines[1..])
    else NonBlank(lines[1..])
  }

  /** The kept lines are lines of the input, and none of them is blank. */
  lemma {:induction false} NonBlankSpec(lines: seq<string>)
    ensures |NonBlank(lines)| <= |lines|
    ensures forall k :: 0 <= k < |NonBlank(lines)| ==> NonBlank(lines)[k] in lines && !AllSpace(NonBlank(lines)[k])
    decreases |lines|
  {
    if lines != [] {
      NonBlankSpec(lines[1..]);
      assert forall x :: x in lines[1..] ==> x in lines;
    }
  }

  /** Filtering distributes over concatenation: the kept lines of two runs of lines are those of
      the first run followed by those of the second. */
  lemma {:induction false} NonBlankAppend(a: seq<string>, b: seq<string>)
    ensures NonBlank(a + b) == NonBlank(a) + NonBlank(b)
    decreases |a|
  {
    if a == [] {
      assert a + b == b;
    } else {
      NonBlankAppend(a[1..], b);
      assert (a + b)[1..] == a[1..] + b;
    }
  }

  /** Every non-blank line is kept, and it sits after the lines kept before it: at position
      `|NonBlank(lines[..i])|`. */
  lemma NonBlankKeeps(lines: seq<string>, i: nat)
    requires i < |lines| && !AllSpace(lines[i])
    ensures |NonBlank(lines[..i])| < |NonBlank(lines)|
    ensures NonBlank(lines)[|NonBlank(lines[..i])|] == lines[i]
  {
    assert lines == lines[..i] + ([lines[i]] + lines[i + 1..]);
    NonBlankAppend(lines[..i], [lines[i]] + lines[i + 1..]);
    assert ([lines[i]] + lines[i + 1..])[1..] == lines[i + 1..];
  }

  /** At most the first `n` items. */
  function Take(items: seq<string>, n: nat): (r: seq<string>)
    ensures |r| <= n && |r| <= |items| && r == items[..|r|]
    ensures |items| <= n ==> r == items
  {
    if |items| <= n then items else items[..n]
  }

  /** The description used when no section gives one: up to five non-blank lines after the first,
      joined by single spaces (the lines themselves are not stripped). */
  function FallbackDescription(lines: seq<string>): string
  {
    Join(" ", Take(if lines != [] then NonBlank(lines[1..]) else [], 5))
  }

  // ---------------------------------------------------------------------------
  // The parsed report
  // ---------------------------------------------------------------------------

  /** The field values handed to `BugReport`, before the model strips them. */
  datatype Fields = Fields(
    title: string,
    description: string,
    steps: seq<string>,
    expected: string,
    actual: string,
    environment: map<string, string>)

  function ParseFields(text: string): Fields
  {
    var m := SectionMap(text);
    var title := if Get(m, Title) != "" then Get(m, Title) else FirstTitle(SplitLines(text));
    var description := if Get(m, Description) != "" then Get(m, Description)
                       else FallbackDescription(SplitLines(text));
    Fields(title, description, StepsOf(Get(m, Steps)), Get(m, Expected), Get(m, Actual),
           EnvOf(Get(m, Environment)))
  }

  /** `BugParser.parse` with the generated id given as `bugId`. */
  function ParseSpec(text: string, bugId: string): (r: BugReport)
    requires ShortUuid(bugId)
    ensures ValidBugReport(r) && r.bugId == bugId
  {
    var f := ParseFields(text);
    ShortUuidIsId(bugId);
    NewBugReport(bugId, f.title, f.description, f.steps, f.expected, f.actual, f.environment).value
  }

  /** The heading loop of `parse`: every match of every heading pattern, pattern by pattern. */
  method CollectHits(text: string) returns (positions: seq<Hit>)
    ensures positions == Hits(text)
  {
    positions := [];
    for n := 0 to |HeadingRules|
      invariant positions == RuleHits(text, n)
    {
      var rule := HeadingRules[n];
      var offsets := FindIter(text, rule, 0);
      ghost var before := positions;
      for k := 0 to |offsets|
        invariant positions == before + Tagged(offsets[..k], rule.section)
      {
        assert Tagged(offsets[..k + 1], rule.section) == Tagged(offsets[..k], rule.section) + [(offsets[k], rule.section)];
        positions := positions + [(offsets[k], rule.section)];
      }
      assert offsets[..|offsets|] == offsets;
    }
  }

  /** The section loop of `parse`: each hit's section runs to the next hit, loses its first line,
      and is stored stripped under its name. */
  method HeadingSectionMap(text: string, positions: seq<Hit>) returns (sectionMap: map<Section, string>)
    requires Ordered(text, positions)
    ensures sectionMap == AssignAll(map[], HeadingEntries(text, positions))
  {
    sectionMap := map[];
    for idx := 0 to |positions|
      invariant sectionMap == AssignAll(map[], HeadingEntries(text, positions)[..idx])
    {
      var (start, name) := positions[idx];
      var end := if idx + 1 < |positions| then positions[idx + 1].0 else |text|;
      var content := text[start..end];
      var headingEnd := IndexOf(content, '\n');
      if headingEnd < |content| {
        content := content[headingEnd + 1..];
      }
      HeadingStep(text, positions, idx, sectionMap, content);
      sectionMap := sectionMap[name := Strip(content)];
    }
    assert HeadingEntries(text, positions)[..|positions|] == HeadingEntries(text, positions);
  }

  lemma HeadingStep(text: string, ps: seq<Hit>, idx: nat, d: map<Section, string>, body: string)
    requires Ordered(text, ps) && idx < |ps|
    requires d == AssignAll(map[], HeadingEntries(text, ps)[..idx])
    requires body == SectionBody(text, ps[idx].0, SectionEnd(text, ps, idx))
    ensures AssignAll(map[], HeadingEntries(text, ps)[..idx + 1]) == d[ps[idx].1 := Strip(body)]
  {
    var es := HeadingEntries(text, ps);
    assert es[..idx + 1][..idx] == es[..idx];
    AssignStep(d, es[..idx + 1]);
  }

  /** The inline loop of `parse`: every line against every inline pattern, first match kept. */
  method InlineSectionMap(lines: seq<string>) returns (sectionMap: map<Section, string>)
    ensures sectionMap == SetDefaultAll(map[], InlineEntries(lines))
  {
    sectionMap := map[];
    for i := 0 to |lines|
      invariant sectionMap == SetDefaultAll(map[], InlineEntries(lines[..i]))
    {
      var line := lines[i];
      ghost var start := sectionMap;
      ghost var es := LineInlineEntries(line);
      for j := 0 to |InlineRules|
        invariant sectionMap == SetDefaultAll(start, es[..j])
      {
        var m := InlineMatch(line, InlineRules[j]);
        assert es[j] == if m.Some? then Some((InlineRules[j].section, Strip(m.value))) else None;
        assert es[..j + 1][..j] == es[..j];
        SetDefaultStep(start, sectionMap, es[..j + 1]);
        if m.Some? {
          var field := InlineRules[j].section;
          if field !in sectionMap {
            sectionMap := sectionMap[field := Strip(m.value)];
          }
        }
      }
      assert es[..|InlineRules|] == es;
      assert lines[..i + 1][..i] == lines[..i];
      SetDefaultConcat(map[], InlineEntries(lines[..i]), es);
    }
    assert lines[..|lines|] == lines;
  }

  /** The title fallback loop of `parse`: the first line that is not empty once cleaned. */
  method FallbackTitle(lines: seq<string>) returns (title: string)
    ensures title == FirstTitle(lines)
  {
    title := "";
    ghost var cs := CleanedLines(lines);
    var i := 0;
    while i < |lines|
      invariant 0 <= i <= |lines| && title == ""
      invariant FirstNonEmpty(cs) == FirstNonEmpty(cs[i..])
    {
      var stripped := Strip(LStripChar(Strip(lines[i]), '#'));
      if stripped != "" {
        title := stripped;
        break;
      }
      assert cs[i..][1..] == cs[i + 1..];
      i := i + 1;
    }
  }

  /** `BugParser.parse`: collect the heading hits, sort them, build the section map from them (or
      from inline labels when there are none), apply the title and description fallbacks, and
      extract steps and environment from their sections. */
  method Parse(text: string, bugId: string) returns (r: BugReport)
    requires ShortUuid(bugId)
    ensures r == ParseSpec(text, bugId)
  {
    var positions := CollectHits(text);
    positions := SortByOffset(positions);
    assert positions == SortedHits(text);

    var sectionMap: map<Section, string>;
    if positions != [] {
      sectionMap := HeadingSectionMap(text, positions);
    } else {
      sectionMap := InlineSectionMap(SplitLines(text));
    }
    assert sectionMap == SectionMap(text);

    var title := Get(sectionMap, Title);
    if title == "" {
      title := FallbackTitle(SplitLines(text));
    }

    var description := Get(sectionMap, Description);
    if description == "" {
      var lines := SplitLines(text);
      var descLines := if lines != [] then NonBlank(lines[1..]) else [];
      description := Join(" ", Take(descLines, 5));
    }

    var steps := ExtractSteps(Get(sectionMap, Steps));
    var expected := Get(sectionMap, Expected);
    var actual := Get(sectionMap, Actual);
    var env := ExtractEnv(Get(sectionMap, Environment));
    assert Fields(title, description, steps, expected, actual, env) == ParseFields(text);

    ShortUuidIsId(bugId);
    var report := NewBugReport(bugId, title, description, steps, expected, actual, env);
    r := report.value;
  }

  // ---------------------------------------------------------------------------
  // Properties of `parse`
  // ---------------------------------------------------------------------------

  /** With headings present, a section's content comes from its last heading in the text, and
      runs from that heading to the next one. */
  lemma SectionLastWins(text: string, i: nat)
    requires i < |SortedHits(text)|
    requires forall j :: i < j < |SortedHits(text)| ==> SortedHits(text)[j].1 != SortedHits(text)[i].1
    ensures Get(SectionMap(text), SortedHits(text)[i].1)
            == SectionText(text, SortedHits(text)[i].0, SectionEnd(text, SortedHits(text), i))
  {
    var ps := SortedHits(text);
    var es := HeadingEntries(text, ps);
    assert SectionMap(text) == AssignAll(map[], es);
    AssignLastWins(es, ps[i].1);
    assert forall j :: i < j < |es| ==> !Sets(es[j], ps[i].1);
    assert es[i].value.1 == SectionText(text, ps[i].0, SectionEnd(text, ps, i));
  }

  /** With headings present, a section that has no heading is empty, whatever inline labels say. */
  lemma SectionWithoutHeading(text: string, section: Section)
    requires SortedHits(text) != []
    requires forall j :: 0 <= j < |SortedHits(text)| ==> SortedHits(text)[j].1 != section
    ensures Get(SectionMap(text), section) == ""
  {
    var ps := SortedHits(text);
    var es := HeadingEntries(text, ps);
    AssignLastWins(es, section);
    assert forall j :: 0 <= j < |es| ==> !Sets(es[j], section);
  }

  /** Lines on which pattern `j` does not match offer no candidate for its section. */
  lemma {:induction false} InlineNoMatch(lines: seq<string>, j: nat)
    requires j < |InlineRules|
    requires forall k :: 0 <= k < |lines| ==> InlineMatch(lines[k], InlineRules[j]).None?
    ensures forall k :: 0 <= k < |InlineEntries(lines)| ==> !Sets(InlineEntries(lines)[k], InlineRules[j].section)
    decreases |lines|
  {
    if lines != [] {
      var init := lines[..|lines| - 1];
      InlineNoMatch(init, j);
      var es := LineInlineEntries(lines[|lines| - 1]);
      forall k | 0 <= k < |es| ensures !Sets(es[k], InlineRules[j].section) {
        if k != j { assert InlineRules[k].section != InlineRules[j].section; }
      }
      var all := InlineEntries(lines);
      assert all == InlineEntries(init) + es;
      forall k | |InlineEntries(init)| <= k < |all| ensures !Sets(all[k], InlineRules[j].section) {
        assert all[k] == es[k - |InlineEntries(init)|];
      }
    }
  }

  /** Within one line, the patterns tried before pattern `j` are for other sections. */
  lemma InlineEarlierRules(line: string, j: nat)
    requires j < |InlineRules|
    ensures forall k :: 0 <= k < j ==> !Sets(LineInlineEntries(line)[k], InlineRules[j].section)
  {
    forall k | 0 <= k < j ensures !Sets(LineInlineEntries(line)[k], InlineRules[j].section) {
      assert InlineRules[k].section != InlineRules[j].section;
    }
  }

  /** Every inline candidate names the title, description, expected or actual section. */
  lemma {:induction false} InlineSections(lines: seq<string>, k: nat)
    requires k < |InlineEntries(lines)| && InlineEntries(lines)[k].Some?
    ensures InlineEntries(lines)[k].value.0 in {Title, Description, Expected, Actual}
    decreases |lines|
  {
    var init := lines[..|lines| - 1];
    if k < |InlineEntries(init)| {
      InlineSections(init, k);
    }
  }

  lemma CutAt<T>(a: seq<T>, es: seq<T>, r: seq<T>, j: nat)
    requires j < |es|
    ensures a + es + r == (a + es[..j]) + [es[j]] + (es[j + 1..] + r)
  {
    assert es == es[..j] + [es[j]] + es[j + 1..];
  }

  /** On lines alone: the first line matching pattern `j` decides its section. */
  lemma InlineFirstWinsLines(lines: seq<string>, l: nat, j: nat)
    requires l < |lines| && j < |InlineRules|
    requires InlineMatch(lines[l], InlineRules[j]).Some?
    requires forall k :: 0 <= k < l ==> InlineMatch(lines[k], InlineRules[j]).None?
    ensures InlineRules[j].section in SetDefaultAll(map[], InlineEntries(lines))
    ensures SetDefaultAll(map[], InlineEntries(lines))[InlineRules[j].section]
            == Strip(InlineMatch(lines[l], InlineRules[j]).value)
  {
    var section := InlineRules[j].section;
    var a := InlineEntries(lines[..l]);
    var es := LineInlineEntries(lines[l]);
    InlineNoMatch(lines[..l], j);
    InlineEarlierRules(lines[l], j);
    var prefix := a + es[..j];
    assert forall k :: 0 <= k < |prefix| ==> !Sets(prefix[k], section) by {
      forall k | 0 <= k < |prefix| ensures !Sets(prefix[k], section) {
        if k >= |a| { assert prefix[k] == es[k - |a|]; }
      }
    }
    FlatMapSplit(LineInlineEntries, lines, l);
    CutAt(a, es, InlineEntries(lines[l + 1..]), j);
    SetDefaultFirstAt(prefix, es[j], es[j + 1..] + InlineEntries(lines[l + 1..]), section);
  }

  /** Without headings, a labelled field takes the value on the first line that carries its label. */
  lemma InlineFirstWins(text: string, l: nat, j: nat)
    requires Hits(text) == []
    requires l < |SplitLines(text)| && j < |InlineRules|
    requires InlineMatch(SplitLines(text)[l], InlineRules[j]).Some?
    requires forall k :: 0 <= k < l ==> InlineMatch(SplitLines(text)[k], InlineRules[j]).None?
    ensures Get(SectionMap(text), InlineRules[j].section) == Strip(InlineMatch(SplitLines(text)[l], InlineRules[j]).value)
  {
    InlineFirstWinsLines(SplitLines(text), l, j);
  }

  /** Without headings, no steps and no environment are ever found: the inline labels cover only
      the title, description, expected and actual fields. */
  lemma InlineModeNoStepsNoEnv(text: string)
    requires Hits(text) == []
    ensures ParseFields(text).steps == [] && ParseFields(text).environment == map[]
  {
    var es := InlineEntries(SplitLines(text));
    forall k | 0 <= k < |es| ensures !Sets(es[k], Steps) && !Sets(es[k], Environment) {
      if es[k].Some? { InlineSections(SplitLines(text), k); }
    }
    SetDefaultFirstWins(es, Steps);
    SetDefaultFirstWins(es, Environment);
    assert StepsOf("") == [];
    assert EnvOf("") == map[];
  }

  /** The title is the title section when that is non-empty; otherwise the first line that is
      non-empty once cleaned of whitespace and '#' marks; it is empty only when there is neither. */
  lemma ParsedTitle(text: string)
    ensures ParseFields(text).title == "" <==>
              Get(SectionMap(text), Title) == ""
              && forall i :: 0 <= i < |SplitLines(text)| ==> Cleaned(SplitLines(text)[i]) == ""
    ensures Get(SectionMap(text), Title) == "" && ParseFields(text).title != "" ==>
              exists i :: 0 <= i < |SplitLines(text)| && ParseFields(text).title == Cleaned(SplitLines(text)[i])
                          && forall j :: 0 <= j < i ==> Cleaned(SplitLines(text)[j]) == ""
  {
    var lines := SplitLines(text);
    FirstNonEmptySpec(CleanedLines(lines));
  }

  /** The fallback description joins, in order, the first five non-blank lines after the first
      line (all of them when there are fewer): each such line is in it, at the place given by the
      non-blank lines before it, and nothing else is. */
  lemma FallbackDescriptionSpec(lines: seq<string>)
    ensures var rest := if lines != [] then lines[1..] else [];
            var kept := NonBlank(rest);
            var n := if |kept| < 5 then |kept| else 5;
            FallbackDescription(lines) == Join(" ", kept[..n])
            && (forall i :: 0 <= i < |rest| && !AllSpace(rest[i]) && |NonBlank(rest[..i])| < 5 ==>
                  |NonBlank(rest[..i])| < n && kept[..n][|NonBlank(rest[..i])|] == rest[i])
            && (forall k :: 0 <= k < n ==> !AllSpace(kept[k]) && kept[k] in rest)
  {
    var rest := if lines != [] then lines[1..] else [];
    NonBlankSpec(rest);
    forall i | 0 <= i < |rest| && !AllSpace(rest[i]) && |NonBlank(rest[..i])| < 5
      ensures |NonBlank(rest[..i])| < |NonBlank(rest)| && NonBlank(rest)[|NonBlank(rest[..i])|] == rest[i]
    {
      NonBlankKeeps(rest, i);
    }
  }

  /** Parsing the empty text succeeds with every field empty. */
  lemma ParseEmpty(bugId: string)
    requires ShortUuid(bugId)
    ensures ParseSpec("", bugId) == BugReport(bugId, "", "", [], "", "", map[])
  {
    NoHits("", |HeadingRules|);
    assert SplitLines("") == [];
    assert SectionMap("") == map[];
    assert FallbackDescription([]) == "";
    assert StepsOf("") == [];
    assert EnvOf("") == map[];
    TrimFixpoint("");
    ShortUuidIsId(bugId);
    assert TrimEach([]) == [];
  }

  // ---------------------------------------------------------------------------
  // GitHub issues
  // ---------------------------------------------------------------------------

  /** A value of the issue dictionary: a missing key, JSON null, a number or a string. */
  datatype JsonValue = Absent | Null | Num(n: int) | Str(s: string)

  datatype Issue = Issue(number: JsonValue, id: JsonValue, title: JsonValue, body: JsonValue)

  /** Python truthiness: zero, the empty string, null and a missing key are false. */
  predicate Truthy(v: JsonValue) {
    match v
    case Num(n) => n != 0
    case Str(s) => s != ""
    case _ => false
  }

  /** `str(issue.get(key, default))`: a null becomes "None". */
  function PyStr(v: JsonValue, default: string): string {
    match v
    case Absent => default
    case Null => "None"
    case Num(n) => IntToString(n)
    case Str(s) => s
  }

  /** `issue.get("number") or issue.get("id") or token`, as text. */
  function IssueNumber(issue: Issue, token: string): string {
    if Truthy(issue.number) then PyStr(issue.number, "")
    else if Truthy(issue.id) then PyStr(issue.id, "")
    else token
  }

  /** `BugParser.parse_github_issue`: the id is "gh-" and the issue number (or id, or a random
      token), the title is the issue's own when it has one, and every other field comes from
      parsing the body. Parsing the body also builds an intermediate report; since trimming twice
      is trimming once, the field values are taken before that report and trimmed here. */
  function ParseGithubIssue(issue: Issue, token: string): (r: BugReport)
    requires ShortHex(token)
    ensures ValidBugReport(r) && StartsWith(r.bugId, "gh-")
  {
    var bugId := "gh-" + IssueNumber(issue, token);
    var title := PyStr(issue.title, "");
    var partial := ParseFields(PyStr(issue.body, ""));
    TrimKeepsPrefix("gh-", IssueNumber(issue, token));
    NewBugReport(bugId, if title != "" then title else partial.title, partial.description,
                 partial.steps, partial.expected, partial.actual, partial.environment).value
  }

  /** Every field but the id and the title is what parsing the body as plain text gives. */
  lemma GithubBodyAsParsed(issue: Issue, token: string, bugId: string)
    requires ShortHex(token) && ShortUuid(bugId)
    ensures var r := ParseGithubIssue(issue, token);
            var p := ParseSpec(PyStr(issue.body, ""), bugId);
            r.description == p.description && r.steps == p.steps && r.expected == p.expected
            && r.actual == p.actual && r.environment == p.environment
  {
    TrimKeepsPrefix("gh-", IssueNumber(issue, token));
    ShortUuidIsId(bugId);
  }

  /** A title given by the issue wins, trimmed, even when it is only whitespace; without one the
      title parsed from the body is used. */
  lemma GithubTitle(issue: Issue, token: string, bugId: string)
    requires ShortHex(token) && ShortUuid(bugId)
    ensures PyStr(issue.title, "") != "" ==> ParseGithubIssue(issue, token).title == Trim(PyStr(issue.title, ""))
    ensures PyStr(issue.title, "") == "" ==>
              ParseGithubIssue(issue, token).title == ParseSpec(PyStr(issue.body, ""), bugId).title
  {
    TrimKeepsPrefix("gh-", IssueNumber(issue, token));
    ShortUuidIsId(bugId);
  }

  /** The issue number comes first, then the issue id, then the random token. */
  lemma GithubId(issue: Issue, token: string)
    requires ShortHex(token)
    ensures Truthy(issue.number) ==> ParseGithubIssue(issue, token).bugId == Trim("gh-" + PyStr(issue.number, ""))
    ensures !Truthy(issue.number) && Truthy(issue.id) ==>
              ParseGithubIssue(issue, token).bugId == Trim("gh-" + PyStr(issue.id, ""))
    ensures !Truthy(issue.number) && !Truthy(issue.id) ==> ParseGithubIssue(issue, token).bugId == "gh-" + token
  {
    TrimKeepsPrefix("gh-", IssueNumber(issue, token));
    if !Truthy(issue.number) && !Truthy(issue.id) {
      var s := "gh-" + token;
      assert !IsTrimSpace(s[0]) && !IsTrimSpace(s[|s| - 1]);
      TrimFixpoint(s);
    }
  }

  /** Issue number 42 gives the id "gh-42", whatever else the issue holds. */
  lemma GithubNumberFortyTwo(issue: Issue, token: string)
    requires ShortHex(token) && issue.number == Num(42)
    ensures ParseGithubIssue(issue, token).bugId == "gh-42"
  {
    assert IssueNumber(issue, token) == IntToString(42);
    GithubId(issue, token);
    GhFortyTwo();
  }

  lemma GhFortyTwo()
    ensures Trim("gh-" + IntToString(42)) == "gh-42"
  {
    assert NatToString(42) == "42";
    var s := "gh-" + "42";
    assert s == "gh-42";
    TrimFixpoint(s);
  }


}
