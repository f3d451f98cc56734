/**
 * The converter's fixed pattern library, written as hand-made matchers
 * that give the same answer as Python's `re` on ASCII text:
 *  - six section-heading patterns `^\s*#+\s*<keyword>` (MULTILINE, IGNORECASE),
 *    scanned over a whole document the way `finditer` scans;
 *  - four inline-label patterns `^<Label>\s*:\s*(.+)` (IGNORECASE);
 *  - the list-item pattern `^\s*(?:\d+[.)]\s+|[-*]\s+)(.+)`;
 *  - the key/value pattern `^[-*]?\s*(\w[\w\s/]+?)\s*[:\-]\s*(.+)`.
 * The last three are only ever applied to single lines (no '\n'), where `.+`
 * runs to the end of the line.
 */
module Patterns {
  import opened Text
  import opened Wrappers

  /** The named regions of a bug report. */
  datatype Section = Title | Description | Steps | Expected | Actual | Environment

  /** The first index at or after `i` that does not hold whitespace. */
  function SkipSpaces(s: string, i: nat): (j: nat)
    requires i <= |s|
    ensures i <= j <= |s|
    ensures forall k :: i <= k < j ==> IsSpace(s[k])
    ensures j == |s| || !IsSpace(s[j])
    decreases |s| - i
  {
    if i < |s| && IsSpace(s[i]) then SkipSpaces(s, i + 1) else i
  }

  /** The first index at or after `i` that does not hold `c`. */
  function SkipRun(s: string, i: nat, c: char): (j: nat)
    requires i <= |s|
    ensures i <= j <= |s|
    ensures forall k :: i <= k < j ==> s[k] == c
    ensures j == |s| || s[j] != c
    decreases |s| - i
  {
    if i < |s| && s[i] == c then SkipRun(s, i + 1, c) else i
  }

  /** The first index at or after `i` that does not hold a decimal digit. */
  function SkipDigits(s: string, i: nat): (j: nat)
    requires i <= |s|
    ensures i <= j <= |s|
    ensures forall k :: i <= k < j ==> IsDigit(s[k])
    ensures j == |s| || !IsDigit(s[j])
    decreases |s| - i
  {
    if i < |s| && IsDigit(s[i]) then SkipDigits(s, i + 1) else i
  }

  // ---------------------------------------------------------------------------
  // Section headings
  // ---------------------------------------------------------------------------

  /** One element of a heading keyword: a lower-case word matched case-insensitively, a run of
      one or more whitespace characters (`\s+`), or an optional character (`c?`). */
  datatype Tok = Word(w: string) | Spaces | OptChar(c: char)

  /** Matches a token sequence at `i`, giving the end of the match. Runs of whitespace are taken
      whole, which is what the regex does because in every keyword a word follows them. */
  function MatchToks(s: string, i: nat, toks: seq<Tok>): (r: Option<nat>)
    requires i <= |s|
    ensures r.Some? ==> i <= r.value <= |s|
    decreases |toks|
  {
    if toks == [] then Some(i)
    else
      match toks[0]
      case Word(w) =>
        if i + |w| <= |s| && Lower(s[i..i + |w|]) == w then MatchToks(s, i + |w|, toks[1..]) else None
      case Spaces =>
        var j := SkipSpaces(s, i);
        if j > i then MatchToks(s, j, toks[1..]) else None
      case OptChar(c) =>
        if i < |s| && LowerChar(s[i]) == c then MatchToks(s, i + 1, toks[1..]) else MatchToks(s, i, toks[1..])
  }

  /** An alternation: the first alternative that matches at `i`. */
  function MatchAlts(s: string, i: nat, alts: seq<seq<Tok>>): (r: Option<nat>)
    requires i <= |s|
    ensures r.Some? ==> i <= r.value <= |s|
  {
    if alts == [] then None
    else
      var first := MatchToks(s, i, alts[0]);
      if first.Some? then first else MatchAlts(s, i, alts[1..])
  }

  datatype HeadingRule = HeadingRule(keyword: seq<seq<Tok>>, section: Section)

  /** The six heading patterns in the order the parser runs them. The keywords are prefixes:
      nothing requires a word boundary after them (`HeadingKeywordIsPrefix`). */
  const HeadingRules: seq<HeadingRule> := [
    HeadingRule([[Word("title")]], Title),
    HeadingRule([[Word("description")]], Description),
    HeadingRule([[Word("steps"), Spaces, Word("to"), Spaces, Word("reproduce")],
                 [Word("reproduction"), Spaces, Word("step"), OptChar('s')],
                 [Word("how"), Spaces, Word("to"), Spaces, Word("reproduce")]], Steps),
    HeadingRule([[Word("expected"), Spaces, Word("behavior")],
                 [Word("expected"), Spaces, Word("result")],
                 [Word("expected"), Spaces, Word("outcome")]], Expected),
    HeadingRule([[Word("actual"), Spaces, Word("behavior")],
                 [Word("actual"), Spaces, Word("result")],
                 [Word("actual"), Spaces, Word("outcome")]], Actual),
    HeadingRule([[Word("environment")]], Environment)
  ]

  /** `^` under MULTILINE: the start of the text or just after a '\n'. */
  predicate LineStart(s: string, p: nat) {
    p == 0 || (0 < p <= |s| && s[p - 1] == '\n')
  }

  /** `^\s*#+\s*<keyword>` tried at `p`, giving the end of the match. `\s` also matches '\n', so
      a match may begin at the start of a blank line above the heading. */
  function HeadingAt(s: string, p: nat, rule: HeadingRule): (r: Option<nat>)
    requires p <= |s|
    ensures r.Some? ==> p < r.value <= |s| && LineStart(s, p)
  {
    if !LineStart(s, p) then None
    else
      var i1 := SkipSpaces(s, p);
      var i2 := SkipRun(s, i1, '#');
      if i2 == i1 then None
      else MatchAlts(s, SkipSpaces(s, i2), rule.keyword)
  }

  /** A heading preceded by a blank line also matches from the start of that blank line, because
      `\s*` runs over the '\n': `finditer`, scanning forward, reports the blank line's offset. */
  lemma BlankLineHeading(s: string, p: nat, rule: HeadingRule)
    requires p < |s| && LineStart(s, p) && s[p] == '\n'
    ensures HeadingAt(s, p, rule) == HeadingAt(s, p + 1, rule)
  {
    assert SkipSpaces(s, p) == SkipSpaces(s, p + 1);
  }

  predicate StrictlyIncreasing(ps: seq<nat>) {
    forall i, j :: 0 <= i < j < |ps| ==> ps[i] < ps[j]
  }

  /** The start offsets `finditer` reports for one heading pattern, searching from `from`: the
      search resumes where the previous match ended, so matches never overlap. */
  function FindIter(s: string, rule: HeadingRule, from: nat): (r: seq<nat>)
    requires from <= |s|
    ensures forall k :: 0 <= k < |r| ==> from <= r[k] < |s|
    ensures StrictlyIncreasing(r)
    decreases |s| - from
  {
    if from == |s| then []
    else
      match HeadingAt(s, from, rule)
      case Some(e) =>
        var rest := FindIter(s, rule, e);
        var r := [from] + rest;
        assert r[0] == from;
        assert forall k :: 1 <= k < |r| ==> r[k] == rest[k - 1];
        r
      case None => FindIter(s, rule, from + 1)
  }

  /** Every offset `finditer` reports is a line start where the pattern matches. */
  lemma {:induction false} FindIterSound(s: string, rule: HeadingRule, from: nat, k: nat)
    requires from <= |s| && k < |FindIter(s, rule, from)|
    ensures HeadingAt(s, FindIter(s, rule, from)[k], rule).Some?
    decreases |s| - from
  {
    var h := HeadingAt(s, from, rule);
    if h.Some? {
      if k > 0 {
        FindIterSound(s, rule, h.value, k - 1);
      }
    } else {
      FindIterSound(s, rule, from + 1, k);
    }
  }

  /** `finditer` finds nothing exactly when the pattern matches at no position. */
  lemma {:induction false} FindIterEmpty(s: string, rule: HeadingRule, from: nat)
    requires from <= |s|
    ensures FindIter(s, rule, from) == [] <==> forall p :: from <= p <= |s| ==> HeadingAt(s, p, rule).None?
    decreases |s| - from
  {
    if from == |s| {
      assert HeadingAt(s, from, rule).None?;
    } else if HeadingAt(s, from, rule).None? {
      FindIterEmpty(s, rule, from + 1);
      assert FindIter(s, rule, from) == FindIter(s, rule, from + 1);
    } else {
      assert FindIter(s, rule, from)[0] == from;
    }
  }

  /** `finditer` misses no match: every position where the pattern matches is reported, unless it
      lies inside an earlier reported match, which the search has already resumed past. */
  lemma FindIterComplete(s: string, rule: HeadingRule, from: nat, p: nat)
    requires from <= p < |s| && HeadingAt(s, p, rule).Some?
    ensures p in FindIter(s, rule, from)
            || exists q :: q in FindIter(s, rule, from) && HeadingAt(s, q, rule).Some?
                           && q < p < HeadingAt(s, q, rule).value
  {
    var q := FindIterCover(s, rule, from, p);
  }

  /** The reported match that covers a matching position `p`: `p` itself, or the match the
      search was inside when it passed `p`. */
  lemma {:induction false} FindIterCover(s: string, rule: HeadingRule, from: nat, p: nat) returns (q: nat)
    requires from <= p < |s| && HeadingAt(s, p, rule).Some?
    ensures q in FindIter(s, rule, from) && q <= p && HeadingAt(s, q, rule).Some?
    ensures q < p ==> p < HeadingAt(s, q, rule).value
    decreases |s| - from
  {
    FindIterStep(s, rule, from);
    var h := HeadingAt(s, from, rule);
    if h.None? {
      q := FindIterCover(s, rule, from + 1, p);
    } else if p < h.value {
      q := from;
    } else {
      q := FindIterCover(s, rule, h.value, p);
    }
  }

  /** One step of the search: a match at `from` is reported and the search resumes at its end;
      otherwise the search moves on by one. */
  lemma FindIterStep(s: string, rule: HeadingRule, from: nat)
    requires from < |s|
    ensures var h := HeadingAt(s, from, rule);
            FindIter(s, rule, from) == if h.Some? then [from] + FindIter(s, rule, h.value)
                                       else FindIter(s, rule, from + 1)
  {
  }

  /** "## Titles" is a title heading: the keyword needs no word boundary after it. */
  lemma HeadingKeywordIsPrefix()
    ensures HeadingAt("## Titles", 0, HeadingRules[0]).Some?
  {
  }

  // ---------------------------------------------------------------------------
  // Inline labels, list items, key/value pairs (single lines)
  // ---------------------------------------------------------------------------

  /** `\s*(.+)` (when `atLeastOne` is false) or `\s+(.+)` (when true) at `k`, giving the captured
      group: the rest of the line after the whitespace, or, when the whitespace runs to the end
      of the line, its last character, provided the run is long enough to give one back. */
  function SpacesThenRest(line: string, k: nat, atLeastOne: bool): (r: Option<string>)
    requires k <= |line|
    ensures r.Some? ==> r.value != [] && |r.value| <= |line| && r.value == line[|line| - |r.value|..]
    ensures r.Some? ==> |line| - |r.value| >= (if atLeastOne then k + 1 else k)
  {
    var m := SkipSpaces(line, k);
    var least := if atLeastOne then 1 else 0;
    if m - k < least then None
    else if m < |line| then Some(line[m..])
    else if m - k > least then Some(line[m - 1..])
    else None
  }

  datatype InlineRule = InlineRule(labels: seq<string>, section: Section)

  /** The four inline-label patterns in the order the parser tries them. */
  const InlineRules: seq<InlineRule> := [
    InlineRule(["title", "summary"], Title),
    InlineRule(["description"], Description),
    InlineRule(["expected"], Expected),
    InlineRule(["actual"], Actual)
  ]

  /** `\s*:\s*(.+)` at `i`. */
  function AfterLabel(line: string, i: nat): Option<string>
    requires i <= |line|
  {
    var j := SkipSpaces(line, i);
    if j < |line| && line[j] == ':' then SpacesThenRest(line, j + 1, false) else None
  }

  /** `^(?:L1|L2|...)\s*:\s*(.+)` with IGNORECASE, giving the captured group of the first label
      for which the whole pattern matches. */
  function LabelMatch(line: string, labels: seq<string>): (r: Option<string>)
    ensures r.Some? ==> exists k :: 0 <= k < |labels| && StartsWith(Lower(line), labels[k])
  {
    if labels == [] then None
    else
      var l := labels[0];
      if StartsWith(Lower(line), l) && AfterLabel(line, |l|).Some? then AfterLabel(line, |l|)
      else LabelMatch(line, labels[1..])
  }

  function InlineMatch(line: string, rule: InlineRule): Option<string>
  {
    LabelMatch(line, rule.labels)
  }

  /** The list-item marker `\d+[.)]` or `[-*]` at `i`, giving the index just after it. */
  function MarkerEnd(line: string, i: nat): (r: Option<nat>)
    requires i <= |line|
    ensures r.Some? ==> i < r.value <= |line|
  {
    if i < |line| && IsDigit(line[i]) then
      var j := SkipDigits(line, i);
      if j < |line| && (line[j] == '.' || line[j] == ')') then Some(j + 1) else None
    else if i < |line| && (line[i] == '-' || line[i] == '*') then Some(i + 1)
    else None
  }

  /** `^\s*(?:\d+[.)]\s+|[-*]\s+)(.+)` applied with `match` to a line, giving the captured item text. */
  function ListItem(line: string): Option<string>
  {
    match MarkerEnd(line, SkipSpaces(line, 0))
    case None => None
    case Some(k) => SpacesThenRest(line, k, true)
  }

  /** The class `[\w\s/]`. */
  predicate InKeyClass(c: char) {
    IsWordChar(c) || IsSpace(c) || c == '/'
  }

  /** `\s*[:\-]\s*(.+)` at `e`, giving the value group. */
  function SepThenValue(line: string, e: nat): Option<string>
    requires e <= |line|
  {
    var f := SkipSpaces(line, e);
    if f < |line| && (line[f] == ':' || line[f] == '-') then SpacesThenRest(line, f + 1, false) else None
  }

  /** The lazy `[\w\s/]+?`: the key group tentatively ends at `e`; it is extended one character
      at a time, as long as the class allows, until the rest of the pattern matches. */
  function LazyKeyEnd(line: string, e: nat): (r: Option<(nat, string)>)
    requires e <= |line|
    ensures r.Some? ==> e <= r.value.0 <= |line| && SepThenValue(line, r.value.0) == Some(r.value.1)
    ensures r.Some? ==> forall k :: e <= k < r.value.0 ==> InKeyClass(line[k])
    decreases |line| - e
  {
    match SepThenValue(line, e)
    case Some(v) => Some((e, v))
    case None => if e < |line| && InKeyClass(line[e]) then LazyKeyEnd(line, e + 1) else None
  }

  /** `^[-*]?\s*(\w[\w\s/]+?)\s*[:\-]\s*(.+)` applied with `match`, giving (key group, value group).
      When the line starts with a bullet, trying the pattern without it cannot succeed, because
      the key must then start with the bullet, which is not a word character. */
  function EnvMatch(line: string): (r: Option<(string, string)>)
    ensures r.Some? ==> |r.value.0| >= 2 && IsWordChar(r.value.0[0]) && r.value.1 != []
    ensures r.Some? ==> |r.value.1| <= |line| && r.value.1 == line[|line| - |r.value.1|..]
  {
    var s0 := if |line| > 0 && (line[0] == '-' || line[0] == '*') then 1 else 0;
    var s1 := SkipSpaces(line, s0);
    if s1 + 1 < |line| && IsWordChar(line[s1]) && InKeyClass(line[s1 + 1]) then
      match LazyKeyEnd(line, s1 + 2)
      case Some((e, v)) => Some((line[s1..e], v))
      case None => None
    else None
  }
}
