/**
 * The three extractors the parser and the generator use on a text fragment:
 * the list of reproduction steps, the environment mapping, and the
 * identifier derived from a title.
 *
 * `ExtractSteps` and `ExtractEnv` are loops over the fragment's lines, as
 * in the source; each is proved against a left fold (`StepsFold`,
 * `AssignAll`) whose properties are the lemmas below.
 */
module Extract {
  import opened Text
  import opened Wrappers
  import opened Patterns
  import opened Assign

  // ---------------------------------------------------------------------------
  // Steps
  // ---------------------------------------------------------------------------

  /** A line as the steps extractor sees it: a list item with its stripped text, or any other
      line, stripped. */
  datatype LineKind = Item(text: string) | Plain(text: string)

  function Classify(line: string): LineKind
  {
    match ListItem(line)
    case Some(g) => Item(Strip(g))
    case None => Plain(Strip(line))
  }

  function ClassifyAll(lines: seq<string>): (r: seq<LineKind>)
    ensures |r| == |lines|
    ensures forall i :: 0 <= i < |lines| ==> r[i] == Classify(lines[i])
  {
    seq(|lines|, i requires 0 <= i < |lines| => Classify(lines[i]))
  }

  /** The effect of one line on the steps found so far: a list item starts a new step; any other
      non-blank line, once a step exists, is appended to the last step after one space. */
  function StepLine(steps: seq<string>, k: LineKind): seq<string>
  {
    match k
    case Item(t) => steps + [t]
    case Plain(t) =>
      if t != "" && steps != [] then steps[|steps| - 1 := steps[|steps| - 1] + " " + t] else steps
  }

  /** The steps after the lines have been read, in order, starting from `acc`. */
  function StepsFold(acc: seq<string>, ks: seq<LineKind>): seq<string>
    decreases |ks|
  {
    if ks == [] then acc else StepLine(StepsFold(acc, ks[..|ks| - 1]), ks[|ks| - 1])
  }

  /** The steps of a text fragment. */
  function StepsOf(text: string): seq<string>
  {
    StepsFold([], ClassifyAll(SplitLines(text)))
  }

  /** The fold read straight off the lines. */
  function StepsOfLines(lines: seq<string>): seq<string>
    decreases |lines|
  {
    if lines == [] then [] else StepLine(StepsOfLines(lines[..|lines| - 1]), Classify(lines[|lines| - 1]))
  }

  lemma {:induction false} StepsOfLinesFold(lines: seq<string>)
    ensures StepsOfLines(lines) == StepsFold([], ClassifyAll(lines))
    decreases |lines|
  {
    if lines != [] {
      var init := lines[..|lines| - 1];
      StepsOfLinesFold(init);
      assert ClassifyAll(lines)[..|lines| - 1] == ClassifyAll(init);
    }
  }

  /** One more line. */
  lemma StepsOfLinesStep(lines: seq<string>, i: nat)
    requires i < |lines|
    ensures StepsOfLines(lines[..i + 1]) == StepLine(StepsOfLines(lines[..i]), Classify(lines[i]))
  {
    assert lines[..i + 1][..i] == lines[..i];
  }

  /** The body of the loop of `_extract_steps`: a list item starts a step, another non-blank line
      continues the last one. */
  method ReadStepLine(steps: seq<string>, line: string) returns (r: seq<string>)
    ensures r == StepLine(steps, Classify(line))
  {
    r := steps;
    var m := ListItem(line);
    if m.Some? {
      r := r + [Strip(m.value)];
    } else if Strip(line) != "" && r != [] {
      r := r[|r| - 1 := r[|r| - 1] + " " + Strip(line)];
    }
  }

  /** `_extract_steps`. */
  method ExtractSteps(text: string) returns (steps: seq<string>)
    ensures steps == StepsOf(text)
  {
    var lines := SplitLines(text);
    steps := [];
    for i := 0 to |lines|
      invariant steps == StepsOfLines(lines[..i])
    {
      StepsOfLinesStep(lines, i);
      steps := ReadStepLine(steps, lines[i]);
    }
    assert lines[..|lines|] == lines;
    StepsOfLinesFold(lines);
  }

  predicate NoItems(ks: seq<LineKind>) {
    forall i :: 0 <= i < |ks| ==> ks[i].Plain?
  }

  /** The text of every list item, in document order. */
  function ItemTexts(ks: seq<LineKind>): (r: seq<string>)
    decreases |ks|
  {
    if ks == [] then []
    else ItemTexts(ks[..|ks| - 1]) + (if ks[|ks| - 1].Item? then [ks[|ks| - 1].text] else [])
  }

  /** Exactly one step per list item, in document order, each step beginning with its item's text. */
  lemma {:induction false} StepsMatchItems(ks: seq<LineKind>)
    ensures |StepsFold([], ks)| == |ItemTexts(ks)|
    ensures forall k :: 0 <= k < |ItemTexts(ks)| ==> StartsWith(StepsFold([], ks)[k], ItemTexts(ks)[k])
    decreases |ks|
  {
    if ks != [] {
      var init := ks[..|ks| - 1];
      StepsMatchItems(init);
      var before := StepsFold([], init);
      var last := ks[|ks| - 1];
      if last.Plain? && last.text != "" && before != [] {
        var n := |before| - 1;
        assert StartsWith(before[n], ItemTexts(init)[n]);
        assert (before[n] + " " + last.text)[..|ItemTexts(init)[n]|] == before[n][..|ItemTexts(init)[n]|];
      }
    }
  }

  /** Reading lines in two parts is reading them in one. */
  lemma {:induction false} StepsFoldConcat(acc: seq<string>, a: seq<LineKind>, b: seq<LineKind>)
    ensures StepsFold(acc, a + b) == StepsFold(StepsFold(acc, a), b)
    decreases |b|
  {
    if b == [] {
      assert a + b == a;
    } else {
      assert (a + b)[..|a + b| - 1] == a + b[..|b| - 1];
      StepsFoldConcat(acc, a, b[..|b| - 1]);
    }
  }

  /** Lines before the first list item produce no step. */
  lemma {:induction false} StepsNoItems(ks: seq<LineKind>)
    requires NoItems(ks)
    ensures StepsFold([], ks) == []
    decreases |ks|
  {
    if ks != [] {
      StepsNoItems(ks[..|ks| - 1]);
    }
  }

  /** Dropping a leading stretch without list items does not change the steps. */
  lemma StepsIgnorePreamble(pre: seq<LineKind>, rest: seq<LineKind>)
    requires NoItems(pre)
    ensures StepsFold([], pre + rest) == StepsFold([], rest)
  {
    StepsFoldConcat([], pre, rest);
    StepsNoItems(pre);
  }

  /** What non-item lines add to the step before them: " " and the line, for each non-blank one. */
  function Continuation(ks: seq<LineKind>): string
    decreases |ks|
  {
    if ks == [] then ""
    else
      var t := ks[|ks| - 1].text;
      Continuation(ks[..|ks| - 1]) + (if t != "" then " " + t else "")
  }

  /** The index of the first list item at or after `i`, or `|ks|`. */
  function NextItem(ks: seq<LineKind>, i: nat): (j: nat)
    requires i <= |ks|
    ensures i <= j <= |ks|
    ensures forall k :: i <= k < j ==> ks[k].Plain?
    ensures j < |ks| ==> ks[j].Item?
    decreases |ks| - i
  {
    if i == |ks| || ks[i].Item? then i else NextItem(ks, i + 1)
  }

  /** A reference definition of the steps, read front to back: lines before the first item are
      skipped, and each item together with the non-item lines up to the next item makes one step. */
  function StepsByGroup(ks: seq<LineKind>): seq<string>
    decreases |ks|
  {
    if ks == [] then []
    else if ks[0].Plain? then StepsByGroup(ks[1..])
    else
      var j := NextItem(ks, 1);
      [ks[0].text + Continuation(ks[1..j])] + StepsByGroup(ks[j..])
  }

  lemma {:induction false} StepsContinue(acc: seq<string>, c: seq<LineKind>)
    requires acc != [] && NoItems(c)
    ensures StepsFold(acc, c) == acc[|acc| - 1 := acc[|acc| - 1] + Continuation(c)]
    decreases |c|
  {
    if c == [] {
      var a := acc[|acc| - 1];
      assert a + "" == a;
      assert acc[|acc| - 1 := a] == acc;
    } else {
      var init := c[..|c| - 1];
      var t := c[|c| - 1].text;
      StepsContinue(acc, init);
      var before := StepsFold(acc, init);
      if t != "" {
        assert acc[|acc| - 1] + Continuation(init) + " " + t == acc[|acc| - 1] + Continuation(c);
      } else {
        assert Continuation(c) == Continuation(init);
      }
    }
  }

  /** A list item and the plain lines after it make one step. */
  lemma StepsOneGroup(acc: seq<string>, item: LineKind, c: seq<LineKind>)
    requires item.Item? && NoItems(c)
    ensures StepsFold(acc, [item] + c) == acc + [item.text + Continuation(c)]
  {
    StepsFoldConcat(acc, [item], c);
    assert [item][..0] == [];
    assert StepsFold(acc, [item]) == acc + [item.text];
    StepsContinue(acc + [item.text], c);
  }

  /** The step a leading list item makes with the plain lines after it. */
  function FirstGroup(rest: seq<LineKind>): string
    requires rest != [] && rest[0].Item?
  {
    rest[0].text + Continuation(rest[1..NextItem(rest, 1)])
  }

  /** Folding over a leading group is adding its step. */
  lemma FoldFirstGroup(acc: seq<string>, rest: seq<LineKind>)
    requires rest != [] && rest[0].Item?
    ensures StepsFold(acc, rest) == StepsFold(acc + [FirstGroup(rest)], rest[NextItem(rest, 1)..])
  {
    var j := NextItem(rest, 1);
    var c := rest[1..j];
    assert NoItems(c) by {
      forall k | 0 <= k < |c| ensures c[k].Plain? { assert c[k] == rest[k + 1]; }
    }
    assert rest == ([rest[0]] + c) + rest[j..];
    StepsFoldConcat(acc, [rest[0]] + c, rest[j..]);
    StepsOneGroup(acc, rest[0], c);
  }

  lemma {:induction false} StepsFromItem(acc: seq<string>, rest: seq<LineKind>)
    requires rest == [] || rest[0].Item?
    ensures StepsFold(acc, rest) == acc + StepsByGroup(rest)
    decreases |rest|
  {
    if rest == [] {
      assert acc + [] == acc;
    } else {
      var j := NextItem(rest, 1);
      var step := FirstGroup(rest);
      FoldFirstGroup(acc, rest);
      StepsFromItem(acc + [step], rest[j..]);
      assert (acc + [step]) + StepsByGroup(rest[j..]) == acc + ([step] + StepsByGroup(rest[j..]));
    }
  }

  lemma {:induction false} StepsByGroupSkips(pre: seq<LineKind>, rest: seq<LineKind>)
    requires NoItems(pre)
    ensures StepsByGroup(pre + rest) == StepsByGroup(rest)
    decreases |pre|
  {
    if pre != [] {
      assert (pre + rest)[0] == pre[0];
      assert (pre + rest)[1..] == pre[1..] + rest;
      StepsByGroupSkips(pre[1..], rest);
    } else {
      assert pre + rest == rest;
    }
  }

  /** The loop's left fold and the grouping definition agree on every text. */
  lemma StepsFoldIsGrouping(ks: seq<LineKind>)
    ensures StepsFold([], ks) == StepsByGroup(ks)
  {
    var j := NextItem(ks, 0);
    assert ks == ks[..j] + ks[j..];
    assert NoItems(ks[..j]) by {
      forall k | 0 <= k < j ensures ks[..j][k].Plain? { assert ks[..j][k] == ks[k]; }
    }
    StepsIgnorePreamble(ks[..j], ks[j..]);
    StepsFromItem([], ks[j..]);
    StepsByGroupSkips(ks[..j], ks[j..]);
  }

  // ---------------------------------------------------------------------------
  // Environment
  // ---------------------------------------------------------------------------

  /** `s.replace(" ", "_")`. */
  function ReplaceSpaces(s: string): (r: string)
    ensures |r| == |s|
    ensures forall i :: 0 <= i < |s| ==> r[i] == if s[i] == ' ' then '_' else s[i]
  {
    seq(|s|, i requires 0 <= i < |s| => if s[i] == ' ' then '_' else s[i])
  }

  /** The key group as stored: stripped, lower-cased, spaces turned into underscores. */
  function NormaliseKey(group: string): string
  {
    ReplaceSpaces(Lower(Strip(group)))
  }

  /** The (key, value) one line contributes, if it matches the key/value pattern once stripped. */
  function EnvEntry(line: string): Option<(string, string)>
  {
    var m := EnvMatch(Strip(line));
    if m.Some? then Some((NormaliseKey(m.value.0), Strip(m.value.1))) else None
  }

  /** The entry of every line, in order. */
  function EnvEntries(lines: seq<string>): (r: seq<Option<(string, string)>>)
    ensures |r| == |lines|
    ensures forall i :: 0 <= i < |lines| ==> r[i] == EnvEntry(lines[i])
  {
    seq(|lines|, i requires 0 <= i < |lines| => EnvEntry(lines[i]))
  }

  /** The environment of a text fragment. */
  function EnvOf(text: string): map<string, string>
  {
    AssignAll(map[], EnvEntries(SplitLines(text)))
  }

  /** `_extract_env`. */
  method ExtractEnv(text: string) returns (env: map<string, string>)
    ensures env == EnvOf(text)
  {
    var lines := SplitLines(text);
    ghost var es := EnvEntries(lines);
    env := map[];
    for i := 0 to |lines|
      invariant env == AssignAll(map[], es[..i])
    {
      assert es[..i + 1][..i] == es[..i];
      ghost var before := env;
      var m := EnvMatch(Strip(lines[i]));
      if m.Some? {
        var key := NormaliseKey(m.value.0);
        env := env[key := Strip(m.value.1)];
      }
      assert es[i] == if m.Some? then Some((NormaliseKey(m.value.0), Strip(m.value.1))) else None;
      AssignStep(before, es[..i + 1]);
    }
    assert es[..|lines|] == es;
  }

  /** What a stored key looks like: non-empty, starting with a word character, lower case, no
      space character and no surrounding whitespace. */
  predicate WellFormedKey(k: string) {
    k != [] && IsWordChar(k[0]) && IsStripped(k)
    && forall i :: 0 <= i < |k| ==> k[i] != ' ' && !IsUpper(k[i])
  }

  /** An entry a line may contribute: a well-formed key and a non-empty stripped value. */
  predicate WellFormedEntry(e: Option<(string, string)>) {
    e.Some? ==> WellFormedKey(e.value.0) && e.value.1 != "" && IsStripped(e.value.1)
  }

  /** Keys and values of one matching line are well formed; the value is never empty. */
  lemma EnvEntryWellFormed(line: string)
    ensures WellFormedEntry(EnvEntry(line))
  {
    var l := Strip(line);
    var m := EnvMatch(l);
    if m.Some? {
      NormaliseKeyWellFormed(m.value.0);
      var v := m.value.1;
      // The value group is a non-empty suffix of a stripped line, so it ends in a non-space.
      assert l[|l| - 1] == v[|v| - 1];
      StripEmpty(v);
    }
  }

  /** A key group that starts with a word character normalises to a well-formed key. */
  lemma NormaliseKeyWellFormed(g: string)
    requires g != [] && IsWordChar(g[0])
    ensures WellFormedKey(NormaliseKey(g))
  {
    StripKeepsFirst(g);
    var sg := Strip(g);
    var lo := Lower(sg);
    var k := ReplaceSpaces(lo);
    var n := |sg| - 1;
    assert !IsSpace(lo[0]) && !IsSpace(lo[n]);
    assert k[0] == lo[0] && k[n] == lo[n];
  }

  /** Every key in the environment is well formed and every value is non-empty and stripped. */
  lemma EnvWellFormed(text: string, key: string)
    requires key in EnvOf(text)
    ensures WellFormedKey(key) && EnvOf(text)[key] != "" && IsStripped(EnvOf(text)[key])
  {
    var lines := SplitLines(text);
    var es := EnvEntries(lines);
    AssignFrom(map[], es, key);
    var i :| 0 <= i < |es| && es[i] == Some((key, EnvOf(text)[key]));
    EnvEntryWellFormed(lines[i]);
  }

  /** A key is present exactly when some line of the text gives it, and it holds the value given by
      the last such line: a later duplicate overwrites an earlier one. */
  lemma EnvLastWins(text: string, key: string, i: nat)
    requires i < |SplitLines(text)| && Sets(EnvEntry(SplitLines(text)[i]), key)
    requires forall j :: i < j < |SplitLines(text)| ==> !Sets(EnvEntry(SplitLines(text)[j]), key)
    ensures key in EnvOf(text) && EnvOf(text)[key] == EnvEntry(SplitLines(text)[i]).value.1
  {
    var lines := SplitLines(text);
    var es := EnvEntries(lines);
    AssignLastWins(es, key);
    assert forall j :: i < j < |es| ==> !Sets(es[j], key);
  }

  /** A key no line gives is absent. */
  lemma EnvOnlyGivenKeys(text: string, key: string)
    requires forall j :: 0 <= j < |SplitLines(text)| ==> !Sets(EnvEntry(SplitLines(text)[j]), key)
    ensures key !in EnvOf(text)
  {
    var es := EnvEntries(SplitLines(text));
    AssignLastWins(es, key);
    assert forall j :: 0 <= j < |es| ==> !Sets(es[j], key);
  }

  /** A key may be a single character: the group `\w[\w\s/]+?` can end in whitespace, which
      stripping removes, so "a  : c" gives the key "a". */
  lemma EnvOneCharKey()
    ensures EnvEntry("a  : c") == Some(("a", "c"))
  {
    var line := "a  : c";
    StripFixpoint(line);
    assert SkipSpaces(line, 0) == 0;
    assert SkipSpaces(line, 3) == 3 && SkipSpaces(line, 2) == 3;
    assert SkipSpaces(line, 5) == 5 && SkipSpaces(line, 4) == 5;
    assert line[5..] == "c";
    assert SpacesThenRest(line, 4, false) == Some("c");
    assert SepThenValue(line, 2) == Some("c");
    assert LazyKeyEnd(line, 2) == Some((2, "c"));
    assert line[0..2] == "a ";
    assert EnvMatch(line) == Some(("a ", "c"));
    assert Strip("a ") == "a";
    LowerNoUpper("a");
    assert ReplaceSpaces("a") == "a";
    assert NormaliseKey("a ") == "a";
    StripFixpoint("c");
  }

  // ---------------------------------------------------------------------------
  // Identifier
  // ---------------------------------------------------------------------------

  /** `re.sub(r"[^a-z0-9]+", "_", s)`: each maximal run of characters outside `[a-z0-9]`
      becomes a single underscore. Read back to front: a character outside the class adds an
      underscore unless the text so far already ends in one, which only a replaced run produces. */
  function Collapse(s: string): (r: string)
    decreases |s|
  {
    if s == [] then []
    else
      var prev := Collapse(s[..|s| - 1]);
      var c := s[|s| - 1];
      if IsLowerAlnum(c) then prev + [c]
      else if prev != [] && prev[|prev| - 1] == '_' then prev
      else prev + ['_']
  }

  predicate IsIdentChar(c: char) { IsLowerAlnum(c) || c == '_' }

  predicate IdentChars(s: string) {
    forall i :: 0 <= i < |s| ==> IsIdentChar(s[i])
  }

  predicate NoDoubleUnderscore(s: string) {
    forall i :: 0 <= i < |s| - 1 ==> !(s[i] == '_' && s[i + 1] == '_')
  }

  /** The `[a-z0-9]` characters of a string, in order. */
  function Alnums(s: string): string
    decreases |s|
  {
    if s == [] then []
    else Alnums(s[..|s| - 1]) + (if IsLowerAlnum(s[|s| - 1]) then [s[|s| - 1]] else [])
  }

  /** Collapsing yields only `[a-z0-9_]`, never two underscores in a row, and keeps every
      `[a-z0-9]` character in order. */
  lemma CollapseSpec(s: string)
    ensures IdentChars(Collapse(s)) && NoDoubleUnderscore(Collapse(s))
    ensures Alnums(Collapse(s)) == Alnums(s)
    ensures s != [] && IsLowerAlnum(s[|s| - 1]) ==> Collapse(s)[|Collapse(s)| - 1] == s[|s| - 1]
  {
    CollapseChars(s);
    CollapseAlnums(s);
  }

  lemma {:induction false} CollapseChars(s: string)
    ensures IdentChars(Collapse(s)) && NoDoubleUnderscore(Collapse(s))
    decreases |s|
  {
    if s != [] {
      var init := s[..|s| - 1];
      CollapseChars(init);
      var prev := Collapse(init);
      var r := Collapse(s);
      assert forall i :: 0 <= i < |prev| ==> r[i] == prev[i];
    }
  }

  lemma {:induction false} CollapseAlnums(s: string)
    ensures Alnums(Collapse(s)) == Alnums(s)
    decreases |s|
  {
    if s != [] {
      var init := s[..|s| - 1];
      CollapseAlnums(init);
      var prev := Collapse(init);
      var c := s[|s| - 1];
      if IsLowerAlnum(c) {
        assert (prev + [c])[..|prev|] == prev;
      } else if !(prev != [] && prev[|prev| - 1] == '_') {
        assert (prev + ['_'])[..|prev|] == prev;
      }
    }
  }

  /** On text that is already an identifier with no doubled underscore, collapsing changes nothing. */
  lemma {:induction false} CollapseFixpoint(s: string)
    requires IdentChars(s) && NoDoubleUnderscore(s)
    ensures Collapse(s) == s
    decreases |s|
  {
    if s != [] {
      var init := s[..|s| - 1];
      CollapseFixpoint(init);
      if !IsLowerAlnum(s[|s| - 1]) && init != [] {
        assert init[|init| - 1] == s[|s| - 2];
      }
      assert init + [s[|s| - 1]] == s;
    }
  }

  /** A text that starts with an alphanumeric is collapsed independently of what precedes it. */
  lemma {:induction false} CollapseAppend(x: string, y: string)
    requires y != [] && IsLowerAlnum(y[0])
    ensures Collapse(x + y) == Collapse(x) + Collapse(y)
    decreases |y|
  {
    if |y| == 1 {
      assert (x + y)[..|x + y| - 1] == x;
      assert y[..0] == [];
    } else {
      var init := y[..|y| - 1];
      assert (x + y)[..|x + y| - 1] == x + init;
      CollapseAppend(x, init);
      var p, q := Collapse(x), Collapse(init);
      assert init[..|init| - 1] + [init[|init| - 1]] == init;
      assert q != [];
      assert (p + q)[|p + q| - 1] == q[|q| - 1];
    }
  }

  /** A run of characters outside `[a-z0-9]` after an alphanumeric becomes one underscore. */
  lemma {:induction false} CollapseRun(a: string, sep: string)
    requires a != [] && IsLowerAlnum(a[|a| - 1]) && sep != [] && NoAlnum(sep)
    ensures Collapse(a + sep) == Collapse(a) + "_"
    decreases |sep|
  {
    CollapseSpec(a);
    if |sep| == 1 {
      assert (a + sep)[..|a + sep| - 1] == a;
    } else {
      var init := sep[..|sep| - 1];
      assert (a + sep)[..|a + sep| - 1] == a + init;
      CollapseRun(a, init);
    }
  }

  /** A word: a non-empty run of `[a-z0-9]`. */
  predicate IsWord(w: string) {
    w != [] && forall i :: 0 <= i < |w| ==> IsLowerAlnum(w[i])
  }

  /** A separator: a non-empty run of characters outside `[a-z0-9]`. */
  predicate IsSeparator(s: string) {
    s != [] && NoAlnum(s)
  }

  /** Words with a separator between each two: `ws[0] + seps[0] + ws[1] + ... + ws[|ws| - 1]`. */
  function Interleave(ws: seq<string>, seps: seq<string>): string
    requires |ws| == |seps| + 1
    decreases |seps|
  {
    if seps == [] then ws[0] else ws[0] + seps[0] + Interleave(ws[1..], seps[1..])
  }

  lemma WordCollapse(w: string)
    requires IsWord(w)
    ensures Collapse(w) == w
  {
    CollapseFixpoint(w);
  }

  /** Words with a separator between each two collapse to the words joined by single
      underscores. */
  lemma {:induction false} CollapseWords(ws: seq<string>, seps: seq<string>)
    requires |ws| == |seps| + 1
    requires forall i :: 0 <= i < |ws| ==> IsWord(ws[i])
    requires forall i :: 0 <= i < |seps| ==> IsSeparator(seps[i])
    ensures var t := Interleave(ws, seps);
            t != [] && IsLowerAlnum(t[0]) && IsLowerAlnum(t[|t| - 1])
            && Collapse(t) == Join("_", ws)
    ensures var j := Join("_", ws);
            j != [] && IsLowerAlnum(j[0]) && IsLowerAlnum(j[|j| - 1])
    decreases |seps|
  {
    assert IsWord(ws[0]);
    WordCollapse(ws[0]);
    if seps != [] {
      CollapseWords(ws[1..], seps[1..]);
      var rest := Interleave(ws[1..], seps[1..]);
      assert IsSeparator(seps[0]);
      CollapseRun(ws[0], seps[0]);
      CollapseAppend(ws[0] + seps[0], rest);
      assert Interleave(ws, seps) == (ws[0] + seps[0]) + rest;
      var t := Interleave(ws, seps);
      assert t[|t| - 1] == rest[|rest| - 1];
      var j, k := Join("_", ws), Join("_", ws[1..]);
      assert j == ws[0] + "_" + k;
      assert j[|j| - 1] == k[|k| - 1];
    }
  }

  /** `strip('_')` of underscores, a text that neither starts nor ends with one, and underscores,
      is that text. */
  lemma StripUnderscores(u: string, t: string, v: string)
    requires forall i :: 0 <= i < |u| ==> u[i] == '_'
    requires forall i :: 0 <= i < |v| ==> v[i] == '_'
    requires t != [] && t[0] != '_' && t[|t| - 1] != '_'
    ensures StripChar(u + t + v, '_') == t
  {
    var s := u + t + v;
    var l := LStripChar(s, '_');
    assert s[|u|] == t[0];
    assert l == t + v;
    var r := RStripChar(l, '_');
    assert l[|t| - 1] == t[|t| - 1];
  }

  /** Only underscores are left when a text without alphanumerics is collapsed. */
  lemma CollapseNoAlnum(s: string)
    requires NoAlnum(s)
    ensures forall i :: 0 <= i < |Collapse(s)| ==> Collapse(s)[i] == '_'
  {
    CollapseSpec(s);
    NoAlnumAlnums(s);
    NoAlnumAlnums(Collapse(s));
  }

  /** Runs without alphanumerics around a text that starts and ends with one are collapsed to at
      most an underscore each, which `strip('_')` then removes. */
  lemma CollapseFramed(pre: string, mid: string, post: string)
    requires mid != [] && IsLowerAlnum(mid[0]) && IsLowerAlnum(mid[|mid| - 1])
    requires NoAlnum(pre) && NoAlnum(post)
    requires var c := Collapse(mid); c != [] && IsLowerAlnum(c[0]) && IsLowerAlnum(c[|c| - 1])
    ensures StripChar(Collapse(pre + mid + post), '_') == Collapse(mid)
  {
    var c := Collapse(mid);
    CollapseAppend(pre, mid);
    CollapseNoAlnum(pre);
    var u := Collapse(pre);
    var v: string := if post == [] then [] else "_";
    assert Collapse(pre + mid + post) == u + c + v by {
      if post != [] {
        assert (pre + mid)[|pre + mid| - 1] == mid[|mid| - 1];
        CollapseRun(pre + mid, post);
      } else {
        assert pre + mid + post == pre + mid;
      }
    }
    StripUnderscores(u, c, v);
  }

  /** Words of `[a-z0-9]` separated by runs of other characters, with any such run before or after
      them, sanitise to the words joined by single underscores, cut to 60 characters. */
  lemma SanitiseWords(text: string, pre: string, ws: seq<string>, seps: seq<string>, post: string)
    requires |ws| == |seps| + 1
    requires forall i :: 0 <= i < |ws| ==> IsWord(ws[i])
    requires forall i :: 0 <= i < |seps| ==> IsSeparator(seps[i])
    requires NoAlnum(pre) && NoAlnum(post)
    requires Lower(text) == pre + Interleave(ws, seps) + post
    ensures var j := Join("_", ws);
            SanitiseIdentifier(text) == if |j| > 60 then j[..60] else j
  {
    CollapseWords(ws, seps);
    CollapseFramed(pre, Interleave(ws, seps), post);
    assert TrimmedId(text) == Join("_", ws);
  }

  /** "a b" sanitises to "a_b": the space becomes an underscore. */
  lemma SanitiseSpace()
    ensures SanitiseIdentifier("a b") == "a_b"
  {
    LowerNoUpper("a b");
    assert "a b" == [] + Interleave(["a", "b"], [" "]) + [];
    SanitiseWords("a b", [], ["a", "b"], [" "], []);
  }

  lemma {:induction false} AlnumsOfSlice(s: string, i: nat, j: nat)
    requires i <= j <= |s| && NoAlnum(s[..i])
    ensures Alnums(s[i..j]) == Alnums(s[..j])
    decreases j
  {
    if j > i {
      AlnumsOfSlice(s, i, j - 1);
      assert s[i..j][..j - i - 1] == s[i..j - 1];
      assert s[..j][..j - 1] == s[..j - 1];
    } else {
      NoAlnumAlnums(s[..i]);
    }
  }

  predicate NoAlnum(s: string) {
    forall i :: 0 <= i < |s| ==> !IsLowerAlnum(s[i])
  }

  lemma {:induction false} NoAlnumAlnums(s: string)
    ensures Alnums(s) == [] <==> NoAlnum(s)
    decreases |s|
  {
    if s != [] {
      NoAlnumAlnums(s[..|s| - 1]);
      assert forall i :: 0 <= i < |s| - 1 ==> s[..|s| - 1][i] == s[i];
    }
  }

  /** The identifier before truncation: collapsed and trimmed of underscores. */
  function TrimmedId(text: string): string {
    StripChar(Collapse(Lower(text)), '_')
  }

  lemma TrimmedIdSpec(text: string)
    ensures var t := TrimmedId(text);
            IdentChars(t) && NoDoubleUnderscore(t)
            && (t == [] <==> NoAlnum(Lower(text)))
            && (t != [] ==> t[0] != '_' && Alnums(Lower(text)) != [] && t[0] == Alnums(Lower(text))[0])
  {
    var c := Collapse(Lower(text));
    CollapseSpec(Lower(text));
    TrimmedIdentifier(c);
    NoAlnumAlnums(Lower(text));
    NoAlnumAlnums(TrimmedId(text));
  }

  /** `_sanitise_identifier`: lower-case, collapse runs outside `[a-z0-9]` to one underscore, trim
      underscores at both ends, keep at most 60 characters, and fall back to "bug". */
  function SanitiseIdentifier(text: string): (r: string)
    ensures 0 < |r| <= 60
    ensures IdentChars(r) && NoDoubleUnderscore(r) && r[0] != '_'
    ensures NoAlnum(Lower(text)) ==> r == "bug"
    ensures !NoAlnum(Lower(text)) ==> Alnums(Lower(text)) != [] && r[0] == Alnums(Lower(text))[0]
  {
    var t := TrimmedId(text);
    TrimmedIdSpec(text);
    var r := if |t| > 60 then t[..60] else t;
    SliceIdentifier(t, 0, |r|);
    assert t[0..|r|] == r;
    if r == [] then
      assert "bug"[1] == 'u';
      "bug"
    else r
  }

  /** Any slice of an identifier without a doubled underscore is one too. */
  lemma SliceIdentifier(c: string, i: nat, j: nat)
    requires IdentChars(c) && NoDoubleUnderscore(c) && i <= j <= |c|
    ensures IdentChars(c[i..j]) && NoDoubleUnderscore(c[i..j])
  {
    assert forall k :: 0 <= k < j - i ==> c[i..j][k] == c[i + k];
  }

  /** Trimming underscores from a collapsed identifier keeps its alphanumerics and starts it at the
      first of them. */
  lemma TrimmedIdentifier(c: string)
    requires IdentChars(c) && NoDoubleUnderscore(c)
    ensures var t := StripChar(c, '_');
            IdentChars(t) && NoDoubleUnderscore(t) && Alnums(t) == Alnums(c)
            && (t != [] ==> t[0] != '_' && t[0] == Alnums(c)[0])
  {
    var l := LStripChar(c, '_');
    var t := RStripChar(l, '_');
    TrimmedLeft(c);
    TrimmedRight(l);
    if t != [] {
      assert t[0] == l[0];
      assert IsLowerAlnum(t[0]);
      AlnumsFirst(t);
    }
  }

  lemma TrimmedLeft(c: string)
    requires IdentChars(c) && NoDoubleUnderscore(c)
    ensures var l := LStripChar(c, '_');
            IdentChars(l) && NoDoubleUnderscore(l) && Alnums(l) == Alnums(c)
  {
    var l := LStripChar(c, '_');
    var i := |c| - |l|;
    SliceIdentifier(c, i, |c|);
    assert NoAlnum(c[..i]) by {
      forall k | 0 <= k < i ensures c[..i][k] == '_' { assert c[..i][k] == c[k]; }
    }
    AlnumsOfSlice(c, i, |c|);
    assert c[..|c|] == c;
  }

  lemma TrimmedRight(l: string)
    requires IdentChars(l) && NoDoubleUnderscore(l)
    ensures var t := RStripChar(l, '_');
            IdentChars(t) && NoDoubleUnderscore(t) && Alnums(t) == Alnums(l)
  {
    var t := RStripChar(l, '_');
    var tail := l[|t|..];
    Halves(l, |t|);
    SliceIdentifier(l, 0, |t|);
    AlnumsAppend(t, tail);
    assert NoAlnum(tail) by {
      forall k | 0 <= k < |tail| ensures tail[k] == '_' { assert tail[k] == l[|t| + k]; }
    }
    NoAlnumAlnums(tail);
    assert Alnums(t) + [] == Alnums(t);
  }

  lemma {:induction false} AlnumsAppend(a: string, b: string)
    ensures Alnums(a + b) == Alnums(a) + Alnums(b)
    decreases |b|
  {
    if b == [] {
      assert a + b == a;
    } else {
      assert (a + b)[..|a + b| - 1] == a + b[..|b| - 1];
      AlnumsAppend(a, b[..|b| - 1]);
    }
  }

  lemma AlnumsFirst(t: string)
    requires t != [] && IsLowerAlnum(t[0])
    ensures Alnums(t) != [] && Alnums(t)[0] == t[0]
  {
    assert t == [t[0]] + t[1..];
    AlnumsAppend([t[0]], t[1..]);
    assert [t[0]][..0] == [];
  }

  /** A string that already has the shape of a sanitised identifier and does not end in an
      underscore is left unchanged. */
  lemma SanitiseFixpoint(s: string)
    requires 0 < |s| <= 60 && IdentChars(s) && NoDoubleUnderscore(s)
    requires s[0] != '_' && s[|s| - 1] != '_'
    ensures SanitiseIdentifier(s) == s
  {
    LowerNoUpper(s);
    CollapseFixpoint(s);
    assert LStripChar(s, '_') == s;
    assert RStripChar(s, '_') == s;
  }

  /** Sanitising is not idempotent: 59 alphanumerics, a space and one more character are cut to a
      name ending in an underscore, which a second pass trims. */
  lemma SanitiseNotIdempotent(x: string)
    requires |x| == 59 && forall i :: 0 <= i < |x| ==> IsLowerAlnum(x[i])
    ensures SanitiseIdentifier(x + " b") == x + "_"
    ensures SanitiseIdentifier(SanitiseIdentifier(x + " b")) == x
  {
    TrimmedSpaceB(x);
    assert (x + "_b")[..60] == x + "_";
    TrimmedUnderscore(x);
  }

  lemma TrimmedSpaceB(x: string)
    requires |x| == 59 && forall i :: 0 <= i < |x| ==> IsLowerAlnum(x[i])
    ensures TrimmedId(x + " b") == x + "_b"
  {
    var t := x + " b";
    assert forall i :: 0 <= i < |t| ==> !IsUpper(t[i]) by {
      forall i | 0 <= i < |t| ensures !IsUpper(t[i]) {
        if i < |x| { assert t[i] == x[i]; }
      }
    }
    LowerNoUpper(t);
    CollapseFixpoint(x);
    assert t[..|t| - 1] == x + " " && (x + " ")[..|x|] == x;
    assert Collapse(x + " ") == x + "_";
    assert Collapse(t) == x + "_b";
    assert LStripChar(x + "_b", '_') == x + "_b";
    assert RStripChar(x + "_b", '_') == x + "_b";
  }

  lemma TrimmedUnderscore(x: string)
    requires |x| == 59 && forall i :: 0 <= i < |x| ==> IsLowerAlnum(x[i])
    ensures TrimmedId(x + "_") == x
  {
    var u := x + "_";
    assert forall i :: 0 <= i < |u| ==> !IsUpper(u[i]) by {
      forall i | 0 <= i < |u| ensures !IsUpper(u[i]) {
        if i < |x| { assert u[i] == x[i]; }
      }
    }
    LowerNoUpper(u);
    CollapseFixpoint(u);
    assert LStripChar(u, '_') == u;
    assert RStripChar(u, '_') == RStripChar(x, '_');
    assert RStripChar(x, '_') == x;
  }
}
