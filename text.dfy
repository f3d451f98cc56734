/**
 * Character classes and the handful of Python string operations the
 * converter relies on (`str.lower`, `str.strip`, `str.lstrip`,
 * `str.splitlines`, `str.join`, `in` on strings, `str(int)`), restricted to
 * ASCII text whose only line separator is '\n'.
 */
module Text {

  /** `str.isspace()` on ASCII, which is also what the regex class `\s` matches. */
  predicate IsSpace(c: char) {
    c == ' ' || c == '\t' || c == '\n' || c == '\r' || c == '\U{0B}' || c == '\U{0C}'
    || ('\U{1C}' <= c <= '\U{1F}')
  }

  predicate IsDigit(c: char) { '0' <= c <= '9' }

  predicate IsUpper(c: char) { 'A' <= c <= 'Z' }

  /** The class `[a-z0-9]`. */
  predicate IsLowerAlnum(c: char) { ('a' <= c <= 'z') || IsDigit(c) }

  /** The regex class `\w` on ASCII. */
  predicate IsWordChar(c: char) { IsLowerAlnum(c) || IsUpper(c) || c == '_' }

  /** `str.lower()` on one ASCII character; every other character is left alone. */
  function LowerChar(c: char): (d: char)
    ensures !IsUpper(d)
    ensures !IsUpper(c) ==> d == c
    ensures IsUpper(c) ==> 'a' <= d <= 'z' && d as int == c as int + 32
    ensures IsSpace(d) <==> IsSpace(c)
    ensures IsWordChar(d) <==> IsWordChar(c)
  {
    if IsUpper(c) then (c as int + 32) as char else c
  }

  function Lower(s: string): (r: string)
    ensures |r| == |s|
    ensures forall i :: 0 <= i < |s| ==> r[i] == LowerChar(s[i])
  {
    seq(|s|, i requires 0 <= i < |s| => LowerChar(s[i]))
  }

  /** Text without upper-case letters is its own lower-case form. */
  lemma LowerNoUpper(s: string)
    requires forall i :: 0 <= i < |s| ==> !IsUpper(s[i])
    ensures Lower(s) == s
  {
    assert forall i :: 0 <= i < |s| ==> Lower(s)[i] == s[i];
  }

  predicate AllSpace(s: string) {
    forall i :: 0 <= i < |s| ==> IsSpace(s[i])
  }

  /** A string with no leading and no trailing whitespace. */
  predicate IsStripped(s: string) {
    s == [] || (!IsSpace(s[0]) && !IsSpace(s[|s| - 1]))
  }

  /** How many whitespace characters open `s`. */
  function LeadingSpace(s: string): (n: nat)
    ensures n <= |s|
    ensures n < |s| ==> !IsSpace(s[n])
  {
    if |s| > 0 && IsSpace(s[0]) then 1 + LeadingSpace(s[1..]) else 0
  }

  /** Where the whitespace that closes `s` begins. */
  function TrailingStart(s: string): (n: nat)
    ensures n <= |s|
    ensures n > 0 ==> !IsSpace(s[n - 1])
  {
    if |s| > 0 && IsSpace(s[|s| - 1]) then TrailingStart(s[..|s| - 1]) else |s|
  }

  /** What opens `s` up to `LeadingSpace(s)` is whitespace. */
  lemma {:induction false} LeadingSpaceAll(s: string)
    ensures forall k :: 0 <= k < LeadingSpace(s) ==> IsSpace(s[k])
    decreases |s|
  {
    if |s| > 0 && IsSpace(s[0]) {
      LeadingSpaceAll(s[1..]);
      assert forall k :: 1 <= k < LeadingSpace(s) ==> s[1..][k - 1] == s[k];
    }
  }

  /** What closes `s` from `TrailingStart(s)` on is whitespace. */
  lemma {:induction false} TrailingSpaceAll(s: string)
    ensures forall k :: TrailingStart(s) <= k < |s| ==> IsSpace(s[k])
    decreases |s|
  {
    if |s| > 0 && IsSpace(s[|s| - 1]) {
      TrailingSpaceAll(s[..|s| - 1]);
    }
  }

  /** `s.lstrip()`. */
  function LStrip(s: string): string {
    s[LeadingSpace(s)..]
  }

  /** `s.rstrip()`. */
  function RStrip(s: string): string {
    s[..TrailingStart(s)]
  }

  /** `s.strip()`. */
  function Strip(s: string): (r: string)
    ensures IsStripped(r)
    ensures |r| <= |s|
  {
    RStrip(LStrip(s))
  }

  /** What `strip` removes is whitespace at the two ends: the result is the slice of `s` after the
      leading whitespace, and everything around that slice is whitespace. */
  lemma StripSpec(s: string)
    ensures var i := LeadingSpace(s);
            i + |Strip(s)| <= |s| && Strip(s) == s[i..i + |Strip(s)|]
            && (forall k :: 0 <= k < i ==> IsSpace(s[k]))
            && (forall k :: i + |Strip(s)| <= k < |s| ==> IsSpace(s[k]))
  {
    var i := LeadingSpace(s);
    var j := TrailingStart(s[i..]);
    LeadingSpaceAll(s);
    TrailingSpaceAll(s[i..]);
    SliceOfSlice(s, i, j);
    SpaceAfter(s, i, j);
  }

  lemma Halves<T>(s: seq<T>, k: nat)
    requires k <= |s|
    ensures s == s[..k] + s[k..] && s[0..k] == s[..k]
  {
  }

  lemma SliceOfSlice<T>(s: seq<T>, i: nat, j: nat)
    requires i + j <= |s|
    ensures s[i..][..j] == s[i..i + j]
  {
  }

  lemma SpaceAfter(s: string, i: nat, j: nat)
    requires i + j <= |s|
    requires forall k :: j <= k < |s| - i ==> IsSpace(s[i..][k])
    ensures forall k :: i + j <= k < |s| ==> IsSpace(s[k])
  {
    forall k | i + j <= k < |s| ensures IsSpace(s[k]) {
      assert s[i..][k - i] == s[k];
    }
  }

  /** A string is left as it is by `strip` exactly when it is already stripped. */
  lemma StripFixpoint(s: string)
    ensures Strip(s) == s <==> IsStripped(s)
  {
  }

  /** `strip` yields the empty string exactly on all-whitespace input. */
  lemma StripEmpty(s: string)
    ensures Strip(s) == [] <==> AllSpace(s)
  {
    var i := LeadingSpace(s);
    LeadingSpaceAll(s);
    TrailingSpaceAll(s[i..]);
    if Strip(s) != [] {
      assert s[i..][0] == s[i];
    }
  }

  /** Stripping a string that starts with a non-space keeps that first character. */
  lemma StripKeepsFirst(s: string)
    requires s != [] && !IsSpace(s[0])
    ensures Strip(s) != [] && Strip(s)[0] == s[0]
  {
    TrailingSpaceAll(s);
  }

  /** The whitespace the record types remove from a string they store: the ASCII characters with
      the Unicode White_Space property. Unlike `str.isspace`, it leaves out the separators
      '\x1c' to '\x1f'. */
  predicate IsTrimSpace(c: char) {
    c == ' ' || c == '\t' || c == '\n' || c == '\r' || c == '\U{0B}' || c == '\U{0C}'
  }

  /** A string with no leading and no trailing trim whitespace. */
  predicate IsTrimmed(s: string) {
    s == [] || (!IsTrimSpace(s[0]) && !IsTrimSpace(s[|s| - 1]))
  }

  /** How many trim-whitespace characters open `s`. */
  function LeadingTrim(s: string): (n: nat)
    ensures n <= |s|
    ensures n < |s| ==> !IsTrimSpace(s[n])
  {
    if |s| > 0 && IsTrimSpace(s[0]) then 1 + LeadingTrim(s[1..]) else 0
  }

  /** Where the trim whitespace that closes `s` begins. */
  function TrailingTrimStart(s: string): (n: nat)
    ensures n <= |s|
    ensures n > 0 ==> !IsTrimSpace(s[n - 1])
  {
    if |s| > 0 && IsTrimSpace(s[|s| - 1]) then TrailingTrimStart(s[..|s| - 1]) else |s|
  }

  lemma {:induction false} LeadingTrimAll(s: string)
    ensures forall k :: 0 <= k < LeadingTrim(s) ==> IsTrimSpace(s[k])
    decreases |s|
  {
    if |s| > 0 && IsTrimSpace(s[0]) {
      LeadingTrimAll(s[1..]);
      assert forall k :: 1 <= k < LeadingTrim(s) ==> s[1..][k - 1] == s[k];
    }
  }

  lemma {:induction false} TrailingTrimAll(s: string)
    ensures forall k :: TrailingTrimStart(s) <= k < |s| ==> IsTrimSpace(s[k])
    decreases |s|
  {
    if |s| > 0 && IsTrimSpace(s[|s| - 1]) {
      TrailingTrimAll(s[..|s| - 1]);
    }
  }

  /** The whitespace trim a record type applies to a string it stores. */
  function Trim(s: string): (r: string)
    ensures IsTrimmed(r)
    ensures |r| <= |s|
  {
    var l := s[LeadingTrim(s)..];
    l[..TrailingTrimStart(l)]
  }

  /** What the trim removes is trim whitespace at the two ends: the result is the slice of `s`
      after the leading run, and everything around that slice is trim whitespace. */
  lemma TrimSpec(s: string)
    ensures var i := LeadingTrim(s);
            i + |Trim(s)| <= |s| && Trim(s) == s[i..i + |Trim(s)|]
            && (forall k :: 0 <= k < i ==> IsTrimSpace(s[k]))
            && (forall k :: i + |Trim(s)| <= k < |s| ==> IsTrimSpace(s[k]))
  {
    var i := LeadingTrim(s);
    var j := TrailingTrimStart(s[i..]);
    LeadingTrimAll(s);
    TrailingTrimAll(s[i..]);
    SliceOfSlice(s, i, j);
    forall k | i + j <= k < |s| ensures IsTrimSpace(s[k]) {
      assert s[i..][k - i] == s[k];
    }
  }

  /** A string is left as it is by the trim exactly when it is already trimmed. */
  lemma TrimFixpoint(s: string)
    ensures Trim(s) == s <==> IsTrimmed(s)
  {
  }

  /** Every trim-whitespace character is whitespace to `str.strip`, so what `strip` returns is
      already trimmed; the converse fails on the separators. */
  lemma StrippedIsTrimmed(s: string)
    requires IsStripped(s)
    ensures IsTrimmed(s) && Trim(s) == s
  {
    TrimFixpoint(s);
  }

  /** A lone unit separator survives the record types' trim but not `str.strip`. */
  lemma TrimKeepsSeparator()
    ensures Trim("\U{1F}") == "\U{1F}" && Strip("\U{1F}") == ""
  {
    var s := "\U{1F}";
    assert !IsTrimSpace(s[0]) && IsSpace(s[0]);
    TrimFixpoint(s);
    StripEmpty(s);
  }

  /** Trimming keeps a prefix that neither begins nor ends with trim whitespace. */
  lemma TrimKeepsPrefix(p: string, q: string)
    requires p != [] && IsTrimmed(p)
    ensures StartsWith(Trim(p + q), p)
  {
    var s := p + q;
    assert s[0] == p[0] && s[|p| - 1] == p[|p| - 1];
    TrailingTrimAll(s);
    assert s[..TrailingTrimStart(s)][..|p|] == p;
  }

  /** `s.lstrip(c)`: drops the leading copies of `c`. */
  function LStripChar(s: string, c: char): (r: string)
    ensures |r| <= |s| && r == s[|s| - |r|..]
    ensures r == [] || r[0] != c
    ensures forall i :: 0 <= i < |s| - |r| ==> s[i] == c
  {
    if |s| > 0 && s[0] == c then LStripChar(s[1..], c) else s
  }

  /** `s.rstrip(c)`: drops the trailing copies of `c`. */
  function RStripChar(s: string, c: char): (r: string)
    ensures |r| <= |s| && r == s[..|r|]
    ensures r == [] || r[|r| - 1] != c
    ensures forall i :: |r| <= i < |s| ==> s[i] == c
  {
    if |s| > 0 && s[|s| - 1] == c then RStripChar(s[..|s| - 1], c) else s
  }

  /** `s.strip(c)`. */
  function StripChar(s: string, c: char): string
  {
    RStripChar(LStripChar(s, c), c)
  }

  /** The index of the first `c` in `s`, or `|s|` when there is none (`str.find` gives -1 there). */
  function IndexOf(s: string, c: char): (k: nat)
    ensures k <= |s|
    ensures c !in s[..k]
    ensures k < |s| ==> s[k] == c
  {
    if |s| == 0 then 0
    else if s[0] == c then 0
    else 1 + IndexOf(s[1..], c)
  }

  /** The first occurrence is the one with none before it. */
  lemma IndexOfAt(s: string, c: char, k: nat)
    requires k < |s| && s[k] == c
    requires forall j :: 0 <= j < k ==> s[j] != c
    ensures IndexOf(s, c) == k
  {
  }

  predicate NoNewline(s: string) { '\n' !in s }

  /** `s.splitlines()` for text whose only line break is '\n': a final '\n' ends the last line and
      does not open an empty one, and the empty text has no lines at all. */
  function SplitLines(s: string): (lines: seq<string>)
    ensures forall i :: 0 <= i < |lines| ==> NoNewline(lines[i])
    ensures s == [] <==> lines == []
    decreases |s|
  {
    if s == [] then []
    else
      var k := IndexOf(s, '\n');
      if k == |s| then [s] else [s[..k]] + SplitLines(s[k + 1..])
  }

  /** `sep.join(parts)`. */
  function Join(sep: string, parts: seq<string>): string
  {
    if |parts| == 0 then ""
    else if |parts| == 1 then parts[0]
    else parts[0] + sep + Join(sep, parts[1..])
  }

  /** Joining the lines with '\n' gives the text back, less the '\n' that ended it, if any. */
  lemma {:induction false} JoinSplitLines(s: string)
    ensures Join("\n", SplitLines(s)) == if s != [] && s[|s| - 1] == '\n' then s[..|s| - 1] else s
    decreases |s|
  {
    if s != [] {
      var k := IndexOf(s, '\n');
      if k == |s| {
        assert s[..k] == s;
      } else {
        var rest := s[k + 1..];
        assert s == s[..k] + "\n" + rest;
        if rest == [] {
          assert SplitLines(s) == [s[..k]];
        } else {
          JoinSplitLines(rest);
          var ls := SplitLines(rest);
          assert SplitLines(s) == [s[..k]] + ls;
          assert ([s[..k]] + ls)[1..] == ls;
          assert Join("\n", SplitLines(s)) == s[..k] + "\n" + Join("\n", ls);
          if rest[|rest| - 1] == '\n' {
            assert s[..|s| - 1] == s[..k] + "\n" + rest[..|rest| - 1];
          }
        }
      }
    }
  }

  /** Splitting lines joined with '\n' gives them back, when none of them holds a '\n' and the
      last is not empty. */
  lemma {:induction false} SplitLinesJoin(lines: seq<string>)
    requires lines != [] && lines[|lines| - 1] != ""
    requires forall i :: 0 <= i < |lines| ==> NoNewline(lines[i])
    ensures SplitLines(Join("\n", lines)) == lines
    decreases |lines|
  {
    var s := Join("\n", lines);
    if |lines| == 1 {
      assert s == lines[0];
      assert IndexOf(s, '\n') == |s|;
    } else {
      SplitLinesCons(lines[0], Join("\n", lines[1..]));
      SplitLinesJoin(lines[1..]);
      assert lines == [lines[0]] + lines[1..];
    }
  }

  /** A line without '\n', a '\n' and more text split into that line and the lines of the rest. */
  lemma SplitLinesCons(a: string, rest: string)
    requires NoNewline(a)
    ensures SplitLines(a + "\n" + rest) == [a] + SplitLines(rest)
  {
    var s := a + "\n" + rest;
    forall i | 0 <= i < |a| ensures s[i] != '\n' {
      assert s[i] == a[i];
    }
    IndexOfAt(s, '\n', |a|);
    assert s[..|a|] == a && s[|a| + 1..] == rest;
  }

  predicate StartsWith(s: string, prefix: string) {
    |prefix| <= |s| && s[..|prefix|] == prefix
  }

  lemma StartsWithAppend(p: string, q: string)
    ensures StartsWith(p + q, p)
  {
    assert (p + q)[..|p|] == p;
  }

  /** `sub in s`: some suffix of `s` starts with `sub`. */
  predicate Contains(s: string, sub: string)
    decreases |s|
  {
    StartsWith(s, sub) || (|s| > 0 && Contains(s[1..], sub))
  }

  /** Text found in `s` is still found once more text follows `s`. */
  lemma {:induction false} ContainsAppendRight(s: string, q: string, sub: string)
    requires Contains(s, sub)
    ensures Contains(s + q, sub)
    decreases |s|
  {
    if StartsWith(s, sub) {
      assert (s + q)[..|sub|] == s[..|sub|];
    } else {
      ContainsAppendRight(s[1..], q, sub);
      assert (s + q)[1..] == s[1..] + q;
    }
  }

  /** Text found in `s` is still found once more text precedes `s`. */
  lemma {:induction false} ContainsAppendLeft(p: string, s: string, sub: string)
    requires Contains(s, sub)
    ensures Contains(p + s, sub)
    decreases |p|
  {
    if p != [] {
      ContainsAppendLeft(p[1..], s, sub);
      assert (p + s)[1..] == p[1..] + s;
    } else {
      assert p + s == s;
    }
  }

  /** Text that occurs in `s` occurs at some offset of `s`. */
  lemma {:induction false} ContainsIndex(s: string, sub: string) returns (k: nat)
    requires Contains(s, sub)
    ensures k + |sub| <= |s| && s[k..k + |sub|] == sub
    decreases |s|
  {
    if StartsWith(s, sub) {
      k := 0;
    } else {
      var k1 := ContainsIndex(s[1..], sub);
      k := k1 + 1;
      assert s[1..][k1..k1 + |sub|] == s[k..k + |sub|];
    }
  }

  lemma ContainsMiddle(x: string, sub: string, y: string)
    ensures Contains(x + sub + y, sub)
  {
    StartsWithAppend(sub, y);
    ContainsAppendLeft(x, sub + y, sub);
    assert x + sub + y == x + (sub + y);
  }

  /** Occurring in is transitive. */
  lemma ContainsTrans(s: string, t: string, u: string)
    requires Contains(s, t) && Contains(t, u)
    ensures Contains(s, u)
  {
    var k := ContainsIndex(s, t);
    var x, y := s[..k], s[k + |t|..];
    assert s == x + t + y;
    ContainsAppendRight(t, y, u);
    ContainsAppendLeft(x, t + y, u);
    assert s == x + (t + y);
  }

  /** Each part occurs in the joined text. */
  lemma {:induction false} JoinHasPart(sep: string, parts: seq<string>, i: nat)
    requires i < |parts|
    ensures Contains(Join(sep, parts), parts[i])
    decreases i
  {
    if |parts| == 1 {
      ContainsMiddle([], parts[0], []);
      assert [] + parts[0] + [] == parts[0];
    } else if i == 0 {
      ContainsMiddle([], parts[0], sep + Join(sep, parts[1..]));
      assert [] + parts[0] + (sep + Join(sep, parts[1..])) == Join(sep, parts);
    } else {
      JoinHasPart(sep, parts[1..], i - 1);
      ContainsAppendLeft(parts[0] + sep, Join(sep, parts[1..]), parts[i]);
    }
  }

  /** Trimming keeps text that lies between two characters that are not trim whitespace. */
  lemma TrimKeepsMiddle(p: string, mid: string, q: string, i: nat, j: nat)
    requires i < |p| && !IsTrimSpace(p[i]) && j < |q| && !IsTrimSpace(q[j])
    ensures Contains(Trim(p + mid + q), mid)
  {
    var s := p + mid + q;
    TrimSpec(s);
    var l := LeadingTrim(s);
    var m := |Trim(s)|;
    assert s[i] == p[i];
    assert s[|p| + |mid| + j] == q[j];
    assert l <= |p| && |p| + |mid| < l + m;
    assert s[l..l + m] == s[l..|p|] + mid + s[|p| + |mid|..l + m];
    ContainsMiddle(s[l..|p|], mid, s[|p| + |mid|..l + m]);
  }

  function DigitChar(d: nat): (c: char)
    requires d < 10
    ensures IsDigit(c)
  {
    ('0' as int + d) as char
  }

  /** `str(n)` for a non-negative integer: its decimal digits, most significant first. */
  function NatToString(n: nat): (r: string)
    ensures |r| > 0
    ensures |r| == 1 || r[0] != '0'
    ensures forall i :: 0 <= i < |r| ==> IsDigit(r[i])
  {
    if n < 10 then [DigitChar(n)] else NatToString(n / 10) + [DigitChar(n % 10)]
  }

  /** The number a string of decimal digits denotes. */
  function DigitsValue(d: string): nat
    requires forall i :: 0 <= i < |d| ==> IsDigit(d[i])
  {
    if d == [] then 0
    else
      assert IsDigit(d[|d| - 1]);
      10 * DigitsValue(d[..|d| - 1]) + (d[|d| - 1] as int - '0' as int)
  }

  /** `str(n)` spells `n`: its digits denote `n` again. */
  lemma {:induction false} NatToStringValue(n: nat)
    ensures DigitsValue(NatToString(n)) == n
  {
    if n >= 10 {
      NatToStringValue(n / 10);
      var r := NatToString(n);
      assert r[..|r| - 1] == NatToString(n / 10);
    }
  }

  /** `str(i)` for any integer. */
  function IntToString(i: int): (r: string)
    ensures |r| > 0
  {
    if i < 0 then "-" + NatToString(-i) else NatToString(i)
  }
}
