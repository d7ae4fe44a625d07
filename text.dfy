/**
 * The Python `str` operations the network tools rely on, written out over
 * `seq<char>`: `isspace` (which is also what `\s` matches in a `re` pattern
 * and what `split()` and `strip()` treat as whitespace), `splitlines()`,
 * `strip()`, `split()`, `split(maxsplit=1)`, `lower()`, `startswith` and the
 * substring test `in`.
 */
module Text {

  /** Python's `str.isspace()` on one character. */
  predicate IsSpace(c: char) {
    ('\t' <= c <= '\r') || ('\U{1C}' <= c <= ' ') || c == '\U{85}' || c == '\U{A0}'
    || c == '\U{1680}' || ('\U{2000}' <= c <= '\U{200A}') || c == '\U{2028}'
    || c == '\U{2029}' || c == '\U{202F}' || c == '\U{205F}' || c == '\U{3000}'
  }

  /** The line boundaries of Python's `str.splitlines()` (`\r\n` counts as one). */
  predicate IsLineBreak(c: char) {
    c == '\n' || c == '\r' || c == '\U{0B}' || c == '\U{0C}' || c == '\U{1C}'
    || c == '\U{1D}' || c == '\U{1E}' || c == '\U{85}' || c == '\U{2028}' || c == '\U{2029}'
  }

  predicate NoLineBreak(s: string) {
    forall k :: 0 <= k < |s| ==> !IsLineBreak(s[k])
  }

  // ---------------------------------------------------------------------------
  // splitlines
  // ---------------------------------------------------------------------------

  /** The index of the first line break at or after `i`, or `|s|`. */
  function LineEnd(s: string, i: nat): (j: nat)
    requires i <= |s|
    ensures i <= j <= |s|
    ensures forall k :: i <= k < j ==> !IsLineBreak(s[k])
    ensures j < |s| ==> IsLineBreak(s[j])
    decreases |s| - i
  {
    if i == |s| || IsLineBreak(s[i]) then i else LineEnd(s, i + 1)
  }

  /** The index just past the line terminator at `j` (`\r\n` is one terminator). */
  function BreakEnd(s: string, j: nat): (next: nat)
    requires j < |s| && IsLineBreak(s[j])
    ensures j < next <= |s|
    ensures forall k :: j <= k < next ==> IsLineBreak(s[k])
  {
    if s[j] == '\r' && j + 1 < |s| && s[j + 1] == '\n' then j + 2 else j + 1
  }

  /**
   * Python's `s.splitlines()`: the lines of `s` without their terminators;
   * a final terminator does not start an empty last line.
   */
  function SplitLines(s: string): (lines: seq<string>)
    ensures forall i :: 0 <= i < |lines| ==> NoLineBreak(lines[i])
    ensures lines == [] <==> s == []
    decreases |s|
  {
    if s == [] then []
    else
      var j := LineEnd(s, 0);
      if j == |s| then [s]
      else
        [s[..j]] + SplitLines(s[BreakEnd(s, j)..])
  }

  /** A string cut around the line terminator that ends its first line. */
  lemma BreakSplits(s: string, j: nat, next: nat)
    requires j < |s| && IsLineBreak(s[j]) && next == BreakEnd(s, j)
    ensures s == s[..j] + s[j..next] + s[next..]
    ensures s[j..next] != [] && forall m :: 0 <= m < |s[j..next]| ==> IsLineBreak(s[j..next][m])
  {
    assert forall m :: 0 <= m < next - j ==> s[j..next][m] == s[j + m];
  }

  /** `s` with every line-break character taken out. */
  function RemoveBreaks(s: string): string
    decreases |s|
  {
    if s == [] then []
    else (if IsLineBreak(s[0]) then [] else [s[0]]) + RemoveBreaks(s[1..])
  }

  function Concat(lines: seq<string>): string
    decreases |lines|
  {
    if lines == [] then [] else lines[0] + Concat(lines[1..])
  }

  lemma {:induction false} RemoveBreaksAppend(a: string, b: string)
    ensures RemoveBreaks(a + b) == RemoveBreaks(a) + RemoveBreaks(b)
    decreases |a|
  {
    if a != [] {
      var head := if IsLineBreak(a[0]) then [] else [a[0]];
      assert (a + b)[0] == a[0];
      assert (a + b)[1..] == a[1..] + b;
      RemoveBreaksAppend(a[1..], b);
      assert RemoveBreaks(a) == head + RemoveBreaks(a[1..]);
      calc {
        RemoveBreaks(a + b);
        head + RemoveBreaks(a[1..] + b);
        head + (RemoveBreaks(a[1..]) + RemoveBreaks(b));
        (head + RemoveBreaks(a[1..])) + RemoveBreaks(b);
      }
    } else {
      assert a + b == b;
    }
  }

  lemma {:induction false} RemoveBreaksOfLine(s: string)
    requires NoLineBreak(s)
    ensures RemoveBreaks(s) == s
    decreases |s|
  {
    if s != [] {
      RemoveBreaksOfLine(s[1..]);
    }
  }

  lemma {:induction false} RemoveBreaksOfBreaks(s: string)
    requires forall k :: 0 <= k < |s| ==> IsLineBreak(s[k])
    ensures RemoveBreaks(s) == []
    decreases |s|
  {
    if s != [] {
      RemoveBreaksOfBreaks(s[1..]);
    }
  }

  /**
   * `splitlines` loses nothing but the terminators: joining the lines gives
   * back the text with its line breaks removed.
   */
  lemma {:induction false} SplitLinesKeepsText(s: string)
    ensures Concat(SplitLines(s)) == RemoveBreaks(s)
    decreases |s|
  {
    if s != [] {
      var j := LineEnd(s, 0);
      if j == |s| {
        RemoveBreaksOfLine(s);
      } else {
        var next := BreakEnd(s, j);
        assert s == s[..j] + s[j..next] + s[next..];
        RemoveBreaksAppend(s[..j] + s[j..next], s[next..]);
        RemoveBreaksAppend(s[..j], s[j..next]);
        RemoveBreaksOfLine(s[..j]);
        RemoveBreaksOfBreaks(s[j..next]);
        SplitLinesKeepsText(s[next..]);
        assert SplitLines(s) == [s[..j]] + SplitLines(s[next..]);
        assert ([s[..j]] + SplitLines(s[next..]))[1..] == SplitLines(s[next..]);
      }
    }
  }

  /** A non-empty text without line breaks is a single line. */
  lemma SplitLinesOfLine(s: string)
    requires s != [] && NoLineBreak(s)
    ensures SplitLines(s) == [s]
  {
    assert LineEnd(s, 0) == |s|;
  }

  /** A line ended by `\n` is the first line; the rest is split on its own. */
  lemma SplitLinesFirstLine(line: string, rest: string)
    requires NoLineBreak(line)
    ensures SplitLines(line + "\n" + rest) == [line] + SplitLines(rest)
  {
    var s := line + "\n" + rest;
    assert s[|line|] == '\n';
    assert LineEnd(s, 0) == |line| by {
      assert forall k :: 0 <= k < |line| ==> s[k] == line[k];
      assert !(LineEnd(s, 0) < |line|);
    }
    assert s[..|line|] == line;
    assert s[|line| + 1..] == rest;
  }

  // ---------------------------------------------------------------------------
  // strip
  // ---------------------------------------------------------------------------

  /** The index of the first non-whitespace character at or after `i`, or `|s|`. */
  function SpaceEnd(s: string, i: nat): (j: nat)
    requires i <= |s|
    ensures i <= j <= |s|
    ensures forall k :: i <= k < j ==> IsSpace(s[k])
    ensures j < |s| ==> !IsSpace(s[j])
    decreases |s| - i
  {
    if i == |s| || !IsSpace(s[i]) then i else SpaceEnd(s, i + 1)
  }

  /** The index just past the last non-whitespace character before `j`, or 0. */
  function SpaceStartBefore(s: string, j: nat): (i: nat)
    requires j <= |s|
    ensures i <= j
    ensures forall k :: i <= k < j ==> IsSpace(s[k])
    ensures i > 0 ==> !IsSpace(s[i - 1])
    decreases j
  {
    if j == 0 || !IsSpace(s[j - 1]) then j else SpaceStartBefore(s, j - 1)
  }

  /**
   * Python's `s.strip()`: `s` without its leading and trailing whitespace.
   * The result is the piece of `s` between two all-whitespace margins and
   * neither starts nor ends with whitespace; it is empty exactly when `s` is
   * all whitespace.
   */
  function Strip(s: string): (r: string)
    ensures SpaceEnd(s, 0) + |r| <= |s|
    ensures r == s[SpaceEnd(s, 0)..SpaceEnd(s, 0) + |r|]
    ensures forall k :: SpaceEnd(s, 0) + |r| <= k < |s| ==> IsSpace(s[k])
    ensures r != [] ==> !IsSpace(r[0]) && !IsSpace(r[|r| - 1])
    ensures r == [] <==> forall k :: 0 <= k < |s| ==> IsSpace(s[k])
  {
    var a := SpaceEnd(s, 0);
    var b := SpaceStartBefore(s, |s|);
    if b <= a then [] else s[a..b]
  }

  // ---------------------------------------------------------------------------
  // split
  // ---------------------------------------------------------------------------

  /** The index of the first whitespace character at or after `i`, or `|s|`. */
  function WordEnd(s: string, i: nat): (j: nat)
    requires i <= |s|
    ensures i <= j <= |s|
    ensures forall k :: i <= k < j ==> !IsSpace(s[k])
    ensures j < |s| ==> IsSpace(s[j])
    decreases |s| - i
  {
    if i == |s| || IsSpace(s[i]) then i else WordEnd(s, i + 1)
  }

  predicate IsWord(w: string) {
    w != [] && forall k :: 0 <= k < |w| ==> !IsSpace(w[k])
  }

  /** Python's `s.split()`: the maximal runs of non-whitespace, in order. */
  function Words(s: string): (ws: seq<string>)
    ensures forall i :: 0 <= i < |ws| ==> IsWord(ws[i])
    ensures ws == [] <==> forall k :: 0 <= k < |s| ==> IsSpace(s[k])
    decreases |s|
  {
    var a := SpaceEnd(s, 0);
    if a == |s| then []
    else
      var b := WordEnd(s, a);
      [s[a..b]] + Words(s[b..])
  }

  /**
   * Python's `s.split(maxsplit=1)`: the first word and, when anything but
   * whitespace follows it, the rest of `s` from the next non-whitespace
   * character on, trailing whitespace included.
   */
  function SplitOnce(s: string): (parts: seq<string>)
    ensures |parts| <= 2
    ensures parts == [] <==> forall k :: 0 <= k < |s| ==> IsSpace(s[k])
    ensures parts != [] ==> IsWord(parts[0])
    ensures |parts| == 2 ==> parts[1] != [] && !IsSpace(parts[1][0])
  {
    var a := SpaceEnd(s, 0);
    if a == |s| then []
    else
      var b := WordEnd(s, a);
      var c := SpaceEnd(s, b);
      if c == |s| then [s[a..b]] else [s[a..b], s[c..]]
  }

  lemma {:induction false} SpaceEndShift(s: string, d: nat, i: nat)
    requires d + i <= |s|
    ensures SpaceEnd(s[d..], i) + d == SpaceEnd(s, d + i)
    decreases |s| - d - i
  {
    if d + i < |s| {
      assert s[d..][i] == s[d + i];
      if IsSpace(s[d + i]) {
        SpaceEndShift(s, d, i + 1);
      }
    }
  }

  lemma {:induction false} WordEndShift(s: string, d: nat, i: nat)
    requires d + i <= |s|
    ensures WordEnd(s[d..], i) + d == WordEnd(s, d + i)
    decreases |s| - d - i
  {
    if d + i < |s| {
      assert s[d..][i] == s[d + i];
      if !IsSpace(s[d + i]) {
        WordEndShift(s, d, i + 1);
      }
    }
  }

  lemma {:induction false} SpaceEndSkip(s: string, j: nat, i: nat)
    requires j <= i <= |s|
    requires forall k :: j <= k < i ==> IsSpace(s[k])
    ensures SpaceEnd(s, j) == SpaceEnd(s, i)
    decreases i - j
  {
    if j < i {
      SpaceEndSkip(s, j + 1, i);
    }
  }

  /** Leading whitespace does not change the words of a text. */
  lemma {:induction false} WordsSkipLeadingSpace(s: string, i: nat)
    requires i <= |s|
    requires forall k :: 0 <= k < i ==> IsSpace(s[k])
    ensures Words(s[i..]) == Words(s)
  {
    var t := s[i..];
    SpaceEndSkip(s, 0, i);
    SpaceEndShift(s, i, 0);
    var a := SpaceEnd(s, 0);
    assert SpaceEnd(t, 0) + i == a;
    if a < |s| {
      var b := WordEnd(s, a);
      WordEndShift(s, i, a - i);
      WordsUnfold(s, a, b);
      WordsUnfold(t, a - i, b - i);
      SuffixSlices(s, i, a, b);
    }
  }

  /** The first word of `s` spans `s[a..b]`. */
  lemma WordsUnfold(s: string, a: nat, b: nat)
    requires a == SpaceEnd(s, 0) < |s| && b == WordEnd(s, a)
    ensures Words(s) == [s[a..b]] + Words(s[b..])
  {
  }

  /** Slicing a suffix of `s` is slicing `s` itself, shifted. */
  lemma SuffixSlices(s: string, i: nat, a: nat, b: nat)
    requires i <= a <= b <= |s|
    ensures s[i..][a - i..b - i] == s[a..b] && s[i..][b - i..] == s[b..]
  {
  }

  /**
   * `split(maxsplit=1)` agrees with `split()`: it yields the first two words
   * when there are at least two and otherwise all of them, and the words of
   * its second part are all the words after the first.
   */
  lemma {:induction false} SplitOnceAgreesWithWords(s: string)
    ensures |SplitOnce(s)| == (if |Words(s)| < 2 then |Words(s)| else 2)
    ensures |SplitOnce(s)| > 0 ==> SplitOnce(s)[0] == Words(s)[0]
    ensures |SplitOnce(s)| == 2 ==> var rest := SplitOnce(s)[1];
      rest != [] && !IsSpace(rest[0]) && Words(rest) == Words(s)[1..]
  {
    var a := SpaceEnd(s, 0);
    if a < |s| {
      var b := WordEnd(s, a);
      var c := SpaceEnd(s, b);
      var rest := s[b..];
      assert Words(s) == [s[a..b]] + Words(rest);
      SpaceEndShift(s, b, 0);
      var d := SpaceEnd(rest, 0);
      assert d == c - b;
      WordsSkipLeadingSpace(rest, d);
      assert rest[d..] == s[c..];
      if c < |s| {
        assert SpaceEnd(s[c..], 0) == 0;
      }
    }
  }

  // ---------------------------------------------------------------------------
  // lower, startswith, in
  // ---------------------------------------------------------------------------

  /** `str.lower()` on one character, for the ASCII letters. */
  function LowerChar(c: char): char {
    if 'A' <= c <= 'Z' then (c as int + 32) as char else c
  }

  /** Python's `s.lower()`, character by character (ASCII case mapping). */
  function Lower(s: string): (r: string)
    ensures |r| == |s|
    ensures forall k :: 0 <= k < |s| ==> !('A' <= r[k] <= 'Z')
    ensures forall k :: 0 <= k < |s| ==> (r[k] == s[k] <==> !('A' <= s[k] <= 'Z'))
  {
    seq(|s|, i requires 0 <= i < |s| => LowerChar(s[i]))
  }

  /** Lowering commutes with taking a prefix. */
  lemma LowerPrefix(s: string, e: nat)
    requires e <= |s|
    ensures Lower(s[..e]) == Lower(s)[..e]
  {
    var ls, lw := Lower(s), Lower(s[..e]);
    forall k | 0 <= k < e ensures lw[k] == ls[..e][k] {
      assert s[..e][k] == s[k];
    }
    assert lw == ls[..e];
  }

  /** Python's `t in s` for strings: `t` occurs in `s` as a contiguous piece. */
  predicate Contains(s: string, t: string)
    ensures Contains(s, t) ==> |t| <= |s|
    ensures t == [] ==> Contains(s, t)
    decreases |s|
  {
    t <= s || (s != [] && Contains(s[1..], t))
  }

  /** `Contains` holds exactly when `t` starts at some index of `s`. */
  lemma {:induction false} ContainsAt(s: string, t: string)
    ensures Contains(s, t) <==> exists i :: 0 <= i <= |s| && t <= s[i..]
    decreases |s|
  {
    if t <= s {
      assert s[0..] == s;
    } else if s == [] {
    } else {
      ContainsAt(s[1..], t);
      if Contains(s[1..], t) {
        var i :| 0 <= i <= |s[1..]| && t <= s[1..][i..];
        assert s[1..][i..] == s[i + 1..];
      }
      if exists i :: 0 <= i <= |s| && t <= s[i..] {
        var i :| 0 <= i <= |s| && t <= s[i..];
        assert i != 0;
        assert s[1..][i - 1..] == s[i..];
      }
    }
  }

  lemma ContainsSuffix(a: string, b: string, t: string)
    requires Contains(b, t)
    ensures Contains(a + b, t)
  {
    ContainsAt(b, t);
    var i :| 0 <= i <= |b| && t <= b[i..];
    assert (a + b)[|a| + i..] == b[i..];
    ContainsAt(a + b, t);
  }

  /** A piece of a text that occurs in `s` occurs in `s` too. */
  lemma ContainsPiece(s: string, t: string, k: nat, u: string)
    requires Contains(s, t) && k + |u| <= |t| && u == t[k..k + |u|]
    ensures Contains(s, u)
  {
    ContainsAt(s, t);
    var i :| 0 <= i <= |s| && t <= s[i..];
    assert u <= s[i + k..] by {
      assert s[i + k..][..|u|] == s[i..][k..k + |u|];
    }
    ContainsAt(s, u);
  }

  /**
   * A text without line breaks occurs in `a + sep + b`, where `sep` is all
   * line breaks, only within `a` or within `b`.
   */
  lemma ContainsAcrossBreak(a: string, sep: string, b: string, t: string)
    requires sep != [] && forall m :: 0 <= m < |sep| ==> IsLineBreak(sep[m])
    requires NoLineBreak(t)
    ensures Contains(a + sep + b, t) <==> Contains(a, t) || Contains(b, t)
  {
    var s := a + sep + b;
    ContainsAt(s, t);
    if Contains(s, t) {
      var i :| 0 <= i <= |s| && t <= s[i..];
      OccurrenceAvoidsBreak(a, sep, b, t, i);
    }
    if Contains(a, t) {
      ContainsPrefix(a, sep + b, t);
      assert a + (sep + b) == s;
    }
    if Contains(b, t) {
      ContainsSuffix(a + sep, b, t);
    }
  }

  /** An occurrence in `a + sep + b` lies wholly in `a` or wholly in `b`. */
  lemma OccurrenceAvoidsBreak(a: string, sep: string, b: string, t: string, i: nat)
    requires sep != [] && forall m :: 0 <= m < |sep| ==> IsLineBreak(sep[m])
    requires NoLineBreak(t)
    requires i <= |a + sep + b| && t <= (a + sep + b)[i..]
    ensures Contains(a, t) || Contains(b, t)
  {
    var s := a + sep + b;
    if t == [] {
      assert t <= a[0..];
      ContainsAt(a, t);
    } else if i + |t| <= |a| {
      assert t <= a[i..] by {
        assert forall m :: 0 <= m < |t| ==> a[i..][m] == s[i..][m];
      }
      ContainsAt(a, t);
    } else if i >= |a| + |sep| {
      assert b[i - |a| - |sep|..] == s[i..];
      ContainsAt(b, t);
    } else {
      StraddleHitsBreak(a, sep, b, t, i);
    }
  }

  /** An occurrence that starts before `sep` ends and ends after it starts covers a break. */
  lemma StraddleHitsBreak(a: string, sep: string, b: string, t: string, i: nat)
    requires sep != [] && forall m :: 0 <= m < |sep| ==> IsLineBreak(sep[m])
    requires t != [] && i < |a| + |sep| && |a| < i + |t|
    requires i <= |a + sep + b| && t <= (a + sep + b)[i..]
    ensures !NoLineBreak(t)
  {
    var s := a + sep + b;
    var m := if i < |a| then |a| else i;
    assert s[m] == sep[m - |a|];
    assert t[m - i] == s[i..][m - i];
    assert IsLineBreak(t[m - i]);
  }

  /** An occurrence in `a` is one in any extension of `a`. */
  lemma ContainsPrefix(a: string, c: string, t: string)
    requires Contains(a, t)
    ensures Contains(a + c, t)
  {
    ContainsAt(a, t);
    var i :| 0 <= i <= |a| && t <= a[i..];
    assert forall m :: 0 <= m < |t| ==> (a + c)[i..][m] == a[i..][m];
    assert t <= (a + c)[i..];
    ContainsAt(a + c, t);
  }
}
