/**
 * The version extractor applied to the output of `show version`: the first
 * line that mentions "Version" decides the answer, which is the token that
 * `VERSION_REGEX` (`Version\s+([A-Za-z0-9.()]+)`) captures on that line, or
 * the whole line stripped when the regex does not match it, or a fixed
 * sentinel when no line mentions "Version".
 */
module Version {
  import opened Wrappers
  import opened Text

  /** The keyword both the line filter and the regex look for. */
  const Keyword := "Version"

  /** What the extractor answers when no line mentions the keyword. */
  const NotFound := "[Version line not found]"

  /** The character class `[A-Za-z0-9.()]` of the regex's capture group. */
  predicate IsVersionChar(c: char) {
    ('A' <= c <= 'Z') || ('a' <= c <= 'z') || ('0' <= c <= '9') || c == '.' || c == '(' || c == ')'
  }

  /** The index of the first character at or after `i` outside the class, or `|s|`. */
  function VersionCharsEnd(s: string, i: nat): (j: nat)
    requires i <= |s|
    ensures i <= j <= |s|
    ensures forall k :: i <= k < j ==> IsVersionChar(s[k])
    ensures j < |s| ==> !IsVersionChar(s[j])
    decreases |s| - i
  {
    if i == |s| || !IsVersionChar(s[i]) then i else VersionCharsEnd(s, i + 1)
  }

  /** What group 1 can capture: a non-empty run of `[A-Za-z0-9.()]`. */
  predicate IsVersion(v: string) {
    v != [] && forall k :: 0 <= k < |v| ==> IsVersionChar(v[k])
  }

  /**
   * The regex matches `s` from index `i` with its group spanning `s[j..k]`:
   * the keyword, one or more whitespace characters, then a run of class
   * characters that the greedy `+` cannot extend.
   */
  ghost predicate RegexMatch(s: string, i: int, j: int, k: int) {
    && 0 <= i && i + |Keyword| < j < k <= |s|
    && s[i..i + |Keyword|] == Keyword
    && (forall m :: i + |Keyword| <= m < j ==> IsSpace(s[m]))
    && (forall m :: j <= m < k ==> IsVersionChar(s[m]))
    && (k == |s| || !IsVersionChar(s[k]))
  }

  /**
   * The regex tried at index `i` alone: its group when it matches there.
   * Backtracking cannot help the greedy `\s+`, since a whitespace character
   * is never in the group's class, so the match exists exactly when the
   * maximal whitespace run after the keyword is non-empty and is followed by
   * a class character.
   */
  function MatchAt(s: string, i: nat): (r: Option<string>)
    requires i <= |s|
    ensures r.Some? ==> IsVersion(r.value) && i + |Keyword| + 1 + |r.value| <= |s|
  {
    if i + |Keyword| <= |s| && s[i..i + |Keyword|] == Keyword then
      var j := SpaceEnd(s, i + |Keyword|);
      var k := VersionCharsEnd(s, j);
      if i + |Keyword| < j && j < k then Some(s[j..k]) else None
    else None
  }

  /** `MatchAt` answers exactly the regex's semantics at index `i`. */
  lemma MatchAtIsRegexMatch(s: string, i: nat)
    requires i <= |s|
    ensures MatchAt(s, i).Some? <==> exists j, k :: RegexMatch(s, i, j, k)
    ensures forall j, k :: RegexMatch(s, i, j, k) ==> MatchAt(s, i) == Some(s[j..k])
  {
    if MatchAt(s, i).Some? {
      var j := SpaceEnd(s, i + |Keyword|);
      var k := VersionCharsEnd(s, j);
      assert RegexMatch(s, i, j, k);
    }
    forall j, k | RegexMatch(s, i, j, k) ensures MatchAt(s, i) == Some(s[j..k]) {
      assert !IsSpace(s[j]);
      assert SpaceEnd(s, i + |Keyword|) == j;
      assert VersionCharsEnd(s, j) == k;
    }
  }

  /**
   * `VERSION_REGEX.search(s[i..])`: the group of the leftmost match at or
   * after index `i`.
   */
  function Search(s: string, i: nat): (r: Option<string>)
    requires i <= |s|
    ensures r.Some? ==> IsVersion(r.value) && i + |Keyword| + 1 + |r.value| <= |s|
    decreases |s| - i
  {
    var m := MatchAt(s, i);
    if m.Some? || i == |s| then m else Search(s, i + 1)
  }

  /** `Search` answers the match at the leftmost index where the regex matches. */
  lemma SearchIsLeftmost(s: string, i: nat)
    requires i <= |s|
    ensures Search(s, i).None? ==> forall p :: i <= p <= |s| ==> MatchAt(s, p).None?
    ensures Search(s, i).Some? ==>
              exists p :: i <= p <= |s| && MatchAt(s, p) == Search(s, i)
                          && forall q :: i <= q < p ==> MatchAt(s, q).None?
  {
    if Search(s, i).None? {
      SearchNoneMatchesNowhere(s, i);
    } else {
      var p := SearchIndex(s, i);
      assert i <= p <= |s| && MatchAt(s, p) == Search(s, i);
    }
  }

  /** When `Search` finds nothing, the regex matches at no index. */
  lemma {:induction false} SearchNoneMatchesNowhere(s: string, i: nat)
    requires i <= |s| && Search(s, i).None?
    ensures forall p :: i <= p <= |s| ==> MatchAt(s, p).None?
    decreases |s| - i
  {
    if i < |s| {
      SearchNoneMatchesNowhere(s, i + 1);
    }
  }

  /** The index where `Search` finds its match: no earlier index matches. */
  lemma {:induction false} SearchIndex(s: string, i: nat) returns (p: nat)
    requires i <= |s| && Search(s, i).Some?
    ensures i <= p <= |s| && MatchAt(s, p) == Search(s, i)
    ensures forall q :: i <= q < p ==> MatchAt(s, q).None?
    decreases |s| - i
  {
    if MatchAt(s, i).Some? {
      p := i;
    } else {
      p := SearchIndex(s, i + 1);
      NoMatchBefore(s, i, p);
    }
  }

  /** A failed match at `i` extends a stretch of failed matches after it. */
  lemma NoMatchBefore(s: string, i: nat, p: nat)
    requires i < p <= |s|
    requires MatchAt(s, i).None? && forall q :: i + 1 <= q < p ==> MatchAt(s, q).None?
    ensures forall q :: i <= q < p ==> MatchAt(s, q).None?
  {
  }

  /** Indices where the regex does not match are passed over. */
  lemma {:induction false} SearchSkips(s: string, i: nat, p: nat)
    requires i <= p <= |s|
    requires forall q :: i <= q < p ==> MatchAt(s, q).None?
    ensures Search(s, i) == Search(s, p)
    decreases p - i
  {
    if i < p {
      SearchSkips(s, i + 1, p);
    }
  }

  /**
   * What the extractor answers for a line that mentions the keyword: the
   * group of the leftmost regex match, or the stripped line.
   */
  function LineVersion(line: string): (v: string)
    ensures |v| <= |line|
  {
    match Search(line, 0)
    case Some(v) => v
    case None => Strip(line)
  }

  /**
   * The answer for a line is the group of the leftmost match of the regex
   * when the regex matches anywhere in it, and the stripped line otherwise.
   */
  lemma LineVersionIsRegexCapture(line: string)
    ensures (exists p, j, k :: RegexMatch(line, p, j, k)) ==>
              exists p, j, k :: RegexMatch(line, p, j, k) && LineVersion(line) == line[j..k]
                                && forall q, j', k' :: q < p ==> !RegexMatch(line, q, j', k')
    ensures (forall p, j, k :: !RegexMatch(line, p, j, k)) ==> LineVersion(line) == Strip(line)
  {
    SearchIsLeftmost(line, 0);
    if Search(line, 0).Some? {
      var p :| 0 <= p <= |line| && MatchAt(line, p) == Search(line, 0)
                && forall q :: 0 <= q < p ==> MatchAt(line, q).None?;
      MatchAtIsRegexMatch(line, p);
      var j, k :| RegexMatch(line, p, j, k);
      forall q, j', k' | q < p ensures !RegexMatch(line, q, j', k') {
        if 0 <= q {
          MatchAtIsRegexMatch(line, q);
        }
      }
      assert LineVersion(line) == line[j..k];
    } else {
      forall p, j, k | RegexMatch(line, p, j, k) ensures false {
        MatchAtIsRegexMatch(line, p);
      }
    }
  }

  /** Seven characters spelling the keyword. */
  lemma KeywordAt(s: string, i: nat)
    requires i + 7 <= |s|
    requires s[i] == 'V' && s[i + 1] == 'e' && s[i + 2] == 'r' && s[i + 3] == 's'
    requires s[i + 4] == 'i' && s[i + 5] == 'o' && s[i + 6] == 'n'
    ensures s[i..i + |Keyword|] == Keyword
  {
    assert s[i..i + 7] == [s[i], s[i + 1], s[i + 2], s[i + 3], s[i + 4], s[i + 5], s[i + 6]];
  }

  /**
   * A line that mentions the keyword never yields the empty string nor the
   * sentinel: a captured group is a non-empty run of class characters, and
   * a stripped line equal to the sentinel would contain "Version line",
   * which the regex matches.
   */
  lemma LineVersionIsAnswer(line: string)
    requires Contains(line, Keyword)
    ensures LineVersion(line) != "" && LineVersion(line) != NotFound
  {
    SearchIsLeftmost(line, 0);
    if Search(line, 0).Some? {
      var p :| 0 <= p <= |line| && MatchAt(line, p) == Search(line, 0);
      assert Search(line, 0).value[0] != NotFound[0];
    } else {
      StrippedLineIsAnswer(line);
    }
  }

  /** The fallback: a stripped keyword line is neither empty nor the sentinel. */
  lemma StrippedLineIsAnswer(line: string)
    requires Contains(line, Keyword)
    requires Search(line, 0).None?
    ensures Strip(line) != "" && Strip(line) != NotFound
  {
    KeywordLineIsNotBlank(line);
    if Strip(line) == NotFound {
      SentinelLineIsFound(line);
    }
  }

  /** A line that mentions the keyword holds a non-whitespace character. */
  lemma KeywordLineIsNotBlank(line: string)
    requires Contains(line, Keyword)
    ensures Strip(line) != ""
  {
    ContainsAt(line, Keyword);
    var i :| 0 <= i <= |line| && Keyword <= line[i..];
    assert line[i] == 'V';
    assert !IsSpace(line[i]);
  }

  /** A line that strips to the sentinel holds a match of the regex. */
  lemma SentinelLineIsFound(line: string)
    requires Strip(line) == NotFound
    ensures Search(line, 0).Some?
  {
    var a := SpaceEnd(line, 0);
    assert line[a..a + |NotFound|] == NotFound;
    SentinelLineMatches(line, a);
    SearchIsLeftmost(line, 0);
  }

  /** A line holding the sentinel at `a` holds "Version line" at `a + 1`, where the regex matches. */
  lemma SentinelLineMatches(line: string, a: nat)
    requires a + |NotFound| <= |line| && line[a..a + |NotFound|] == NotFound
    ensures MatchAt(line, a + 1).Some?
  {
    assert NotFound[1] == 'V' && NotFound[2] == 'e' && NotFound[3] == 'r' && NotFound[4] == 's';
    assert NotFound[5] == 'i' && NotFound[6] == 'o' && NotFound[7] == 'n';
    assert NotFound[8] == ' ' && NotFound[9] == 'l';
    forall m | 0 <= m < 10 ensures line[a + m] == NotFound[m] {
      assert line[a + m] == line[a..a + |NotFound|][m];
    }
    KeywordSpaceLetter(line, a + 1);
  }

  /** The keyword, a space and a letter: the regex matches there. */
  lemma KeywordSpaceLetter(line: string, p: nat)
    requires p + 9 <= |line|
    requires line[p] == 'V' && line[p + 1] == 'e' && line[p + 2] == 'r' && line[p + 3] == 's'
    requires line[p + 4] == 'i' && line[p + 5] == 'o' && line[p + 6] == 'n'
    requires line[p + 7] == ' ' && IsVersionChar(line[p + 8])
    ensures MatchAt(line, p).Some?
  {
    KeywordAt(line, p);
    assert SpaceEnd(line, p + 8) == p + 8;
    assert SpaceEnd(line, p + 7) == p + 8;
    assert VersionCharsEnd(line, p + 8) > p + 8;
  }

  /**
   * `extract_version` on a list of lines: the answer for the first line that
   * mentions the keyword, or the sentinel. The sentinel comes back exactly
   * when no line mentions the keyword.
   */
  function VersionInLines(lines: seq<string>): (r: string)
    ensures r == NotFound <==> forall i :: 0 <= i < |lines| ==> !Contains(lines[i], Keyword)
    ensures r != ""
    decreases |lines|
  {
    if lines == [] then NotFound
    else if Contains(lines[0], Keyword) then
      LineVersionIsAnswer(lines[0]);
      LineVersion(lines[0])
    else
      assert forall i :: 1 <= i < |lines| ==> lines[i] == lines[1..][i - 1];
      VersionInLines(lines[1..])
  }

  /** `extract_version(show_ver_output)`, as a specification. */
  function VersionOf(output: string): (v: string)
    ensures v != ""
  {
    VersionInLines(SplitLines(output))
  }

  /**
   * `extract_version`: scans the lines in order and answers for the first
   * one that mentions the keyword.
   */
  method ExtractVersion(output: string) returns (v: string)
    ensures v == VersionOf(output)
  {
    var lines := SplitLines(output);
    for i := 0 to |lines|
      invariant VersionInLines(lines[i..]) == VersionInLines(lines)
    {
      if Contains(lines[i], Keyword) {
        var m := Search(lines[i], 0);
        v := if m.Some? then m.value else Strip(lines[i]);
        return;
      }
      assert lines[i..][1..] == lines[i + 1..];
    }
    v := NotFound;
  }

  /**
   * Only the first line that mentions the keyword matters: whatever follows
   * it is never looked at.
   */
  lemma {:induction false} VersionIgnoresLaterLines(head: seq<string>, tail: seq<string>)
    requires exists i :: 0 <= i < |head| && Contains(head[i], Keyword)
    ensures VersionInLines(head + tail) == VersionInLines(head)
    decreases |head|
  {
    assert (head + tail)[0] == head[0];
    if !Contains(head[0], Keyword) {
      var i :| 0 <= i < |head| && Contains(head[i], Keyword);
      assert head[1..][i - 1] == head[i];
      assert (head + tail)[1..] == head[1..] + tail;
      VersionIgnoresLaterLines(head[1..], tail);
    }
  }

  /**
   * On a text whose first line mentions the keyword, the answer is that
   * line's, whatever the later lines say.
   */
  lemma VersionOfFirstLine(line: string, rest: string)
    requires NoLineBreak(line) && Contains(line, Keyword)
    ensures VersionOf(line + "\n" + rest) == LineVersion(line)
  {
    SplitLinesFirstLine(line, rest);
    assert [line][0] == line;
    VersionIgnoresLaterLines([line], SplitLines(rest));
    assert VersionInLines([line]) == LineVersion(line);
  }

  /** Some line mentions the keyword. */
  predicate SomeLineMentions(lines: seq<string>) {
    exists i :: 0 <= i < |lines| && Contains(lines[i], Keyword)
  }

  lemma SomeLineMentionsCons(line: string, rest: seq<string>)
    ensures SomeLineMentions([line] + rest) <==> Contains(line, Keyword) || SomeLineMentions(rest)
  {
    var lines := [line] + rest;
    if SomeLineMentions(rest) {
      var m :| 0 <= m < |rest| && Contains(rest[m], Keyword);
      assert lines[m + 1] == rest[m];
    }
    if SomeLineMentions(lines) {
      var m :| 0 <= m < |lines| && Contains(lines[m], Keyword);
      if m > 0 {
        assert lines[m] == rest[m - 1];
      }
    }
    if Contains(line, Keyword) {
      assert lines[0] == line;
    }
  }

  lemma KeywordHasNoBreak()
    ensures NoLineBreak(Keyword)
  {
  }

  /**
   * A keyword occurrence in the whole output lies within one line, because
   * the keyword has no line-break character.
   */
  lemma {:induction false} KeywordInSomeLine(output: string)
    ensures Contains(output, Keyword) <==> SomeLineMentions(SplitLines(output))
    decreases |output|
  {
    if output == [] {
      assert !Contains(output, Keyword);
    } else {
      var j := LineEnd(output, 0);
      if j < |output| {
        var next := BreakEnd(output, j);
        KeywordInSomeLine(output[next..]);
        KeywordInFirstLineOrRest(output, j, next);
      } else {
        assert SplitLines(output) == [output] + [];
        SomeLineMentionsCons(output, []);
      }
    }
  }

  /** One step of `KeywordInSomeLine`: the first line, or the lines after its terminator. */
  lemma KeywordInFirstLineOrRest(output: string, j: nat, next: nat)
    requires output != [] && j == LineEnd(output, 0) && j < |output| && next == BreakEnd(output, j)
    requires Contains(output[next..], Keyword) <==> SomeLineMentions(SplitLines(output[next..]))
    ensures Contains(output, Keyword) <==> SomeLineMentions(SplitLines(output))
  {
    var line, sep, rest := output[..j], output[j..next], output[next..];
    assert SplitLines(output) == [line] + SplitLines(rest);
    BreakSplits(output, j, next);
    KeywordInJoin(line, sep, rest);
  }

  /** The keyword occurs in a line, a terminator and more text exactly when it occurs in the line or the rest. */
  lemma KeywordInJoin(line: string, sep: string, rest: string)
    requires sep != [] && forall m :: 0 <= m < |sep| ==> IsLineBreak(sep[m])
    requires Contains(rest, Keyword) <==> SomeLineMentions(SplitLines(rest))
    ensures Contains(line + sep + rest, Keyword) <==> SomeLineMentions([line] + SplitLines(rest))
  {
    KeywordHasNoBreak();
    ContainsAcrossBreak(line, sep, rest, Keyword);
    SomeLineMentionsCons(line, SplitLines(rest));
  }

  /**
   * The extractor is total and its three outcomes are told apart: it answers
   * the sentinel exactly when the output never mentions the keyword, and it
   * never answers the empty string for an output that does.
   */
  lemma VersionOfOutcomes(output: string)
    ensures VersionOf(output) == NotFound <==> !Contains(output, Keyword)
    ensures Contains(output, Keyword) ==> VersionOf(output) != ""
  {
    KeywordInSomeLine(output);
    var lines := SplitLines(output);
    if SomeLineMentions(lines) {
      var i :| 0 <= i < |lines| && Contains(lines[i], Keyword);
      var first := FirstKeywordLine(lines, i);
      VersionAtFirstKeywordLine(lines, first);
      LineVersionIsAnswer(lines[first]);
    }
  }

  /** The index of the first line that mentions the keyword, given that line `i` does. */
  function FirstKeywordLine(lines: seq<string>, i: nat): (f: nat)
    requires i < |lines| && Contains(lines[i], Keyword)
    ensures f <= i && Contains(lines[f], Keyword)
    ensures forall q :: 0 <= q < f ==> !Contains(lines[q], Keyword)
  {
    if exists q :: 0 <= q < i && Contains(lines[q], Keyword) then
      var q :| 0 <= q < i && Contains(lines[q], Keyword);
      FirstKeywordLine(lines, q)
    else i
  }

  /** The answer is that of the first line mentioning the keyword. */
  lemma {:induction false} VersionAtFirstKeywordLine(lines: seq<string>, f: nat)
    requires f < |lines| && Contains(lines[f], Keyword)
    requires forall q :: 0 <= q < f ==> !Contains(lines[q], Keyword)
    ensures VersionInLines(lines) == LineVersion(lines[f])
    decreases f
  {
    if f > 0 {
      assert lines[1..][f - 1] == lines[f];
      VersionAtFirstKeywordLine(lines[1..], f - 1);
    }
  }

  /**
   * A one-line output of the form `<prefix>Version <token><suffix>`, with no
   * `V` in the prefix and a suffix that cannot extend the token, yields the
   * token.
   */
  lemma BannerVersion(prefix: string, token: string, suffix: string)
    requires NoLineBreak(prefix) && NoLineBreak(suffix)
    requires forall m :: 0 <= m < |prefix| ==> prefix[m] != 'V'
    requires token != [] && forall m :: 0 <= m < |token| ==> IsVersionChar(token[m])
    requires suffix == [] || !IsVersionChar(suffix[0])
    ensures VersionOf(prefix + "Version " + token + suffix) == token
  {
    var line := prefix + "Version " + token + suffix;
    BannerIsOneLine(prefix, token, suffix);
    SplitLinesOfLine(line);
    BannerSearch(prefix, token, suffix);
    assert VersionInLines([line]) == LineVersion(line);
  }

  /**
   * The regex's leftmost match in the banner is at the keyword: no match
   * can start in a prefix without a `V`.
   */
  lemma BannerSearch(prefix: string, token: string, suffix: string)
    requires forall m :: 0 <= m < |prefix| ==> prefix[m] != 'V'
    requires token != [] && forall m :: 0 <= m < |token| ==> IsVersionChar(token[m])
    requires suffix == [] || !IsVersionChar(suffix[0])
    ensures Contains(prefix + "Version " + token + suffix, Keyword)
    ensures Search(prefix + "Version " + token + suffix, 0) == Some(token)
  {
    var line := prefix + "Version " + token + suffix;
    BannerMatch(prefix, token, suffix);
    PrefixHasNoV(prefix, token, suffix);
    LeftmostAtKeyword(line, |prefix|, token);
  }

  lemma PrefixHasNoV(prefix: string, token: string, suffix: string)
    requires forall m :: 0 <= m < |prefix| ==> prefix[m] != 'V'
    ensures forall q :: 0 <= q < |prefix| ==> (prefix + "Version " + token + suffix)[q] != 'V'
  {
    var line := prefix + "Version " + token + suffix;
    assert forall q :: 0 <= q < |prefix| ==> line[q] == prefix[q];
  }

  /** A match at the first `V` of a line is the leftmost one. */
  lemma LeftmostAtKeyword(line: string, n: nat, token: string)
    requires n + |Keyword| <= |line| && line[n..n + |Keyword|] == Keyword
    requires forall q :: 0 <= q < n ==> line[q] != 'V'
    requires MatchAt(line, n) == Some(token)
    ensures Contains(line, Keyword) && Search(line, 0) == Some(token)
  {
    BannerMentions(line, n);
    NoMatchWithoutV(line, n);
    SearchSkips(line, 0, n);
  }

  /** A line holding the keyword at `n` mentions it. */
  lemma BannerMentions(line: string, n: nat)
    requires n + |Keyword| <= |line| && line[n..n + |Keyword|] == Keyword
    ensures Contains(line, Keyword)
  {
    assert Keyword <= line[n..];
    ContainsAt(line, Keyword);
  }

  /** The regex cannot match where the text holds no `V`. */
  lemma NoMatchWithoutV(s: string, n: nat)
    requires n <= |s| && forall q :: 0 <= q < n ==> s[q] != 'V'
    ensures forall q :: 0 <= q < n ==> MatchAt(s, q).None?
  {
    forall q | 0 <= q < n ensures MatchAt(s, q).None? {
      if q + |Keyword| <= |s| {
        assert s[q..q + |Keyword|][0] == s[q];
      }
    }
  }

  /** The banner has no line break, so `splitlines` leaves it whole. */
  lemma BannerIsOneLine(prefix: string, token: string, suffix: string)
    requires NoLineBreak(prefix) && NoLineBreak(suffix)
    requires forall m :: 0 <= m < |token| ==> IsVersionChar(token[m])
    ensures NoLineBreak(prefix + "Version " + token + suffix)
  {
    assert NoLineBreak("Version ");
    assert NoLineBreak(token);
    NoBreakConcat(prefix, "Version ");
    NoBreakConcat(prefix + "Version ", token);
    NoBreakConcat(prefix + "Version " + token, suffix);
  }

  /** The regex matches the banner at the keyword, capturing the token. */
  lemma BannerMatch(prefix: string, token: string, suffix: string)
    requires token != [] && forall m :: 0 <= m < |token| ==> IsVersionChar(token[m])
    requires suffix == [] || !IsVersionChar(suffix[0])
    ensures MatchAt(prefix + "Version " + token + suffix, |prefix|) == Some(token)
    ensures var line := prefix + "Version " + token + suffix;
            |prefix| + |Keyword| <= |line| && line[|prefix|..|prefix| + |Keyword|] == Keyword
  {
    var line := prefix + "Version " + token + suffix;
    var n := |prefix|;
    KeywordAt(line, n);
    BannerSpace(prefix, token, suffix);
    BannerToken(prefix, token, suffix);
  }

  /** In the banner, one space follows the keyword. */
  lemma BannerSpace(prefix: string, token: string, suffix: string)
    requires token != [] && forall m :: 0 <= m < |token| ==> IsVersionChar(token[m])
    ensures SpaceEnd(prefix + "Version " + token + suffix, |prefix| + 7) == |prefix| + 8
  {
    var line := prefix + "Version " + token + suffix;
    var n := |prefix|;
    assert line[n + 7] == ' ' && line[n + 8] == token[0];
    assert SpaceEnd(line, n + 8) == n + 8;
  }

  /** In the banner, the token is the run of class characters after the space. */
  lemma BannerToken(prefix: string, token: string, suffix: string)
    requires forall m :: 0 <= m < |token| ==> IsVersionChar(token[m])
    requires suffix == [] || !IsVersionChar(suffix[0])
    ensures var line := prefix + "Version " + token + suffix;
            && VersionCharsEnd(line, |prefix| + 8) == |prefix| + 8 + |token|
            && line[|prefix| + 8..|prefix| + 8 + |token|] == token
  {
    var line := prefix + "Version " + token + suffix;
    var n := |prefix|;
    assert line[n + 8..n + 8 + |token|] == token;
    if n + 8 + |token| < |line| {
      assert line[n + 8 + |token|] == suffix[0];
    }
    TokenRun(line, n + 8, token);
  }

  /** A token of class characters, at `i`, followed by the end or another character, is the run there. */
  lemma TokenRun(s: string, i: nat, token: string)
    requires i + |token| <= |s| && s[i..i + |token|] == token
    requires forall m :: 0 <= m < |token| ==> IsVersionChar(token[m])
    requires i + |token| == |s| || !IsVersionChar(s[i + |token|])
    ensures VersionCharsEnd(s, i) == i + |token|
  {
    assert forall m :: i <= m < i + |token| ==> s[m] == token[m - i];
    VersionCharsRun(s, i, i + |token|);
  }

  /** A run of class characters ended by the end of the text or another character ends where it ends. */
  lemma {:induction false} VersionCharsRun(s: string, i: nat, j: nat)
    requires i <= j <= |s|
    requires forall m :: i <= m < j ==> IsVersionChar(s[m])
    requires j == |s| || !IsVersionChar(s[j])
    ensures VersionCharsEnd(s, i) == j
    decreases j - i
  {
    if i < j {
      VersionCharsRun(s, i + 1, j);
    }
  }

  /** The banner line of IOS 15.2 yields its release token. */
  lemma CiscoBannerVersion()
    ensures VersionOf("Cisco IOS Software, Version 15.2(4)M3, RELEASE SOFTWARE") == "15.2(4)M3"
  {
    CiscoPrefix();
    CiscoSuffix();
    assert forall m :: 0 <= m < 9 ==> IsVersionChar("15.2(4)M3"[m]);
    BannerVersion("Cisco IOS Software, ", "15.2(4)M3", ", RELEASE SOFTWARE");
    CiscoBannerText();
  }

  lemma CiscoBannerText()
    ensures "Cisco IOS Software, " + "Version " + "15.2(4)M3" + ", RELEASE SOFTWARE"
            == "Cisco IOS Software, Version 15.2(4)M3, RELEASE SOFTWARE"
  {
  }

  lemma CiscoPrefix()
    ensures NoLineBreak("Cisco IOS Software, ")
    ensures forall m :: 0 <= m < 20 ==> "Cisco IOS Software, "[m] != 'V'
  {
    var p1, p2 := "Cisco IOS ", "Software, ";
    assert p1 + p2 == "Cisco IOS Software, ";
    NoBreakConcat(p1, p2);
    forall m | 0 <= m < 20 ensures (p1 + p2)[m] != 'V' {
      if m < 10 {
        assert (p1 + p2)[m] == p1[m];
      } else {
        assert (p1 + p2)[m] == p2[m - 10];
      }
    }
  }

  lemma CiscoSuffix()
    ensures NoLineBreak(", RELEASE SOFTWARE") && ", RELEASE SOFTWARE"[0] == ','
  {
    var s1, s2 := ", RELEASE ", "SOFTWARE";
    assert s1 + s2 == ", RELEASE SOFTWARE";
    NoBreakConcat(s1, s2);
  }

  lemma NoBreakConcat(a: string, b: string)
    requires NoLineBreak(a) && NoLineBreak(b)
    ensures NoLineBreak(a + b)
  {
    assert forall k :: |a| <= k < |a + b| ==> (a + b)[k] == b[k - |a|];
  }
}
