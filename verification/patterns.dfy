/**
  The character classes and the keyword patterns that the Java classifier
  tests with ECMAScript regular expressions of the shape
  `\bk1\s+k2\s+...\s+\w+` (no flags).

  Each pattern is given twice: `MatchesAt`/`Matches` state what the regular
  expression accepts, with the backtracking of `\s+` written as an
  existential; `MatchAt`/`Test` are the greedy scanner that computes it, and
  their contracts say that the two agree.
*/
module Patterns {

  /** `\w`: ASCII letters, digits and underscore. */
  predicate IsWordChar(c: char) {
    ('a' <= c <= 'z') || ('A' <= c <= 'Z') || ('0' <= c <= '9') || c == '_'
  }

  /**
    `\s`: the ECMAScript WhiteSpace and LineTerminator code points, that is
    tab, line feed, vertical tab, form feed, carriage return, the Unicode
    space separators (category Zs), U+2028, U+2029 and U+FEFF.
  */
  predicate IsSpace(c: char) {
    var n := c as int;
    (0x09 <= n <= 0x0D) || n == 0x20 || n == 0xA0 || n == 0x1680
    || (0x2000 <= n <= 0x200A) || n == 0x2028 || n == 0x2029
    || n == 0x202F || n == 0x205F || n == 0x3000 || n == 0xFEFF
  }

  /** The line terminators, the characters that `.` does not match. */
  predicate IsLineTerminator(c: char) {
    var n := c as int;
    n == 0x0A || n == 0x0D || n == 0x2028 || n == 0x2029
  }

  lemma SpaceIsNotWord(c: char)
    ensures IsSpace(c) ==> !IsWordChar(c)
    ensures IsLineTerminator(c) ==> IsSpace(c)
  {
  }

  /** A word character at index `i` (false outside the text). */
  predicate WordAt(s: string, i: int) {
    0 <= i < |s| && IsWordChar(s[i])
  }

  /** `\b` at position `i`: a word character on exactly one side. */
  predicate Boundary(s: string, i: int) {
    WordAt(s, i - 1) != WordAt(s, i)
  }

  /** Every character of `s[from..to]` is whitespace. */
  predicate SpaceRun(s: string, from: int, to: int) {
    0 <= from <= to <= |s| && forall j :: from <= j < to ==> IsSpace(s[j])
  }

  /** The literal `kw` occurs in `s` at index `i`. */
  predicate KeywordAt(s: string, i: int, kw: string) {
    0 <= i && i + |kw| <= |s| && s[i..i + |kw|] == kw
  }

  /** A pattern is a list of keywords, each a non-empty word. */
  predicate ValidPattern(pat: seq<string>) {
    forall k :: 0 <= k < |pat| ==> |pat[k]| > 0 && IsWordChar(pat[k][0])
  }

  /**
    `k1\s+k2\s+...\s+\w+` matches starting at index `i`, where
    `pat == [k1, k2, ...]`: each keyword is followed by at least one
    whitespace character, and the last by a word character.
  */
  ghost predicate MatchesAt(s: string, i: int, pat: seq<string>)
    decreases |pat|
  {
    if pat == [] then WordAt(s, i)
    else
      KeywordAt(s, i, pat[0]) &&
      exists k :: i + |pat[0]| < k <= |s| && SpaceRun(s, i + |pat[0]|, k) && MatchesAt(s, k, pat[1..])
  }

  /** The regular expression `\bk1\s+...\s+\w+` matches somewhere in `s`. */
  ghost predicate Matches(s: string, pat: seq<string>) {
    exists i :: 0 <= i <= |s| && Boundary(s, i) && MatchesAt(s, i, pat)
  }

  /** End of the longest run of whitespace that starts at `i`. */
  function SkipSpaces(s: string, i: nat): (j: nat)
    requires i <= |s|
    ensures i <= j <= |s| && SpaceRun(s, i, j)
    ensures j == |s| || !IsSpace(s[j])
    decreases |s| - i
  {
    if i < |s| && IsSpace(s[i]) then SkipSpaces(s, i + 1) else i
  }

  /**
    Inside a whitespace run, the pattern cannot resume: what follows `\s+`
    starts with a word character, so only the end of the longest run is
    a candidate.
  */
  lemma OnlyLongestRun(s: string, e: nat, k: int, pat: seq<string>)
    requires e <= |s| && ValidPattern(pat)
    requires e < k && SpaceRun(s, e, k) && MatchesAt(s, k, pat)
    ensures k == SkipSpaces(s, e)
  {
    var j := SkipSpaces(s, e);
    if k < j {
      SpaceIsNotWord(s[k]);
    }
  }

  /** The greedy scanner for `k1\s+...\s+\w+` at index `i`. */
  function MatchAt(s: string, i: nat, pat: seq<string>): (b: bool)
    requires i <= |s| && ValidPattern(pat)
    ensures b <==> MatchesAt(s, i, pat)
    decreases |pat|
  {
    if pat == [] then i < |s| && IsWordChar(s[i])
    else
      var e := i + |pat[0]|;
      if e <= |s| && s[i..e] == pat[0] then
        var k := SkipSpaces(s, e);
        assert ValidPattern(pat[1..]) by {
          forall m | 0 <= m < |pat[1..]| ensures |pat[1..][m]| > 0 && IsWordChar(pat[1..][m][0]) {
            assert pat[1..][m] == pat[m + 1];
          }
        }
        var b := k > e && MatchAt(s, k, pat[1..]);
        assert MatchesAt(s, i, pat) ==> b by {
          if MatchesAt(s, i, pat) {
            var k' :| e < k' <= |s| && SpaceRun(s, e, k') && MatchesAt(s, k', pat[1..]);
            OnlyLongestRun(s, e, k', pat[1..]);
          }
        }
        b
      else false
  }

  /** Some index `j` with `i <= j <= |s|` starts a match. */
  function SearchFrom(s: string, i: nat, pat: seq<string>): (b: bool)
    requires ValidPattern(pat)
    ensures b <==> exists j :: i <= j <= |s| && Boundary(s, j) && MatchesAt(s, j, pat)
    decreases |s| + 1 - i
  {
    if i > |s| then false
    else (Boundary(s, i) && MatchAt(s, i, pat)) || SearchFrom(s, i + 1, pat)
  }

  /** `RegExp.prototype.test` for the pattern `pat`. */
  function Test(s: string, pat: seq<string>): (b: bool)
    requires ValidPattern(pat)
    ensures b <==> Matches(s, pat)
  {
    SearchFrom(s, 0, pat)
  }

  /**
    Dropping the first keyword of a pattern of two or more keywords keeps a
    match: the second keyword follows whitespace, so `\b` holds before it.
  */
  lemma TailPatternMatches(s: string, pat: seq<string>)
    requires |pat| >= 2 && ValidPattern(pat) && Matches(s, pat)
    ensures Matches(s, pat[1..])
  {
    var i :| 0 <= i <= |s| && Boundary(s, i) && MatchesAt(s, i, pat);
    var e := i + |pat[0]|;
    var k :| e < k <= |s| && SpaceRun(s, e, k) && MatchesAt(s, k, pat[1..]);
    SpaceIsNotWord(s[k - 1]);
    assert pat[1..][0] == pat[1];
    assert s[k..k + |pat[1]|][0] == s[k];
    assert Boundary(s, k);
  }

  /** A match found in `s` is still a match once text is put around `s`. */
  lemma {:induction false} MatchesAtShift(s: string, i: int, pat: seq<string>, before: string, after: string)
    requires MatchesAt(s, i, pat)
    ensures MatchesAt(before + s + after, |before| + i, pat)
    decreases |pat|
  {
    var u := before + s + after;
    var d := |before|;
    if pat == [] {
      assert u[d + i] == s[i];
    } else {
      var e := i + |pat[0]|;
      assert u[d + i..d + e] == s[i..e];
      var k :| e < k <= |s| && SpaceRun(s, e, k) && MatchesAt(s, k, pat[1..]);
      MatchesAtShift(s, k, pat[1..], before, after);
      assert forall j :: d + e <= j < d + k ==> u[j] == s[j - d];
      assert SpaceRun(u, d + e, d + k);
    }
  }

  /** One keyword, a whitespace run up to `k`, and a match of the rest at `k`. */
  lemma MatchesAtStep(s: string, i: int, pat: seq<string>, k: int)
    requires pat != [] && KeywordAt(s, i, pat[0])
    requires i + |pat[0]| < k && SpaceRun(s, i + |pat[0]|, k) && MatchesAt(s, k, pat[1..])
    ensures MatchesAt(s, i, pat)
  {
  }
}
