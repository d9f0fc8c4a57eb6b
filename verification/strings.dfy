/**
 * The handful of Python `str` operations the license checker relies on:
 * `strip`, `rstrip(ch)`, `lower`, `upper`, the substring test `in`,
 * `split(sep)[0]`, `split(".")` with `".".join`, `splitlines`, `replace`,
 * `str(int)` and the ordering `sorted` uses.
 */
module Strings {

  /** Python's `str.isspace` for one character (the complete, finite set). */
  predicate IsSpace(c: char) {
    || ('\t' <= c <= '\r')
    || ('\U{1C}' <= c <= '\U{1F}')
    || c == ' '
    || c == '\U{85}'
    || c == '\U{A0}'
    || c == '\U{1680}'
    || ('\U{2000}' <= c <= '\U{200A}')
    || c == '\U{2028}'
    || c == '\U{2029}'
    || c == '\U{202F}'
    || c == '\U{205F}'
    || c == '\U{3000}'
  }

  /** `s.lstrip()`: drops the leading white space, and only that. */
  function LStrip(s: string): (r: string)
    ensures |r| <= |s| && r == s[|s| - |r|..]
    ensures r == [] || !IsSpace(r[0])
    ensures forall i :: 0 <= i < |s| - |r| ==> IsSpace(s[i])
  {
    if s != [] && IsSpace(s[0]) then LStrip(s[1..]) else s
  }

  /** `s.rstrip()`: drops the trailing white space, and only that. */
  function RStrip(s: string): (r: string)
    ensures r <= s
    ensures r == [] || !IsSpace(r[|r| - 1])
    ensures forall i :: |r| <= i < |s| ==> IsSpace(s[i])
  {
    if s != [] && IsSpace(s[|s| - 1]) then RStrip(s[..|s| - 1]) else s
  }

  /** `s.strip()`. */
  function Strip(s: string): string {
    RStrip(LStrip(s))
  }

  /** True when `s` neither starts nor ends with white space. */
  predicate Trimmed(s: string) {
    s == [] || (!IsSpace(s[0]) && !IsSpace(s[|s| - 1]))
  }

  lemma StripIsTrimmed(s: string)
    ensures Trimmed(Strip(s))
  {
    var t := LStrip(s);
    var r := RStrip(t);
    if r != [] {
      assert r[0] == t[0];
    }
  }

  lemma {:induction false} StripKeepsTrimmed(s: string)
    requires Trimmed(s)
    ensures Strip(s) == s
  {
    assert LStrip(s) == s;
    assert RStrip(s) == s;
  }

  /** Stripping twice is stripping once. */
  lemma StripIdempotent(s: string)
    ensures Strip(Strip(s)) == Strip(s)
  {
    StripIsTrimmed(s);
    StripKeepsTrimmed(Strip(s));
  }

  /** `s.rstrip(c)`: drops every trailing occurrence of `c`. */
  function RStripChar(s: string, c: char): (r: string)
    ensures r <= s
    ensures r == [] || r[|r| - 1] != c
    ensures forall i :: |r| <= i < |s| ==> s[i] == c
  {
    if s != [] && s[|s| - 1] == c then RStripChar(s[..|s| - 1], c) else s
  }

  // ---------------------------------------------------------------------
  // Case mapping (ASCII letters only)

  function LowerChar(c: char): char {
    if 'A' <= c <= 'Z' then (c as int + 32) as char else c
  }

  function UpperChar(c: char): char {
    if 'a' <= c <= 'z' then (c as int - 32) as char else c
  }

  /** `s.lower()`. */
  function Lower(s: string): (r: string)
    ensures |r| == |s|
  {
    seq(|s|, i requires 0 <= i < |s| => LowerChar(s[i]))
  }

  /** `s.upper()`. */
  function Upper(s: string): (r: string)
    ensures |r| == |s|
  {
    seq(|s|, i requires 0 <= i < |s| => UpperChar(s[i]))
  }

  lemma LowerIdempotent(s: string)
    ensures Lower(Lower(s)) == Lower(s)
  {
  }

  lemma UpperIdempotent(s: string)
    ensures Upper(Upper(s)) == Upper(s)
  {
  }

  /** Lowering forgets the case the text had: upper-casing first changes nothing. */
  lemma LowerForgetsUpper(s: string)
    ensures Lower(Upper(s)) == Lower(s)
  {
  }

  /** Upper-casing forgets the case the text had: lowering first changes nothing. */
  lemma UpperForgetsLower(s: string)
    ensures Upper(Lower(s)) == Upper(s)
  {
  }

  /** Case mapping never turns a space into a non-space or back. */
  lemma SpaceIgnoresCase(c: char)
    ensures IsSpace(LowerChar(c)) == IsSpace(c)
    ensures IsSpace(UpperChar(c)) == IsSpace(c)
  {
  }

  lemma {:induction false} LStripLower(s: string)
    ensures LStrip(Lower(s)) == Lower(LStrip(s))
  {
    if s != [] {
      SpaceIgnoresCase(s[0]);
      assert Lower(s)[1..] == Lower(s[1..]);
      LStripLower(s[1..]);
    }
  }

  lemma {:induction false} RStripLower(s: string)
    ensures RStrip(Lower(s)) == Lower(RStrip(s))
  {
    if s != [] {
      SpaceIgnoresCase(s[|s| - 1]);
      assert Lower(s)[..|s| - 1] == Lower(s[..|s| - 1]);
      RStripLower(s[..|s| - 1]);
    }
  }

  lemma {:induction false} LStripUpper(s: string)
    ensures LStrip(Upper(s)) == Upper(LStrip(s))
  {
    if s != [] {
      SpaceIgnoresCase(s[0]);
      assert Upper(s)[1..] == Upper(s[1..]);
      LStripUpper(s[1..]);
    }
  }

  lemma {:induction false} RStripUpper(s: string)
    ensures RStrip(Upper(s)) == Upper(RStrip(s))
  {
    if s != [] {
      SpaceIgnoresCase(s[|s| - 1]);
      assert Upper(s)[..|s| - 1] == Upper(s[..|s| - 1]);
      RStripUpper(s[..|s| - 1]);
    }
  }

  /** Stripping and case mapping commute, because no letter is white space. */
  lemma StripCaseCommutes(s: string)
    ensures Strip(Lower(s)) == Lower(Strip(s))
    ensures Strip(Upper(s)) == Upper(Strip(s))
  {
    LStripLower(s);
    RStripLower(LStrip(s));
    LStripUpper(s);
    RStripUpper(LStrip(s));
  }

  /** White space around a text does not survive `strip`. */
  lemma {:induction false} StripIgnoresPadding(pre: string, s: string, post: string)
    requires forall i :: 0 <= i < |pre| ==> IsSpace(pre[i])
    requires forall i :: 0 <= i < |post| ==> IsSpace(post[i])
    ensures Strip(pre + s + post) == Strip(s)
  {
    LStripPadding(pre, s + post);
    assert pre + s + post == pre + (s + post);
    LStripAppend(s, post);
    var t := LStrip(s);
    if t == [] {
      assert LStrip(post) == [];
    } else {
      RStripPadding(t, post);
    }
  }

  lemma {:induction false} LStripPadding(pre: string, s: string)
    requires forall i :: 0 <= i < |pre| ==> IsSpace(pre[i])
    ensures LStrip(pre + s) == LStrip(s)
  {
    if pre != [] {
      assert (pre + s)[0] == pre[0];
      assert (pre + s)[1..] == pre[1..] + s;
      LStripPadding(pre[1..], s);
    } else {
      assert pre + s == s;
    }
  }

  lemma {:induction false} RStripPadding(s: string, post: string)
    requires forall i :: 0 <= i < |post| ==> IsSpace(post[i])
    ensures RStrip(s + post) == RStrip(s)
  {
    if post != [] {
      var n := |post| - 1;
      assert (s + post)[..|s + post| - 1] == s + post[..n];
      RStripPadding(s, post[..n]);
    } else {
      assert s + post == s;
    }
  }

  /** Leading white space is removed the same way whatever follows it. */
  lemma {:induction false} LStripAppend(s: string, post: string)
    ensures LStrip(s + post) == (if LStrip(s) == [] then LStrip(post) else LStrip(s) + post)
  {
    if s == [] {
      assert s + post == post;
    } else if IsSpace(s[0]) {
      assert (s + post)[1..] == s[1..] + post;
      LStripAppend(s[1..], post);
    }
  }

  // ---------------------------------------------------------------------
  // Substrings, prefixes and suffixes

  /** Python's `needle in hay` for two strings. */
  predicate Contains(hay: string, needle: string) {
    needle <= hay || (hay != [] && Contains(hay[1..], needle))
  }

  /** An occurrence at a known position is an occurrence. */
  lemma {:induction false} ContainsAt(hay: string, needle: string, i: nat)
    requires i + |needle| <= |hay| && hay[i..i + |needle|] == needle
    ensures Contains(hay, needle)
  {
    if i == 0 {
      assert hay[..|needle|] == needle;
    } else {
      assert hay[1..][i - 1..i - 1 + |needle|] == needle;
      ContainsAt(hay[1..], needle, i - 1);
    }
  }

  /** Every occurrence sits at some position. */
  lemma {:induction false} ContainsPosition(hay: string, needle: string) returns (i: nat)
    requires Contains(hay, needle)
    ensures i + |needle| <= |hay| && hay[i..i + |needle|] == needle
  {
    if needle <= hay {
      i := 0;
    } else {
      var j := ContainsPosition(hay[1..], needle);
      assert hay[1..][j..j + |needle|] == hay[j + 1..j + 1 + |needle|];
      i := j + 1;
    }
  }

  /** A text that lacks some character of `needle` cannot contain `needle`. */
  lemma MissingChar(hay: string, needle: string, k: nat)
    requires k < |needle| && needle[k] !in hay
    ensures !Contains(hay, needle)
  {
    if Contains(hay, needle) {
      var i := ContainsPosition(hay, needle);
    }
  }

  /** A substring of a substring is a substring. */
  lemma ContainsTransitive(a: string, b: string, c: string)
    requires Contains(a, b) && Contains(b, c)
    ensures Contains(a, c)
  {
    var i := ContainsPosition(a, b);
    var j := ContainsPosition(b, c);
    forall k | 0 <= k < |c|
      ensures a[i + j + k] == c[k]
    {
      assert c[k] == b[j + k] == a[i + j + k];
    }
    assert a[i + j..i + j + |c|] == c;
    ContainsAt(a, c, i + j);
  }

  /** What occurs in a prefix occurs in the whole text. */
  lemma ContainsInPrefix(p: string, s: string, needle: string)
    requires p <= s && Contains(p, needle)
    ensures Contains(s, needle)
  {
    var i := ContainsPosition(p, needle);
    assert s[i..i + |needle|] == p[i..i + |needle|];
    ContainsAt(s, needle, i);
  }

  /** `s.endswith(suffix)`. */
  predicate EndsWith(s: string, suffix: string) {
    |suffix| <= |s| && s[|s| - |suffix|..] == suffix
  }

  /**
   * `s.split(sep)[0]`: the text before the first occurrence of `sep`, or
   * all of `s` when `sep` does not occur.
   */
  function CutAt(s: string, sep: string): (r: string)
    requires sep != []
    ensures r <= s
    ensures !Contains(r, sep)
    ensures r == s || sep <= s[|r|..]
    ensures forall j :: 0 <= j < |r| ==> !(sep <= s[j..])
  {
    if sep <= s then []
    else if s == [] then []
    else
      var rest := CutAt(s[1..], sep);
      assert ([s[0]] + rest)[1..] == rest;
      assert forall j :: 1 <= j <= |rest| ==> s[j..] == s[1..][j - 1..];
      [s[0]] + rest
  }

  /**
   * Only one text is a prefix of `s` that no occurrence of `sep` starts in
   * and that is all of `s` or followed by `sep`: the cut is unique.
   */
  lemma CutAtUnique(s: string, sep: string, r: string)
    requires sep != [] && r <= s
    requires forall j :: 0 <= j < |r| ==> !(sep <= s[j..])
    requires r == s || sep <= s[|r|..]
    ensures r == CutAt(s, sep)
  {
    var c := CutAt(s, sep);
    if |r| != |c| {
      assert false;
    }
  }

  /** Cutting a text that lacks the separator leaves it whole. */
  lemma CutAtAbsent(s: string, sep: string)
    requires sep != [] && !Contains(s, sep)
    ensures CutAt(s, sep) == s
  {
  }

  // ---------------------------------------------------------------------
  // Splitting on one character and joining back

  /** `s.split(c)` for a one-character separator. */
  function SplitOn(s: string, c: char): (parts: seq<string>)
    ensures |parts| >= 1
    ensures forall i :: 0 <= i < |parts| ==> c !in parts[i]
  {
    if s == [] then [[]]
    else
      var rest := SplitOn(s[1..], c);
      if s[0] == c then [[]] + rest else [[s[0]] + rest[0]] + rest[1..]
  }

  /** `c.join(parts)`. */
  function Join(parts: seq<string>, c: char): string {
    if parts == [] then []
    else if |parts| == 1 then parts[0]
    else parts[0] + [c] + Join(parts[1..], c)
  }

  lemma JoinPushHead(x: char, p: string, ps: seq<string>, c: char)
    ensures Join([[x] + p] + ps, c) == [x] + Join([p] + ps, c)
  {
    if ps != [] {
      assert ([[x] + p] + ps)[1..] == ps;
      assert ([p] + ps)[1..] == ps;
    }
  }

  /** Splitting and joining on the same character gives the text back. */
  lemma {:induction false} JoinSplit(s: string, c: char)
    ensures Join(SplitOn(s, c), c) == s
  {
    if s != [] {
      var rest := SplitOn(s[1..], c);
      JoinSplit(s[1..], c);
      if s[0] == c {
        assert ([[]] + rest)[1..] == rest;
      } else {
        JoinPushHead(s[0], rest[0], rest[1..], c);
        assert [rest[0]] + rest[1..] == rest;
      }
    }
  }

  /** Splitting yields one more part than there are separators. */
  lemma {:induction false} SplitCount(s: string, c: char)
    ensures |SplitOn(s, c)| == multiset(s)[c] + 1
  {
    if s != [] {
      SplitCount(s[1..], c);
      assert s == [s[0]] + s[1..];
    }
  }

  /** `c.join(s.split(c)[:n])`: the first `n` parts of `s`, joined back. */
  function FirstSegments(s: string, c: char, n: nat): string {
    var parts := SplitOn(s, c);
    Join(parts[..if |parts| < n then |parts| else n], c)
  }

  /** A leading separator contributes itself and one part less to the rest. */
  lemma FirstSegmentsAtSeparator(s: string, c: char, n: nat)
    requires s != [] && s[0] == c && n >= 2
    ensures FirstSegments(s, c, n) == [c] + FirstSegments(s[1..], c, n - 1)
  {
    var rest := SplitOn(s[1..], c);
    var parts := SplitOn(s, c);
    var m := if |rest| < n - 1 then |rest| else n - 1;
    assert parts[..m + 1] == [[]] + rest[..m];
    assert ([[]] + rest[..m])[1..] == rest[..m];
  }

  /** A leading ordinary character stays in front of the first part. */
  lemma FirstSegmentsAtOther(s: string, c: char, n: nat)
    requires s != [] && s[0] != c && n >= 1
    ensures FirstSegments(s, c, n) == [s[0]] + FirstSegments(s[1..], c, n)
  {
    var rest := SplitOn(s[1..], c);
    var parts := SplitOn(s, c);
    var m := if |rest| < n then |rest| else n;
    assert parts[..m] == [[s[0]] + rest[0]] + rest[1..m];
    JoinPushHead(s[0], rest[0], rest[1..m], c);
    assert [rest[0]] + rest[1..m] == rest[..m];
  }

  /** The first `n` parts form a prefix of the text holding fewer than `n` separators. */
  lemma {:induction false} FirstSegmentsPrefix(s: string, c: char, n: nat)
    requires n >= 1
    ensures FirstSegments(s, c, n) <= s
    ensures multiset(FirstSegments(s, c, n))[c] < n
  {
    if s != [] {
      assert s == [s[0]] + s[1..];
      if s[0] == c && n >= 2 {
        FirstSegmentsPrefix(s[1..], c, n - 1);
        FirstSegmentsAtSeparator(s, c, n);
        PrefixCons(s[0], FirstSegments(s[1..], c, n - 1), s[1..], c);
      } else if s[0] == c {
        assert SplitOn(s, c)[..1] == [[]];
      } else {
        FirstSegmentsPrefix(s[1..], c, n);
        FirstSegmentsAtOther(s, c, n);
        PrefixCons(s[0], FirstSegments(s[1..], c, n), s[1..], c);
      }
    }
  }

  /** Putting the same character in front keeps a prefix a prefix and counts it once. */
  lemma PrefixCons(x: char, p: string, s: string, c: char)
    requires p <= s
    ensures [x] + p <= [x] + s
    ensures multiset([x] + p)[c] == (if x == c then 1 else 0) + multiset(p)[c]
  {
    assert multiset([x] + p) == multiset([x]) + multiset(p);
  }

  /** A prefix holds at most as many copies of a character as the whole text. */
  lemma CountInPrefix(p: string, s: string, c: char)
    requires p <= s
    ensures multiset(p)[c] <= multiset(s)[c]
  {
    assert s == p + s[|p|..];
  }

  // ---------------------------------------------------------------------
  // Lines

  /** The characters `str.splitlines` breaks a text at. */
  predicate IsLineBoundary(c: char) {
    || ('\n' <= c <= '\r')
    || ('\U{1C}' <= c <= '\U{1E}')
    || c == '\U{85}'
    || c == '\U{2028}'
    || c == '\U{2029}'
  }

  /** The position of the first line boundary at or after `from`, or `|s|`. */
  function LineEnd(s: string, from: nat): (k: nat)
    requires from <= |s|
    ensures from <= k <= |s|
    ensures k < |s| ==> IsLineBoundary(s[k])
    ensures forall j :: from <= j < k ==> !IsLineBoundary(s[j])
    decreases |s| - from
  {
    if from == |s| || IsLineBoundary(s[from]) then from else LineEnd(s, from + 1)
  }

  /**
   * `s.splitlines()`: the lines of `s` without their terminators; `\r\n`
   * ends one line, and a final terminator opens no empty line.
   */
  function SplitLines(s: string): (lines: seq<string>)
    ensures forall i, j :: 0 <= i < |lines| && 0 <= j < |lines[i]| ==> !IsLineBoundary(lines[i][j])
    ensures |lines| <= |s|
    decreases |s|
  {
    if s == [] then []
    else
      var k := LineEnd(s, 0);
      if k == |s| then [s]
      else
        var next := if s[k] == '\r' && k + 1 < |s| && s[k + 1] == '\n' then k + 2 else k + 1;
        [s[..k]] + SplitLines(s[next..])
  }

  /** `"\n".join(lines)`. */
  function JoinLines(lines: seq<string>): string {
    if lines == [] then []
    else if |lines| == 1 then lines[0]
    else lines[0] + "\n" + JoinLines(lines[1..])
  }

  /** A non-empty text has at least one line. */
  lemma SplitLinesNonEmpty(s: string)
    requires s != []
    ensures SplitLines(s) != []
  {
  }

  /** A line ended by a lone '\n' is split off, and the rest is split on its own. */
  lemma SplitLinesAtNewline(s: string, k: nat)
    requires k < |s| && k == LineEnd(s, 0) && s[k] == '\n'
    ensures SplitLines(s) == [s[..k]] + SplitLines(s[k + 1..])
  {
  }

  /** Joining puts exactly one '\n' after a line that has a successor. */
  lemma JoinLinesCons(line: string, lines: seq<string>)
    requires lines != []
    ensures JoinLines([line] + lines) == line + "\n" + JoinLines(lines)
  {
    assert ([line] + lines)[1..] == lines;
  }

  /**
   * On a text whose only line boundaries are inner '\n's, `splitlines`
   * loses nothing: joining the lines with '\n' gives the text back.
   */
  lemma {:induction false} SplitLinesJoin(s: string)
    requires OnlyInnerNewlines(s)
    ensures JoinLines(SplitLines(s)) == s
    decreases |s|
  {
    if s != [] {
      var k := LineEnd(s, 0);
      if k < |s| {
        var rest := s[k + 1..];
        OnlyInnerNewlinesAfter(s, k);
        SplitLinesJoin(rest);
        SplitLinesNonEmpty(rest);
        calc {
          JoinLines(SplitLines(s));
          { SplitLinesAtNewline(s, k); }
          JoinLines([s[..k]] + SplitLines(rest));
          { JoinLinesCons(s[..k], SplitLines(rest)); }
          s[..k] + "\n" + JoinLines(SplitLines(rest));
          s[..k] + "\n" + rest;
          { assert s == s[..k] + [s[k]] + rest; }
          s;
        }
      }
    }
  }

  /** Every line boundary of `s` is a '\n', and `s` does not end with one. */
  predicate OnlyInnerNewlines(s: string) {
    && (forall i :: 0 <= i < |s| && IsLineBoundary(s[i]) ==> s[i] == '\n')
    && (s == [] || s[|s| - 1] != '\n')
  }

  /** Past the first boundary of such a text, the rest is non-empty and of the same kind. */
  lemma OnlyInnerNewlinesAfter(s: string, k: nat)
    requires OnlyInnerNewlines(s)
    requires k < |s| && IsLineBoundary(s[k])
    ensures s[k] == '\n' && k + 1 < |s|
    ensures OnlyInnerNewlines(s[k + 1..])
  {
    var rest := s[k + 1..];
    forall i | 0 <= i < |rest| && IsLineBoundary(rest[i])
      ensures rest[i] == '\n'
    {
      assert rest[i] == s[k + 1 + i];
    }
  }

  // ---------------------------------------------------------------------
  // Replacement, ordering, numerals

  /** `s.replace(a, b)` for one-character strings. */
  function ReplaceChar(s: string, a: char, b: char): (r: string)
    ensures |r| == |s|
    ensures a != b ==> a !in r
  {
    seq(|s|, i requires 0 <= i < |s| => if s[i] == a then b else s[i])
  }

  /** Python's `<` on strings: code-point lexicographic order. */
  predicate LexLess(a: string, b: string) {
    if a == [] then b != []
    else b != [] && (a[0] < b[0] || (a[0] == b[0] && LexLess(a[1..], b[1..])))
  }

  lemma LexIrreflexive(a: string)
    ensures !LexLess(a, a)
  {
  }

  lemma {:induction false} LexTransitive(a: string, b: string, c: string)
    requires LexLess(a, b) && LexLess(b, c)
    ensures LexLess(a, c)
  {
    if a != [] && a[0] == b[0] && b[0] == c[0] {
      LexTransitive(a[1..], b[1..], c[1..]);
    }
  }

  lemma {:induction false} LexTotal(a: string, b: string)
    requires a != b
    ensures LexLess(a, b) || LexLess(b, a)
  {
    if a != [] && b != [] && a[0] == b[0] {
      assert a == [a[0]] + a[1..] && b == [b[0]] + b[1..];
      LexTotal(a[1..], b[1..]);
    }
  }

  /** Strictly increasing in Python's string order, hence also free of duplicates. */
  predicate StrictlySorted(r: seq<string>) {
    forall i, j :: 0 <= i < j < |r| ==> LexLess(r[i], r[j])
  }

  /** `m` is the least element of `s`. */
  predicate IsLeast(m: string, s: set<string>) {
    m in s && forall y :: y in s ==> y == m || LexLess(m, y)
  }

  /** Every non-empty finite set of strings has a least element. */
  lemma {:induction false} LeastExists(s: set<string>)
    requires s != {}
    ensures exists m :: IsLeast(m, s)
    decreases |s|
  {
    var x :| x in s;
    var rest := s - {x};
    if rest == {} {
      assert s == {x};
      assert IsLeast(x, s);
    } else {
      LeastExists(rest);
      var m :| IsLeast(m, rest);
      if LexLess(x, m) {
        forall y | y in s
          ensures y == x || LexLess(x, y)
        {
          if y != x && y != m {
            LexTransitive(x, m, y);
          }
        }
        assert IsLeast(x, s);
      } else {
        LexTotal(x, m);
        assert IsLeast(m, s);
      }
    }
  }

  /** Putting the least element in front of a sorted listing of the rest gives a sorted listing. */
  lemma ConsLeast(m: string, s: set<string>, rest: seq<string>)
    requires IsLeast(m, s) && StrictlySorted(rest)
    requires forall x :: x in rest <==> x in s - {m}
    ensures StrictlySorted([m] + rest)
    ensures forall x :: x in [m] + rest <==> x in s
  {
    var r := [m] + rest;
    forall i, j | 0 <= i < j < |r|
      ensures LexLess(r[i], r[j])
    {
      if i == 0 {
        assert r[j] == rest[j - 1] && rest[j - 1] in rest;
      } else {
        assert r[i] == rest[i - 1] && r[j] == rest[j - 1];
      }
    }
  }

  /** `sorted(s)` for a set of strings. */
  ghost function SortedOf(s: set<string>): (r: seq<string>)
    ensures StrictlySorted(r)
    ensures forall x :: x in r <==> x in s
    decreases |s|
  {
    if s == {} then []
    else
      LeastExists(s);
      var m :| IsLeast(m, s);
      var rest := SortedOf(s - {m});
      ConsLeast(m, s, rest);
      [m] + rest
  }

  /** Two strictly sorted sequences with the same elements are equal. */
  lemma {:induction false} SortedUnique(a: seq<string>, b: seq<string>)
    requires StrictlySorted(a) && StrictlySorted(b)
    requires forall x :: x in a <==> x in b
    ensures a == b
    decreases |a|
  {
    if a != [] {
      assert a[0] in b;
    }
    if b != [] {
      assert b[0] in a;
    }
    if a != [] && b != [] {
      if a[0] != b[0] {
        var i :| 0 <= i < |b| && b[i] == a[0];
        var j :| 0 <= j < |a| && a[j] == b[0];
        LexTransitive(a[0], b[0], a[0]);
        LexIrreflexive(a[0]);
      }
      forall x
        ensures x in a[1..] <==> x in b[1..]
      {
        if x in a[1..] {
          var k :| 1 <= k < |a| && a[k] == x;
          assert x in b;
          var l :| 0 <= l < |b| && b[l] == x;
          LexIrreflexive(x);
          assert l != 0;
        }
        if x in b[1..] {
          var k :| 1 <= k < |b| && b[k] == x;
          assert x in a;
          var l :| 0 <= l < |a| && a[l] == x;
          LexIrreflexive(x);
          assert l != 0;
        }
      }
      SortedUnique(a[1..], b[1..]);
      assert a == [a[0]] + a[1..] && b == [b[0]] + b[1..];
    }
  }

  /**
   * `sorted(s)`: repeatedly takes out the least remaining element, so the
   * result is the one strictly sorted listing of `s`.
   */
  method SortedList(s: set<string>) returns (r: seq<string>)
    ensures StrictlySorted(r)
    ensures forall x :: x in r <==> x in s
    ensures r == SortedOf(s)
  {
    r := [];
    var rest := s;
    while rest != {}
      invariant rest <= s
      invariant StrictlySorted(r)
      invariant forall x :: x in r <==> x in s && x !in rest
      invariant forall x, y :: x in r && y in rest ==> LexLess(x, y)
      decreases |rest|
    {
      LeastExists(rest);
      var m :| IsLeast(m, rest);
      forall i, j | 0 <= i < j < |r + [m]|
        ensures LexLess((r + [m])[i], (r + [m])[j])
      {
        if j == |r| {
          assert r[i] in r;
        }
      }
      r := r + [m];
      rest := rest - {m};
    }
    SortedUnique(r, SortedOf(s));
  }

  function DigitChar(d: nat): char
    requires d < 10
  {
    ('0' as int + d) as char
  }

  function DigitValue(c: char): nat {
    if '0' <= c <= '9' then c as int - '0' as int else 0
  }

  /** `str(n)` for a natural number: decimal digits, no leading zero. */
  function NatToString(n: nat): (r: string)
    ensures r != []
    ensures forall i :: 0 <= i < |r| ==> '0' <= r[i] <= '9'
    ensures |r| > 1 ==> r[0] != '0'
  {
    if n < 10 then [DigitChar(n)] else NatToString(n / 10) + [DigitChar(n % 10)]
  }

  /** `str(i)` for an integer. */
  function IntToString(i: int): (r: string)
    ensures r != []
  {
    if i < 0 then "-" + NatToString(-i) else NatToString(i)
  }

  /** The value of a string of decimal digits. */
  function DecimalValue(s: string): nat {
    if s == [] then 0 else DecimalValue(s[..|s| - 1]) * 10 + DigitValue(s[|s| - 1])
  }

  /** Reading back the decimal numeral gives the number. */
  lemma {:induction false} DecimalRoundTrip(n: nat)
    ensures DecimalValue(NatToString(n)) == n
  {
    if n >= 10 {
      var s := NatToString(n);
      assert s[..|s| - 1] == NatToString(n / 10);
      DecimalRoundTrip(n / 10);
    }
  }

  /** Distinct integers print differently. */
  lemma IntToStringInjective(a: int, b: int)
    requires IntToString(a) == IntToString(b)
    ensures a == b
  {
    if a >= 0 && b >= 0 {
      DecimalRoundTrip(a);
      DecimalRoundTrip(b);
    } else if a < 0 && b < 0 {
      assert NatToString(-a) == IntToString(a)[1..];
      assert NatToString(-b) == IntToString(b)[1..];
      DecimalRoundTrip(-a);
      DecimalRoundTrip(-b);
    }
  }
}
