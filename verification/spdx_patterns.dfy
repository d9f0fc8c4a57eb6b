/**
 * The regex-based `normalize_license_text` of `checker/helpers.py`. Its nine
 * patterns use only literal letters and digits, the optional class `[- ]?`,
 * the optional letter `v?` and the wildcard `.`, so they are written here as
 * sequences of pattern items and matched by a small backtracking matcher
 * that follows Python's `re.search` with `re.IGNORECASE`: the leftmost start
 * wins, and at a start an optional item first tries to consume a character.
 */
module SpdxPatterns {
  import opened Wrappers
  import opened Strings

  /** One character position of a pattern. */
  datatype Atom =
    | Letter(c: char)         // a literal, compared ignoring ASCII case
    | OneOf(chars: seq<char>) // a character class such as `[- ]`
    | AnyChar                 // `.`: any character except a line feed

  /** A pattern item: an atom taken once, or `atom?`. */
  datatype Item = Once(a: Atom) | Optional(a: Atom)

  type Pattern = seq<Item>

  predicate AtomMatches(a: Atom, ch: char) {
    match a
    case Letter(c) => LowerChar(ch) == LowerChar(c)
    case OneOf(chars) => ch in chars
    case AnyChar => ch != '\n'
  }

  /**
   * The texts a pattern describes, independent of any search order:
   * `w` is one of the texts `p` matches in full.
   */
  ghost predicate Describes(p: Pattern, w: string)
    decreases |p|
  {
    if p == [] then w == []
    else
      var one := w != [] && AtomMatches(p[0].a, w[0]) && Describes(p[1..], w[1..]);
      match p[0]
      case Once(_) => one
      case Optional(_) => one || Describes(p[1..], w)
  }

  /**
   * The end of the match that the backtracking engine finds when it starts
   * matching `p` at position `i` of `s`: an optional item first tries to
   * take one character, and falls back to taking none.
   */
  function MatchAt(p: Pattern, s: string, i: nat): (r: Option<nat>)
    requires i <= |s|
    ensures r.Some? ==> i <= r.value <= |s| && Describes(p, s[i..r.value])
    decreases |p|
  {
    if p == [] then Some(i)
    else
      var taken :=
        if i < |s| && AtomMatches(p[0].a, s[i]) then MatchAt(p[1..], s, i + 1) else None;
      var r :=
        match p[0]
        case Once(_) => taken
        case Optional(_) => if taken.Some? then taken else MatchAt(p[1..], s, i);
      assert r.Some? && taken.Some? ==> s[i..r.value][1..] == s[i + 1..r.value];
      r
  }

  /** The backtracking is exhaustive: whenever some text at `i` fits `p`, the engine finds a match there. */
  lemma {:induction false} MatchAtComplete(p: Pattern, s: string, i: nat, j: nat)
    requires i <= j <= |s| && Describes(p, s[i..j])
    ensures MatchAt(p, s, i).Some?
    decreases |p|
  {
    if p != [] {
      var w := s[i..j];
      if w != [] && AtomMatches(p[0].a, w[0]) && Describes(p[1..], w[1..]) {
        assert w[1..] == s[i + 1..j];
        MatchAtComplete(p[1..], s, i + 1, j);
      } else if p[0].Optional? {
        MatchAtComplete(p[1..], s, i, j);
      }
    }
  }

  /** `re.search` from `start` on: the match at the leftmost start, as (start, end). */
  function SearchFrom(p: Pattern, s: string, start: nat): (r: Option<(nat, nat)>)
    requires start <= |s|
    ensures r.Some? ==> start <= r.value.0 <= r.value.1 <= |s| && Describes(p, s[r.value.0..r.value.1])
    decreases |s| - start
  {
    match MatchAt(p, s, start)
    case Some(e) => Some((start, e))
    case None => if start == |s| then None else SearchFrom(p, s, start + 1)
  }

  function Search(p: Pattern, s: string): (r: Option<(nat, nat)>)
    ensures r.Some? ==> r.value.0 <= r.value.1 <= |s| && Describes(p, s[r.value.0..r.value.1])
  {
    SearchFrom(p, s, 0)
  }

  lemma {:induction false} SearchFromFindsEarliest(p: Pattern, s: string, start: nat, b: nat, e: nat)
    requires start <= b <= e <= |s| && Describes(p, s[b..e])
    ensures SearchFrom(p, s, start).Some? && SearchFrom(p, s, start).value.0 <= b
    decreases b - start
  {
    if MatchAt(p, s, start).None? {
      if start == b {
        MatchAtComplete(p, s, b, e);
      } else {
        SearchFromFindsEarliest(p, s, start + 1, b, e);
      }
    }
  }

  /**
   * `Search` reports a match exactly when the pattern occurs somewhere, and
   * the match it reports starts at the leftmost position where it occurs.
   */
  lemma SearchIsLeftmost(p: Pattern, s: string)
    ensures Search(p, s).None? <==> forall b, e :: 0 <= b <= e <= |s| ==> !Describes(p, s[b..e])
    ensures Search(p, s).Some? ==>
      forall b, e :: 0 <= b < Search(p, s).value.0 && b <= e <= |s| ==> !Describes(p, s[b..e])
  {
    forall b, e | 0 <= b <= e <= |s| && Describes(p, s[b..e])
      ensures Search(p, s).Some? && Search(p, s).value.0 <= b
    {
      SearchFromFindsEarliest(p, s, 0, b, e);
    }
  }

  // ---------------------------------------------------------------------
  // The pattern list

  function Lit(c: char): Item {
    Once(Letter(c))
  }

  /** `[- ]?` and `v?`. */
  const Sep := Optional(OneOf("- "))
  const V := Optional(Letter('v'))
  const Dot := Once(AnyChar)

  const Mit: Pattern := [Lit('M'), Lit('I'), Lit('T')]
  const Apache20: Pattern := [Lit('A'), Lit('p'), Lit('a'), Lit('c'), Lit('h'), Lit('e'), Sep, Lit('2'), Dot, Lit('0')]
  const Bsd3Clause: Pattern := [Lit('B'), Lit('S'), Lit('D'), Sep, Lit('3'), Sep, Lit('C'), Lit('l'), Lit('a'), Lit('u'), Lit('s'), Lit('e')]
  const Bsd2Clause: Pattern := [Lit('B'), Lit('S'), Lit('D'), Sep, Lit('2'), Sep, Lit('C'), Lit('l'), Lit('a'), Lit('u'), Lit('s'), Lit('e')]
  const GplV3: Pattern := [Lit('G'), Lit('P'), Lit('L'), Sep, V, Lit('3')]
  const GplV2: Pattern := [Lit('G'), Lit('P'), Lit('L'), Sep, V, Lit('2')]
  const LgplV3: Pattern := [Lit('L')] + GplV3
  const Mpl20: Pattern := [Lit('M'), Lit('P'), Lit('L'), Sep, Lit('2'), Dot, Lit('0')]
  const AgplV3: Pattern := [Lit('A')] + GplV3

  /** The nine patterns, in the order they are tried. */
  const Patterns: seq<Pattern> := [Mit, Apache20, Bsd3Clause, Bsd2Clause, GplV3, GplV2, LgplV3, Mpl20, AgplV3]

  /** Positions in `Patterns`. */
  const MitPattern: nat := 0
  const GplV3Pattern: nat := 4
  const LgplV3Pattern: nat := 6
  const AgplV3Pattern: nat := 8

  // ---------------------------------------------------------------------
  // The normalizer

  /** The result for a matched text: upper-cased, spaces turned into hyphens. */
  function Canonical(matched: string): (r: string)
    ensures |r| == |matched|
    ensures ' ' !in r
    ensures forall k :: 0 <= k < |r| ==> !('a' <= r[k] <= 'z')
    ensures r != "Unknown"
  {
    var r := ReplaceChar(Upper(matched), ' ', '-');
    assert |r| != 7 || r[1] != 'n';
    r
  }

  /** The first pattern of `ps`, from position `k` on, that occurs in `raw`, with its match. */
  function FirstPatternFrom(ps: seq<Pattern>, raw: string, k: nat): (r: Option<(nat, nat, nat)>)
    requires k <= |ps|
    ensures r.Some? ==> k <= r.value.0 < |ps| && Search(ps[r.value.0], raw) == Some((r.value.1, r.value.2))
    ensures r.Some? ==> forall j :: k <= j < r.value.0 ==> Search(ps[j], raw).None?
    ensures r.None? <==> forall j :: k <= j < |ps| ==> Search(ps[j], raw).None?
    decreases |ps| - k
  {
    if k == |ps| then None
    else match Search(ps[k], raw)
      case Some((b, e)) => Some((k, b, e))
      case None => FirstPatternFrom(ps, raw, k + 1)
  }

  /** The loop of `normalize_license_text` over a pattern list. */
  function NormalizeWith(ps: seq<Pattern>, raw: string): (r: string)
    ensures r == "Unknown" <==> forall j :: 0 <= j < |ps| ==> Search(ps[j], raw).None?
    ensures r != "Unknown" ==> ' ' !in r && forall k :: 0 <= k < |r| ==> !('a' <= r[k] <= 'z')
  {
    match FirstPatternFrom(ps, raw, 0)
    case Some((_, b, e)) => Canonical(raw[b..e])
    case None => "Unknown"
  }

  /** `normalize_license_text` of `checker/helpers.py`. */
  function NormalizeBySpdxPatterns(raw: string): string {
    NormalizeWith(Patterns, raw)
  }

  // ---------------------------------------------------------------------
  // Properties

  /** The result is the canonical form of the leftmost match of the first pattern that occurs. */
  lemma FirstPatternWins(ps: seq<Pattern>, raw: string, k: nat)
    requires k < |ps| && Search(ps[k], raw).Some?
    requires forall j :: 0 <= j < k ==> Search(ps[j], raw).None?
    ensures NormalizeWith(ps, raw) == Canonical(raw[Search(ps[k], raw).value.0..Search(ps[k], raw).value.1])
  {
  }

  /** A pattern that starts with one more letter than another can only occur where the other does. */
  lemma {:induction false} LongerPatternShadowed(c: char, p: Pattern, raw: string)
    requires Search([Lit(c)] + p, raw).Some?
    ensures Search(p, raw).Some?
  {
    var (b, e) := Search([Lit(c)] + p, raw).value;
    var w := raw[b..e];
    assert ([Lit(c)] + p)[1..] == p;
    assert w[1..] == raw[b + 1..e];
    SearchIsLeftmost(p, raw);
  }

  /**
   * `GPL[- ]?v?3` comes before `LGPL[- ]?v?3` and `AGPL[- ]?v?3`, and each
   * of those contains it, so the last two never decide the result.
   */
  lemma LgplAndAgplUnreachable(raw: string)
    ensures FirstPatternFrom(Patterns, raw, 0).Some? ==>
      FirstPatternFrom(Patterns, raw, 0).value.0 != LgplV3Pattern &&
      FirstPatternFrom(Patterns, raw, 0).value.0 != AgplV3Pattern
  {
    assert Patterns[GplV3Pattern] == GplV3 && Patterns[LgplV3Pattern] == LgplV3 && Patterns[AgplV3Pattern] == AgplV3;
    if Search(LgplV3, raw).Some? {
      LongerPatternShadowed('L', GplV3, raw);
    }
    if Search(AgplV3, raw).Some? {
      LongerPatternShadowed('A', GplV3, raw);
    }
  }

  /** The texts the first pattern describes are the spellings of MIT in any ASCII letter case. */
  lemma MitSpellings(w: string)
    ensures Describes(Mit, w) <==> Upper(w) == "MIT"
  {
    var p := Mit;
    assert p[1..][1..][1..] == [];
    if Upper(w) == "MIT" {
      assert |w| == 3 && w[1..][1..][1..] == [];
      assert Upper(w)[0] == 'M' && Upper(w)[1] == 'I' && Upper(w)[2] == 'T';
      assert UpperChar(w[0]) == 'M' && UpperChar(w[1]) == 'I' && UpperChar(w[2]) == 'T';
      assert AtomMatches(p[2].a, w[2]) && Describes(p[2..], w[2..]);
      assert AtomMatches(p[1].a, w[1]) && Describes(p[1..], w[1..]);
    }
  }

  /**
   * A text that mentions MIT in any ASCII letter case normalizes to "MIT" whatever
   * else it says, since MIT is the first pattern ("GPL-3.0 or MIT" is one).
   */
  lemma MitAnywhereWins(raw: string)
    requires Contains(Upper(raw), "MIT")
    ensures NormalizeBySpdxPatterns(raw) == "MIT"
  {
    var i := ContainsPosition(Upper(raw), "MIT");
    assert Upper(raw[i..i + 3]) == "MIT";
    MitSpellings(raw[i..i + 3]);
    SearchIsLeftmost(Mit, raw);
    var (b, e) := Search(Mit, raw).value;
    MitSpellings(raw[b..e]);
    assert Upper(raw[b..e]) == "MIT";
    FirstPatternWins(Patterns, raw, MitPattern);
  }

  /** A match of `p` contains a character for each letter `p` demands. */
  lemma {:induction false} DescribesUsesLetter(p: Pattern, w: string, k: nat, c: char) returns (m: nat)
    requires Describes(p, w) && k < |p| && p[k] == Lit(c)
    ensures m < |w| && LowerChar(w[m]) == LowerChar(c)
    decreases |p|
  {
    var one := w != [] && AtomMatches(p[0].a, w[0]) && Describes(p[1..], w[1..]);
    if k == 0 {
      m := 0;
    } else if one {
      m := DescribesUsesLetter(p[1..], w[1..], k - 1, c);
      m := m + 1;
    } else {
      m := DescribesUsesLetter(p[1..], w, k - 1, c);
    }
  }

  /** A text in which a pattern occurs holds, in some case, each letter the pattern demands. */
  lemma OccurrenceShowsLetter(p: Pattern, k: nat, c: char, raw: string)
    requires k < |p| && p[k] == Lit(c) && 'A' <= c <= 'Z' && Search(p, raw).Some?
    ensures c in Upper(raw)
  {
    var (b, e) := Search(p, raw).value;
    var m := DescribesUsesLetter(p, raw[b..e], k, c);
    assert Upper(raw)[b + m] == c;
  }

  /** A pattern that demands an upper-case letter cannot occur in a text that lacks it in either case. */
  lemma MissingLetter(p: Pattern, k: nat, c: char, raw: string)
    requires k < |p| && p[k] == Lit(c) && 'A' <= c <= 'Z' && c !in Upper(raw)
    ensures Search(p, raw).None?
  {
    if Search(p, raw).Some? {
      OccurrenceShowsLetter(p, k, c, raw);
    }
  }

  // ---------------------------------------------------------------------
  // Concrete texts

  /** "GPL-3.0 or MIT" meets the premise of MitAnywhereWins, although a GPL pattern matches it too. */
  lemma GplOrMitText()
    ensures Upper("GPL-3.0 or MIT") == "GPL-3.0 OR MIT" && Contains("GPL-3.0 OR MIT", "MIT")
  {
    ContainsAt("GPL-3.0 OR MIT", "MIT", 11);
  }

  /** "GPL-3.0 or MIT" normalizes to "MIT", although a GPL pattern matches it first in the text. */
  lemma GplOrMitNormalized()
    ensures NormalizeBySpdxPatterns("GPL-3.0 or MIT") == "MIT"
  {
    GplOrMitText();
    MitAnywhereWins("GPL-3.0 or MIT");
  }

  /** The GPL v3 pattern does not match at the start of "LGPL v3" and matches "GPL v3" from the next position. */
  lemma GplV3InLgplV3()
    ensures Search(GplV3, "LGPL v3") == Some((1, 7))
  {
    var raw := "LGPL v3";
    assert MatchAt(GplV3, raw, 0).None?;
    var p := GplV3;
    assert MatchAt(p[5..], raw, 6) == Some(7);
    assert MatchAt(p[4..], raw, 5) == Some(7);
    assert MatchAt(p[3..], raw, 4) == Some(7);
    assert MatchAt(p[2..], raw, 3) == Some(7);
    assert MatchAt(p[1..], raw, 2) == Some(7);
    assert MatchAt(p, raw, 1) == Some(7);
  }

  /**
   * Without the letters M, A and B the first four patterns cannot occur, so
   * wherever the GPL v3 pattern occurs it decides the result.
   */
  lemma GplV3DecidesWithoutMab(raw: string, b: nat, e: nat)
    requires 'M' !in Upper(raw) && 'A' !in Upper(raw) && 'B' !in Upper(raw)
    requires Search(GplV3, raw) == Some((b, e))
    ensures NormalizeBySpdxPatterns(raw) == Canonical(raw[b..e])
  {
    MissingLetter(Mit, 0, 'M', raw);
    MissingLetter(Apache20, 0, 'A', raw);
    MissingLetter(Bsd3Clause, 0, 'B', raw);
    MissingLetter(Bsd2Clause, 0, 'B', raw);
    FirstPatternWins(Patterns, raw, GplV3Pattern);
  }

  /** "LGPL v3" normalizes to "GPL-V3": the GPL pattern comes first and matches inside it. */
  lemma LgplV3Text()
    ensures NormalizeBySpdxPatterns("LGPL v3") == "GPL-V3"
  {
    LgplV3Letters();
    GplV3InLgplV3();
    GplV3DecidesWithoutMab("LGPL v3", 1, 7);
    LgplV3Canonical("LGPL v3");
  }

  lemma LgplV3Letters()
    ensures 'M' !in Upper("LGPL v3") && 'A' !in Upper("LGPL v3") && 'B' !in Upper("LGPL v3")
  {
    assert Upper("LGPL v3") == "LGPL V3";
  }

  lemma LgplV3Canonical(raw: string)
    requires raw == "LGPL v3"
    ensures Canonical(raw[1..7]) == "GPL-V3"
  {
    assert raw[1..7] == "GPL v3";
  }

  /** One step of a match: a mandatory item at position `k` consumes the character at `k`. */
  lemma OnceStep(p: Pattern, w: string, k: nat)
    requires k < |p| && k <= |w| && p[k].Once? && Describes(p[k..], w[k..])
    ensures k < |w| && AtomMatches(p[k].a, w[k]) && Describes(p[k + 1..], w[k + 1..])
  {
    assert p[k..][1..] == p[k + 1..];
    assert w[k..] != [] ==> w[k..][1..] == w[k + 1..];
  }

  /**
   * What a text the Apache pattern describes looks like: it starts with
   * "APACHE" in some case, and the 2 comes right after it or after one
   * hyphen or space.
   */
  lemma ApacheShape(w: string)
    requires Describes(Apache20, w)
    ensures |w| >= 7 && UpperChar(w[0]) == 'A' && UpperChar(w[2]) == 'A'
    ensures w[6] == '2' || (|w| >= 8 && w[6] in "- " && w[7] == '2')
  {
    var p := Apache20;
    assert p[0] == Lit('A') && p[1].Once? && p[2] == Lit('a') && p[3].Once? && p[4].Once? && p[5].Once?;
    assert |p| == 10 && p[6] == Sep && p[7] == Lit('2');
    SeparatedShape(p, w);
  }

  lemma SeparatedShape(p: Pattern, w: string)
    requires |p| >= 8 && Describes(p, w)
    requires p[0] == Lit('A') && p[1].Once? && p[2] == Lit('a') && p[3].Once? && p[4].Once? && p[5].Once?
    requires p[6] == Sep && p[7] == Lit('2')
    ensures |w| >= 7 && UpperChar(w[0]) == 'A' && UpperChar(w[2]) == 'A'
    ensures w[6] == '2' || (|w| >= 8 && w[6] in "- " && w[7] == '2')
  {
    assert p[0..] == p && w[0..] == w;
    OnceStep(p, w, 0);
    OnceStep(p, w, 1);
    OnceStep(p, w, 2);
    OnceStep(p, w, 3);
    OnceStep(p, w, 4);
    OnceStep(p, w, 5);
    var rest := w[6..];
    assert p[6..][1..] == p[7..];
    if rest != [] && AtomMatches(p[6].a, rest[0]) && Describes(p[7..], rest[1..]) {
      assert rest[1..] == w[7..];
      OnceStep(p, w, 7);
    } else {
      assert Describes(p[7..], w[6..]);
      assert p[7..][0] == Lit('2');
    }
  }

  /** The Apache pattern's shape, read off at the position of `raw` where a match starts. */
  lemma ApacheAt(raw: string, b: nat, e: nat)
    requires b <= e <= |raw| && Describes(Apache20, raw[b..e])
    ensures b + 7 <= |raw| && Upper(raw)[b] == 'A' && Upper(raw)[b + 2] == 'A'
    ensures raw[b + 6] == '2' || (b + 8 <= |raw| && raw[b + 6] in "- " && raw[b + 7] == '2')
  {
    ApacheShape(raw[b..e]);
  }

  /** `Apache[- ]?2.0` allows at most one separator before the 2, so "Apache License 2.0" escapes it. */
  lemma ApachePatternMissesLicenseWord()
    ensures Search(Apache20, "Apache License 2.0").None?
  {
    var raw := "Apache License 2.0";
    assert Upper(raw) == "APACHE LICENSE 2.0";
    forall b, e | 0 <= b <= e <= |raw| && Describes(Apache20, raw[b..e])
      ensures false
    {
      ApacheAt(raw, b, e);
      assert false;
    }
    SearchIsLeftmost(Apache20, raw);
  }

  /**
   * Without the letters M, B and G only the Apache pattern could occur, so a
   * text that also escapes it normalizes to "Unknown".
   */
  lemma OnlyApacheCouldMatch(raw: string)
    requires 'M' !in Upper(raw) && 'B' !in Upper(raw) && 'G' !in Upper(raw)
    requires Search(Apache20, raw).None?
    ensures NormalizeBySpdxPatterns(raw) == "Unknown"
  {
    MissingLetter(Mit, 0, 'M', raw);
    MissingLetter(Bsd3Clause, 0, 'B', raw);
    MissingLetter(Bsd2Clause, 0, 'B', raw);
    MissingLetter(GplV3, 0, 'G', raw);
    MissingLetter(GplV2, 0, 'G', raw);
    MissingLetter(LgplV3, 1, 'G', raw);
    MissingLetter(Mpl20, 0, 'M', raw);
    MissingLetter(AgplV3, 1, 'G', raw);
  }

  /** "Apache License 2.0" normalizes to "Unknown". */
  lemma ApacheLicenseText()
    ensures NormalizeBySpdxPatterns("Apache License 2.0") == "Unknown"
  {
    assert Upper("Apache License 2.0") == "APACHE LICENSE 2.0";
    ApachePatternMissesLicenseWord();
    OnlyApacheCouldMatch("Apache License 2.0");
  }
}
