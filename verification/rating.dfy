/**
 * `rate_license` of `license_utils.py` and its older copy in
 * `checker/helpers.py`: upper-case the license name and look for keyword
 * substrings, trusted keywords first, then caution, then risky; a name with
 * none of them gets the fourth, default label.
 */
module Rating {
  import opened Strings

  /** The four outcomes; `Unrated` is the default "Unknown" label. */
  datatype Rating = Trusted | Caution | Risky | Unrated

  /** The label text the source returns for each outcome. */
  function Label(r: Rating): (s: string)
    ensures s in {"\U{2705} Trusted", "\U{26A0}\U{FE0F} Caution", "\U{274C} Risky", "\U{26A0}\U{FE0F} Unknown"}
  {
    match r
    case Trusted => "\U{2705} Trusted"
    case Caution => "\U{26A0}\U{FE0F} Caution"
    case Risky => "\U{274C} Risky"
    case Unrated => "\U{26A0}\U{FE0F} Unknown"
  }

  /** Distinct outcomes have distinct labels. */
  lemma LabelInjective(a: Rating, b: Rating)
    requires Label(a) == Label(b)
    ensures a == b
  {
  }

  /** The three keyword lists, in the order they are tried. */
  datatype Keywords = Keywords(trusted: seq<string>, caution: seq<string>, risky: seq<string>)

  /** The lists of `license_utils.py`. */
  const CurrentKeywords := Keywords(["MIT", "APACHE", "BSD", "PSF"], ["LGPL", "MPL", "EPL"], ["GPL", "AGPL", "UNKNOWN", "OTHER"])

  /** The lists of `checker/helpers.py`, which lack PSF and EPL. */
  const LegacyKeywords := Keywords(["MIT", "APACHE", "BSD"], ["LGPL", "MPL"], ["GPL", "AGPL", "UNKNOWN", "OTHER"])

  /** Some keyword of `words` occurs in `text`. */
  ghost predicate Mentions(text: string, words: seq<string>) {
    exists i :: 0 <= i < |words| && Contains(text, words[i])
  }

  /** Python's `any(w in text for w in words)`. */
  function AnyIn(text: string, words: seq<string>): (b: bool)
    ensures b <==> Mentions(text, words)
  {
    if words == [] then false
    else
      assert forall i :: 0 <= i < |words| - 1 ==> words[1..][i] == words[i + 1];
      Contains(text, words[0]) || AnyIn(text, words[1..])
  }

  /** The classifier over given keyword lists. */
  function RateWith(kw: Keywords, name: string): (r: Rating)
    ensures r == Trusted <==> Mentions(Upper(name), kw.trusted)
    ensures r == Caution <==> !Mentions(Upper(name), kw.trusted) && Mentions(Upper(name), kw.caution)
    ensures r == Risky <==> !Mentions(Upper(name), kw.trusted) && !Mentions(Upper(name), kw.caution)
                             && Mentions(Upper(name), kw.risky)
    ensures r == Unrated <==> !Mentions(Upper(name), kw.trusted) && !Mentions(Upper(name), kw.caution)
                               && !Mentions(Upper(name), kw.risky)
  {
    var upper := Upper(name);
    if AnyIn(upper, kw.trusted) then Trusted
    else if AnyIn(upper, kw.caution) then Caution
    else if AnyIn(upper, kw.risky) then Risky
    else Unrated
  }

  /** `rate_license` of `license_utils.py`. */
  function RateLicense(name: string): Rating {
    RateWith(CurrentKeywords, name)
  }

  /** `rate_license` of `checker/helpers.py`. */
  function LegacyRateLicense(name: string): Rating {
    RateWith(LegacyKeywords, name)
  }

  // ---------------------------------------------------------------------
  // Properties

  /** Only the upper-cased name matters, so letter case never changes a rating. */
  lemma RateIgnoresCase(kw: Keywords, name: string)
    ensures RateWith(kw, Upper(name)) == RateWith(kw, name)
    ensures RateWith(kw, Lower(name)) == RateWith(kw, name)
  {
    UpperIdempotent(name);
    UpperForgetsLower(name);
  }

  /** A trusted keyword decides the rating whatever else the name mentions. */
  lemma TrustedWins(kw: Keywords, name: string, i: nat)
    requires i < |kw.trusted| && Contains(Upper(name), kw.trusted[i])
    ensures RateWith(kw, name) == Trusted
  {
  }

  /** A text that lacks some letter of `word` does not mention `word`. */
  lemma Lacks(text: string, word: string, k: nat)
    requires k < |word| && word[k] !in text
    ensures !Contains(text, word)
  {
    MissingChar(text, word, k);
  }

  /** Every keyword of `small` is one of `big`, so a text mentioning `small` mentions `big`. */
  lemma MentionsSublist(text: string, small: seq<string>, big: seq<string>)
    requires forall i :: 0 <= i < |small| ==> small[i] in big
    ensures Mentions(text, small) ==> Mentions(text, big)
  {
    if Mentions(text, small) {
      var i :| 0 <= i < |small| && Contains(text, small[i]);
      var j :| 0 <= j < |big| && big[j] == small[i];
    }
  }

  /** The older lists are sublists of the current ones. */
  lemma LegacyKeywordsAreCurrent(text: string)
    ensures Mentions(text, LegacyKeywords.trusted) ==> Mentions(text, CurrentKeywords.trusted)
    ensures Mentions(text, LegacyKeywords.caution) ==> Mentions(text, CurrentKeywords.caution)
    ensures LegacyKeywords.risky == CurrentKeywords.risky
  {
    MentionsSublist(text, LegacyKeywords.trusted, CurrentKeywords.trusted);
    MentionsSublist(text, LegacyKeywords.caution, CurrentKeywords.caution);
  }

  /** Without the letters M, A, B and S a name mentions no trusted keyword of either list. */
  lemma NoTrustedLetters(name: string)
    requires 'M' !in Upper(name) && 'A' !in Upper(name) && 'B' !in Upper(name) && 'S' !in Upper(name)
    ensures !Mentions(Upper(name), CurrentKeywords.trusted) && !Mentions(Upper(name), LegacyKeywords.trusted)
  {
    var u := Upper(name);
    Lacks(u, "MIT", 0);
    Lacks(u, "APACHE", 0);
    Lacks(u, "BSD", 0);
    Lacks(u, "PSF", 1);
  }

  /** Without the letter L a name mentions no caution keyword of either list. */
  lemma NoCautionLetters(name: string)
    requires 'L' !in Upper(name)
    ensures !Mentions(Upper(name), CurrentKeywords.caution) && !Mentions(Upper(name), LegacyKeywords.caution)
  {
    var u := Upper(name);
    Lacks(u, "LGPL", 0);
    Lacks(u, "MPL", 2);
    Lacks(u, "EPL", 2);
  }

  /** Without the letters M, A, B, G, U and O a name mentions no keyword of the older lists. */
  lemma NoLegacyLetters(name: string)
    requires 'M' !in Upper(name) && 'A' !in Upper(name) && 'B' !in Upper(name)
    requires 'G' !in Upper(name) && 'U' !in Upper(name) && 'O' !in Upper(name)
    ensures !Mentions(Upper(name), LegacyKeywords.trusted)
    ensures !Mentions(Upper(name), LegacyKeywords.caution)
    ensures !Mentions(Upper(name), LegacyKeywords.risky)
  {
    var u := Upper(name);
    Lacks(u, "MIT", 0);
    Lacks(u, "APACHE", 0);
    Lacks(u, "BSD", 0);
    Lacks(u, "LGPL", 1);
    Lacks(u, "MPL", 0);
    Lacks(u, "GPL", 0);
    Lacks(u, "AGPL", 0);
    Lacks(u, "UNKNOWN", 0);
    Lacks(u, "OTHER", 0);
  }

  /**
   * A name that mentions LGPL and no trusted keyword is Caution under both
   * lists, although it also contains "GPL".
   */
  lemma LgplIsCaution(name: string)
    requires Contains(Upper(name), "LGPL") && !Mentions(Upper(name), CurrentKeywords.trusted)
    ensures RateLicense(name) == Caution && LegacyRateLicense(name) == Caution
    ensures Contains(Upper(name), "GPL")
  {
    LegacyKeywordsAreCurrent(Upper(name));
    assert CurrentKeywords.caution[0] == LegacyKeywords.caution[0] == "LGPL";
    assert "LGPL"[1..4] == "GPL";
    ContainsAt("LGPL", "GPL", 1);
    ContainsTransitive(Upper(name), "LGPL", "GPL");
  }

  /**
   * A name that says UNKNOWN or OTHER and mentions no trusted or caution
   * keyword is Risky under both lists, not unrated.
   */
  lemma SentinelsAreRisky(name: string)
    requires Contains(Upper(name), "UNKNOWN") || Contains(Upper(name), "OTHER")
    requires !Mentions(Upper(name), CurrentKeywords.trusted) && !Mentions(Upper(name), CurrentKeywords.caution)
    ensures RateLicense(name) == Risky && LegacyRateLicense(name) == Risky
  {
    var u := Upper(name);
    LegacyKeywordsAreCurrent(u);
    if Contains(u, "UNKNOWN") {
      assert CurrentKeywords.risky[2] == "UNKNOWN";
    } else {
      assert CurrentKeywords.risky[3] == "OTHER";
    }
  }

  /** A name without any keyword, such as the empty one, gets the default label. */
  lemma EmptyIsUnrated(kw: Keywords)
    requires forall i :: 0 <= i < |kw.trusted| ==> kw.trusted[i] != []
    requires forall i :: 0 <= i < |kw.caution| ==> kw.caution[i] != []
    requires forall i :: 0 <= i < |kw.risky| ==> kw.risky[i] != []
    ensures RateWith(kw, "") == Unrated
  {
    forall w | w != []
      ensures !Contains(Upper(""), w)
    {
      Lacks(Upper(""), w, 0);
    }
  }

  /**
   * The older lists know neither PSF nor EPL: a PSF or EPL name with no
   * keyword of the older lists is unrated there, and Trusted (PSF) or
   * Caution (EPL) under the current lists.
   */
  lemma LegacyMissesPsfAndEpl(name: string)
    requires Contains(Upper(name), "PSF") || Contains(Upper(name), "EPL")
    requires !Mentions(Upper(name), LegacyKeywords.trusted) && !Mentions(Upper(name), LegacyKeywords.caution)
    requires !Mentions(Upper(name), LegacyKeywords.risky)
    ensures LegacyRateLicense(name) == Unrated
    ensures Contains(Upper(name), "PSF") ==> RateLicense(name) == Trusted
    ensures !Contains(Upper(name), "PSF") ==> RateLicense(name) == Caution
  {
    var u := Upper(name);
    if Contains(u, "PSF") {
      assert CurrentKeywords.trusted[3] == "PSF";
    } else {
      forall i | 0 <= i < |CurrentKeywords.trusted|
        ensures !Contains(u, CurrentKeywords.trusted[i])
      {
        if i < 3 {
          assert CurrentKeywords.trusted[i] == LegacyKeywords.trusted[i];
        }
      }
      assert CurrentKeywords.caution[2] == "EPL";
    }
  }

  // ---------------------------------------------------------------------
  // Concrete names

  /** "MIT or GPL" meets the premise of TrustedWins although it names the GPL. */
  lemma MitOrGplText()
    ensures Upper("MIT or GPL") == "MIT OR GPL"
    ensures Contains("MIT OR GPL", "MIT") && Contains("MIT OR GPL", "GPL")
  {
    ContainsAt("MIT OR GPL", "MIT", 0);
    ContainsAt("MIT OR GPL", "GPL", 7);
  }

  /** "LGPL-2.1" mentions LGPL in upper case. */
  lemma LgplText()
    ensures Upper("LGPL-2.1") == "LGPL-2.1" && Contains("LGPL-2.1", "LGPL")
  {
    ContainsAt("LGPL-2.1", "LGPL", 0);
  }

  /** "Unknown" and "Other" mention UNKNOWN and OTHER in upper case. */
  lemma SentinelTexts()
    ensures Upper("Unknown") == "UNKNOWN" && Contains("UNKNOWN", "UNKNOWN")
    ensures Upper("Other") == "OTHER" && Contains("OTHER", "OTHER")
  {
    ContainsAt("UNKNOWN", "UNKNOWN", 0);
    ContainsAt("OTHER", "OTHER", 0);
  }

  /** "PSF-2.0" mentions PSF in upper case. */
  lemma PsfText()
    ensures Upper("PSF-2.0") == "PSF-2.0" && Contains("PSF-2.0", "PSF")
  {
    ContainsAt("PSF-2.0", "PSF", 0);
  }

  /** "EPL-2.0" mentions EPL and not PSF in upper case. */
  lemma EplText()
    ensures Upper("EPL-2.0") == "EPL-2.0" && Contains("EPL-2.0", "EPL") && !Contains("EPL-2.0", "PSF")
  {
    ContainsAt("EPL-2.0", "EPL", 0);
    Lacks("EPL-2.0", "PSF", 1);
  }

  /** "MIT or GPL" is Trusted: MIT decides before GPL is looked at. */
  lemma MitOrGplRated()
    ensures RateLicense("MIT or GPL") == Trusted
  {
    MitOrGplText();
    TrustedWins(CurrentKeywords, "MIT or GPL", 0);
  }

  /** "LGPL-2.1" is Caution under both lists. */
  lemma LgplRated()
    ensures RateLicense("LGPL-2.1") == Caution && LegacyRateLicense("LGPL-2.1") == Caution
  {
    LgplText();
    NoTrustedLetters("LGPL-2.1");
    LgplIsCaution("LGPL-2.1");
  }

  /** "Unknown" is Risky under both lists. */
  lemma UnknownRated(name: string)
    requires name == "Unknown"
    ensures RateLicense(name) == Risky && LegacyRateLicense(name) == Risky
  {
    SentinelTexts();
    NoTrustedLetters(name);
    NoCautionLetters(name);
    SentinelsAreRisky(name);
  }

  /** "Other" is Risky under both lists. */
  lemma OtherRated(name: string)
    requires name == "Other"
    ensures RateLicense(name) == Risky && LegacyRateLicense(name) == Risky
  {
    SentinelTexts();
    NoTrustedLetters(name);
    NoCautionLetters(name);
    SentinelsAreRisky(name);
  }

  /** "PSF-2.0" is Trusted under the current lists and unrated under the older ones. */
  lemma PsfRated()
    ensures RateLicense("PSF-2.0") == Trusted && LegacyRateLicense("PSF-2.0") == Unrated
  {
    PsfText();
    NoLegacyLetters("PSF-2.0");
    LegacyMissesPsfAndEpl("PSF-2.0");
  }

  /** "EPL-2.0" has none of the other keywords' distinguishing letters. */
  lemma EplLetters()
    ensures 'M' !in "EPL-2.0" && 'A' !in "EPL-2.0" && 'B' !in "EPL-2.0"
    ensures 'G' !in "EPL-2.0" && 'U' !in "EPL-2.0" && 'O' !in "EPL-2.0"
  {
  }

  /** "EPL-2.0" is Caution under the current lists and unrated under the older ones. */
  lemma EplRated(name: string)
    requires name == "EPL-2.0"
    ensures RateLicense(name) == Caution && LegacyRateLicense(name) == Unrated
  {
    EplText();
    EplLetters();
    NoLegacyLetters(name);
    LegacyMissesPsfAndEpl(name);
  }
}
