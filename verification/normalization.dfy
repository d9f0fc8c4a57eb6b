/**
 * `normalize_license_text` of `normalization.py`: lower-case and strip the
 * raw license text, return the canonical identifier of the first table key
 * occurring in it, else ask the fuzzy matcher for a close key, else "Unknown".
 *
 * The fuzzy matcher (difflib's `get_close_matches` with cutoff 0.7) is a
 * parameter: for the normalized text it answers with at most one candidate.
 */
module Normalization {
  import opened Wrappers
  import opened Strings
  import opened LicenseMap

  /** The first position at or after `from` whose key occurs in `text`. */
  function FirstKeyFrom(table: seq<(string, string)>, text: string, from: nat): (r: Option<nat>)
    requires from <= |table|
    ensures r.Some? ==> from <= r.value < |table| && Contains(text, table[r.value].0)
    decreases |table| - from
  {
    if from == |table| then None
    else if Contains(text, table[from].0) then Some(from)
    else FirstKeyFrom(table, text, from + 1)
  }

  /**
   * The scan finds the first occurring key: every key it passes over is
   * absent, and it finds nothing only when every key is absent.
   */
  lemma {:induction false} FirstKeyFromIsFirst(table: seq<(string, string)>, text: string, from: nat)
    requires from <= |table|
    ensures FirstKeyFrom(table, text, from).Some? ==>
      forall j :: from <= j < FirstKeyFrom(table, text, from).value ==> !Contains(text, table[j].0)
    ensures FirstKeyFrom(table, text, from).None? <==>
      forall j :: from <= j < |table| ==> !Contains(text, table[j].0)
    decreases |table| - from
  {
    if from < |table| && !Contains(text, table[from].0) {
      FirstKeyFromIsFirst(table, text, from + 1);
    }
  }

  /** The exact pass: the first key, in table order, that occurs in `text`. */
  function FirstKeyIn(table: seq<(string, string)>, text: string): Option<nat> {
    FirstKeyFrom(table, text, 0)
  }

  /** The first position at or after `from` whose key is `key`. */
  function KeyIndexFrom(table: seq<(string, string)>, key: string, from: nat): (r: Option<nat>)
    requires from <= |table|
    ensures r.Some? ==> from <= r.value < |table| && table[r.value].0 == key
    ensures r.None? ==> forall j :: from <= j < |table| ==> table[j].0 != key
    decreases |table| - from
  {
    if from == |table| then None
    else if table[from].0 == key then Some(from)
    else KeyIndexFrom(table, key, from + 1)
  }

  /** The text lowered and stripped, as the normalizer compares it. */
  function NormalForm(s: string): string {
    Lower(Strip(s))
  }

  /** True when `v` is the value of some entry of `table`. */
  ghost predicate IsValueOf(table: seq<(string, string)>, v: string) {
    exists i :: 0 <= i < |table| && table[i].1 == v
  }

  /**
   * The fuzzy pass: the value of the key the matcher proposes. A proposal
   * that is not a key would raise `KeyError`, which the normalizer turns
   * into "Unknown".
   */
  function FuzzyPass(table: seq<(string, string)>, norm: string, closeMatch: string -> Option<string>): (r: string)
    ensures r == "Unknown" || IsValueOf(table, r)
  {
    match closeMatch(norm)
    case None => "Unknown"
    case Some(k) =>
      match KeyIndexFrom(table, k, 0)
      case Some(i) => table[i].1
      case None => "Unknown"
  }

  /** The normalizer over a given ordered table. */
  function NormalizeWith(table: seq<(string, string)>, licenseStr: Option<string>, closeMatch: string -> Option<string>): (r: string)
    ensures r == "Unknown" || IsValueOf(table, r)
  {
    if licenseStr.None? || licenseStr.value == [] then "Unknown"
    else
      var norm := NormalForm(licenseStr.value);
      match FirstKeyIn(table, norm)
      case Some(i) => table[i].1
      case None => FuzzyPass(table, norm, closeMatch)
  }

  /** `normalize_license_text(license_str)`; `None` stands for Python's `None`. */
  function NormalizeLicenseText(licenseStr: Option<string>, closeMatch: string -> Option<string>): (r: string)
    ensures r == "Unknown" || IsValueOf(NormalizationTable, r)
  {
    NormalizeWith(NormalizationTable, licenseStr, closeMatch)
  }

  // ---------------------------------------------------------------------
  // Properties of the normalizer over any ordered table

  /** No key occurs twice in `table`. */
  ghost predicate KeysUnique(table: seq<(string, string)>) {
    forall i, j :: 0 <= i < j < |table| ==> table[i].0 != table[j].0
  }

  /** Missing or empty text is "Unknown" whatever the fuzzy matcher says. */
  lemma EmptyIsUnknown(table: seq<(string, string)>, closeMatch: string -> Option<string>)
    ensures NormalizeWith(table, None, closeMatch) == "Unknown"
    ensures NormalizeWith(table, Some(""), closeMatch) == "Unknown"
  {
  }

  /** The first occurring key wins: this key occurs and no earlier key does. */
  lemma FirstOccurringKeyWins(table: seq<(string, string)>, s: string, i: nat, closeMatch: string -> Option<string>)
    requires s != [] && i < |table|
    requires Contains(NormalForm(s), table[i].0)
    requires forall j :: 0 <= j < i ==> !Contains(NormalForm(s), table[j].0)
    ensures NormalizeWith(table, Some(s), closeMatch) == table[i].1
  {
    FirstKeyFromIsFirst(table, NormalForm(s), 0);
    ExactHit(table, s, i, closeMatch);
  }

  /** When some key occurs, the fuzzy matcher is never consulted. */
  lemma ExactHitIgnoresFuzzy(table: seq<(string, string)>, s: string, i: nat, f: string -> Option<string>, g: string -> Option<string>)
    requires s != [] && i < |table|
    requires Contains(NormalForm(s), table[i].0)
    ensures NormalizeWith(table, Some(s), f) == NormalizeWith(table, Some(s), g)
  {
    FirstKeyFromIsFirst(table, NormalForm(s), 0);
  }

  /** A text with a key in it reads as the value of the first such key. */
  lemma ExactHit(table: seq<(string, string)>, s: string, i: nat, closeMatch: string -> Option<string>)
    requires s != [] && FirstKeyIn(table, NormalForm(s)) == Some(i)
    ensures NormalizeWith(table, Some(s), closeMatch) == table[i].1
  {
  }

  /** Two non-empty texts with the same normal form read alike, over any table. */
  lemma SameNormalForm(table: seq<(string, string)>, s: string, t: string, closeMatch: string -> Option<string>)
    requires s != [] && t != [] && NormalForm(s) == NormalForm(t)
    ensures NormalizeWith(table, Some(s), closeMatch) == NormalizeWith(table, Some(t), closeMatch)
  {
  }

  lemma EmptyNormalForm()
    ensures NormalForm([]) == []
  {
  }

  /**
   * A text that is empty or blank holds no non-empty key, so it reads as
   * "Unknown" when the matcher proposes nothing for the empty text, as
   * difflib does: the empty text has similarity 0 to every non-empty key.
   */
  lemma BlankIsUnknown(table: seq<(string, string)>, s: string, closeMatch: string -> Option<string>)
    requires forall i :: 0 <= i < |table| ==> table[i].0 != []
    requires NormalForm(s) == [] && closeMatch([]) == None
    ensures NormalizeWith(table, Some(s), closeMatch) == "Unknown"
  {
    if s != [] {
      FirstKeyFromIsFirst(table, [], 0);
    }
  }

  /**
   * Over a table whose keys are all non-empty, any two texts with the same
   * normal form read alike, the empty text and blank texts included.
   */
  lemma SameNormalFormAnyText(table: seq<(string, string)>, s: string, t: string, closeMatch: string -> Option<string>)
    requires forall i :: 0 <= i < |table| ==> table[i].0 != []
    requires NormalForm(s) == NormalForm(t) && closeMatch([]) == None
    ensures NormalizeWith(table, Some(s), closeMatch) == NormalizeWith(table, Some(t), closeMatch)
  {
    if NormalForm(s) == [] {
      BlankIsUnknown(table, s, closeMatch);
      BlankIsUnknown(table, t, closeMatch);
    } else {
      EmptyNormalForm();
      SameNormalForm(table, s, t, closeMatch);
    }
  }

  /** The license map's keys are non-empty, so the same holds for `normalize_license_text`. */
  lemma LicenseTextSameNormalForm(s: string, t: string, closeMatch: string -> Option<string>)
    requires NormalForm(s) == NormalForm(t) && closeMatch([]) == None
    ensures NormalizeLicenseText(Some(s), closeMatch) == NormalizeLicenseText(Some(t), closeMatch)
  {
    KeysLowerCase();
    SameNormalFormAnyText(NormalizationTable, s, t, closeMatch);
  }

  /**
   * When no key occurs, the answer comes from the fuzzy matcher: the value
   * of the key it proposes, or "Unknown" when it proposes nothing or a text
   * that is not a key.
   */
  lemma NoExactHitUsesFuzzy(table: seq<(string, string)>, s: string, closeMatch: string -> Option<string>)
    requires KeysUnique(table) && s != []
    requires forall j :: 0 <= j < |table| ==> !Contains(NormalForm(s), table[j].0)
    ensures closeMatch(NormalForm(s)).None? ==> NormalizeWith(table, Some(s), closeMatch) == "Unknown"
    ensures forall i :: 0 <= i < |table| && closeMatch(NormalForm(s)) == Some(table[i].0) ==>
      NormalizeWith(table, Some(s), closeMatch) == table[i].1
    ensures (forall i :: 0 <= i < |table| ==> closeMatch(NormalForm(s)) != Some(table[i].0)) ==>
      NormalizeWith(table, Some(s), closeMatch) == "Unknown"
  {
    var norm := NormalForm(s);
    FirstKeyFromIsFirst(table, norm, 0);
    assert NormalizeWith(table, Some(s), closeMatch) == FuzzyPass(table, norm, closeMatch);
    match closeMatch(norm)
    case None =>
    case Some(k) =>
      match KeyIndexFrom(table, k, 0)
      case Some(i) =>
        assert table[i].0 == k;
        assert forall i' :: 0 <= i' < |table| && table[i'].0 == k ==> i' == i;
      case None =>
  }

  /** A key that contains an earlier key is never the first match. */
  lemma ShadowedKeyNeverFirst(table: seq<(string, string)>, text: string, i: nat, j: nat)
    requires j < i < |table|
    requires Contains(table[i].0, table[j].0)
    ensures FirstKeyIn(table, text) != Some(i)
  {
    FirstKeyFromIsFirst(table, text, 0);
    if FirstKeyIn(table, text) == Some(i) {
      ContainsTransitive(text, table[i].0, table[j].0);
    }
  }

  /** The scan stops at a key that occurs. */
  lemma HitAt(table: seq<(string, string)>, text: string, j: nat)
    requires j < |table| && Contains(text, table[j].0)
    ensures FirstKeyFrom(table, text, j) == Some(j)
  {
  }

  /** A key whose first letter the text lacks is passed over. */
  lemma SkipKey(table: seq<(string, string)>, text: string, j: nat)
    requires j < |table| && table[j].0 != [] && table[j].0[0] !in text
    ensures FirstKeyFrom(table, text, j) == FirstKeyFrom(table, text, j + 1)
  {
    MissingChar(text, table[j].0, 0);
  }

  // ---------------------------------------------------------------------
  // Consequences of the order of LICENSE_NORMALIZATION_MAP

  /**
   * Since "gpl" precedes "lgpl" and "lgplv2.1", the exact pass never picks
   * those two keys, and so never answers "LGPL".
   */
  lemma ExactPassNeverLgpl(text: string)
    ensures FirstKeyIn(NormalizationTable, text) != Some(LgplKey)
    ensures FirstKeyIn(NormalizationTable, text) != Some(Lgpl21Key)
    ensures forall i :: FirstKeyIn(NormalizationTable, text) == Some(i) ==> NormalizationTable[i].1 != "LGPL"
  {
    ContainsAt(NormalizationTable[LgplKey].0, NormalizationTable[GplKey].0, 1);
    ContainsAt(NormalizationTable[Lgpl21Key].0, NormalizationTable[GplKey].0, 1);
    ShadowedKeyNeverFirst(NormalizationTable, text, LgplKey, GplKey);
    ShadowedKeyNeverFirst(NormalizationTable, text, Lgpl21Key, GplKey);
    LgplOnlyAtItsKey();
  }

  /** "bsd" is the first key: any text mentioning BSD is "BSD-3-Clause". */
  lemma BsdAlwaysWins(s: string, closeMatch: string -> Option<string>)
    requires s != [] && Contains(NormalForm(s), "bsd")
    ensures NormalizeLicenseText(Some(s), closeMatch) == "BSD-3-Clause"
  {
    FirstOccurringKeyWins(NormalizationTable, s, 0, closeMatch);
  }

  /** A text without 'a', 'b' or 'm' contains none of the first eight keys. */
  lemma SkipLeadingKeys(t: string)
    requires 'a' !in t && 'b' !in t && 'm' !in t
    ensures FirstKeyIn(NormalizationTable, t) == FirstKeyFrom(NormalizationTable, t, 8)
  {
    LeadingKeyInitials();
    SkipKey(NormalizationTable, t, 0);
    SkipKey(NormalizationTable, t, 1);
    SkipKey(NormalizationTable, t, 2);
    SkipKey(NormalizationTable, t, 3);
    SkipKey(NormalizationTable, t, 4);
    SkipKey(NormalizationTable, t, 5);
    SkipKey(NormalizationTable, t, 6);
    SkipKey(NormalizationTable, t, 7);
  }

  /** A text without 'g', 'l' or 'm' contains none of the keys from "gpl" to "mozilla public license 2.0". */
  lemma SkipMiddleKeys(t: string)
    requires 'g' !in t && 'l' !in t && 'm' !in t
    ensures FirstKeyFrom(NormalizationTable, t, 8) == FirstKeyFrom(NormalizationTable, t, 13)
  {
    MiddleKeyInitials();
    SkipKey(NormalizationTable, t, 8);
    SkipKey(NormalizationTable, t, 9);
    SkipKey(NormalizationTable, t, 10);
    SkipKey(NormalizationTable, t, 11);
    SkipKey(NormalizationTable, t, 12);
  }

  /**
   * "mit" comes right after the three BSD keys: a text that mentions MIT
   * and has no 'b' reads as "MIT", whatever else (Apache, GPL) it names.
   */
  lemma MitWinsWithoutBsd(s: string, closeMatch: string -> Option<string>)
    requires s != [] && 'b' !in NormalForm(s) && Contains(NormalForm(s), "mit")
    ensures NormalizeLicenseText(Some(s), closeMatch) == "MIT"
  {
    var t := NormalForm(s);
    LeadingKeyInitials();
    SkipKey(NormalizationTable, t, 0);
    SkipKey(NormalizationTable, t, 1);
    SkipKey(NormalizationTable, t, 2);
    HitAt(NormalizationTable, t, 3);
    ExactHit(NormalizationTable, s, 3, closeMatch);
  }

  /**
   * A text that mentions "gpl" and has no 'a', 'b' or 'm' reads as "GPL",
   * even when what it names is the LGPL.
   */
  lemma GplShadowsLgpl(s: string, closeMatch: string -> Option<string>)
    requires s != [] && Contains(NormalForm(s), "gpl")
    requires 'a' !in NormalForm(s) && 'b' !in NormalForm(s) && 'm' !in NormalForm(s)
    ensures NormalizeLicenseText(Some(s), closeMatch) == "GPL"
  {
    var t := NormalForm(s);
    SkipLeadingKeys(t);
    MiddleKeyInitials();
    assert FirstKeyFrom(NormalizationTable, t, GplKey) == Some(GplKey);
    ExactHit(NormalizationTable, s, GplKey, closeMatch);
  }

  /** The sentinel "unknown" reads as "Unknown" when no earlier key can occur. */
  lemma UnknownReadsAsItself(s: string, closeMatch: string -> Option<string>)
    requires s != [] && Contains(NormalForm(s), "unknown")
    requires 'a' !in NormalForm(s) && 'b' !in NormalForm(s) && 'm' !in NormalForm(s)
    requires 'g' !in NormalForm(s) && 'l' !in NormalForm(s)
    ensures NormalizeLicenseText(Some(s), closeMatch) == "Unknown"
  {
    var t := NormalForm(s);
    SkipLeadingKeys(t);
    SkipMiddleKeys(t);
    MiddleKeyInitials();
    assert FirstKeyFrom(NormalizationTable, t, 13) == Some(13);
    ExactHit(NormalizationTable, s, 13, closeMatch);
  }

  /** The sentinel "other" reads as "Other" when no earlier key can occur. */
  lemma OtherReadsAsItself(s: string, closeMatch: string -> Option<string>)
    requires s != [] && Contains(NormalForm(s), "other")
    requires 'a' !in NormalForm(s) && 'b' !in NormalForm(s) && 'm' !in NormalForm(s)
    requires 'g' !in NormalForm(s) && 'l' !in NormalForm(s) && 'u' !in NormalForm(s)
    ensures NormalizeLicenseText(Some(s), closeMatch) == "Other"
  {
    var t := NormalForm(s);
    SkipLeadingKeys(t);
    SkipMiddleKeys(t);
    MiddleKeyInitials();
    SkipKey(NormalizationTable, t, 13);
    assert FirstKeyFrom(NormalizationTable, t, 14) == Some(14);
    ExactHit(NormalizationTable, s, 14, closeMatch);
  }

  // ---------------------------------------------------------------------
  // Concrete texts

  /** A text with no surrounding space is normalized by lowering it. */
  lemma TrimmedNormalForm(s: string)
    requires Trimmed(s)
    ensures NormalForm(s) == Lower(s)
  {
    StripKeepsTrimmed(s);
  }

  /** "BSD 2-Clause" is compared as "bsd 2-clause". */
  lemma BsdTwoClauseLowered()
    ensures NormalForm("BSD 2-Clause") == "bsd 2-clause"
    ensures Contains("bsd 2-clause", "bsd")
  {
    TrimmedNormalForm("BSD 2-Clause");
    ContainsAt("bsd 2-clause", "bsd", 0);
  }

  /** "BSD 2-Clause", which has no key of its own, meets the premise of BsdAlwaysWins. */
  lemma BsdTwoClauseText()
    ensures "BSD 2-Clause" != [] && Contains(NormalForm("BSD 2-Clause"), "bsd")
  {
    BsdTwoClauseLowered();
  }

  /** "MIT/Apache" is compared as "mit/apache". */
  lemma MitApacheLowered()
    ensures NormalForm("MIT/Apache") == "mit/apache"
    ensures 'b' !in "mit/apache" && Contains("mit/apache", "mit")
  {
    TrimmedNormalForm("MIT/Apache");
    ContainsAt("mit/apache", "mit", 0);
  }

  /** "MIT/Apache" meets the premise of MitWinsWithoutBsd. */
  lemma MitApacheText()
    ensures "MIT/Apache" != [] && 'b' !in NormalForm("MIT/Apache") && Contains(NormalForm("MIT/Apache"), "mit")
  {
    MitApacheLowered();
  }

  /** "LGPL-2.1" is compared as "lgpl-2.1". */
  lemma LgplLowered()
    ensures NormalForm("LGPL-2.1") == "lgpl-2.1"
    ensures Contains("lgpl-2.1", "gpl")
  {
    TrimmedNormalForm("LGPL-2.1");
    ContainsAt("lgpl-2.1", "gpl", 1);
  }

  /** "LGPL-2.1" meets the premise of GplShadowsLgpl. */
  lemma LgplText()
    ensures "LGPL-2.1" != [] && Contains(NormalForm("LGPL-2.1"), "gpl")
    ensures 'a' !in NormalForm("LGPL-2.1") && 'b' !in NormalForm("LGPL-2.1") && 'm' !in NormalForm("LGPL-2.1")
  {
    LgplLowered();
  }

  /** "Unknown" is compared as "unknown". */
  lemma UnknownLowered()
    ensures NormalForm("Unknown") == "unknown"
    ensures Contains("unknown", "unknown")
  {
    TrimmedNormalForm("Unknown");
    ContainsAt("unknown", "unknown", 0);
  }

  /** "Unknown" meets the premise of UnknownReadsAsItself. */
  lemma UnknownText()
    ensures "Unknown" != [] && Contains(NormalForm("Unknown"), "unknown")
    ensures 'a' !in NormalForm("Unknown") && 'b' !in NormalForm("Unknown") && 'm' !in NormalForm("Unknown")
    ensures 'g' !in NormalForm("Unknown") && 'l' !in NormalForm("Unknown")
  {
    UnknownLowered();
  }

  /** "Other" is compared as "other". */
  lemma OtherLowered()
    ensures NormalForm("Other") == "other"
    ensures Contains("other", "other")
  {
    TrimmedNormalForm("Other");
    ContainsAt("other", "other", 0);
  }

  /** "Other" meets the premise of OtherReadsAsItself. */
  lemma OtherText()
    ensures "Other" != [] && Contains(NormalForm("Other"), "other")
    ensures 'a' !in NormalForm("Other") && 'b' !in NormalForm("Other") && 'm' !in NormalForm("Other")
    ensures 'g' !in NormalForm("Other") && 'l' !in NormalForm("Other") && 'u' !in NormalForm("Other")
  {
    OtherLowered();
  }

  /** "BSD 2-Clause" reads as "BSD-3-Clause", whatever the fuzzy matcher says. */
  lemma BsdTwoClauseNormalized(closeMatch: string -> Option<string>)
    ensures NormalizeLicenseText(Some("BSD 2-Clause"), closeMatch) == "BSD-3-Clause"
  {
    BsdTwoClauseText();
    BsdAlwaysWins("BSD 2-Clause", closeMatch);
  }

  /** "MIT/Apache" reads as "MIT", whatever the fuzzy matcher says. */
  lemma MitApacheNormalized(closeMatch: string -> Option<string>)
    ensures NormalizeLicenseText(Some("MIT/Apache"), closeMatch) == "MIT"
  {
    MitApacheText();
    MitWinsWithoutBsd("MIT/Apache", closeMatch);
  }

  /** "LGPL-2.1" reads as "GPL", whatever the fuzzy matcher says. */
  lemma LgplNormalized(closeMatch: string -> Option<string>)
    ensures NormalizeLicenseText(Some("LGPL-2.1"), closeMatch) == "GPL"
  {
    LgplText();
    GplShadowsLgpl("LGPL-2.1", closeMatch);
  }

  /** "Unknown" reads as itself, whatever the fuzzy matcher says. */
  lemma UnknownNormalized(closeMatch: string -> Option<string>)
    ensures NormalizeLicenseText(Some("Unknown"), closeMatch) == "Unknown"
  {
    UnknownText();
    UnknownReadsAsItself("Unknown", closeMatch);
  }

  /** "Other" reads as itself, whatever the fuzzy matcher says. */
  lemma OtherNormalized(closeMatch: string -> Option<string>)
    ensures NormalizeLicenseText(Some("Other"), closeMatch) == "Other"
  {
    OtherText();
    OtherReadsAsItself("Other", closeMatch);
  }
}
