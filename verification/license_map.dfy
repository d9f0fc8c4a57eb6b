/**
 * The static tables of `config/license_map.py`. The normalization table is a
 * sequence because the order of a Python dict literal decides which key of
 * several matching ones is seen first.
 */
module LicenseMap {
  import opened Strings

  /** `LICENSE_NORMALIZATION_MAP`: free-text fragment to canonical identifier, in dict order. */
  const NormalizationTable: seq<(string, string)> := [
    ("bsd", "BSD-3-Clause"),
    ("bsd license", "BSD-3-Clause"),
    ("bsd-3-clause", "BSD-3-Clause"),
    ("mit", "MIT"),
    ("apache", "Apache-2.0"),
    ("apache license 2.0", "Apache-2.0"),
    ("apache 2", "Apache-2.0"),
    ("apache-2.0", "Apache-2.0"),
    ("gpl", "GPL"),
    ("lgpl", "LGPL"),
    ("lgplv2.1", "LGPL-2.1"),
    ("mpl", "MPL-2.0"),
    ("mozilla public license 2.0", "MPL-2.0"),
    ("unknown", "Unknown"),
    ("other", "Other"),
    ("python-2.0", "PSF-2.0"),
    ("psf", "PSF-2.0"),
    ("apache license, version 2.0", "Apache-2.0"),
    ("the apache software license, version 2.0", "Apache-2.0"),
    ("apache license version 2.0", "Apache-2.0"),
    ("eclipse public license", "EPL-2.0"),
    ("epl", "EPL-2.0"),
    ("epl-2.0", "EPL-2.0"),
    ("eclipse public license - v 2.0", "EPL-2.0"),
    ("gnu general public license v2", "GPL-2.0"),
    ("gnu general public license v3", "GPL-3.0"),
    ("gnu lesser general public license v2.1", "LGPL-2.1"),
    ("gnu lesser general public license v3", "LGPL-3.0")
  ]

  /** Positions of three keys the properties below talk about. */
  const GplKey: nat := 8
  const LgplKey: nat := 9
  const Lgpl21Key: nat := 10

  /** `STANDARD_LIBS`: standard-library modules and their pinned license. */
  const StandardLibs: map<string, string> := map[
    "hashlib" := "PSF-2.0",
    "os" := "PSF-2.0",
    "sys" := "PSF-2.0",
    "math" := "PSF-2.0",
    "datetime" := "PSF-2.0"
  ]

  /** `PACKAGE_ALIASES`: import name to the name the package is published under. */
  const PackageAliases: map<string, string> := map[
    "sklearn" := "scikit-learn",
    "dateutil" := "python-dateutil"
  ]

  /** `PACKAGE_ALIASES.get(name, name)`. */
  function Alias(name: string): (r: string)
    ensures name !in PackageAliases ==> r == name
  {
    if name in PackageAliases then PackageAliases[name] else name
  }

  /** True when `s` has no upper-case ASCII letter, so that lowering leaves it alone. */
  predicate IsLowerCase(s: string) {
    forall k :: 0 <= k < |s| ==> !('A' <= s[k] <= 'Z')
  }

  lemma KeysLowerCase0()
    ensures NormalizationTable[0].0 != [] && IsLowerCase(NormalizationTable[0].0)
    ensures NormalizationTable[1].0 != [] && IsLowerCase(NormalizationTable[1].0)
  {
  }

  lemma KeysLowerCase1()
    ensures NormalizationTable[2].0 != [] && IsLowerCase(NormalizationTable[2].0)
    ensures NormalizationTable[3].0 != [] && IsLowerCase(NormalizationTable[3].0)
  {
  }

  lemma KeysLowerCase2()
    ensures NormalizationTable[4].0 != [] && IsLowerCase(NormalizationTable[4].0)
    ensures NormalizationTable[5].0 != [] && IsLowerCase(NormalizationTable[5].0)
  {
  }

  lemma KeysLowerCase3()
    ensures NormalizationTable[6].0 != [] && IsLowerCase(NormalizationTable[6].0)
    ensures NormalizationTable[7].0 != [] && IsLowerCase(NormalizationTable[7].0)
  {
  }

  lemma KeysLowerCase4()
    ensures NormalizationTable[8].0 != [] && IsLowerCase(NormalizationTable[8].0)
    ensures NormalizationTable[9].0 != [] && IsLowerCase(NormalizationTable[9].0)
  {
  }

  lemma KeysLowerCase5()
    ensures NormalizationTable[10].0 != [] && IsLowerCase(NormalizationTable[10].0)
    ensures NormalizationTable[11].0 != [] && IsLowerCase(NormalizationTable[11].0)
  {
  }

  lemma KeysLowerCase6()
    ensures NormalizationTable[12].0 != [] && IsLowerCase(NormalizationTable[12].0)
    ensures NormalizationTable[13].0 != [] && IsLowerCase(NormalizationTable[13].0)
  {
  }

  lemma KeysLowerCase7()
    ensures NormalizationTable[14].0 != [] && IsLowerCase(NormalizationTable[14].0)
    ensures NormalizationTable[15].0 != [] && IsLowerCase(NormalizationTable[15].0)
  {
  }

  lemma KeysLowerCase8()
    ensures NormalizationTable[16].0 != [] && IsLowerCase(NormalizationTable[16].0)
    ensures NormalizationTable[17].0 != [] && IsLowerCase(NormalizationTable[17].0)
  {
  }

  lemma KeysLowerCase9()
    ensures NormalizationTable[18].0 != [] && IsLowerCase(NormalizationTable[18].0)
    ensures NormalizationTable[19].0 != [] && IsLowerCase(NormalizationTable[19].0)
  {
  }

  lemma KeysLowerCase10()
    ensures NormalizationTable[20].0 != [] && IsLowerCase(NormalizationTable[20].0)
    ensures NormalizationTable[21].0 != [] && IsLowerCase(NormalizationTable[21].0)
  {
  }

  lemma KeysLowerCase11()
    ensures NormalizationTable[22].0 != [] && IsLowerCase(NormalizationTable[22].0)
    ensures NormalizationTable[23].0 != [] && IsLowerCase(NormalizationTable[23].0)
  {
  }

  lemma KeysLowerCase12()
    ensures NormalizationTable[24].0 != [] && IsLowerCase(NormalizationTable[24].0)
    ensures NormalizationTable[25].0 != [] && IsLowerCase(NormalizationTable[25].0)
  {
  }

  lemma KeysLowerCase13()
    ensures NormalizationTable[26].0 != [] && IsLowerCase(NormalizationTable[26].0)
    ensures NormalizationTable[27].0 != [] && IsLowerCase(NormalizationTable[27].0)
  {
  }

  /**
   * Every key is non-empty and lower case, so each can occur in the lowered
   * text the normalizer compares against.
   */
  lemma KeysLowerCase()
    ensures forall i :: 0 <= i < |NormalizationTable| ==>
      NormalizationTable[i].0 != [] && IsLowerCase(NormalizationTable[i].0)
  {
    KeysLowerCase0();
    KeysLowerCase1();
    KeysLowerCase2();
    KeysLowerCase3();
    KeysLowerCase4();
    KeysLowerCase5();
    KeysLowerCase6();
    KeysLowerCase7();
    KeysLowerCase8();
    KeysLowerCase9();
    KeysLowerCase10();
    KeysLowerCase11();
    KeysLowerCase12();
    KeysLowerCase13();
  }

  /** Lowering a lower-case text changes nothing. */
  lemma LowerCaseIsFixed(s: string)
    requires IsLowerCase(s)
    ensures Lower(s) == s
  {
  }

  /** No key occurs twice, so a key names exactly one position. */
  lemma KeysDistinct()
    ensures forall i, j :: 0 <= i < j < |NormalizationTable| ==> NormalizationTable[i].0 != NormalizationTable[j].0
  {
  }

  /** The first letters of the keys up to "other", which decide that those keys are absent from a text. */
  lemma LeadingKeyInitials()
    ensures NormalizationTable[0].0 != [] && NormalizationTable[0].0[0] == 'b'
    ensures NormalizationTable[1].0 != [] && NormalizationTable[1].0[0] == 'b'
    ensures NormalizationTable[2].0 != [] && NormalizationTable[2].0[0] == 'b'
    ensures NormalizationTable[3].0 != [] && NormalizationTable[3].0[0] == 'm'
    ensures NormalizationTable[4].0 != [] && NormalizationTable[4].0[0] == 'a'
    ensures NormalizationTable[5].0 != [] && NormalizationTable[5].0[0] == 'a'
    ensures NormalizationTable[6].0 != [] && NormalizationTable[6].0[0] == 'a'
    ensures NormalizationTable[7].0 != [] && NormalizationTable[7].0[0] == 'a'
    ensures NormalizationTable[3].0 == "mit" && NormalizationTable[3].1 == "MIT"
  {
  }

  lemma MiddleKeyInitials()
    ensures NormalizationTable[8].0 != [] && NormalizationTable[8].0[0] == 'g'
    ensures NormalizationTable[9].0 != [] && NormalizationTable[9].0[0] == 'l'
    ensures NormalizationTable[10].0 != [] && NormalizationTable[10].0[0] == 'l'
    ensures NormalizationTable[11].0 != [] && NormalizationTable[11].0[0] == 'm'
    ensures NormalizationTable[12].0 != [] && NormalizationTable[12].0[0] == 'm'
    ensures NormalizationTable[13].0 != [] && NormalizationTable[13].0[0] == 'u'
    ensures NormalizationTable[8].0 == "gpl" && NormalizationTable[8].1 == "GPL"
    ensures NormalizationTable[13].0 == "unknown" && NormalizationTable[13].1 == "Unknown"
    ensures NormalizationTable[14].0 == "other" && NormalizationTable[14].1 == "Other"
  {
  }

  /** Only the key "lgpl" maps to "LGPL". */
  lemma LgplOnlyAtItsKey()
    ensures forall i :: 0 <= i < |NormalizationTable| && NormalizationTable[i].1 == "LGPL" ==> i == LgplKey
  {
  }

  /** Every standard-library module is pinned to the PSF license. */
  lemma StandardLibsArePsf()
    ensures forall m :: m in StandardLibs ==> StandardLibs[m] == "PSF-2.0"
    ensures StandardLibs.Keys == {"hashlib", "os", "sys", "math", "datetime"}
  {
  }

  /** The two aliases, and that an aliased name is never aliased again. */
  lemma AliasesResolve()
    ensures Alias("sklearn") == "scikit-learn" && Alias("dateutil") == "python-dateutil"
    ensures forall name :: Alias(Alias(name)) == Alias(name)
  {
  }
}
