# Library License Checker — license classification core

A Dafny model of the part of Library-License-Checker that decides which
license a dependency has and how far to trust it:

- **Normalizers.** `normalization.py` scans an ordered table of text
  fragments. The older `checker/helpers.py` uses a list of nine regular
  expressions.
- **Rating.** `rate_license` exists in its current form (`license_utils.py`)
  and in an older one (`checker/helpers.py`).
- **Python resolution chain.** `fetch_license` and
  `check_imported_packages_licenses` exist in a current version
  (`license_api.py`) and a legacy one (`checker/license_api.py`). The chain
  reads, in turn:
  - the Libraries.io normalized licenses,
  - the raw `licenses` field,
  - the declared licenses,
  - PyPI.
- **Java helpers in `helpers.py`:**
  - import-prefix extraction from source text,
  - longest-prefix lookup in the alias table,
  - the record built for each import,
  - deduplication of result records.
- **Parent-POM test** of `pom_parser.py`.
- **Requirements-file parser** of `checker/parser.py`, repeated in `helpers.py`.

The constant tables (`config/license_map.py`, `config/java_aliases.py`) are
Dafny constants. The normalization and alias tables are sequences in dict
order, because that order decides which of several matching keys wins.

The modules follow the source files:

| module | models |
|---|---|
| `Strings` | `str.strip`, ASCII `lower`/`upper`, `in` on strings, `split(...)[0]`, `splitlines`, `sorted`, `str(int)` |
| `LicenseMap` | `config/license_map.py` |
| `Normalization` | `normalization.py` |
| `Rating` | `rate_license` of `license_utils.py` and of `checker/helpers.py` |
| `SpdxPatterns` | the regular-expression `normalize_license_text` of `checker/helpers.py` |
| `Records` | the result dictionaries |
| `Registry` | the registry replies, and `fetch_license_from_pypi` of both versions |
| `LicenseApi` | `license_api.py` |
| `CheckerLicenseApi` | `checker/license_api.py` |
| `JavaAliases` | `config/java_aliases.py` |
| `JavaImports` | `extract_java_imports`, `find_java_alias_for_import`, `check_java_import_file` |
| `Dedup` | `deduplicate_license_results` |
| `Pom` | `pom_parser.py` |
| `Requirements` | `parse_requirements_text` |

**Loops.** Where the source loops and appends or updates a dictionary, the
model is a method with a loop. Each such method is proved against a
specification function:
- `Requirements.ParseRequirementsText`,
- `Dedup.DeduplicateLicenseResults`,
- `JavaImports.ExtractJavaImports`, `JavaImports.RecordsFor`,
- `LicenseApi.CheckImportedPackagesLicenses`,
- `CheckerLicenseApi.LegacyCheckImportedPackagesLicenses`.

The decision chains and predicates are functions. Lemmas relate them to
independent descriptions: first match, longest prefix, winner per key,
origin of a license.

**Parameters.** Network replies and the two lookups the model cannot see
are parameters:
- `registry` and `pypi` give the reply for a queried name;
- `closeMatch` is difflib's fuzzy matcher;
- `fetchJavaLicense` looks up the license of Java coordinates.

**Wiring.** `license_api.py` imports its helpers from a module that does not
define them. It is modelled against the definitions in `normalization.py`
and `license_utils.py`, which are the ones its behaviour evidently assumes.

## Model

| member | source | states |
|---|---|---|
| `LicenseMap.Alias` | config/license_map.py:51-54 | a name without an alias is returned unchanged |
| `LicenseMap.AliasesResolve` | config/license_map.py:51-54 | sklearn maps to scikit-learn and dateutil to python-dateutil; an aliased name is never aliased again |
| `LicenseMap.StandardLibsArePsf` | config/license_map.py:43-49 | the standard-library modules are exactly hashlib, os, sys, math, datetime, all pinned to PSF-2.0 |
| `LicenseMap.KeysLowerCase` | config/license_map.py:11-41 | every normalization key is non-empty and has no upper-case letter, so it can occur in the lowered text |
| `LicenseMap.LowerCaseIsFixed` | normalization.py:26 | lowering a lower-case key leaves it unchanged |
| `LicenseMap.KeysDistinct` | config/license_map.py:11-41 | no key occurs twice in the table |
| `LicenseMap.LgplOnlyAtItsKey` | config/license_map.py:21 | only the key "lgpl" maps to "LGPL" |
| `Normalization.FirstKeyFrom` | normalization.py:29-31 | a found position is in range and its key occurs in the text |
| `Normalization.FirstKeyFromIsFirst` | normalization.py:29-31 | every key the scan passes over is absent; the scan finds nothing exactly when every key is absent |
| `Normalization.KeyIndexFrom` | normalization.py:37 | the position of a key in the table, or none exactly when no entry has that key |
| `Normalization.FuzzyPass` | normalization.py:34-39 | the fuzzy step gives a table value or "Unknown" (a proposal that is not a key raises and is caught) |
| `Normalization.NormalizeWith` | normalization.py:22-41 | the result is always a table value or "Unknown", never an error |
| `Normalization.NormalizeLicenseText` | normalization.py:10-41 | the same for `LICENSE_NORMALIZATION_MAP` |
| `Normalization.EmptyIsUnknown` | normalization.py:23-24 | `None` or the empty text gives "Unknown" whatever the fuzzy matcher says |
| `Normalization.FirstOccurringKeyWins` | normalization.py:29-31 | if key i occurs in the lowered, stripped text and no earlier key does, the result is value i |
| `Normalization.ExactHit` | normalization.py:29-31 | when the exact pass finds position i, the result is the value at i |
| `Normalization.ExactHitIgnoresFuzzy` | normalization.py:33-37 | once some key occurs, two different fuzzy matchers give the same result |
| `Normalization.NormalForm` | normalization.py:26 | `strip().lower()`; `Normalization.SameNormalForm` and `Normalization.TrimmedNormalForm` state what it means for the result |
| `Normalization.SameNormalForm` | normalization.py:26 | over any table, two non-empty texts with the same stripped lower-case form normalize alike (case and padding do not matter) |
| `Normalization.BlankIsUnknown` | normalization.py:23-39 | a text that is empty once stripped holds no non-empty key and reads as "Unknown" when the matcher proposes nothing for the empty text, as difflib does |
| `Normalization.SameNormalFormAnyText` | normalization.py:23-39 | over a table with non-empty keys, any two texts with the same stripped lower-case form normalize alike, the empty and blank texts included |
| `Normalization.LicenseTextSameNormalForm` | normalization.py:23-39 | `normalize_license_text` gives the same answer for any two texts with the same stripped lower-case form, `""` and `"   "` included |
| `Normalization.NoExactHitUsesFuzzy` | normalization.py:33-39 | with no key in the text: no proposal gives "Unknown", a proposed key gives its value, a non-key proposal gives "Unknown" |
| `Normalization.ShadowedKeyNeverFirst` | normalization.py:29-31 | a key that contains an earlier key is never the first match |
| `Normalization.ExactPassNeverLgpl` | config/license_map.py:20-22 | "lgpl" and "lgplv2.1" are never the first match, so the exact pass never answers "LGPL" |
| `Normalization.BsdAlwaysWins` | config/license_map.py:12 | any text mentioning "bsd" normalizes to BSD-3-Clause |
| `Normalization.MitWinsWithoutBsd` | config/license_map.py:12-16 | a text mentioning "mit" and with no 'b' normalizes to MIT, whatever else it names |
| `Normalization.GplShadowsLgpl` | config/license_map.py:20-22 | a text mentioning "gpl" without 'a', 'b', 'm' normalizes to GPL, LGPL texts included |
| `Normalization.UnknownReadsAsItself` | config/license_map.py:25 | a text mentioning "unknown" with none of the earlier keys' initials normalizes to "Unknown" |
| `Normalization.OtherReadsAsItself` | config/license_map.py:26 | the same for "other", which gives "Other" |
| `Normalization.TrimmedNormalForm` | normalization.py:26 | a text with no surrounding space is compared in lower case as is |
| `Normalization.BsdTwoClauseText` | config/license_map.py:12-14 | "BSD 2-Clause" meets the premise of BsdAlwaysWins: it is non-empty and its stripped lower-case form contains "bsd" |
| `Normalization.BsdTwoClauseNormalized` | config/license_map.py:12-14 | "BSD 2-Clause" reads as "BSD-3-Clause" whatever the fuzzy matcher says |
| `Normalization.MitApacheText` | config/license_map.py:15-16 | "MIT/Apache" meets the premise of MitWinsWithoutBsd: its stripped lower-case form has no 'b' and contains "mit" |
| `Normalization.MitApacheNormalized` | config/license_map.py:15-16 | "MIT/Apache" reads as "MIT" whatever the fuzzy matcher says |
| `Normalization.LgplText` | config/license_map.py:20-22 | "LGPL-2.1" meets the premise of GplShadowsLgpl: its stripped lower-case form contains "gpl" and has no 'a', 'b', 'm' |
| `Normalization.LgplNormalized` | config/license_map.py:20-22 | "LGPL-2.1" reads as "GPL", not "LGPL", whatever the fuzzy matcher says |
| `Normalization.UnknownText` | config/license_map.py:25 | "Unknown" meets the premise of UnknownReadsAsItself: its stripped lower-case form contains "unknown" and none of the earlier keys' initials |
| `Normalization.UnknownNormalized` | config/license_map.py:25 | "Unknown" reads as "Unknown" whatever the fuzzy matcher says |
| `Normalization.OtherText` | config/license_map.py:26 | "Other" meets the premise of OtherReadsAsItself: its stripped lower-case form contains "other" and none of the earlier keys' initials |
| `Normalization.OtherNormalized` | config/license_map.py:26 | "Other" reads as "Other" whatever the fuzzy matcher says |
| `Rating.Label` | license_utils.py:36-43 | the rating is one of exactly four labels |
| `Rating.LabelInjective` | license_utils.py:36-43 | distinct outcomes have distinct labels |
| `Rating.AnyIn` | license_utils.py:36 | `any(w in text for w in words)` holds exactly when some keyword occurs |
| `Rating.RateWith` | license_utils.py:30-43 | Trusted iff a trusted keyword occurs in the upper-cased name; Caution iff none does and a caution keyword does; Risky iff neither does and a risky one does; the default label otherwise |
| `Rating.RateIgnoresCase` | license_utils.py:34 | upper- or lower-casing the name never changes its rating |
| `Rating.TrustedWins` | license_utils.py:36-37 | a trusted keyword gives Trusted whatever else (GPL included) the name says |
| `Rating.MentionsSublist` | checker/helpers.py:25-27 | a text mentioning a keyword of a sub-list mentions one of the whole list |
| `Rating.LegacyKeywordsAreCurrent` | checker/helpers.py:25-27 | every older trusted or caution keyword is still a current one, and the risky lists are equal |
| `Rating.NoTrustedLetters` | license_utils.py:30 | a name without M, A, B, S mentions no trusted keyword of either list |
| `Rating.NoCautionLetters` | license_utils.py:31 | a name without L mentions no caution keyword of either list |
| `Rating.NoLegacyLetters` | checker/helpers.py:25-27 | a name without M, A, B, G, U, O mentions no keyword of the older lists |
| `Rating.LgplIsCaution` | license_utils.py:31 | a name whose upper-case form mentions LGPL and no current trusted keyword is Caution under both lists, although it contains "GPL" ("LGPL-2.1-or-later" included) |
| `Rating.SentinelsAreRisky` | license_utils.py:32 | a name whose upper-case form mentions UNKNOWN or OTHER and no current trusted or caution keyword is Risky under both lists |
| `Rating.RateLicense` | license_utils.py:11-43 | the current lists applied as `Rating.RateWith` states |
| `Rating.LegacyRateLicense` | checker/helpers.py:24-38 | the older lists applied as `Rating.RateWith` states; `Rating.LegacyKeywordsAreCurrent` relates the two |
| `Rating.EmptyIsUnrated` | license_utils.py:42-43 | with non-empty keywords, the empty name gets the default label |
| `Rating.LegacyMissesPsfAndEpl` | checker/helpers.py:24-38 | a name whose upper-case form mentions PSF or EPL and no keyword of the older lists gets the default label from them, and Trusted (PSF) or Caution (EPL without PSF) from the current lists |
| `Rating.MitOrGplText` | license_utils.py:36-37 | "MIT or GPL" upper-cases to a text mentioning both MIT and GPL |
| `Rating.MitOrGplRated` | license_utils.py:36-37 | "MIT or GPL" is Trusted although it names the GPL |
| `Rating.LgplText` | license_utils.py:38-39 | "LGPL-2.1" upper-cases to itself and mentions LGPL |
| `Rating.LgplRated` | license_utils.py:38-39 | "LGPL-2.1" is Caution under both keyword lists, not Risky |
| `Rating.SentinelTexts` | license_utils.py:40-41 | "Unknown" and "Other" upper-case to texts mentioning UNKNOWN and OTHER |
| `Rating.UnknownRated` | license_utils.py:40-41 | "Unknown" is Risky under both keyword lists |
| `Rating.OtherRated` | license_utils.py:40-41 | "Other" is Risky under both keyword lists |
| `Rating.PsfText` | checker/helpers.py:25 | "PSF-2.0" upper-cases to itself and mentions PSF |
| `Rating.PsfRated` | checker/helpers.py:24-38 | "PSF-2.0" is Trusted under the current lists and gets the default label under the older ones |
| `Rating.EplText` | checker/helpers.py:26 | "EPL-2.0" upper-cases to itself, mentions EPL and does not mention PSF |
| `Rating.EplRated` | checker/helpers.py:24-38 | "EPL-2.0" is Caution under the current lists and gets the default label under the older ones |
| `SpdxPatterns.MatchAt` | checker/helpers.py:17 | a match the backtracking engine finds at a position is a text the pattern describes |
| `SpdxPatterns.MatchAtComplete` | checker/helpers.py:17 | the engine finds a match wherever some text at that position fits the pattern |
| `SpdxPatterns.SearchFrom` | checker/helpers.py:17 | a reported match lies in the text and is described by the pattern |
| `SpdxPatterns.Search` | checker/helpers.py:17 | the same for `re.search` over the whole text |
| `SpdxPatterns.SearchIsLeftmost` | checker/helpers.py:17 | no match is reported exactly when the pattern occurs nowhere; a reported match starts at the leftmost occurrence |
| `SpdxPatterns.Canonical` | checker/helpers.py:20 | the result keeps its length, has no space and no lower-case letter, and is never "Unknown" |
| `SpdxPatterns.FirstPatternFrom` | checker/helpers.py:16-18 | the first pattern in list order that occurs, with its match; none exactly when no pattern occurs |
| `SpdxPatterns.NormalizeWith` | checker/helpers.py:16-22 | "Unknown" exactly when no pattern matches; any other result has no space and no lower-case letter |
| `SpdxPatterns.NormalizeBySpdxPatterns` | checker/helpers.py:9-22 | the nine patterns applied as `SpdxPatterns.NormalizeWith` states |
| `SpdxPatterns.FirstPatternWins` | checker/helpers.py:16-20 | the result is the canonical form of the leftmost match of the first pattern that occurs |
| `SpdxPatterns.LongerPatternShadowed` | checker/helpers.py:13 | a pattern with one more leading letter occurs only where the shorter one does |
| `SpdxPatterns.LgplAndAgplUnreachable` | checker/helpers.py:13 | the LGPL v3 and AGPL v3 patterns never decide the result |
| `SpdxPatterns.MitSpellings` | checker/helpers.py:12 | the MIT pattern describes exactly the spellings of MIT in any ASCII letter case |
| `SpdxPatterns.MitAnywhereWins` | checker/helpers.py:11-20 | a text mentioning MIT in any ASCII letter case normalizes to "MIT" |
| `SpdxPatterns.MissingLetter` | checker/helpers.py:17 | a pattern demanding a letter cannot occur in a text lacking it in both ASCII cases |
| `SpdxPatterns.GplOrMitText` | checker/helpers.py:11-20 | "GPL-3.0 or MIT" upper-cases to a text mentioning MIT |
| `SpdxPatterns.GplOrMitNormalized` | checker/helpers.py:11-20 | "GPL-3.0 or MIT" normalizes to "MIT", although a GPL pattern matches earlier in the text |
| `SpdxPatterns.GplV3InLgplV3` | checker/helpers.py:13 | the GPL v3 pattern matches "LGPL v3" at positions 1 to 7 |
| `SpdxPatterns.GplV3DecidesWithoutMab` | checker/helpers.py:12-20 | without M, A, B, a GPL v3 match decides the result |
| `SpdxPatterns.LgplV3Text` | checker/helpers.py:13-20 | "LGPL v3" normalizes to "GPL-V3" |
| `SpdxPatterns.ApacheShape` | checker/helpers.py:12 | a text the Apache pattern describes has its 2 right after "Apache" or after one separator |
| `SpdxPatterns.ApachePatternMissesLicenseWord` | checker/helpers.py:12 | the Apache pattern does not occur in "Apache License 2.0" |
| `SpdxPatterns.OnlyApacheCouldMatch` | checker/helpers.py:11-22 | without M, B, G, a text the Apache pattern misses normalizes to "Unknown" |
| `SpdxPatterns.ApacheLicenseText` | checker/helpers.py:11-22 | "Apache License 2.0" normalizes to "Unknown" |
| `Records.Failed` | license_api.py:73-79 | a failure record is rated Risky |
| `Records.UnknownIsRisky` | license_utils.py:32 | "Unknown" is rated Risky, not given the default label |
| `Records.EachIsPointwise` | license_api.py:97-112 | a batch of independent lookups has one record per name, each that name's own lookup |
| `Registry.PypiLicense` | license_utils.py:62-72 | an exception, a non-200 status or a non-string license gives "Unknown"; any other result is the stripped license string normalized |
| `Registry.PypiStripsPadding` | license_utils.py:67-69 | padding around the PyPI license is removed before normalizing |
| `Registry.PypiBlankIsUnknown` | license_utils.py:68 | a blank license string gives "Unknown" without consulting the normalizer |
| `LicenseApi.NormalizeJson` | license_api.py:51 | normalizing a field gives "Unknown" or a table value; a non-string field raises inside the normalizer and gives "Unknown" |
| `LicenseApi.FirstChoice` | license_api.py:46-51 | after the first step, the license is "Unknown", a table value, or the first normalized entry when it is usable |
| `LicenseApi.DeclaredChoice` | license_api.py:53-56 | the same after the declared-licenses step |
| `LicenseApi.PypiFallback` | license_api.py:58-59 | the PyPI fallback gives "Unknown" or a table value |
| `LicenseApi.ChosenLicense` | license_api.py:46-59 | a 200 reply's license is the usable first normalized entry verbatim, a table value, or "Unknown" |
| `LicenseApi.FetchLicense` | license_api.py:24-79 | keeps the caller's name and is rated by its own license. No error exactly when the aliased query answers 200. An error record says "Unknown", Risky, and "HTTP <status>" or the exception text |
| `LicenseApi.CheckImportedPackagesLicenses` | license_api.py:81-112 | one record per import, in order, each as PackageRecord describes it |
| `LicenseApi.NormalizedTakenVerbatim` | license_api.py:46-48 | a usable normalized entry other than "Unknown" is the final license, unnormalized |
| `LicenseApi.RawFieldWhenNormalizedUnusable` | license_api.py:49-51 | an empty, non-list or "Other"-led normalized field hands over to the raw field, or "Unknown" if it is absent |
| `LicenseApi.DeclaredOnlyWhenUnknown` | license_api.py:53-56 | the declared licenses matter only while the license is "Unknown" |
| `LicenseApi.PypiOnlyWhenUnknown` | license_api.py:58-59 | PyPI matters only while the license is still "Unknown" |
| `LicenseApi.QueriesUseAlias` | license_api.py:39-59 | both registries are asked about the aliased name only |
| `LicenseApi.SuccessRecord` | license_api.py:61-65 | a 200 reply gives the error-free record of the chosen license under the caller's name |
| `LicenseApi.StatusCodesDistinguished` | license_api.py:66-72 | different non-200 statuses give different error texts |
| `LicenseApi.PackageRecord` | license_api.py:98-111 | as `LicenseApi.RecordKeepsImportedName`, `LicenseApi.StandardLibraryBypass` and `LicenseApi.OtherPackagesFetched` state |
| `LicenseApi.RecordKeepsImportedName` | license_api.py:104-110 | every batch record carries the imported name and is rated by its license |
| `LicenseApi.StandardLibraryBypass` | license_api.py:101-107 | a standard-library module is PSF-2.0, Trusted, error-free, and independent of both registries |
| `LicenseApi.OtherPackagesFetched` | license_api.py:108-110 | any other package is fetched under its alias, and only the name is replaced |
| `CheckerLicenseApi.LegacyFailed` | checker/license_api.py:46-52 | a failure record says "Unknown", Risky, and its reason |
| `CheckerLicenseApi.LegacyFirstChoice` | checker/license_api.py:24-29 | the first step raises exactly when the normalized entry is unusable and the raw field is a non-empty non-string. Otherwise a result not taken from the normalized entry is "Unknown" or canonical |
| `CheckerLicenseApi.LegacyPypiFallback` | checker/helpers.py:40-52 | the older PyPI fallback gives "Unknown" or a canonical text |
| `CheckerLicenseApi.LegacyFetchLicense` | checker/license_api.py:17-52 | keeps the given name and is rated by the older lists. No error exactly when the unaliased query answers 200 and the first step does not raise. Errors are "HTTP <status>" or the exception text |
| `CheckerLicenseApi.LegacyCheckImportedPackagesLicenses` | checker/license_api.py:54-59 | one fetch per import, in order |
| `CheckerLicenseApi.LegacyLicenseOrigin` | checker/license_api.py:24-32 | the license of an answered query is "Unknown", canonical, or the usable first normalized entry |
| `CheckerLicenseApi.DeclaredIgnored` | checker/license_api.py:24-32 | replies differing only in the declared licenses give the same record |
| `CheckerLicenseApi.QueriesUseGivenName` | checker/license_api.py:18 | the registries are asked about the name as given |
| `CheckerLicenseApi.LegacyPypiOnlyWhenUnknown` | checker/license_api.py:31-32 | PyPI matters only when the first step gave "Unknown" |
| `CheckerLicenseApi.NonStringRawFieldFails` | checker/license_api.py:28-29 | a non-string raw field ends in the exception record |
| `JavaAliases.EntriesBySection` | config/java_aliases.py:1-65 | every alias entry belongs to one of the commented sections |
| `JavaAliases.KnownGoodVersionsAreAliased` | config/java_aliases.py:67-75 | every known-good key is the group:artifact of some alias target |
| `JavaAliases.TrustedLicensesHaveKnownVersions` | config/java_aliases.py:77-80 | the trusted-license keys are among the known-good keys |
| `JavaAliases.NestedPrefixes` | config/java_aliases.py:9-23 | three alias keys are proper prefixes of longer keys with other targets |
| `JavaImports.ImportOfLine` | helpers.py:157-162 | a line contributes exactly when it is an import line whose name has a dot; the contribution is a prefix of the name with at most two dots |
| `JavaImports.PrefixOfImportLine` | helpers.py:159-162 | the contribution is the first three dot-separated segments of the imported name |
| `JavaImports.ImportsOf` | helpers.py:154-162 | the set holds exactly the contributions of the lines |
| `JavaImports.ExtractJavaImports` | helpers.py:145-165 | the result is strictly sorted and holds exactly the prefixes the lines contribute |
| `JavaImports.LongestPrefixFrom` | helpers.py:169-173 | none exactly when no key starts the import; otherwise a longest such key, the first of the longest in table order |
| `JavaImports.FindJavaAlias` | helpers.py:167-174 | the coordinates of a longest key starting the import, as `JavaImports.LongestPrefixFrom` states; none exactly when no key starts it (`JavaImports.UnresolvedExactlyWithoutKey`) |
| `JavaImports.ExactKeyWins` | helpers.py:169-174 | a key equal to the whole import wins |
| `JavaImports.DeepKeyNeverMatches` | helpers.py:162 | a key with three or more dots never starts an extracted prefix |
| `JavaImports.CommonsIoOnlyAtDeepKey` | config/java_aliases.py:12 | only the key "org.apache.commons.io" leads to commons-io |
| `JavaImports.CommonsIoNeverResolved` | config/java_aliases.py:12 | no import line resolves to commons-io |
| `JavaImports.ImportRecord` | helpers.py:180-199 | as `JavaImports.ImportRecordFacts` states |
| `JavaImports.ImportRecordFacts` | helpers.py:180-199 | an unresolved import gives name, "?", "Unknown", Risky. A resolved one gives group:artifact, "latest", and the looked-up license with its rating |
| `JavaImports.RecordsFor` | helpers.py:180-200 | one record per import, in order |
| `JavaImports.CheckJavaImportFile` | helpers.py:176-200 | one record per extracted import, in sorted import order |
| `JavaImports.UnresolvedExactlyWithoutKey` | helpers.py:169-188 | an import is unresolved exactly when no alias key starts it |
| `JavaImports.FileUtilsLine` | helpers.py:156-162 | "import org.apache.commons.io.FileUtils;" contributes "org.apache.commons" |
| `JavaImports.CommonsResolvesToLang3` | config/java_aliases.py:9 | "org.apache.commons" resolves to commons-lang3 |
| `JavaImports.FileUtilsResolvesToLang3` | helpers.py:156-174 | the sample FileUtils import resolves to commons-lang3, not commons-io |
| `JavaImports.JupiterBeatsJunit` | helpers.py:169-174 | "org.junit.jupiter" resolves to the JUnit 5 API although "org.junit" comes first |
| `Dedup.KeyOf` | helpers.py:241-244 | the key the records are grouped by; `Dedup.KeysAreUnique` and `Dedup.OutputIsWinners` state what grouping by it gives |
| `Dedup.KeyOrderFacts` | helpers.py:238-247 | the key order is no longer than the input, repeats no key, and lists exactly the input keys |
| `Dedup.KeptFacts` | helpers.py:238-251 | the dictionary maps exactly the input keys, each to an input record of that key |
| `Dedup.DeduplicateLicenseResults` | helpers.py:227-253 | the result is the stored record of each key, in insertion order |
| `Dedup.FirstFit` | helpers.py:246-251 | a found position is in range and fits the key |
| `Dedup.FirstFitIsFirst` | helpers.py:246-251 | no earlier record fits; none is found exactly when no record fits |
| `Dedup.KeptIsWinner` | helpers.py:246-251 | the stored record is the first known-license record of its key, else the first of its key |
| `Dedup.WinnerKept` | helpers.py:248-251 | one more record replaces the winner only when it has the key and a known license and the winner is "Unknown" |
| `Dedup.WinnerNew` | helpers.py:246-247 | the first record of a key is its winner |
| `Dedup.DeduplicatedShape` | helpers.py:253 | the output lists the stored record of each key, in key order |
| `Dedup.KeysAreUnique` | helpers.py:240-253 | at most one output record per key |
| `Dedup.OutputIsWinners` | helpers.py:238-253 | the output is no longer than the input, comes from it, covers every input key, and holds each key's winner |
| `Dedup.KnownIsFinal` | helpers.py:249-251 | a stored known license is never displaced by what follows |
| `Dedup.OrderOfFirstOccurrence` | helpers.py:238-253 | keys appear in the order of their first occurrence, and replacement keeps the position |
| `Pom.FindChild` | pom_parser.py:18-19 | the first direct child with the namespaced tag, or none exactly when no child has it |
| `Pom.IsParentPom` | pom_parser.py:3-24 | as `Pom.ParentPomExactly` states |
| `Pom.ParentPomExactly` | pom_parser.py:13-24 | parent POM iff parsed, the first `packaging` child reads exactly "pom", and some `modules` child exists |
| `Pom.UnreadableIsNotParent` | pom_parser.py:22-24 | a read or parse failure gives false |
| `Pom.PackagingMustBePom` | pom_parser.py:20 | any other packaging text, or none, gives false (no trimming or case folding) |
| `Pom.LaterPackagingIgnored` | pom_parser.py:18 | only the first `packaging` child is looked at |
| `Pom.FindPrefix` | pom_parser.py:18-19 | a child found in a prefix stays the one found |
| `Pom.WrongNamespaceNeverParent` | pom_parser.py:16-19 | children outside the Maven 4.0.0 namespace are never found |
| `Pom.ModulesRequired` | pom_parser.py:19-20 | without a `modules` child the file is not a parent POM |
| `Requirements.PackageOf` | checker/parser.py:9-11 | an entry is the stripped line cut before its first "==", that cut before its first ">=", and that before its first "<="; so it is a prefix of the stripped line and contains none of the three |
| `Requirements.ParseRequirementsText` | checker/parser.py:5-13 | the result is the entries of the lines, read one after the other |
| `Requirements.EntriesAppend` | checker/parser.py:8-12 | the entries of two blocks of lines are the entries of each, concatenated |
| `Requirements.NothingSkipped` | checker/parser.py:10-12 | when no line is blank or a comment, every line gives its own entry, in order, duplicates kept |
| `Requirements.AllSkipped` | checker/parser.py:10 | blank lines and comments give nothing |
| `Requirements.EntriesComeFromLines` | checker/parser.py:9-12 | every entry is the package of a line that is neither blank nor a comment |
| `Requirements.EntriesAreCutLines` | checker/parser.py:11 | every entry is a prefix of a stripped line and contains none of the three specifiers |
| `Requirements.OtherSpecifiersKept` | checker/parser.py:11 | a line without the three specifiers gives its whole stripped text ("~=" and "!=" stay) |
| `Requirements.PaddingIgnored` | checker/parser.py:9 | surrounding white space changes neither skipping nor the entry |
| `Strings.StripIdempotent` | normalization.py:26 | stripping twice is stripping once |
| `Strings.StripCaseCommutes` | normalization.py:26 | stripping and case mapping commute |
| `Strings.SplitLines` | helpers.py:156 | no line contains a line boundary, and there are no more lines than characters |
| `Strings.SplitLinesNonEmpty` | helpers.py:156 | a non-empty text has at least one line |
| `Strings.SplitLinesJoin` | helpers.py:156 | a text whose only line boundaries are inner '\n's is given back by joining its lines with '\n' |
| `Strings.CutAt` | checker/parser.py:11 | `s.split(sep)[0]`: a prefix of `s` that does not contain `sep`, and either all of `s` or followed by `sep`; `sep` starts at no earlier position |
| `Strings.CutAtUnique` | checker/parser.py:11 | any prefix with those properties is the cut, so the cut is the text before the first occurrence |
| `Strings.SortedList` | helpers.py:165 | `sorted` of a set is strictly increasing and holds exactly the set's elements |
| `Strings.IntToStringInjective` | license_api.py:71 | different status codes are written differently |

## Left out

- HTTP transport is left out: URLs, the API key, the `platform` argument, `requests.get` and JSON decoding. Each registry is a function from the queried name to a reply, and a decoding failure is one more `Raised` reply.
- Registry JSON values are reduced to a string (`Text`), a list of strings (`Items`), or another value of which only the truth value matters (`Scalar`). A list whose first element is not a string is not representable. Where that list sits decides what is lost:
  - In `normalized_licenses`, both fetchers take the entry as it is (license_api.py:46-48, checker/license_api.py:24-26). `rate_license` then raises on `.upper()` (license_utils.py:34, checker/helpers.py:29). The fetcher returns its error record, "Unknown" with the `AttributeError` text (license_api.py:73-79). That record, with that text, is what the model cannot produce.
  - In `declared_licenses`, `normalize_license_text` catches the error and gives "Unknown" (normalization.py:40-41). The model gives the same answer for `Items([""])`, so this case loses nothing.
- The exact text of Python exceptions is not modelled. `CheckerLicenseApi.NotAStringError` stands for the `TypeError` text the regular-expression search raises on a non-string. A `Raised` reply carries whatever text the transport gave.
- The difflib fuzzy matcher (`get_close_matches` with cutoff 0.7) and its similarity ratio are a parameter. Nothing is assumed about its answer, except where a lemma names the empty-text premise below: a non-key answer leads to "Unknown", as the caught `KeyError` does.
- `fetch_java_license` and the Maven latest/known-good/trusted retry logic are not modelled. No file of the repository defines that function, so it is a parameter of `JavaImports.ImportRecord`. The known-good and trusted tables are modelled only as constants, with their relation to the alias table proved.
- `get_latest_version`, `parse_pom_xml`, `check_python_licenses` and `check_java_licenses` are not modelled. The first is network code; the other three call unmodelled lookups. The same goes for the `ast`-based import extractors in `helpers.py` and `checker/helpers.py`, the report printers, `main.py` and the Streamlit `app.py`.
- `app.py` resolves Java aliases by first match, unlike `find_java_alias_for_import`; that lookup is not part of this model.
- File I/O is not modelled:
  - Files are given as their content: a sequence of lines for requirements, one text for Java sources.
  - The `os.path.exists` branch of `extract_java_imports` is not modelled.
  - Requirements lines are given without their terminators; the source strips them anyway.
- XML parsing is not modelled. `Pom` receives the parse outcome: a failure, or a tree with namespace-qualified tags.
- The `except` branch of `extract_java_imports` cannot be reached on text content and is not modelled.
- Case mapping is ASCII only: `lower()` and `upper()` change only A-Z and a-z. `strip()` and `splitlines()` use Python's full sets of white-space and line-boundary characters.
- Case-insensitive regular-expression matching is ASCII only as well. Python's `re.IGNORECASE` on a `str` pattern also matches 'i' with 'ı' (U+0131) and 'İ' (U+0130), 's' with 'ſ' (U+017F) and 'k' with the Kelvin sign (U+212A). So `normalize_license_text("mıt")` in `checker/helpers.py` gives "MIT" in the source and "Unknown" in the model.
- `SpdxPatterns.MitSpellings`: speaks of ASCII letter case only. Under `re.IGNORECASE` the MIT pattern also describes spellings with 'ı' or 'İ' in place of the 'I'.
- `SpdxPatterns.MitAnywhereWins`: its premise names MIT in ASCII letter case only; a text spelling it with 'ı' also gives "MIT" in the source.
- `SpdxPatterns.MissingLetter`: speaks of ASCII letter case only; under `re.IGNORECASE` a pattern letter i, s or k can also be met by one of the non-ASCII characters above.
- `Normalization.SameNormalFormAnyText` and `Normalization.LicenseTextSameNormalForm` take as a premise that the matcher proposes nothing for the empty text. difflib's `get_close_matches` guarantees this at cutoff 0.7, because the empty text has similarity 0 to any non-empty key. `Normalization.BlankIsUnknown` takes the same premise. difflib is not part of this model.
- The rating labels are an enumeration; `Rating.Label` gives their text.
- Records are one datatype for all result dictionaries. A key a dictionary lacks is `None`; `error` is present only on failure records.
- `Dedup.KeyOf` assumes every record has a name. The source's `r.get("name")` could yield the key `None` for a record without one; all records the model builds have a name.
- `LicenseApi.FetchLicense`: its ensures does not name the license of a successful reply; `LicenseApi.SuccessRecord` and `LicenseApi.ChosenLicense` state it.
