/**
 * `fetch_license` and `check_imported_packages_licenses` of
 * `license_api.py`: resolve the package alias, ask Libraries.io, take the
 * first normalized license, else normalize the raw `licenses` field, else
 * normalize the first declared license, else ask PyPI; a failed request
 * gives an "Unknown" record carrying the reason.
 *
 * The names it imports are modelled by their definitions in
 * `normalization.py` (the normalizer) and `license_utils.py` (the rating
 * and the PyPI lookup). The registries are parameters: `registry` and
 * `pypi` give the reply for a queried name, `closeMatch` is the
 * normalizer's fuzzy matcher.
 */
module LicenseApi {
  import opened Wrappers
  import opened Strings
  import opened LicenseMap
  import opened Normalization
  import opened Rating
  import opened Records
  import opened Registry

  /** `normalize_license_text` applied to a JSON value: anything but a string raises inside it and gives "Unknown". */
  function NormalizeJson(j: Json, closeMatch: string -> Option<string>): (r: string)
    ensures r == "Unknown" || IsValueOf(NormalizationTable, r)
  {
    if j.Text? then NormalizeLicenseText(Some(j.s), closeMatch) else "Unknown"
  }

  /** The license after the first step: the normalized entry, else the raw field normalized. */
  function FirstChoice(p: Project, closeMatch: string -> Option<string>): (r: string)
    ensures r == "Unknown" || IsValueOf(NormalizationTable, r)
              || (UsesNormalized(p) && r == p.normalizedLicenses.items[0])
  {
    if UsesNormalized(p) then p.normalizedLicenses.items[0]
    else if Truthy(p.licenses) then NormalizeJson(p.licenses, closeMatch)
    else "Unknown"
  }

  /** The license after the declared-licenses step, taken only while it is still "Unknown". */
  function DeclaredChoice(p: Project, closeMatch: string -> Option<string>): (r: string)
    ensures r == "Unknown" || IsValueOf(NormalizationTable, r)
              || (UsesNormalized(p) && r == p.normalizedLicenses.items[0])
  {
    var first := FirstChoice(p, closeMatch);
    if first == "Unknown" && Truthy(p.declaredLicenses) && p.declaredLicenses.Items? then
      NormalizeLicenseText(Some(p.declaredLicenses.items[0]), closeMatch)
    else first
  }

  /** `fetch_license_from_pypi` of `license_utils.py`. */
  function PypiFallback(reply: PypiResponse, closeMatch: string -> Option<string>): (r: string)
    ensures r == "Unknown" || IsValueOf(NormalizationTable, r)
  {
    PypiLicense(reply, s => NormalizeLicenseText(Some(s), closeMatch))
  }

  /**
   * The license a 200 reply leads to; PyPI is asked, with the queried name,
   * only while still "Unknown". It is the first normalized entry verbatim,
   * or a canonical identifier of the normalization table, or "Unknown".
   */
  function ChosenLicense(p: Project, pypiReply: PypiResponse, closeMatch: string -> Option<string>): (r: string)
    ensures r == "Unknown" || IsValueOf(NormalizationTable, r)
              || (UsesNormalized(p) && r == p.normalizedLicenses.items[0])
  {
    var declared := DeclaredChoice(p, closeMatch);
    if declared == "Unknown" then PypiFallback(pypiReply, closeMatch) else declared
  }

  /** `fetch_license(package_name)`. */
  function FetchLicense(packageName: string, registry: string -> Response, pypi: string -> PypiResponse,
                        closeMatch: string -> Option<string>): (r: LicenseRecord)
    ensures r.name == packageName
    ensures r.version.None? && r.group.None? && r.artifact.None?
    ensures r.rating == RateLicense(r.license)
    ensures r.error.None? <==> registry(Alias(packageName)).Answered? && registry(Alias(packageName)).status == 200
    ensures r.error.Some? ==> r.license == UnknownLicense && r.rating == Risky
    ensures registry(Alias(packageName)).Answered? && registry(Alias(packageName)).status != 200 ==>
              r.error == Some("HTTP " + IntToString(registry(Alias(packageName)).status))
    ensures registry(Alias(packageName)).Raised? ==> r.error == Some(registry(Alias(packageName)).message)
  {
    var actual := Alias(packageName);
    match registry(actual)
    case Raised(message) => Failed(packageName, message)
    case Answered(status, project) =>
      if status == 200 then Plain(packageName, ChosenLicense(project, pypi(actual), closeMatch))
      else Failed(packageName, "HTTP " + IntToString(status))
  }

  /** One entry of `check_imported_packages_licenses`. */
  function PackageRecord(package: string, registry: string -> Response, pypi: string -> PypiResponse,
                         closeMatch: string -> Option<string>): LicenseRecord {
    var actual := Alias(package);
    if actual in StandardLibs then Plain(package, StandardLibs[actual])
    else FetchLicense(actual, registry, pypi, closeMatch).(name := package)
  }

  /** `check_imported_packages_licenses(imports)`. */
  method CheckImportedPackagesLicenses(imports: seq<string>, registry: string -> Response,
                                       pypi: string -> PypiResponse, closeMatch: string -> Option<string>)
    returns (results: seq<LicenseRecord>)
    ensures |results| == |imports|
    ensures forall i :: 0 <= i < |imports| ==> results[i] == PackageRecord(imports[i], registry, pypi, closeMatch)
  {
    ghost var lookup := p => PackageRecord(p, registry, pypi, closeMatch);
    results := [];
    for k := 0 to |imports|
      invariant results == Each(imports[..k], lookup)
    {
      var package := imports[k];
      var actual := Alias(package);
      var info;
      if actual in StandardLibs {
        var licenseName := StandardLibs[actual];
        info := Plain(package, licenseName);
      } else {
        info := FetchLicense(actual, registry, pypi, closeMatch);
        info := info.(name := package);
      }
      assert info == lookup(imports[k]);
      EachStep(imports, k, lookup);
      results := results + [info];
    }
    assert imports[..|imports|] == imports;
    EachIsPointwise(imports, lookup);
  }

  // ---------------------------------------------------------------------
  // Properties of the chain

  /** A usable normalized entry other than "Unknown" is taken verbatim and ends the chain. */
  lemma NormalizedTakenVerbatim(p: Project, pypiReply: PypiResponse, closeMatch: string -> Option<string>)
    requires UsesNormalized(p) && p.normalizedLicenses.items[0] != "Unknown"
    ensures ChosenLicense(p, pypiReply, closeMatch) == p.normalizedLicenses.items[0]
  {
  }

  /** A normalized list starting with "Other", empty, or not a list, hands over to the raw `licenses` field. */
  lemma RawFieldWhenNormalizedUnusable(p: Project, closeMatch: string -> Option<string>)
    requires !UsesNormalized(p)
    ensures FirstChoice(p, closeMatch) == (if Truthy(p.licenses) then NormalizeJson(p.licenses, closeMatch) else "Unknown")
  {
  }

  /** The declared licenses are not looked at once the first step found a license. */
  lemma DeclaredOnlyWhenUnknown(p: Project, declared: Json, closeMatch: string -> Option<string>)
    requires FirstChoice(p, closeMatch) != "Unknown"
    ensures DeclaredChoice(p.(declaredLicenses := declared), closeMatch) == FirstChoice(p, closeMatch)
  {
    assert FirstChoice(p.(declaredLicenses := declared), closeMatch) == FirstChoice(p, closeMatch);
  }

  /** PyPI is not looked at once the registry reply gave a license. */
  lemma PypiOnlyWhenUnknown(p: Project, a: PypiResponse, b: PypiResponse, closeMatch: string -> Option<string>)
    requires DeclaredChoice(p, closeMatch) != "Unknown"
    ensures ChosenLicense(p, a, closeMatch) == ChosenLicense(p, b, closeMatch) == DeclaredChoice(p, closeMatch)
  {
  }

  /**
   * Both registries are asked about the aliased name only: two
   * environments that agree on it give the same record.
   */
  lemma QueriesUseAlias(name: string, r1: string -> Response, r2: string -> Response,
                        p1: string -> PypiResponse, p2: string -> PypiResponse, closeMatch: string -> Option<string>)
    requires r1(Alias(name)) == r2(Alias(name)) && p1(Alias(name)) == p2(Alias(name))
    ensures FetchLicense(name, r1, p1, closeMatch) == FetchLicense(name, r2, p2, closeMatch)
  {
  }

  /** A successful reply gives an error-free record rated by its license, under the caller's name. */
  lemma SuccessRecord(name: string, registry: string -> Response, pypi: string -> PypiResponse,
                      closeMatch: string -> Option<string>)
    requires registry(Alias(name)).Answered? && registry(Alias(name)).status == 200
    ensures FetchLicense(name, registry, pypi, closeMatch)
            == Plain(name, ChosenLicense(registry(Alias(name)).project, pypi(Alias(name)), closeMatch))
  {
  }

  /** The status code is written back in decimal: different codes give different errors. */
  lemma StatusCodesDistinguished(name: string, r1: string -> Response, r2: string -> Response,
                                 pypi: string -> PypiResponse, closeMatch: string -> Option<string>)
    requires r1(Alias(name)).Answered? && r1(Alias(name)).status != 200
    requires r2(Alias(name)).Answered? && r2(Alias(name)).status != 200
    requires FetchLicense(name, r1, pypi, closeMatch).error == FetchLicense(name, r2, pypi, closeMatch).error
    ensures r1(Alias(name)).status == r2(Alias(name)).status
  {
    var e1 := IntToString(r1(Alias(name)).status);
    var e2 := IntToString(r2(Alias(name)).status);
    assert ("HTTP " + e1)[5..] == e1;
    assert ("HTTP " + e2)[5..] == e2;
    IntToStringInjective(r1(Alias(name)).status, r2(Alias(name)).status);
  }

  // ---------------------------------------------------------------------
  // Properties of the batch

  /** Every record carries the name as imported, whatever the alias. */
  lemma RecordKeepsImportedName(package: string, registry: string -> Response, pypi: string -> PypiResponse,
                                closeMatch: string -> Option<string>)
    ensures PackageRecord(package, registry, pypi, closeMatch).name == package
    ensures PackageRecord(package, registry, pypi, closeMatch).rating
            == RateLicense(PackageRecord(package, registry, pypi, closeMatch).license)
  {
  }

  /**
   * A standard-library module gets its pinned PSF license, rated Trusted,
   * without any registry being asked.
   */
  lemma StandardLibraryBypass(package: string, r1: string -> Response, r2: string -> Response,
                              p1: string -> PypiResponse, p2: string -> PypiResponse, closeMatch: string -> Option<string>)
    requires Alias(package) in StandardLibs
    ensures PackageRecord(package, r1, p1, closeMatch) == PackageRecord(package, r2, p2, closeMatch)
    ensures PackageRecord(package, r1, p1, closeMatch).license == "PSF-2.0"
    ensures PackageRecord(package, r1, p1, closeMatch).rating == Trusted
    ensures PackageRecord(package, r1, p1, closeMatch).error.None?
  {
    StandardLibsArePsf();
    PsfText();
    TrustedWins(CurrentKeywords, "PSF-2.0", 3);
  }

  /** Any other package is looked up once, under its alias, and only the name is replaced. */
  lemma OtherPackagesFetched(package: string, registry: string -> Response, pypi: string -> PypiResponse,
                             closeMatch: string -> Option<string>)
    requires Alias(package) !in StandardLibs
    ensures PackageRecord(package, registry, pypi, closeMatch)
            == FetchLicense(package, registry, pypi, closeMatch).(name := package)
  {
    AliasesResolve();
  }
}
