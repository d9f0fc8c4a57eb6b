/**
 * The older `fetch_license` and `check_imported_packages_licenses` of
 * `checker/license_api.py`: no alias, no declared-licenses step, the
 * regular-expression normalizer and the older rating lists of
 * `checker/helpers.py`. The registries are parameters, as in `LicenseApi`.
 */
module CheckerLicenseApi {
  import opened Wrappers
  import opened Strings
  import opened Rating
  import opened Records
  import opened Registry
  import opened SpdxPatterns

  /**
   * The text of the `TypeError` the regular-expression search raises when
   * the raw `licenses` field is not a string; the record reports it.
   */
  const NotAStringError := "expected string or bytes-like object"

  /** The record of a failed lookup under the older rating. */
  function LegacyFailed(name: string, reason: string): (r: LicenseRecord)
    ensures r.license == UnknownLicense && r.rating == Risky && r.error == Some(reason)
  {
    SentinelTexts();
    NoTrustedLetters(UnknownLicense);
    NoCautionLetters(UnknownLicense);
    SentinelsAreRisky(UnknownLicense);
    LicenseRecord(name, None, UnknownLicense, LegacyRateLicense(UnknownLicense), Some(reason), None, None)
  }

  /** A text the regular-expression normalizer can give: no space and no lower-case letter. */
  predicate CanonicalForm(s: string) {
    ' ' !in s && forall k :: 0 <= k < |s| ==> !('a' <= s[k] <= 'z')
  }

  /**
   * The license after the first step, or `None` when normalizing a raw
   * field that is not a string raises.
   */
  function LegacyFirstChoice(p: Project): (r: Option<string>)
    ensures r.None? <==> !UsesNormalized(p) && Truthy(p.licenses) && !p.licenses.Text?
    ensures r.Some? && !UsesNormalized(p) ==> r.value == UnknownLicense || CanonicalForm(r.value)
  {
    if UsesNormalized(p) then Some(p.normalizedLicenses.items[0])
    else if Truthy(p.licenses) then
      if p.licenses.Text? then Some(NormalizeBySpdxPatterns(p.licenses.s)) else None
    else Some(UnknownLicense)
  }

  /** `fetch_license_from_pypi` of `checker/helpers.py`. */
  function LegacyPypiFallback(reply: PypiResponse): (r: string)
    ensures r == UnknownLicense || CanonicalForm(r)
  {
    PypiLicense(reply, NormalizeBySpdxPatterns)
  }

  /** `fetch_license(package_name)` of `checker/license_api.py`. */
  function LegacyFetchLicense(packageName: string, registry: string -> Response, pypi: string -> PypiResponse)
    : (r: LicenseRecord)
    ensures r.name == packageName
    ensures r.version.None? && r.group.None? && r.artifact.None?
    ensures r.rating == LegacyRateLicense(r.license)
    ensures r.error.Some? ==> r.license == UnknownLicense && r.rating == Risky
    ensures r.error.None? <==>
              registry(packageName).Answered? && registry(packageName).status == 200
              && LegacyFirstChoice(registry(packageName).project).Some?
    ensures registry(packageName).Answered? && registry(packageName).status != 200 ==>
              r.error == Some("HTTP " + IntToString(registry(packageName).status))
    ensures registry(packageName).Raised? ==> r.error == Some(registry(packageName).message)
  {
    match registry(packageName)
    case Raised(message) => LegacyFailed(packageName, message)
    case Answered(status, project) =>
      if status == 200 then
        match LegacyFirstChoice(project)
        case None => LegacyFailed(packageName, NotAStringError)
        case Some(first) =>
          var licenseName := if first == UnknownLicense then LegacyPypiFallback(pypi(packageName)) else first;
          LicenseRecord(packageName, None, licenseName, LegacyRateLicense(licenseName), None, None, None)
      else LegacyFailed(packageName, "HTTP " + IntToString(status))
  }

  /** `check_imported_packages_licenses(imports)` of `checker/license_api.py`. */
  method LegacyCheckImportedPackagesLicenses(imports: seq<string>, registry: string -> Response,
                                             pypi: string -> PypiResponse)
    returns (results: seq<LicenseRecord>)
    ensures |results| == |imports|
    ensures forall i :: 0 <= i < |imports| ==> results[i] == LegacyFetchLicense(imports[i], registry, pypi)
  {
    ghost var lookup := p => LegacyFetchLicense(p, registry, pypi);
    results := [];
    for k := 0 to |imports|
      invariant results == Each(imports[..k], lookup)
    {
      var info := LegacyFetchLicense(imports[k], registry, pypi);
      assert info == lookup(imports[k]);
      EachStep(imports, k, lookup);
      results := results + [info];
    }
    assert imports[..|imports|] == imports;
    EachIsPointwise(imports, lookup);
  }

  // ---------------------------------------------------------------------
  // Properties

  /**
   * Where a successful license comes from: the first normalized entry
   * verbatim, or a text in the normalizer's canonical form, or "Unknown".
   */
  lemma LegacyLicenseOrigin(name: string, registry: string -> Response, pypi: string -> PypiResponse)
    requires registry(name).Answered?
    ensures var r := LegacyFetchLicense(name, registry, pypi);
            r.license == UnknownLicense || CanonicalForm(r.license)
            || (UsesNormalized(registry(name).project) && r.license == registry(name).project.normalizedLicenses.items[0])
  {
  }

  /** There is no declared-licenses step: replies that differ only in that field give the same record. */
  lemma DeclaredIgnored(name: string, r1: string -> Response, r2: string -> Response, pypi: string -> PypiResponse)
    requires r1(name).Answered? && r2(name).Answered? && r1(name).status == r2(name).status
    requires r2(name).project == r1(name).project.(declaredLicenses := r2(name).project.declaredLicenses)
    ensures LegacyFetchLicense(name, r1, pypi) == LegacyFetchLicense(name, r2, pypi)
  {
    assert LegacyFirstChoice(r1(name).project) == LegacyFirstChoice(r2(name).project);
  }

  /** The registries are asked about the name as given, with no alias: only their replies for it matter. */
  lemma QueriesUseGivenName(name: string, r1: string -> Response, r2: string -> Response,
                            p1: string -> PypiResponse, p2: string -> PypiResponse)
    requires r1(name) == r2(name) && p1(name) == p2(name)
    ensures LegacyFetchLicense(name, r1, p1) == LegacyFetchLicense(name, r2, p2)
  {
  }

  /** PyPI is asked only while the first step left the license "Unknown". */
  lemma LegacyPypiOnlyWhenUnknown(name: string, registry: string -> Response, p1: string -> PypiResponse,
                                  p2: string -> PypiResponse)
    requires registry(name).Answered? && registry(name).status == 200
    requires LegacyFirstChoice(registry(name).project) != Some(UnknownLicense)
    ensures LegacyFetchLicense(name, registry, p1) == LegacyFetchLicense(name, registry, p2)
  {
  }

  /** A raw `licenses` field that is not a string ends in the exception record, not in "Unknown" without error. */
  lemma NonStringRawFieldFails(name: string, registry: string -> Response, pypi: string -> PypiResponse)
    requires registry(name).Answered? && registry(name).status == 200
    requires !UsesNormalized(registry(name).project)
    requires Truthy(registry(name).project.licenses) && !registry(name).project.licenses.Text?
    ensures LegacyFetchLicense(name, registry, pypi).error == Some(NotAStringError)
  {
  }
}
