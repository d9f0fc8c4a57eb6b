/**
 * The result dictionaries the checker builds for each package or import,
 * as one record type. A key the source leaves out of a dictionary is
 * `None` here (`version`, `error`, `group`, `artifact`).
 */
module Records {
  import opened Wrappers
  import opened Rating

  datatype LicenseRecord = LicenseRecord(
    name: string,
    version: Option<string>,
    license: string,
    rating: Rating,
    error: Option<string>,
    group: Option<string>,
    artifact: Option<string>)

  /** The license text every failure path reports. */
  const UnknownLicense := "Unknown"

  /** A record that carries only a name, a license and its rating. */
  function Plain(name: string, license: string): LicenseRecord {
    LicenseRecord(name, None, license, RateLicense(license), None, None, None)
  }

  /** The record of a failed lookup: license "Unknown", its rating, and the reason. */
  function Failed(name: string, reason: string): (r: LicenseRecord)
    ensures r.rating == Risky
  {
    UnknownIsRisky();
    LicenseRecord(name, None, UnknownLicense, RateLicense(UnknownLicense), Some(reason), None, None)
  }

  /** "Unknown" is rated Risky, not given the default label. */
  lemma UnknownIsRisky()
    ensures RateLicense(UnknownLicense) == Risky
  {
    SentinelTexts();
    NoTrustedLetters(UnknownLicense);
    NoCautionLetters(UnknownLicense);
    SentinelsAreRisky(UnknownLicense);
  }

  /** The records of a batch that looks every name up on its own, in order. */
  function Each(names: seq<string>, lookup: string -> LicenseRecord): seq<LicenseRecord> {
    if names == [] then []
    else Each(names[..|names| - 1], lookup) + [lookup(names[|names| - 1])]
  }

  /** Looking up one more name appends its record. */
  lemma EachStep(names: seq<string>, k: nat, lookup: string -> LicenseRecord)
    requires k < |names|
    ensures Each(names[..k + 1], lookup) == Each(names[..k], lookup) + [lookup(names[k])]
  {
    assert names[..k + 1][..k] == names[..k];
  }

  /** One record per name, in order, each that name's own lookup. */
  lemma {:induction false} EachIsPointwise(names: seq<string>, lookup: string -> LicenseRecord)
    ensures |Each(names, lookup)| == |names|
    ensures forall i :: 0 <= i < |names| ==> Each(names, lookup)[i] == lookup(names[i])
  {
    if names != [] {
      var init := names[..|names| - 1];
      EachIsPointwise(init, lookup);
      assert forall i :: 0 <= i < |init| ==> names[i] == init[i];
    }
  }
}
