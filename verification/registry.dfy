/**
 * The replies of the two package registries, as far as the license chains
 * read them. The requests themselves are not modelled: each chain receives
 * the reply the registry gives for a package name.
 */
module Registry {
  import opened Wrappers
  import opened Strings

  /**
   * A JSON value as the chains inspect it: a string, a list of strings, or
   * any other value (null, a number, a boolean, an object), of which only
   * its truth value matters.
   */
  datatype Json = Text(s: string) | Items(items: seq<string>) | Scalar(truthy: bool)

  /** Python's truth value of a JSON value. */
  predicate Truthy(j: Json) {
    match j
    case Text(s) => s != []
    case Items(xs) => xs != []
    case Scalar(t) => t
  }

  /**
   * The three fields of a Libraries.io project that the chains read. An
   * absent field reads as `None` (or as the empty default list), that is
   * as `Scalar(false)`.
   */
  datatype Project = Project(normalizedLicenses: Json, licenses: Json, declaredLicenses: Json)

  /** True when the `normalized_licenses` field is a non-empty list whose first entry is not "Other". */
  predicate UsesNormalized(p: Project) {
    Truthy(p.normalizedLicenses) && p.normalizedLicenses.Items?
    && |p.normalizedLicenses.items| > 0 && p.normalizedLicenses.items[0] != "Other"
  }

  /**
   * The outcome of one Libraries.io request: an exception (from the
   * transport or from decoding the body) with its text, or a status code
   * and the decoded project.
   */
  datatype Response = Raised(message: string) | Answered(status: int, project: Project)

  /** The outcome of one PyPI request: an exception, or a status and the `info.license` field. */
  datatype PypiResponse = PypiRaised | PypiAnswered(status: int, license: Json)

  /**
   * `fetch_license_from_pypi`, over the reply and the normalizer of its
   * module: a 200 reply whose stripped license string is not empty gives
   * that string normalized; everything else, including a license that is
   * not a string (stripping it raises, which is caught), gives "Unknown".
   */
  function PypiLicense(reply: PypiResponse, normalize: string -> string): (r: string)
    ensures reply.PypiRaised? ==> r == "Unknown"
    ensures reply.PypiAnswered? && reply.status != 200 ==> r == "Unknown"
    ensures reply.PypiAnswered? && !reply.license.Text? ==> r == "Unknown"
    ensures r != "Unknown" ==>
              reply.PypiAnswered? && reply.license.Text? && r == normalize(Strip(reply.license.s))
  {
    match reply
    case PypiRaised => "Unknown"
    case PypiAnswered(status, license) =>
      if status == 200 && license.Text? && Strip(license.s) != [] then normalize(Strip(license.s))
      else "Unknown"
  }

  /** Padding around the PyPI license string is removed before the normalizer sees it. */
  lemma PypiStripsPadding(s: string, normalize: string -> string)
    requires Strip(s) != []
    ensures PypiLicense(PypiAnswered(200, Text(s)), normalize) == normalize(Strip(s))
    ensures PypiLicense(PypiAnswered(200, Text(Strip(s))), normalize) == normalize(Strip(s))
  {
    StripIdempotent(s);
  }

  /** A blank license string gives "Unknown" without consulting the normalizer. */
  lemma PypiBlankIsUnknown(s: string, normalize: string -> string)
    requires Strip(s) == []
    ensures PypiLicense(PypiAnswered(200, Text(s)), normalize) == "Unknown"
  {
  }
}
