/**
 * The Java side of `helpers.py`: the import prefixes a source text
 * declares (`extract_java_imports` on text content), the alias they
 * resolve to (`find_java_alias_for_import`) and the record built for each
 * (`check_java_import_file`).
 */
module JavaImports {
  import opened Wrappers
  import opened Strings
  import opened JavaAliases
  import opened Rating
  import opened Records

  // ---------------------------------------------------------------------
  // Import extraction

  /** After stripping, the line starts with "import " and ends with ";". */
  predicate IsImportLine(line: string) {
    var t := Strip(line);
    "import " <= t && EndsWith(t, ";")
  }

  /** What an import line imports: the text after "import ", without trailing semicolons, stripped. */
  function ImportedName(line: string): string
    requires IsImportLine(line)
  {
    Strip(RStripChar(Strip(line)[7..], ';'))
  }

  /**
   * The import prefix one line contributes: the first three dot-separated
   * segments of an imported name with at least two segments.
   */
  function ImportOfLine(line: string): (r: Option<string>)
    ensures r.Some? <==> IsImportLine(line) && '.' in ImportedName(line)
    ensures r.Some? ==> r.value <= ImportedName(line) && multiset(r.value)['.'] < 3
  {
    if IsImportLine(line) then
      var name := ImportedName(line);
      SplitCount(name, '.');
      FirstSegmentsPrefix(name, '.', 3);
      if |SplitOn(name, '.')| >= 2 then Some(FirstSegments(name, '.', 3)) else None
    else None
  }

  /** The prefixes one line adds to the set: none or one. */
  function Added(line: string): set<string> {
    match ImportOfLine(line)
    case Some(x) => {x}
    case None => {}
  }

  /** An import line whose name holds a dot contributes the first three segments of that name. */
  lemma PrefixOfImportLine(line: string)
    requires IsImportLine(line) && '.' in ImportedName(line)
    ensures ImportOfLine(line) == Some(FirstSegments(ImportedName(line), '.', 3))
  {
  }

  /** The set of import prefixes the lines contribute. */
  function ImportsOf(lines: seq<string>): (found: set<string>)
    ensures forall x :: x in found <==> exists l :: l in lines && ImportOfLine(l) == Some(x)
  {
    if lines == [] then {}
    else
      var before := ImportsOf(lines[..|lines| - 1]);
      assert forall l :: l in lines <==> l in lines[..|lines| - 1] || l == lines[|lines| - 1];
      before + Added(lines[|lines| - 1])
  }

  /**
   * `extract_java_imports` on text: collects the prefixes line by line into
   * a set, then returns them sorted.
   */
  method ExtractJavaImports(content: string) returns (imports: seq<string>)
    ensures StrictlySorted(imports)
    ensures forall x :: x in imports <==> exists l :: l in SplitLines(content) && ImportOfLine(l) == Some(x)
    ensures imports == SortedOf(ImportsOf(SplitLines(content)))
  {
    var lines := SplitLines(content);
    var found: set<string> := {};
    var i := 0;
    while i < |lines|
      invariant i <= |lines|
      invariant found == ImportsOf(lines[..i])
    {
      assert lines[..i + 1][..i] == lines[..i];
      found := found + Added(lines[i]);
      i := i + 1;
    }
    assert lines[..i] == lines;
    imports := SortedList(found);
  }

  /** The first `n` segments end just before the `n`-th separator. */
  lemma {:induction false} FirstSegmentsStop(a: string, b: string, c: char, n: nat)
    requires n >= 1 && multiset(a)[c] == n - 1
    ensures FirstSegments(a + [c] + b, c, n) == a
    decreases |a|
  {
    var s := a + [c] + b;
    if a == [] {
      assert s[0] == c;
      assert SplitOn(s, c)[..1] == [[]];
    } else {
      assert a == [a[0]] + a[1..];
      assert s[1..] == a[1..] + [c] + b;
      if a[0] == c {
        FirstSegmentsStop(a[1..], b, c, n - 1);
        FirstSegmentsAtSeparator(s, c, n);
      } else {
        FirstSegmentsStop(a[1..], b, c, n);
        FirstSegmentsAtOther(s, c, n);
      }
    }
  }

  // ---------------------------------------------------------------------
  // Alias lookup

  /**
   * The entry `max(candidates, key=len)` picks among the entries from `i`
   * on whose key starts `imp`: a longest one, and the first of the longest
   * in table order.
   */
  function LongestPrefixFrom(table: seq<(string, Coordinates)>, imp: string, i: nat): (r: Option<nat>)
    requires i <= |table|
    ensures r.None? <==> forall j :: i <= j < |table| ==> !(table[j].0 <= imp)
    ensures r.Some? ==> i <= r.value < |table| && table[r.value].0 <= imp
    ensures r.Some? ==> forall j :: i <= j < |table| && table[j].0 <= imp ==> |table[j].0| <= |table[r.value].0|
    ensures r.Some? ==> forall j :: i <= j < r.value && table[j].0 <= imp ==> |table[j].0| < |table[r.value].0|
    decreases |table| - i
  {
    if i == |table| then None
    else
      var rest := LongestPrefixFrom(table, imp, i + 1);
      if table[i].0 <= imp && (rest.None? || |table[i].0| >= |table[rest.value].0|) then Some(i)
      else rest
  }

  /** The coordinates of the longest key of `table` that starts `imp`, if any key does. */
  function FindAliasIn(table: seq<(string, Coordinates)>, imp: string): Option<Coordinates> {
    match LongestPrefixFrom(table, imp, 0)
    case Some(j) => Some(table[j].1)
    case None => None
  }

  /** `find_java_alias_for_import`; `None` stands for the pair `(None, None)`. */
  function FindJavaAlias(imp: string): Option<Coordinates> {
    FindAliasIn(ImportAliases, imp)
  }

  /**
   * A key equal to the whole import wins over every shorter key that
   * starts it, as long as no earlier key equals the import too.
   */
  lemma ExactKeyWins(table: seq<(string, Coordinates)>, imp: string, k: nat)
    requires k < |table| && table[k].0 == imp
    requires forall j :: 0 <= j < k ==> table[j].0 != imp
    ensures FindAliasIn(table, imp) == Some(table[k].1)
  {
    var r := LongestPrefixFrom(table, imp, 0);
    assert table[k].0 <= imp;
    var w := r.value;
    assert table[w].0 <= imp && |table[w].0| >= |imp|;
    assert table[w].0 == imp;
  }

  /**
   * An import prefix never holds three dots, so a key with three or more
   * dots never starts one.
   */
  lemma DeepKeyNeverMatches(line: string, key: string)
    requires ImportOfLine(line).Some? && multiset(key)['.'] >= 3
    ensures !(key <= ImportOfLine(line).value)
  {
    if key <= ImportOfLine(line).value {
      CountInPrefix(key, ImportOfLine(line).value, '.');
    }
  }

  /** The only entry whose coordinates are commons-io is the key "org.apache.commons.io". */
  lemma CommonsIoOnlyAtDeepKey(e: (string, Coordinates))
    requires e in ImportAliases && e.1 == ("org.apache.commons", "commons-io")
    ensures e.0 == "org.apache.commons.io"
  {
    EntriesBySection(e);
  }

  /** Four dot-free segments joined by dots hold exactly three dots. */
  lemma ThreeDots(a: string, b: string, c: string, d: string)
    requires '.' !in a && '.' !in b && '.' !in c && '.' !in d
    ensures multiset(a + "." + b + "." + c + "." + d)['.'] == 3
  {
    assert multiset(a + "." + b + "." + c + "." + d)
        == multiset(a) + multiset(".") + multiset(b) + multiset(".") + multiset(c) + multiset(".") + multiset(d);
  }

  lemma CommonsIoSegments()
    ensures '.' !in "org" && '.' !in "apache" && '.' !in "commons" && '.' !in "io"
    ensures "org" + "." + "apache" + "." + "commons" + "." + "io" == "org.apache.commons.io"
  {
  }

  lemma CommonsIoKeyDots()
    ensures multiset("org.apache.commons.io")['.'] == 3
  {
    CommonsIoSegments();
    ThreeDots("org", "apache", "commons", "io");
  }

  /** No import line resolves to commons-io, although the table lists it. */
  lemma CommonsIoNeverResolved(line: string)
    requires ImportOfLine(line).Some?
    ensures FindJavaAlias(ImportOfLine(line).value) != Some(("org.apache.commons", "commons-io"))
  {
    var imp := ImportOfLine(line).value;
    var r := LongestPrefixFrom(ImportAliases, imp, 0);
    if r.Some? && ImportAliases[r.value].1 == ("org.apache.commons", "commons-io") {
      CommonsIoOnlyAtDeepKey(ImportAliases[r.value]);
      CommonsIoKeyDots();
      DeepKeyNeverMatches(line, ImportAliases[r.value].0);
    }
  }

  // ---------------------------------------------------------------------
  // Records per import

  /**
   * The record `check_java_import_file` builds for one import; the license
   * lookup for resolved coordinates at version "latest" is a parameter.
   */
  function ImportRecord(imp: string, fetchJavaLicense: (string, string) -> string): LicenseRecord {
    var alias := FindJavaAlias(imp);
    if alias.None? || alias.value.0 == "" || alias.value.1 == "" then
      LicenseRecord(imp, Some("?"), UnknownLicense, RateLicense(UnknownLicense), None, None, None)
    else
      var license := fetchJavaLicense(alias.value.0, alias.value.1);
      LicenseRecord(CoordinateKey(alias.value), Some("latest"), license, RateLicense(license), None, None, None)
  }

  /**
   * An import record is rated by its own license and has no error; an
   * unresolved import gets version "?", license "Unknown" and the Risky
   * rating; a resolved one is named `group:artifact`, has version "latest"
   * and the license the lookup reports.
   */
  lemma ImportRecordFacts(imp: string, fetchJavaLicense: (string, string) -> string)
    ensures var r := ImportRecord(imp, fetchJavaLicense);
      && r.rating == RateLicense(r.license) && r.error.None? && r.group.None? && r.artifact.None?
      && (FindJavaAlias(imp).None? ==>
            r.name == imp && r.version == Some("?") && r.license == UnknownLicense && r.rating == Risky)
      && (r.version == Some("latest") <==>
            FindJavaAlias(imp).Some? && FindJavaAlias(imp).value.0 != "" && FindJavaAlias(imp).value.1 != "")
      && (r.version == Some("latest") ==>
            r.name == CoordinateKey(FindJavaAlias(imp).value)
            && r.license == fetchJavaLicense(FindJavaAlias(imp).value.0, FindJavaAlias(imp).value.1))
  {
    UnknownIsRisky();
  }

  /** The loop of `check_java_import_file`: one record per import, in order. */
  method RecordsFor(imports: seq<string>, fetchJavaLicense: (string, string) -> string)
    returns (results: seq<LicenseRecord>)
    ensures |results| == |imports|
    ensures forall i :: 0 <= i < |results| ==> results[i] == ImportRecord(imports[i], fetchJavaLicense)
  {
    results := [];
    var i := 0;
    while i < |imports|
      invariant i <= |imports|
      invariant |results| == i
      invariant forall k :: 0 <= k < i ==> results[k] == ImportRecord(imports[k], fetchJavaLicense)
    {
      results := results + [ImportRecord(imports[i], fetchJavaLicense)];
      i := i + 1;
    }
  }

  /**
   * `check_java_import_file` on text content: one record per extracted
   * import, in the sorted order of the imports.
   */
  method CheckJavaImportFile(content: string, fetchJavaLicense: (string, string) -> string)
    returns (results: seq<LicenseRecord>)
    ensures |results| == |SortedOf(ImportsOf(SplitLines(content)))|
    ensures forall i :: 0 <= i < |results| ==>
              results[i] == ImportRecord(SortedOf(ImportsOf(SplitLines(content)))[i], fetchJavaLicense)
  {
    var imports := ExtractJavaImports(content);
    results := RecordsFor(imports, fetchJavaLicense);
  }

  /** Every entry of the table names a non-empty group and artifact. */
  lemma CoordinatesNonEmpty(j: nat)
    requires j < |ImportAliases|
    ensures ImportAliases[j].1.0 != "" && ImportAliases[j].1.1 != ""
  {
    EntriesBySection(ImportAliases[j]);
  }

  /** With this table an import is unresolved exactly when no key starts it. */
  lemma UnresolvedExactlyWithoutKey(imp: string, fetchJavaLicense: (string, string) -> string)
    ensures ImportRecord(imp, fetchJavaLicense).version == Some("?") <==>
              forall j :: 0 <= j < |ImportAliases| ==> !(ImportAliases[j].0 <= imp)
  {
    var r := LongestPrefixFrom(ImportAliases, imp, 0);
    if r.Some? {
      CoordinatesNonEmpty(r.value);
    }
  }

  // ---------------------------------------------------------------------
  // Worked lines

  /** A line "import <name>;" imports `name` when `name` is trimmed and does not end in ';'. */
  lemma ImportedNameOf(name: string)
    requires name != [] && !IsSpace(name[0]) && !IsSpace(name[|name| - 1]) && name[|name| - 1] != ';'
    ensures IsImportLine("import " + name + ";")
    ensures ImportedName("import " + name + ";") == name
  {
    var line := "import " + name + ";";
    ImportLineShape(name);
    LineTrimmed(name);
    StripKeepsTrimmed(line);
    RStripOne(name);
    StripKeepsTrimmed(name);
  }

  lemma ImportLineShape(name: string)
    ensures "import " <= "import " + name + ";"
    ensures ("import " + name + ";")[7..] == name + ";"
    ensures EndsWith("import " + name + ";", ";")
  {
    var line := "import " + name + ";";
    assert line == "import " + (name + ";");
  }

  lemma LineTrimmed(name: string)
    ensures Trimmed("import " + name + ";")
  {
    var line := "import " + name + ";";
    assert line[0] == 'i';
    assert line[|line| - 1] == ';';
  }

  lemma RStripOne(name: string)
    requires name != [] && name[|name| - 1] != ';'
    ensures RStripChar(name + ";", ';') == name
  {
    assert (name + ";")[..|name|] == name;
  }

  /** Three dot-free segments joined by dots hold exactly two dots. */
  lemma TwoDots(a: string, b: string, c: string)
    requires '.' !in a && '.' !in b && '.' !in c
    ensures multiset(a + "." + b + "." + c)['.'] == 2
  {
    assert multiset(a + "." + b + "." + c) == multiset(a) + multiset(".") + multiset(b) + multiset(".") + multiset(c);
  }

  lemma FileUtilsSegments()
    ensures '.' !in "org" && '.' !in "apache" && '.' !in "commons"
    ensures "org" + "." + "apache" + "." + "commons" == "org.apache.commons"
  {
  }

  lemma FileUtilsSplit()
    ensures "org.apache.commons" + ['.'] + "io.FileUtils" == "org.apache.commons.io.FileUtils"
    ensures '.' in "org.apache.commons.io.FileUtils"
  {
    assert "org.apache.commons.io.FileUtils"[3] == '.';
  }

  lemma FileUtilsWrapped()
    ensures "import " + "org.apache.commons.io.FileUtils" + ";" == "import org.apache.commons.io.FileUtils;"
  {
  }

  /** The line "import org.apache.commons.io.FileUtils;" declares the prefix "org.apache.commons". */
  lemma FileUtilsLine(line: string)
    requires line == "import org.apache.commons.io.FileUtils;"
    ensures ImportOfLine(line) == Some("org.apache.commons")
  {
    var name := "org.apache.commons.io.FileUtils";
    FileUtilsSegments();
    FileUtilsSplit();
    FileUtilsWrapped();
    ImportedNameOf(name);
    PrefixOfImportLine(line);
    TwoDots("org", "apache", "commons");
    FirstSegmentsStop("org.apache.commons", "io.FileUtils", '.', 3);
  }

  /** The first four sections open the alias table. */
  lemma FrontSections()
    ensures ImportAliases[..16] == JsonAliases + CommonsAliases + LoggingAliases + TestingAliases
  {
  }

  /** The prefix "org.apache.commons" resolves to commons-lang3. */
  lemma CommonsResolvesToLang3()
    ensures FindJavaAlias("org.apache.commons") == Some(("org.apache.commons", "commons-lang3"))
  {
    FrontSections();
    var front := ImportAliases[..16];
    assert ImportAliases[4] == front[4] == CommonsAliases[1];
    forall j | 0 <= j < 4
      ensures ImportAliases[j].0 != "org.apache.commons"
    {
      assert ImportAliases[j] == front[j];
    }
    ExactKeyWins(ImportAliases, "org.apache.commons", 4);
  }

  /**
   * The import at line 2 of the sample Java file resolves to commons-lang3,
   * not to the commons-io its package names.
   */
  lemma FileUtilsResolvesToLang3(line: string)
    requires line == "import org.apache.commons.io.FileUtils;"
    ensures ImportOfLine(line) == Some("org.apache.commons")
    ensures FindJavaAlias("org.apache.commons") == Some(("org.apache.commons", "commons-lang3"))
  {
    FileUtilsLine(line);
    CommonsResolvesToLang3();
  }

  /**
   * "org.junit.jupiter" resolves to the JUnit 5 API although the shorter key
   * "org.junit", which also starts it, comes first.
   */
  lemma JupiterBeatsJunit()
    ensures ImportAliases[13].0 <= "org.junit.jupiter"
    ensures FindJavaAlias("org.junit.jupiter") == Some(("org.junit.jupiter", "junit-jupiter-api"))
    ensures FindJavaAlias("org.junit.jupiter") != Some(ImportAliases[13].1)
  {
    FrontSections();
    var front := ImportAliases[..16];
    assert ImportAliases[13] == front[13] == TestingAliases[0];
    assert ImportAliases[14] == front[14] == TestingAliases[1];
    forall j | 0 <= j < 14
      ensures ImportAliases[j].0 != "org.junit.jupiter"
    {
      assert ImportAliases[j] == front[j];
    }
    ExactKeyWins(ImportAliases, "org.junit.jupiter", 14);
  }
}
