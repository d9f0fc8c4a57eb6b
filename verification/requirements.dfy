/**
 * `parse_requirements_text` of `checker/parser.py` (the same function is
 * repeated in `helpers.py`): every line is stripped; blank lines and lines
 * starting with '#' are skipped; every other line gives the text before
 * the first "==", then before the first ">=", then before the first "<=".
 * The file is given as its sequence of lines.
 */
module Requirements {
  import opened Strings

  /** After stripping, the line is empty or a comment. */
  predicate Skipped(line: string) {
    var t := Strip(line);
    t == [] || t[0] == '#'
  }

  /** The package name one line gives: its stripped text cut at "==", ">=" and "<=" in turn. */
  function PackageOf(line: string): (pkg: string)
    ensures pkg == CutAt(CutAt(CutAt(Strip(line), "=="), ">="), "<=")
    ensures pkg <= Strip(line)
    ensures !Contains(pkg, "==") && !Contains(pkg, ">=") && !Contains(pkg, "<=")
  {
    var t := Strip(line);
    var a := CutAt(t, "==");
    var b := CutAt(a, ">=");
    var c := CutAt(b, "<=");
    AbsentFromPrefix(b, a, "==");
    AbsentFromPrefix(c, a, "==");
    AbsentFromPrefix(c, b, ">=");
    c
  }

  /** A text that lacks a needle lacks it in every prefix too. */
  lemma AbsentFromPrefix(p: string, s: string, needle: string)
    requires p <= s && !Contains(s, needle)
    ensures !Contains(p, needle)
  {
    if Contains(p, needle) {
      ContainsInPrefix(p, s, needle);
    }
  }

  /** What one line adds to the result. */
  function EntryOf(line: string): seq<string> {
    if Skipped(line) then [] else [PackageOf(line)]
  }

  /** The entries a sequence of lines gives, line by line, under the rule `entry`. */
  function Collect(lines: seq<string>, entry: string -> seq<string>): seq<string> {
    if lines == [] then [] else Collect(lines[..|lines| - 1], entry) + entry(lines[|lines| - 1])
  }

  /** The result for a sequence of lines. */
  function Entries(lines: seq<string>): seq<string> {
    Collect(lines, EntryOf)
  }

  /** `parse_requirements_text` over the lines of the file. */
  method ParseRequirementsText(lines: seq<string>) returns (packages: seq<string>)
    ensures packages == Entries(lines)
  {
    packages := [];
    var i := 0;
    while i < |lines|
      invariant i <= |lines|
      invariant packages == Entries(lines[..i])
    {
      EntriesStep(lines, i);
      var line := Strip(lines[i]);
      if line != [] && line[0] != '#' {
        var pkg := CutAt(CutAt(CutAt(line, "=="), ">="), "<=");
        assert EntryOf(lines[i]) == [pkg];
        packages := packages + [pkg];
      } else {
        assert Skipped(lines[i]);
      }
      i := i + 1;
    }
    assert lines[..i] == lines;
  }

  // ---------------------------------------------------------------------
  // Properties

  /** One more line read. */
  lemma EntriesStep(lines: seq<string>, i: nat)
    requires i < |lines|
    ensures Entries(lines[..i + 1]) == Entries(lines[..i]) + EntryOf(lines[i])
  {
    assert lines[..i + 1][..i] == lines[..i];
  }

  /** The lines are read one after the other: the result of a concatenation is the concatenation of the results. */
  lemma EntriesAppend(a: seq<string>, b: seq<string>)
    ensures Entries(a + b) == Entries(a) + Entries(b)
  {
    CollectAppend(a, b, EntryOf);
  }

  lemma {:induction false} CollectAppend(a: seq<string>, b: seq<string>, entry: string -> seq<string>)
    ensures Collect(a + b, entry) == Collect(a, entry) + Collect(b, entry)
    decreases |b|
  {
    if b == [] {
      assert a + b == a;
    } else {
      var init := b[..|b| - 1];
      var last := b[|b| - 1];
      assert (a + b)[..|a + b| - 1] == a + init;
      assert (a + b)[|a + b| - 1] == last;
      CollectAppend(a, init, entry);
    }
  }

  /** When no line is blank or a comment, each line gives its own entry, in order. */
  lemma {:induction false} NothingSkipped(lines: seq<string>)
    requires forall i :: 0 <= i < |lines| ==> !Skipped(lines[i])
    ensures |Entries(lines)| == |lines|
    ensures forall i :: 0 <= i < |lines| ==> Entries(lines)[i] == PackageOf(lines[i])
    decreases |lines|
  {
    if lines != [] {
      var init := lines[..|lines| - 1];
      var last := lines[|lines| - 1];
      NothingSkipped(init);
      assert !Skipped(last);
      assert Entries(lines) == Entries(init) + [PackageOf(last)];
      forall i | 0 <= i < |lines|
        ensures Entries(lines)[i] == PackageOf(lines[i])
      {
        if i < |init| {
          assert lines[i] == init[i];
          assert Entries(lines)[i] == Entries(init)[i];
        } else {
          assert i == |lines| - 1;
          assert Entries(lines)[i] == PackageOf(last);
        }
      }
    }
  }

  /** Blank lines and comments give nothing. */
  lemma {:induction false} AllSkipped(lines: seq<string>)
    requires forall i :: 0 <= i < |lines| ==> Skipped(lines[i])
    ensures Entries(lines) == []
    decreases |lines|
  {
    if lines != [] {
      var init := lines[..|lines| - 1];
      assert forall i :: 0 <= i < |init| ==> init[i] == lines[i];
      AllSkipped(init);
    }
  }

  /** Every entry comes from a line that is neither blank nor a comment. */
  lemma {:induction false} EntriesComeFromLines(lines: seq<string>)
    ensures forall p :: p in Entries(lines) ==> exists line :: line in lines && !Skipped(line) && p == PackageOf(line)
    decreases |lines|
  {
    if lines != [] {
      var init := lines[..|lines| - 1];
      var last := lines[|lines| - 1];
      EntriesComeFromLines(init);
      forall p | p in Entries(lines)
        ensures exists line :: line in lines && !Skipped(line) && p == PackageOf(line)
      {
        assert Entries(lines) == Entries(init) + EntryOf(last);
        if p in EntryOf(last) {
          assert last in lines;
        } else {
          assert p in Entries(init);
          var line :| line in init && !Skipped(line) && p == PackageOf(line);
          assert line in lines;
        }
      }
    }
  }

  /** Every entry is a prefix of its stripped line and contains none of the three specifiers. */
  lemma EntriesAreCutLines(lines: seq<string>)
    ensures forall p :: p in Entries(lines) ==>
              (exists line :: line in lines && !Skipped(line) && p <= Strip(line))
              && !Contains(p, "==") && !Contains(p, ">=") && !Contains(p, "<=")
  {
    EntriesComeFromLines(lines);
  }

  /** A line without "==", ">=" and "<=" gives its whole stripped text: other specifiers such as "~=" or "!=" stay. */
  lemma OtherSpecifiersKept(line: string)
    requires !Contains(Strip(line), "==") && !Contains(Strip(line), ">=") && !Contains(Strip(line), "<=")
    ensures PackageOf(line) == Strip(line)
  {
    var t := Strip(line);
    CutAtAbsent(t, "==");
    CutAtAbsent(t, ">=");
    CutAtAbsent(t, "<=");
  }

  /** Stripping first makes the result blind to surrounding white space. */
  lemma PaddingIgnored(pre: string, line: string, post: string)
    requires forall i :: 0 <= i < |pre| ==> IsSpace(pre[i])
    requires forall i :: 0 <= i < |post| ==> IsSpace(post[i])
    ensures Skipped(pre + line + post) == Skipped(line)
    ensures PackageOf(pre + line + post) == PackageOf(line)
  {
    StripIgnoresPadding(pre, line, post);
  }
}
