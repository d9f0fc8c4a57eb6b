/**
 * `deduplicate_license_results` of `helpers.py`: one record per key, the
 * key being `group:artifact` when a record carries both, else its name.
 * The first record of a key is kept unless its license is "Unknown" and a
 * later record of the key has another license. The Python dictionary is an
 * insertion-ordered list of keys plus a map from key to record.
 */
module Dedup {
  import opened Wrappers
  import opened Records

  /** The key a record is deduplicated under. */
  function KeyOf(r: LicenseRecord): string {
    if r.group.Some? && r.artifact.Some? then r.group.value + ":" + r.artifact.value else r.name
  }

  /** Some record of `xs` has key `k`. */
  ghost predicate HasKey(xs: seq<LicenseRecord>, k: string) {
    exists i :: 0 <= i < |xs| && KeyOf(xs[i]) == k
  }

  /** The record `x` has key `k` and, when `knownOnly`, a license other than "Unknown". */
  predicate Fits(x: LicenseRecord, k: string, knownOnly: bool) {
    KeyOf(x) == k && (!knownOnly || x.license != UnknownLicense)
  }

  /** A key occurs in a sequence with one more record when it occurs before or is that record's key. */
  lemma HasKeyAppend(xs: seq<LicenseRecord>, x: LicenseRecord)
    ensures forall k :: HasKey(xs + [x], k) <==> HasKey(xs, k) || KeyOf(x) == k
  {
    var ys := xs + [x];
    forall k | HasKey(ys, k)
      ensures HasKey(xs, k) || KeyOf(x) == k
    {
      var i :| 0 <= i < |ys| && KeyOf(ys[i]) == k;
      if i < |xs| {
        assert ys[i] == xs[i];
      }
    }
    forall k | HasKey(xs, k)
      ensures HasKey(ys, k)
    {
      var i :| 0 <= i < |xs| && KeyOf(xs[i]) == k;
      assert ys[i] == xs[i];
    }
    assert ys[|xs|] == x;
  }

  // ---------------------------------------------------------------------
  // The dictionary after each prefix of the input

  /** The keys of the dictionary, in insertion order. */
  function KeyOrder(xs: seq<LicenseRecord>): seq<string> {
    if xs == [] then []
    else
      var ks := KeyOrder(xs[..|xs| - 1]);
      var k := KeyOf(xs[|xs| - 1]);
      if k in ks then ks else ks + [k]
  }

  /** The dictionary itself: key to stored record. */
  function Kept(xs: seq<LicenseRecord>): map<string, LicenseRecord> {
    if xs == [] then map[]
    else
      var m := Kept(xs[..|xs| - 1]);
      var x := xs[|xs| - 1];
      var k := KeyOf(x);
      if k !in m then m[k := x]
      else if m[k].license == UnknownLicense && x.license != UnknownLicense then m[k := x]
      else m
  }

  /** The key order lists every key of the input exactly once. */
  lemma {:induction false} KeyOrderFacts(xs: seq<LicenseRecord>)
    ensures |KeyOrder(xs)| <= |xs|
    ensures forall i, j :: 0 <= i < j < |KeyOrder(xs)| ==> KeyOrder(xs)[i] != KeyOrder(xs)[j]
    ensures forall k :: k in KeyOrder(xs) <==> HasKey(xs, k)
    decreases |xs|
  {
    if xs != [] {
      var init := xs[..|xs| - 1];
      var x := xs[|xs| - 1];
      KeyOrderFacts(init);
      assert xs == init + [x];
      HasKeyAppend(init, x);
    }
  }

  /** The dictionary maps every key of the input, and only those, to an input record of that key. */
  lemma {:induction false} KeptFacts(xs: seq<LicenseRecord>)
    ensures forall k :: k in Kept(xs) <==> HasKey(xs, k)
    ensures forall k :: k in Kept(xs) ==> Kept(xs)[k] in xs && KeyOf(Kept(xs)[k]) == k
    decreases |xs|
  {
    if xs != [] {
      var init := xs[..|xs| - 1];
      var x := xs[|xs| - 1];
      KeptFacts(init);
      assert xs == init + [x];
      HasKeyAppend(init, x);
      assert forall r :: r in init ==> r in xs;
    }
  }

  /** The key order and the dictionary hold the same keys. */
  lemma SameKeys(xs: seq<LicenseRecord>)
    ensures forall k :: k in KeyOrder(xs) <==> k in Kept(xs)
  {
    KeyOrderFacts(xs);
    KeptFacts(xs);
  }

  /** One more record updates the key order as the loop does. */
  lemma KeyOrderStep(xs: seq<LicenseRecord>, i: nat)
    requires i < |xs|
    ensures KeyOrder(xs[..i + 1]) ==
              if KeyOf(xs[i]) in KeyOrder(xs[..i]) then KeyOrder(xs[..i]) else KeyOrder(xs[..i]) + [KeyOf(xs[i])]
  {
    assert xs[..i + 1][..i] == xs[..i];
  }

  /** One more record updates the dictionary as the loop does. */
  lemma KeptStep(xs: seq<LicenseRecord>, i: nat)
    requires i < |xs|
    ensures var m := Kept(xs[..i]);
            var k := KeyOf(xs[i]);
            Kept(xs[..i + 1]) ==
              if k !in m then m[k := xs[i]]
              else if m[k].license == UnknownLicense && xs[i].license != UnknownLicense then m[k := xs[i]]
              else m
  {
    assert xs[..i + 1][..i] == xs[..i];
  }

  /** `list(unique_results.values())` after the whole input. */
  function Deduplicated(xs: seq<LicenseRecord>): seq<LicenseRecord> {
    var ks := KeyOrder(xs);
    var m := Kept(xs);
    SameKeys(xs);
    seq(|ks|, i requires 0 <= i < |ks| => m[ks[i]])
  }

  /** `deduplicate_license_results`. */
  method DeduplicateLicenseResults(results: seq<LicenseRecord>) returns (unique: seq<LicenseRecord>)
    ensures unique == Deduplicated(results)
  {
    var order: seq<string> := [];
    var kept: map<string, LicenseRecord> := map[];
    var i := 0;
    while i < |results|
      invariant i <= |results|
      invariant order == KeyOrder(results[..i])
      invariant kept == Kept(results[..i])
    {
      KeyOrderStep(results, i);
      KeptStep(results, i);
      SameKeys(results[..i]);
      var r := results[i];
      var key := KeyOf(r);
      if key !in kept {
        order := order + [key];
        kept := kept[key := r];
      } else if kept[key].license == UnknownLicense && r.license != UnknownLicense {
        kept := kept[key := r];
      }
      i := i + 1;
    }
    assert results[..i] == results;
    SameKeys(results);
    unique := [];
    var j := 0;
    while j < |order|
      invariant j <= |order|
      invariant |unique| == j
      invariant forall k :: 0 <= k < j ==> unique[k] == kept[order[k]]
    {
      unique := unique + [kept[order[j]]];
      j := j + 1;
    }
    assert unique == Deduplicated(results);
  }

  // ---------------------------------------------------------------------
  // An independent description of the stored record

  /** The position of the first record that fits `k`, if any. */
  function FirstFit(xs: seq<LicenseRecord>, k: string, knownOnly: bool): (r: Option<nat>)
    ensures r.Some? ==> r.value < |xs| && Fits(xs[r.value], k, knownOnly)
  {
    if xs == [] then None
    else
      match FirstFit(xs[..|xs| - 1], k, knownOnly)
      case Some(i) => Some(i)
      case None => if Fits(xs[|xs| - 1], k, knownOnly) then Some(|xs| - 1) else None
  }

  /** The first fit is first: no earlier record fits, and there is none only when no record fits. */
  lemma {:induction false} FirstFitIsFirst(xs: seq<LicenseRecord>, k: string, knownOnly: bool)
    ensures FirstFit(xs, k, knownOnly).Some? ==>
              forall j :: 0 <= j < FirstFit(xs, k, knownOnly).value ==> !Fits(xs[j], k, knownOnly)
    ensures FirstFit(xs, k, knownOnly).None? <==> forall j :: 0 <= j < |xs| ==> !Fits(xs[j], k, knownOnly)
  {
    if xs != [] {
      var init := xs[..|xs| - 1];
      FirstFitIsFirst(init, k, knownOnly);
      assert forall j :: 0 <= j < |init| ==> init[j] == xs[j];
    }
  }

  /**
   * The record that ends up stored for `k`: the first one of key `k` with a
   * known license if there is one, else the first one of key `k`.
   */
  function Winner(xs: seq<LicenseRecord>, k: string): LicenseRecord
    requires HasKey(xs, k)
  {
    FirstFitOfKey(xs, k);
    match FirstFit(xs, k, true)
    case Some(i) => xs[i]
    case None => xs[FirstFit(xs, k, false).value]
  }

  /** Appending a record leaves an earlier first fit in place, or makes the new record the first fit. */
  lemma FirstFitExtend(xs: seq<LicenseRecord>, x: LicenseRecord, k: string, knownOnly: bool)
    ensures FirstFit(xs + [x], k, knownOnly) ==
              if FirstFit(xs, k, knownOnly).Some? then FirstFit(xs, k, knownOnly)
              else if Fits(x, k, knownOnly) then Some(|xs|)
              else None
  {
    assert (xs + [x])[..|xs|] == xs;
  }

  /** A first fit stays the first fit whatever follows it. */
  lemma {:induction false} FirstFitPrefix(xs: seq<LicenseRecord>, more: seq<LicenseRecord>, k: string, knownOnly: bool)
    requires FirstFit(xs, k, knownOnly).Some?
    ensures FirstFit(xs + more, k, knownOnly) == FirstFit(xs, k, knownOnly)
    decreases |more|
  {
    if more != [] {
      var init := more[..|more| - 1];
      FirstFitPrefix(xs, init, k, knownOnly);
      assert xs + more == (xs + init) + [more[|more| - 1]];
      FirstFitExtend(xs + init, more[|more| - 1], k, knownOnly);
    } else {
      assert xs + more == xs;
    }
  }

  /** The first fit of a key exists exactly when the key occurs. */
  lemma FirstFitOfKey(xs: seq<LicenseRecord>, k: string)
    ensures FirstFit(xs, k, false).Some? <==> HasKey(xs, k)
  {
    FirstFitIsFirst(xs, k, false);
    if HasKey(xs, k) {
      var i :| 0 <= i < |xs| && KeyOf(xs[i]) == k;
      assert Fits(xs[i], k, false);
    }
  }

  /** The dictionary after one more record, as the loop computes it. */
  lemma KeptAppend(init: seq<LicenseRecord>, x: LicenseRecord)
    ensures var m := Kept(init);
            var k := KeyOf(x);
            Kept(init + [x]) ==
              if k !in m then m[k := x]
              else if m[k].license == UnknownLicense && x.license != UnknownLicense then m[k := x]
              else m
  {
    assert (init + [x])[..|init|] == init;
  }

  /** The dictionary stores, for each key, its winner. */
  lemma {:induction false} KeptIsWinner(xs: seq<LicenseRecord>, k: string)
    requires HasKey(xs, k)
    ensures FirstFit(xs, k, false).Some?
    ensures k in Kept(xs) && Kept(xs)[k] == Winner(xs, k)
    decreases |xs|
  {
    var init := xs[..|xs| - 1];
    var x := xs[|xs| - 1];
    assert xs == init + [x];
    FirstFitOfKey(xs, k);
    KeptAppend(init, x);
    HasKeyAppend(init, x);
    KeptFacts(init);
    if k in Kept(init) {
      KeptIsWinner(init, k);
      WinnerKept(init, x, k);
    } else {
      WinnerNew(init, x, k);
    }
  }

  /** A key already stored: its winner changes only when a known license follows an unknown one. */
  lemma WinnerKept(init: seq<LicenseRecord>, x: LicenseRecord, k: string)
    requires HasKey(init, k) && HasKey(init + [x], k)
    ensures Winner(init + [x], k) ==
              if KeyOf(x) == k && Winner(init, k).license == UnknownLicense && x.license != UnknownLicense then x
              else Winner(init, k)
  {
    FirstFitOfKey(init, k);
    FirstFitExtend(init, x, k, false);
    FirstFitExtend(init, x, k, true);
    var xs := init + [x];
    assert forall j :: 0 <= j < |init| ==> xs[j] == init[j];
    assert xs[|init|] == x;
    if FirstFit(init, k, true).None? {
      FirstFitIsFirst(init, k, true);
      assert !Fits(Winner(init, k), k, true);
    }
  }

  /** A key met for the first time: its winner is the new record. */
  lemma WinnerNew(init: seq<LicenseRecord>, x: LicenseRecord, k: string)
    requires !HasKey(init, k) && KeyOf(x) == k
    ensures HasKey(init + [x], k) && Winner(init + [x], k) == x
  {
    var xs := init + [x];
    assert xs[|init|] == x;
    FirstFitOfKey(init, k);
    FirstFitExtend(init, x, k, false);
    FirstFitExtend(init, x, k, true);
  }

  // ---------------------------------------------------------------------
  // Properties of the output

  /** The output lists the stored record of each key, in key order. */
  lemma DeduplicatedShape(xs: seq<LicenseRecord>)
    ensures |Deduplicated(xs)| == |KeyOrder(xs)|
    ensures forall i :: 0 <= i < |KeyOrder(xs)| ==>
              KeyOrder(xs)[i] in Kept(xs) && Deduplicated(xs)[i] == Kept(xs)[KeyOrder(xs)[i]]
  {
    SameKeys(xs);
  }

  /** At most one output record per key. */
  lemma KeysAreUnique(xs: seq<LicenseRecord>)
    ensures forall i, j :: 0 <= i < j < |Deduplicated(xs)| ==> KeyOf(Deduplicated(xs)[i]) != KeyOf(Deduplicated(xs)[j])
  {
    DeduplicatedShape(xs);
    KeyOrderFacts(xs);
    KeptFacts(xs);
  }

  /** Every input key has exactly its winner in the output, and nothing else is there. */
  lemma OutputIsWinners(xs: seq<LicenseRecord>)
    ensures |Deduplicated(xs)| <= |xs|
    ensures forall r :: r in Deduplicated(xs) ==> r in xs
    ensures forall k :: HasKey(xs, k) <==> exists i :: 0 <= i < |Deduplicated(xs)| && KeyOf(Deduplicated(xs)[i]) == k
    ensures forall i :: 0 <= i < |Deduplicated(xs)| ==>
              HasKey(xs, KeyOf(Deduplicated(xs)[i])) && Deduplicated(xs)[i] == Winner(xs, KeyOf(Deduplicated(xs)[i]))
  {
    var out := Deduplicated(xs);
    var ks := KeyOrder(xs);
    DeduplicatedShape(xs);
    KeyOrderFacts(xs);
    KeptFacts(xs);
    forall k | HasKey(xs, k)
      ensures exists i :: 0 <= i < |out| && KeyOf(out[i]) == k
    {
      var i :| 0 <= i < |ks| && ks[i] == k;
      assert KeyOf(out[i]) == k;
    }
    forall i | 0 <= i < |out|
      ensures HasKey(xs, KeyOf(out[i])) && out[i] == Winner(xs, KeyOf(out[i]))
    {
      assert ks[i] in ks;
      KeptIsWinner(xs, ks[i]);
    }
  }

  /**
   * A record with a known license is never displaced: once stored, it is
   * what the dictionary holds for its key whatever records follow.
   */
  lemma KnownIsFinal(xs: seq<LicenseRecord>, more: seq<LicenseRecord>, k: string)
    requires k in Kept(xs) && Kept(xs)[k].license != UnknownLicense
    ensures k in Kept(xs + more) && Kept(xs + more)[k] == Kept(xs)[k]
  {
    var ys := xs + more;
    KeptFacts(xs);
    var i :| 0 <= i < |xs| && KeyOf(xs[i]) == k;
    assert ys[i] == xs[i];
    KeptIsWinner(xs, k);
    KeptIsWinner(ys, k);
    var w :| 0 <= w < |xs| && xs[w] == Kept(xs)[k];
    assert Fits(xs[w], k, true);
    FirstFitIsFirst(xs, k, true);
    FirstFitPrefix(xs, more, k, true);
    FirstFitPrefix(xs, more, k, false);
    assert ys[FirstFit(xs, k, true).value] == xs[FirstFit(xs, k, true).value];
  }

  /** Keys appear in the order of their first occurrence in the input. */
  lemma {:induction false} OrderOfFirstOccurrence(xs: seq<LicenseRecord>)
    ensures forall i :: 0 <= i < |KeyOrder(xs)| ==> FirstFit(xs, KeyOrder(xs)[i], false).Some?
    ensures forall i, j :: 0 <= i < j < |KeyOrder(xs)| ==>
              FirstFit(xs, KeyOrder(xs)[i], false).value < FirstFit(xs, KeyOrder(xs)[j], false).value
    decreases |xs|
  {
    var ks := KeyOrder(xs);
    KeyOrderFacts(xs);
    forall i | 0 <= i < |ks|
      ensures FirstFit(xs, ks[i], false).Some?
    {
      assert ks[i] in ks;
      FirstFitOfKey(xs, ks[i]);
    }
    if xs != [] {
      var init := xs[..|xs| - 1];
      var x := xs[|xs| - 1];
      assert xs == init + [x];
      OrderOfFirstOccurrence(init);
      var ks0 := KeyOrder(init);
      forall i | 0 <= i < |ks0|
        ensures FirstFit(xs, ks0[i], false) == FirstFit(init, ks0[i], false)
      {
        FirstFitExtend(init, x, ks0[i], false);
      }
      if KeyOf(x) !in ks0 {
        KeyOrderFacts(init);
        FirstFitOfKey(init, KeyOf(x));
        FirstFitExtend(init, x, KeyOf(x), false);
        assert ks == ks0 + [KeyOf(x)];
        forall i | 0 <= i < |ks0|
          ensures FirstFit(init, ks0[i], false).value < |init|
        {
        }
      }
    }
  }
}
