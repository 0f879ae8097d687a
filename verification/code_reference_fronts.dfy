/** When a capped list of an owner's references is the front of the complete one. */
module CodeReferenceFronts {
  import opened Ordering
  import opened FirstPerKey
  import opened StableSort
  import opened CodeReferences

  ghost predicate Tied(x: Location, y: Location) {
    LocationLeq()(x, y) && LocationLeq()(y, x)
  }

  /** All of `part` is in `whole`, and whatever ties with and comes before one of its elements
      there does so in `part` as well. */
  ghost predicate Embedded(part: seq<Location>, whole: seq<Location>) {
    && (forall x :: x in part ==> x in whole)
    && (forall x, y :: x in part && Tied(x, y) && Precedes(whole, y, x) ==> Precedes(part, y, x))
  }

  /** Nothing of the whole that is not in the part sorts before anything in it. */
  ghost predicate RestIsLater(part: seq<Location>, whole: seq<Location>) {
    forall x, y :: x in part && y in whole && y !in part ==> LocationLeq()(x, y)
  }

  /** For an embedded part the order alone decides. */
  lemma EmbeddedSortsToFrontIff(part: seq<Location>, whole: seq<Location>)
    requires Distinct(part) && Distinct(whole) && Embedded(part, whole)
    ensures SortsToFront(part, whole, LocationLeq()) <==> RestIsLater(part, whole)
  {
    if RestIsLater(part, whole) {
      forall x, y | x in part && y in whole && y !in part ensures SortsBefore(whole, LocationLeq(), x, y) {
        OneWayOrTheOther(whole, x, y);
      }
      forall x, y | x in part && y in part && SortsBefore(part, LocationLeq(), x, y)
        ensures SortsBefore(whole, LocationLeq(), x, y)
      {
        if x != y && Tied(x, y) {
          OneWayOrTheOther(whole, x, y);
          NotBothWays(part, x, y);
        }
      }
    }
  }

  lemma PrecedesInPrefix(s: seq<Location>, t: seq<Location>, x: Location, y: Location)
    requires s <= t && Distinct(t) && y in s && Precedes(t, x, y)
    ensures Precedes(s, x, y)
  {
    var i, j :| 0 <= i < j < |t| && t[i] == x && t[j] == y;
    var k :| 0 <= k < |s| && s[k] == y;
    assert t[k] == y;
    assert k == j && s[i] == x;
  }

  lemma EmbeddedInLonger(part: seq<Location>, whole: seq<Location>, longer: seq<Location>)
    requires Embedded(part, whole) && whole <= longer && Distinct(longer)
    ensures Embedded(part, longer)
  {
    forall x | x in part ensures x in longer {
      var i :| 0 <= i < |whole| && whole[i] == x;
      assert longer[i] == x;
    }
    forall x, y | x in part && Tied(x, y) && Precedes(longer, y, x) ensures Precedes(part, y, x) {
      PrecedesInPrefix(whole, longer, y, x);
    }
  }

  // ---- One file ------------------------------------------------------------

  function NewTo(known: seq<Location>): Location -> bool {
    (l: Location) => !HasKey(known, LocationKeyOf(), l.key)
  }

  /** Sorting a prefix and sorting everything agree on ties. */
  lemma TiesInFile(firsts: seq<Location>, kept: nat, x: Location, y: Location)
    requires Distinct(firsts) && kept <= |firsts| && x in firsts[..kept] && Tied(x, y)
    requires Precedes(Sort(firsts, LocationLeq()), y, x)
    ensures Precedes(Sort(firsts[..kept], LocationLeq()), y, x)
  {
    LocationOrder();
    SortIsStable(firsts, LocationLeq());
    SortPermutes(firsts, LocationLeq());
    DistinctMultiset(firsts);
    DistinctMultiset(Sort(firsts, LocationLeq()));
    assert Precedes(firsts, y, x);
    PrecedesInPrefix(firsts[..kept], firsts, y, x);
    TiesWhenSorted(firsts[..kept], x, y);
  }

  lemma TiesWhenSorted(s: seq<Location>, x: Location, y: Location)
    requires Distinct(s) && Tied(x, y) && Precedes(s, y, x)
    ensures Precedes(Sort(s, LocationLeq()), y, x)
  {
    LocationOrder();
    SortPermutes(s, LocationLeq());
    var r := Sort(s, LocationLeq());
    var i := PositionOf(r, y);
    var j := PositionOf(r, x);
    SortedPositions(s, LocationLeq(), i, j);
    assert x != y;
  }

  lemma NewFilterStep(known: seq<Location>, s: seq<Location>, x: Location)
    ensures known + Filter(s + [x], NewTo(known)) ==
            known + Filter(s, NewTo(known)) + if HasKey(known, LocationKeyOf(), x.key) then [] else [x]
  {
    FilterStep(s, x, NewTo(known));
  }

  /** What one more file adds to what is known: in order, what is new. */
  lemma {:induction false} FirstPerConcat(known: seq<Location>, more: seq<Location>)
    requires DistinctKeys(more, LocationKeyOf())
    ensures FirstPer(known + more, LocationKeyOf()) ==
            FirstPer(known, LocationKeyOf()) + Filter(more, NewTo(FirstPer(known, LocationKeyOf())))
  {
    var k := FirstPer(known, LocationKeyOf());
    if more == [] {
      assert known + more == known && k + [] == k;
    } else {
      var front, last := more[..|more| - 1], more[|more| - 1];
      FirstPerConcat(known, front);
      assert more == front + [last] && known + more == (known + front) + [last];
      LastIsNew(k, more);
      FirstPerStep(known + front, last, LocationKeyOf());
      NewFilterStep(k, front, last);
    }
  }

  lemma LastIsNew(known: seq<Location>, more: seq<Location>)
    requires more != [] && DistinctKeys(more, LocationKeyOf())
    ensures var front, last := more[..|more| - 1], more[|more| - 1];
            HasKey(known + Filter(front, NewTo(known)), LocationKeyOf(), last.key) <==> HasKey(known, LocationKeyOf(), last.key)
  {
    var front, last := more[..|more| - 1], more[|more| - 1];
    var added := Filter(front, NewTo(known));
    forall x | x in added ensures x.key != last.key {
      FilterMember(front, NewTo(known), x);
      var k :| 0 <= k < |front| && front[k] == x;
      assert LocationKeyOf()(more[k]) != LocationKeyOf()(more[|front|]);
    }
    assert forall x :: x in known + added <==> x in known || x in added;
  }

  /** Adding a file to what is known, cut or not, gives something embedded. */
  lemma FileEmbeds(known: seq<Location>, firsts: seq<Location>, kept: nat)
    requires kept <= |firsts| && Distinct(firsts)
    requires Distinct(known + Filter(Sort(firsts, LocationLeq()), NewTo(known)))
    ensures Embedded(known + Filter(Sort(firsts[..kept], LocationLeq()), NewTo(known)),
                     known + Filter(Sort(firsts, LocationLeq()), NewTo(known)))
  {
    var part := known + Filter(Sort(firsts[..kept], LocationLeq()), NewTo(known));
    var whole := known + Filter(Sort(firsts, LocationLeq()), NewTo(known));
    forall x | x in part ensures x in whole { PartOfFile(known, firsts, kept, x); }
    forall x, y | x in part && Tied(x, y) && Precedes(whole, y, x) ensures Precedes(part, y, x) {
      TiesWithNew(known, firsts, kept, x, y);
    }
  }

  lemma PartOfFile(known: seq<Location>, firsts: seq<Location>, kept: nat, x: Location)
    requires kept <= |firsts| && x in known + Filter(Sort(firsts[..kept], LocationLeq()), NewTo(known))
    ensures x in known + Filter(Sort(firsts, LocationLeq()), NewTo(known))
  {
    SortPermutes(firsts[..kept], LocationLeq());
    SortPermutes(firsts, LocationLeq());
    FilterMember(Sort(firsts[..kept], LocationLeq()), NewTo(known), x);
    FilterMember(Sort(firsts, LocationLeq()), NewTo(known), x);
  }

  lemma TiesWithNew(known: seq<Location>, firsts: seq<Location>, kept: nat, x: Location, y: Location)
    requires kept <= |firsts| && Distinct(firsts) && Tied(x, y)
    requires var whole := known + Filter(Sort(firsts, LocationLeq()), NewTo(known)); Distinct(whole) && Precedes(whole, y, x)
    requires x in known + Filter(Sort(firsts[..kept], LocationLeq()), NewTo(known))
    ensures Precedes(known + Filter(Sort(firsts[..kept], LocationLeq()), NewTo(known)), y, x)
  {
    var e, all := Sort(firsts[..kept], LocationLeq()), Sort(firsts, LocationLeq());
    var added, every := Filter(e, NewTo(known)), Filter(all, NewTo(known));
    var i, j :| 0 <= i < j < |known + every| && (known + every)[i] == y && (known + every)[j] == x;
    if j < |known| {
      assert (known + added)[i] == y && (known + added)[j] == x;
    } else {
      assert forall k :: 0 <= k < |known| ==> (known + every)[k] == known[k];
      assert x !in known;
      var k :| 0 <= k < |added| && added[k] == x;
      if i < |known| {
        assert (known + added)[i] == y && (known + added)[|known| + k] == x;
      } else {
        assert every[i - |known|] == y && every[j - |known|] == x;
        NewTies(known, firsts, kept, x, y);
        PrecedesInLonger(known, added, [], y, x);
        assert known + added + [] == known + added;
      }
    }
  }

  lemma NewTies(known: seq<Location>, firsts: seq<Location>, kept: nat, x: Location, y: Location)
    requires kept <= |firsts| && Distinct(firsts) && Tied(x, y)
    requires Precedes(Filter(Sort(firsts, LocationLeq()), NewTo(known)), y, x)
    requires x in Filter(Sort(firsts[..kept], LocationLeq()), NewTo(known))
    ensures Precedes(Filter(Sort(firsts[..kept], LocationLeq()), NewTo(known)), y, x)
  {
    var e, all := Sort(firsts[..kept], LocationLeq()), Sort(firsts, LocationLeq());
    FilterPrecedes(all, NewTo(known), y, x);
    FilterMember(e, NewTo(known), x);
    assert y in Filter(all, NewTo(known));
    FilterMember(all, NewTo(known), y);
    SortPermutes(firsts[..kept], LocationLeq());
    TiesInFile(firsts, kept, x, y);
    FilterKeepsPrecedes(e, NewTo(known), y, x);
  }

  lemma CutStaysEmbedded(part: seq<Location>, whole: seq<Location>, room: nat)
    requires Embedded(part, whole) && room < |part| && Distinct(part)
    ensures Embedded(part[..room], whole)
  {
    assert forall x :: x in part[..room] ==> x in part;
    forall x, y | x in part[..room] && Tied(x, y) && Precedes(whole, y, x) ensures Precedes(part[..room], y, x) {
      PrecedesInPrefix(part[..room], part, y, x);
    }
  }

  // ---- All files -------------------------------------------------------------

  function CollectedFrom(files: seq<FileSymbols>, limit: Limit): seq<Location> {
    Collected(Flatten(ReferencesOfEach(files, limit)), limit)
  }

  lemma EachFront(files: seq<FileSymbols>, limit: Limit)
    requires files != []
    ensures var n := |files| - 1;
            Flatten(ReferencesOfEach(files, limit)) ==
            Flatten(ReferencesOfEach(files[..n], limit)) + FileReferences(files[n], limit)
  {
    var n := |files| - 1;
    assert ReferencesOfEach(files, limit)[..n] == ReferencesOfEach(files[..n], limit);
  }

  /** What has been collected under the limit, next to what is collected without it. */
  ghost predicate KeepsUp(found: seq<Location>, all: seq<Location>, limit: Limit) {
    Embedded(found, all) && (!Full(found, limit) ==> found == all)
  }

  lemma {:induction false} CollectedKeepsUp(files: seq<FileSymbols>, limit: Limit)
    ensures KeepsUp(CollectedFrom(files, limit), CollectedFrom(files, None), limit)
  {
    if files != [] {
      var n := |files| - 1;
      var found, all := CollectedFrom(files[..n], limit), CollectedFrom(files[..n], None);
      CollectedKeepsUp(files[..n], limit);
      if Full(found, limit) {
        FullKeepsUp(files, limit);
      } else {
        OpenKeepsUp(files, limit);
      }
    }
  }

  lemma FullKeepsUp(files: seq<FileSymbols>, limit: Limit)
    requires files != [] && Full(CollectedFrom(files[..|files| - 1], limit), limit)
    requires Embedded(CollectedFrom(files[..|files| - 1], limit), CollectedFrom(files[..|files| - 1], None))
    ensures KeepsUp(CollectedFrom(files, limit), CollectedFrom(files, None), limit)
  {
    var n := |files| - 1;
    var before, after := Flatten(ReferencesOfEach(files[..n], limit)), FileReferences(files[n], limit);
    EachFront(files, limit);
    EachFront(files, None);
    FirstPerPrefix(before, after, LocationKeyOf());
    FirstPerPrefix(Flatten(ReferencesOfEach(files[..n], None)), FileReferences(files[n], None), LocationKeyOf());
    assert CollectedFrom(files, limit) == CollectedFrom(files[..n], limit);
    CollectedDistinct(Flatten(ReferencesOfEach(files, None)), None);
    EmbeddedInLonger(CollectedFrom(files[..n], limit), CollectedFrom(files[..n], None), CollectedFrom(files, None));
  }

  /** A file that had to be cut fills the limit on its own. */
  lemma CutFileFills(known: seq<Location>, symbols: FileSymbols, limit: Limit)
    requires limit.Some? && |FirstPer(Flatten(symbols), LocationKeyOf())| >= limit.value
    ensures |FirstPer(known + FileReferences(symbols, limit), LocationKeyOf())| >= limit.value
  {
    var e := FileReferences(symbols, limit);
    CollectedSpec(Flatten(symbols), limit);
    FirstPerCount(Flatten(symbols), LocationKeyOf());
    DistinctKeysCount(e, LocationKeyOf());
    FirstPerCount(known + e, LocationKeyOf());
    KeysOfConcat(known, e);
    SubsetSize(LocationKeys(e), LocationKeys(known + e));
  }

  lemma OpenKeepsUp(files: seq<FileSymbols>, limit: Limit)
    requires files != [] && !Full(CollectedFrom(files[..|files| - 1], limit), limit)
    requires CollectedFrom(files[..|files| - 1], limit) == CollectedFrom(files[..|files| - 1], None)
    ensures KeepsUp(CollectedFrom(files, limit), CollectedFrom(files, None), limit)
  {
    var n := |files| - 1;
    var known := CollectedFrom(files[..n], None);
    var before, uncut := Flatten(ReferencesOfEach(files[..n], limit)), Flatten(ReferencesOfEach(files[..n], None));
    EachFront(files, limit);
    EachFront(files, None);
    assert FirstPer(before, LocationKeyOf()) == known == FirstPer(uncut, LocationKeyOf());
    FileAdds(before, files[n], limit);
    FileAdds(uncut, files[n], None);
    var firsts := FirstPer(Flatten(files[n]), LocationKeyOf());
    var kept := |Cut(firsts, limit)|;
    assert Cut(firsts, limit) == firsts[..kept];
    var part := FirstPer(before + FileReferences(files[n], limit), LocationKeyOf());
    var whole := FirstPer(uncut + FileReferences(files[n], None), LocationKeyOf());
    CollectedDistinct(Flatten(files[n]), None);
    CollectedDistinct(uncut + FileReferences(files[n], None), None);
    CollectedDistinct(before + FileReferences(files[n], limit), None);
    FileEmbeds(known, firsts, kept);
    if limit.Some? {
      if |part| > limit.value { CutStaysEmbedded(part, whole, limit.value); }
      if |firsts| >= limit.value { CutFileFills(before, files[n], limit); }
    }
  }

  lemma FileAdds(known: seq<Location>, symbols: FileSymbols, limit: Limit)
    ensures var firsts := FirstPer(Flatten(symbols), LocationKeyOf());
            var k := FirstPer(known, LocationKeyOf());
            FirstPer(known + FileReferences(symbols, limit), LocationKeyOf()) ==
            k + Filter(Sort(Cut(firsts, limit), LocationLeq()), NewTo(k))
  {
    CollectedSpec(Flatten(symbols), limit);
    FirstPerConcat(known, FileReferences(symbols, limit));
  }

  // ---- The theorem -------------------------------------------------------------

  /** Nothing that the answer leaves out, of all the locations of the files, sorts before
      anything in it. */
  ghost predicate LeavesOutOnlyLater(answer: seq<Location>, everything: seq<Location>) {
    forall x, y :: x in answer && y in everything && y.key !in LocationKeys(answer) ==> LocationLeq()(x, y)
  }

  /** Exactly when the capped answer for an owner is the front of the complete one. */
  lemma OwnerFrontIff(files: seq<FileSymbols>, limit: Limit, maxFiles: Limit)
    ensures OwnerReferences(files, limit, maxFiles) <= OwnerReferences(files, None, maxFiles) <==>
            LeavesOutOnlyLater(OwnerReferences(files, limit, maxFiles), Flatten(EveryLocation(Cut(files, maxFiles))))
  {
    var chosen := Cut(files, maxFiles);
    var found, all := CollectedFrom(chosen, limit), CollectedFrom(chosen, None);
    CollectedDistinct(Flatten(ReferencesOfEach(chosen, limit)), limit);
    CollectedDistinct(Flatten(ReferencesOfEach(chosen, None)), None);
    LocationOrder();
    SortedPartIsFrontIff(found, all, LocationLeq());
    CollectedKeepsUp(chosen, limit);
    EmbeddedSortsToFrontIff(found, all);
    LeftOutIff(chosen, limit);
    AnswerLeavesOut(found, Flatten(EveryLocation(chosen)));
  }

  lemma AnswerLeavesOut(found: seq<Location>, everything: seq<Location>)
    ensures LeavesOutOnlyLater(Sort(found, LocationLeq()), everything) <==> LeavesOutOnlyLater(found, everything)
  {
    SortPermutes(found, LocationLeq());
    assert LocationKeys(Sort(found, LocationLeq())) == LocationKeys(found);
  }

  /** Left out by key, of the files' own locations, or left out of what is collected without
      a limit: the order cannot tell the difference. */
  lemma LeftOutIff(files: seq<FileSymbols>, limit: Limit)
    ensures LeavesOutOnlyLater(CollectedFrom(files, limit), Flatten(EveryLocation(files))) <==>
            RestIsLater(CollectedFrom(files, limit), CollectedFrom(files, None))
  {
    var found, all, everything := CollectedFrom(files, limit), CollectedFrom(files, None), Flatten(EveryLocation(files));
    CollectedKeepsUp(files, limit);
    AllComesFromFiles(files);
    FirstPerSpec(Flatten(ReferencesOfEach(files, None)), LocationKeyOf());
    if RestIsLater(found, all) {
      forall x, y | x in found && y in everything && y.key !in LocationKeys(found) ensures LocationLeq()(x, y) {
        assert LocationKeyOf()(y) in LocationKeys(all);
        var z :| z in all && LocationKeyOf()(z) == y.key;
        assert LocationKeyOf()(z) !in LocationKeys(found);
        assert SortKey(z) == SortKey(y);
      }
    }
    if LeavesOutOnlyLater(found, everything) {
      forall x, y | x in found && y in all && y !in found ensures LocationLeq()(x, y) {
        SameKeySameLocation(found, all, y);
      }
    }
  }

  lemma SameKeySameLocation(found: seq<Location>, all: seq<Location>, y: Location)
    requires DistinctKeys(all, LocationKeyOf()) && (forall x :: x in found ==> x in all) && y in all && y !in found
    ensures y.key !in LocationKeys(found)
  {
    forall x | x in found ensures x.key != y.key {
      var i :| 0 <= i < |all| && all[i] == x;
      var j :| 0 <= j < |all| && all[j] == y;
      assert i < j ==> LocationKeyOf()(all[i]) != LocationKeyOf()(all[j]);
      assert j < i ==> LocationKeyOf()(all[j]) != LocationKeyOf()(all[i]);
    }
  }

  lemma AllComesFromFiles(files: seq<FileSymbols>)
    ensures forall y :: y in CollectedFrom(files, None) ==> y in Flatten(EveryLocation(files))
    ensures LocationKeys(CollectedFrom(files, None)) == LocationKeys(Flatten(EveryLocation(files)))
  {
    var each, every := ReferencesOfEach(files, None), EveryLocation(files);
    FirstPerSpec(Flatten(each), LocationKeyOf());
    forall i | 0 <= i < |files|
      ensures LocationKeys(each[i]) == LocationKeys(every[i]) && forall l :: l in each[i] ==> l in every[i]
    {
      CollectedSpec(every[i], None);
      UncappedIsComplete(every[i]);
    }
    KeysOfFlatten(each, every);
    KeysOfFlatten(every, each);
    forall y | y in CollectedFrom(files, None) ensures y in Flatten(every) {
      FlattenMember(each, y);
      var i :| 0 <= i < |each| && y in each[i];
      FlattenMember(every, y);
    }
  }
}
