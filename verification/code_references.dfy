/** Collecting the references of a file and of an owner under a cap. The symbols of a
    file and the locations of a symbol are answers of the code provider; paths and
    symbol ids are opaque values with a total order. */
module CodeReferences {
  import opened Ordering
  import opened Lexicographic
  import opened FirstPerKey
  import opened StableSort

  /** The code of a symbol id; 0 stands for the empty string. */
  type SymbolId = nat

  datatype LocationKey = LocationKey(path: int, lineStart: int, columnStart: int,
                                     lineEnd: Option<int>, columnEnd: Option<int>, symbol: Option<SymbolId>)

  datatype Location = Location(key: LocationKey, provenance: seq<int>)

  datatype ReferenceError = LimitTooSmall

  /** The locations found for each symbol of a file. */
  type FileSymbols = seq<seq<Location>>

  function LocationKeyOf(): Location -> LocationKey { (l: Location) => l.key }

  function SortKey(l: Location): seq<int> {
    [l.key.path, l.key.lineStart, l.key.columnStart, if l.key.symbol.Some? then l.key.symbol.value else 0]
  }

  function LocationLeq(): (Location, Location) -> bool {
    (a: Location, b: Location) => LexLeq(SortKey(a), SortKey(b))
  }

  /** An absent symbol counts as the empty one, before all others. */
  function SymbolCode(l: Location): nat { match l.key.symbol case Some(s) => s case None => 0 }

  /** Locations are compared by path, then line, then column, then symbol; the end of the range
      does not matter. */
  lemma LocationOrderIs(a: Location, b: Location)
    ensures LocationLeq()(a, b) <==>
            var k, l := a.key, b.key;
            if k.path != l.path then k.path < l.path
            else if k.lineStart != l.lineStart then k.lineStart < l.lineStart
            else if k.columnStart != l.columnStart then k.columnStart < l.columnStart
            else SymbolCode(a) <= SymbolCode(b)
  {
    var k, l := a.key, b.key;
    SortKeyIs(a);
    SortKeyIs(b);
    LexStep(SymbolCode(a), SymbolCode(b), [], []);
    LexStep(k.columnStart, l.columnStart, [SymbolCode(a)] + [], [SymbolCode(b)] + []);
    LexStep(k.lineStart, l.lineStart, [k.columnStart] + ([SymbolCode(a)] + []), [l.columnStart] + ([SymbolCode(b)] + []));
    LexStep(k.path, l.path, [k.lineStart] + ([k.columnStart] + ([SymbolCode(a)] + [])),
            [l.lineStart] + ([l.columnStart] + ([SymbolCode(b)] + [])));
  }

  lemma SortKeyIs(a: Location)
    ensures SortKey(a) == [a.key.path] + ([a.key.lineStart] + ([a.key.columnStart] + ([SymbolCode(a)] + [])))
  {
  }

  predicate BadLimit(limit: Option<int>) { limit.Some? && limit.value < 1 }

  /** A limit that has passed the check. */
  type Limit = l: Option<int> | !BadLimit(l) witness None

  function Cut<T>(s: seq<T>, limit: Limit): seq<T> {
    if limit.Some? && |s| > limit.value then s[..limit.value] else s
  }

  function Collected(locations: seq<Location>, limit: Limit): seq<Location> {
    Cut(FirstPer(locations, LocationKeyOf()), limit)
  }

  function FileReferences(symbols: FileSymbols, limit: Limit): seq<Location> {
    Sort(Collected(Flatten(symbols), limit), LocationLeq())
  }

  function ReferencesOfEach(files: seq<FileSymbols>, limit: Limit): (r: seq<seq<Location>>)
    ensures |r| == |files|
  {
    seq(|files|, i requires 0 <= i < |files| => FileReferences(files[i], limit))
  }

  function OwnerReferences(files: seq<FileSymbols>, limit: Limit, maxFiles: Limit): seq<Location> {
    Sort(Collected(Flatten(ReferencesOfEach(Cut(files, maxFiles), limit)), limit), LocationLeq())
  }

  // ---- The loops ----------------------------------------------------------

  predicate Full(references: seq<Location>, limit: Limit) {
    limit.Some? && |references| >= limit.value
  }

  /** What has been collected after `seen`, unless the cap was hit: then nothing that
      comes later can matter. */
  ghost predicate Collecting(references: seq<Location>, full: bool, seen: seq<Location>, limit: Limit) {
    if full then limit.Some? && |references| == limit.value && references <= FirstPer(seen, LocationKeyOf())
    else references == FirstPer(seen, LocationKeyOf()) && !Full(references, limit)
  }

  lemma FullIsFinal(references: seq<Location>, seen: seq<Location>, all: seq<Location>, limit: Limit)
    requires Collecting(references, true, seen, limit) && seen <= all
    ensures references == Collected(all, limit)
  {
    FirstPerPrefix(seen, all[|seen|..], LocationKeyOf());
    assert seen + all[|seen|..] == all;
  }

  lemma FullStaysFull(references: seq<Location>, seen: seq<Location>, locations: seq<Location>, i: nat, limit: Limit)
    requires i <= |locations| && limit.Some? && |references| == limit.value
    requires references == FirstPer(seen + locations[..i], LocationKeyOf())
    ensures Collecting(references, true, seen + locations, limit)
  {
    FirstPerPrefix(seen + locations[..i], locations[i..], LocationKeyOf());
    assert seen + locations[..i] + locations[i..] == seen + locations;
  }

  /** The inner loop: `setdefault` each location, stop at the cap. */
  method AddLocations(references: seq<Location>, locations: seq<Location>, limit: Limit, ghost seen: seq<Location>)
    returns (grown: seq<Location>, full: bool)
    requires Collecting(references, false, seen, limit)
    ensures Collecting(grown, full, seen + locations, limit)
  {
    grown, full := references, false;
    var i := 0;
    assert seen + locations[..0] == seen;
    while i < |locations|
      invariant 0 <= i <= |locations|
      invariant Collecting(grown, false, seen + locations[..i], limit)
    {
      OneMore(seen, locations, i);
      FirstPerStep(seen + locations[..i], locations[i], LocationKeyOf());
      if !HasKey(grown, LocationKeyOf(), locations[i].key) {
        grown := grown + [locations[i]];
      }
      i := i + 1;
      if Full(grown, limit) {
        full := true;
        FullStaysFull(grown, seen, locations, i, limit);
        return;
      }
    }
    assert locations[..i] == locations;
  }

  lemma {:induction false} FlattenFront<T>(groups: seq<seq<T>>, i: nat)
    requires i <= |groups|
    ensures Flatten(groups[..i]) <= Flatten(groups)
  {
    if i == |groups| {
      assert groups[..i] == groups;
    } else {
      FlattenFront(groups[..|groups| - 1], i);
      assert groups[..|groups| - 1][..i] == groups[..i];
    }
  }

  lemma FlattenStep<T>(groups: seq<seq<T>>, i: nat)
    requires i < |groups|
    ensures Flatten(groups[..i + 1]) == Flatten(groups[..i]) + groups[i]
  {
    assert groups[..i + 1][..i] == groups[..i];
  }

  method ReferencesForFile(symbols: FileSymbols, maxLocations: Option<int>)
    returns (r: Result<seq<Location>, ReferenceError>)
    ensures BadLimit(maxLocations) ==> r == Err(LimitTooSmall)
    ensures !BadLimit(maxLocations) ==> r == Ok(FileReferences(symbols, maxLocations))
  {
    if BadLimit(maxLocations) { return Err(LimitTooSmall); }
    var references: seq<Location>, full := [], false;
    var i := 0;
    while i < |symbols|
      invariant 0 <= i <= |symbols|
      invariant Collecting(references, false, Flatten(symbols[..i]), maxLocations)
    {
      FlattenStep(symbols, i);
      references, full := AddLocations(references, symbols[i], maxLocations, Flatten(symbols[..i]));
      i := i + 1;
      if full {
        FlattenFront(symbols, i);
        FullIsFinal(references, Flatten(symbols[..i]), Flatten(symbols), maxLocations);
        return Ok(Sort(references, LocationLeq()));
      }
    }
    assert symbols[..i] == symbols;
    r := Ok(Sort(references, LocationLeq()));
  }

  method ReferencesForOwner(files: seq<FileSymbols>, maxLocations: Option<int>, maxFiles: Option<int>)
    returns (r: Result<seq<Location>, ReferenceError>)
    ensures BadLimit(maxLocations) || BadLimit(maxFiles) ==> r == Err(LimitTooSmall)
    ensures !BadLimit(maxLocations) && !BadLimit(maxFiles) ==> r == Ok(OwnerReferences(files, maxLocations, maxFiles))
  {
    if BadLimit(maxLocations) || BadLimit(maxFiles) { return Err(LimitTooSmall); }
    var chosen := Cut(files, maxFiles);
    ghost var each := ReferencesOfEach(chosen, maxLocations);
    var references: seq<Location>, full := [], false;
    var i := 0;
    while i < |chosen|
      invariant 0 <= i <= |chosen|
      invariant Collecting(references, false, Flatten(each[..i]), maxLocations)
    {
      FlattenStep(each, i);
      var found := ReferencesForFile(chosen[i], maxLocations);
      references, full := AddLocations(references, found.value, maxLocations, Flatten(each[..i]));
      i := i + 1;
      if full {
        FlattenFront(each, i);
        FullIsFinal(references, Flatten(each[..i]), Flatten(each), maxLocations);
        return Ok(Sort(references, LocationLeq()));
      }
    }
    assert each[..i] == each;
    r := Ok(Sort(references, LocationLeq()));
  }

  // ---- Properties -----------------------------------------------------------

  ghost function LocationKeys(locations: seq<Location>): set<LocationKey> {
    KeySet(locations, LocationKeyOf())
  }

  function CapAt(n: nat, limit: Limit): int {
    if limit.Some? && n > limit.value then limit.value else n
  }

  lemma LocationOrder()
    ensures TotalPreorder(LocationLeq())
  {
    forall a, b ensures LocationLeq()(a, b) || LocationLeq()(b, a) {
      LexTotal(SortKey(a), SortKey(b));
    }
    forall a, b, c | LocationLeq()(a, b) && LocationLeq()(b, c) ensures LocationLeq()(a, c) {
      LexTransitive(SortKey(a), SortKey(b), SortKey(c));
    }
  }

  lemma CutKeepsDistinct(s: seq<Location>, limit: Limit)
    requires DistinctKeys(s, LocationKeyOf())
    ensures DistinctKeys(Cut(s, limit), LocationKeyOf())
    ensures LocationKeys(Cut(s, limit)) <= LocationKeys(s)
  {
    forall l | l in Cut(s, limit) ensures l in s {}
  }

  lemma SortKeepsKeys(s: seq<Location>)
    requires DistinctKeys(s, LocationKeyOf())
    ensures DistinctKeys(Sort(s, LocationLeq()), LocationKeyOf())
    ensures LocationKeys(Sort(s, LocationLeq())) == LocationKeys(s)
    ensures SortedBy(Sort(s, LocationLeq()), LocationLeq())
  {
    LocationOrder();
    var r := Sort(s, LocationLeq());
    SortSorts(s, LocationLeq());
    SortPermutes(s, LocationLeq());
    assert LocationKeys(r) == LocationKeys(s);
    assert Distinct(s) by {
      assert forall i, j :: 0 <= i < j < |s| ==> LocationKeyOf()(s[i]) != LocationKeyOf()(s[j]);
    }
    DistinctMultiset(s);
    DistinctMultiset(r);
    forall i, j | 0 <= i < j < |r| ensures LocationKeyOf()(r[i]) != LocationKeyOf()(r[j]) {
      assert r[i] in s && r[j] in s && r[i] != r[j];
      var x :| 0 <= x < |s| && s[x] == r[i];
      var y :| 0 <= y < |s| && s[y] == r[j];
      assert x < y || y < x;
    }
  }

  /** Collecting under a cap, from any locations at all. */
  lemma CollectedSpec(locations: seq<Location>, limit: Limit)
    ensures DistinctKeys(Sort(Collected(locations, limit), LocationLeq()), LocationKeyOf())
    ensures SortedBy(Sort(Collected(locations, limit), LocationLeq()), LocationLeq())
    ensures LocationKeys(Sort(Collected(locations, limit), LocationLeq())) <= LocationKeys(locations)
    ensures |Sort(Collected(locations, limit), LocationLeq())| == CapAt(|LocationKeys(locations)|, limit)
    ensures forall l :: l in Sort(Collected(locations, limit), LocationLeq()) ==> l in locations
  {
    var firsts := FirstPer(locations, LocationKeyOf());
    FirstPerSpec(locations, LocationKeyOf());
    FirstPerCount(locations, LocationKeyOf());
    CutKeepsDistinct(firsts, limit);
    SortKeepsKeys(Collected(locations, limit));
    SortPermutes(Collected(locations, limit), LocationLeq());
    forall l | l in Cut(firsts, limit) ensures l in firsts {}
  }

  /** Nothing is lost by not having a limit: every key of every symbol is there, once. */
  lemma UncappedIsComplete(locations: seq<Location>)
    ensures LocationKeys(Sort(Collected(locations, None), LocationLeq())) == LocationKeys(locations)
  {
    FirstPerSpec(locations, LocationKeyOf());
    SortKeepsKeys(FirstPer(locations, LocationKeyOf()));
  }

  lemma {:induction false} KeysOfFlatten(groups: seq<seq<Location>>, others: seq<seq<Location>>)
    requires |groups| == |others|
    requires forall i :: 0 <= i < |groups| ==> LocationKeys(groups[i]) <= LocationKeys(others[i])
    ensures LocationKeys(Flatten(groups)) <= LocationKeys(Flatten(others))
  {
    if groups == [] {
    } else {
      var n := |groups| - 1;
      KeysOfFlatten(groups[..n], others[..n]);
      KeysOfConcat(Flatten(groups[..n]), groups[n]);
      KeysOfConcat(Flatten(others[..n]), others[n]);
    }
  }

  lemma KeysOfConcat(a: seq<Location>, b: seq<Location>)
    ensures LocationKeys(a + b) == LocationKeys(a) + LocationKeys(b)
  {
    assert forall l :: l in a + b <==> l in a || l in b;
  }

  function EveryLocation(files: seq<FileSymbols>): (r: seq<seq<Location>>)
    ensures |r| == |files|
  {
    seq(|files|, i requires 0 <= i < |files| => Flatten(files[i]))
  }

  lemma GroupKeys(groups: seq<seq<Location>>, i: nat)
    requires i < |groups|
    ensures LocationKeys(groups[i]) <= LocationKeys(Flatten(groups))
  {
    forall l | l in groups[i] ensures l in Flatten(groups) {
      FlattenMember(groups, l);
    }
  }

  /** Cutting every file first costs nothing: either no file was cut and all keys are there,
      or one file alone already fills the limit. */
  lemma CuttingEachFileKeepsEnough(files: seq<FileSymbols>, limit: Limit)
    ensures LocationKeys(Flatten(ReferencesOfEach(files, limit))) <= LocationKeys(Flatten(EveryLocation(files)))
    ensures CapAt(|LocationKeys(Flatten(ReferencesOfEach(files, limit)))|, limit)
         == CapAt(|LocationKeys(Flatten(EveryLocation(files)))|, limit)
  {
    var each, all := ReferencesOfEach(files, limit), EveryLocation(files);
    forall i | 0 <= i < |files| ensures LocationKeys(each[i]) <= LocationKeys(all[i]) {
      CollectedSpec(all[i], limit);
    }
    KeysOfFlatten(each, all);
    SubsetSize(LocationKeys(Flatten(each)), LocationKeys(Flatten(all)));
    if i :| 0 <= i < |files| && |each[i]| < |LocationKeys(all[i])| {
      CollectedSpec(all[i], limit);
      DistinctKeysCount(each[i], LocationKeyOf());
      GroupKeys(each, i);
      SubsetSize(LocationKeys(each[i]), LocationKeys(Flatten(each)));
    } else {
      forall i | 0 <= i < |files| ensures LocationKeys(all[i]) <= LocationKeys(each[i]) {
        CollectedSpec(all[i], limit);
        DistinctKeysCount(each[i], LocationKeyOf());
        SameSizeSubset(LocationKeys(each[i]), LocationKeys(all[i]));
      }
      KeysOfFlatten(all, each);
      assert LocationKeys(Flatten(all)) == LocationKeys(Flatten(each));
    }
  }

  lemma SameSizeSubset<T>(a: set<T>, b: set<T>)
    requires a <= b && |a| >= |b|
    ensures a == b
  {
    assert b == a + (b - a);
    assert |b - a| == 0;
  }

  /** The two caps and the two early exits never under-fill: the answer holds as many
      locations as the limit allows of all that the same files have, each key once, in order. */
  lemma OwnerReferencesFillTheLimit(files: seq<FileSymbols>, limit: Limit, maxFiles: Limit)
    ensures |OwnerReferences(files, limit, maxFiles)| == |OwnerReferences(files, None, maxFiles)| ||
            (limit.Some? && |OwnerReferences(files, limit, maxFiles)| == limit.value < |OwnerReferences(files, None, maxFiles)|)
    ensures |OwnerReferences(files, None, maxFiles)| == |LocationKeys(Flatten(EveryLocation(Cut(files, maxFiles))))|
    ensures LocationKeys(OwnerReferences(files, limit, maxFiles)) <= LocationKeys(OwnerReferences(files, None, maxFiles))
    ensures LocationKeys(OwnerReferences(files, None, maxFiles)) == LocationKeys(Flatten(EveryLocation(Cut(files, maxFiles))))
    ensures DistinctKeys(OwnerReferences(files, limit, maxFiles), LocationKeyOf())
    ensures SortedBy(OwnerReferences(files, limit, maxFiles), LocationLeq())
  {
    var chosen := Cut(files, maxFiles);
    var all := LocationKeys(Flatten(EveryLocation(chosen)));
    CuttingEachFileKeepsEnough(chosen, limit);
    CollectedSpec(Flatten(ReferencesOfEach(chosen, limit)), limit);
    CuttingEachFileKeepsEnough(chosen, None);
    CollectedSpec(Flatten(ReferencesOfEach(chosen, None)), None);
    UncappedIsComplete(Flatten(ReferencesOfEach(chosen, None)));
    SameSizeSubset(LocationKeys(OwnerReferences(files, None, maxFiles)), all);
  }

  lemma DistinctKeysDistinct(s: seq<Location>)
    requires DistinctKeys(s, LocationKeyOf())
    ensures Distinct(s)
  {
    assert forall i, j :: 0 <= i < j < |s| ==> LocationKeyOf()(s[i]) != LocationKeyOf()(s[j]);
  }

  lemma CollectedDistinct(locations: seq<Location>, limit: Limit)
    ensures Distinct(Collected(locations, limit))
  {
    FirstPerSpec(locations, LocationKeyOf());
    CutKeepsDistinct(FirstPer(locations, LocationKeyOf()), limit);
    DistinctKeysDistinct(Collected(locations, limit));
  }

  /** Exactly when the capped answer for a file is the front of the complete one: no location
      found after the cut sorts before one found earlier. */
  lemma FileFrontIff(symbols: FileSymbols, limit: Limit)
    ensures var firsts := FirstPer(Flatten(symbols), LocationKeyOf());
            var kept := |Cut(firsts, limit)|;
            FileReferences(symbols, limit) <= FileReferences(symbols, None) <==>
            forall x, y :: x in firsts[..kept] && y in firsts[kept..] ==> LocationLeq()(x, y)
  {
    var firsts := FirstPer(Flatten(symbols), LocationKeyOf());
    var kept := |Cut(firsts, limit)|;
    assert Cut(firsts, limit) == firsts[..kept];
    CollectedDistinct(Flatten(symbols), None);
    CollectedDistinct(Flatten(symbols), limit);
    LocationOrder();
    SortedPartIsFrontIff(firsts[..kept], firsts, LocationLeq());
    PrefixSortsToFrontIff(firsts, kept, LocationLeq());
  }

  /** The condition can fail: locations are chosen in the order in which they were found and
      sorted afterwards. */
  lemma CappedIsNotAFront() returns (files: seq<FileSymbols>)
    ensures !(OwnerReferences(files, Some(1), None) <= OwnerReferences(files, None, None))
    ensures |files| == 1 && !(FileReferences(files[0], Some(1)) <= FileReferences(files[0], None))
  {
    var near := Location(LocationKey(0, 1, 1, None, None, None), [0]);
    var far := Location(LocationKey(0, 2, 1, None, None, None), [0]);
    files := [[[far, near]]];
    CappedExample(near, far);
    assert OwnerReferences(files, Some(1), None)[0] == far != near == OwnerReferences(files, None, None)[0];
  }

  lemma CappedExample(near: Location, far: Location)
    requires near == Location(LocationKey(0, 1, 1, None, None, None), [0])
    requires far == Location(LocationKey(0, 2, 1, None, None, None), [0])
    ensures OwnerReferences([[[far, near]]], Some(1), None) == FileReferences([[far, near]], Some(1)) == [far]
    ensures OwnerReferences([[[far, near]]], None, None) == FileReferences([[far, near]], None) == [near, far]
  {
    var files: seq<FileSymbols> := [[[far, near]]];
    FlattenOne([far, near]);
    FirstPerOfTwo(far, near);
    FirstPerOfTwo(near, far);
    FlattenOne([far]);
    FlattenOne([near, far]);
    assert FirstPer([far], LocationKeyOf()) == [far];
    var a, b := SortKey(near), SortKey(far);
    assert a[0] == b[0] && a[1..][0] < b[1..][0];
    assert LexLeq(a[1..], b[1..]) && !LexLeq(b[1..], a[1..]);
    assert LexLeq(a, b) && !LexLeq(b, a);
    assert LocationLeq()(near, far) && !LocationLeq()(far, near);
    SortOfTwo(near, far);
    assert ReferencesOfEach(files, Some(1)) == [[far]];
    assert ReferencesOfEach(files, None) == [[near, far]];
  }

  lemma FlattenOne<T>(s: seq<T>)
    ensures Flatten([s]) == s
  {
    assert [s][..0] == [];
  }

  lemma FirstPerOfTwo(a: Location, b: Location)
    requires a.key != b.key
    ensures FirstPer([a, b], LocationKeyOf()) == [a, b]
  {
    assert [a, b] == [a] + [b];
    FirstPerStep([a], b, LocationKeyOf());
  }

  lemma SortOfTwo(near: Location, far: Location)
    requires LocationLeq()(near, far) && !LocationLeq()(far, near)
    ensures Sort([far], LocationLeq()) == [far]
    ensures Sort([far, near], LocationLeq()) == [near, far]
    ensures Sort([near, far], LocationLeq()) == [near, far]
  {
    assert Sort([far], LocationLeq()) == [far];
    assert Sort([near], LocationLeq()) == [near];
  }
}
