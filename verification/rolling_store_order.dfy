/** When a stream is read back in the order in which it was written. */
module RollingStoreOrder {
  import opened Ordering
  import opened Decimals
  import opened Lexicographic
  import opened StableSort
  import opened RollingStore
  import opened RollingStoreProperties

  function StreamAfter(ops: seq<AppendOperation>, maxBytes: int, root: Root): Directory {
    DirectoryOf(AppendAll(ops, maxBytes), root)
  }

  /** The archives of a stream in the order in which they were made. */
  function Made(ops: seq<AppendOperation>, maxBytes: int, root: Root): seq<ArchiveName> {
    if ops == [] then [] else
      var front, op := ops[..|ops| - 1], ops[|ops| - 1];
      var r := Made(front, maxBytes, root);
      var d := StreamAfter(front, maxBytes, root);
      if Reaches(op, root) && MustRoll(d, op.line, maxBytes) then r + [FreeName(d.archives.Keys, op.now, 0)] else r
  }

  lemma StreamStep(ops: seq<AppendOperation>, maxBytes: int, root: Root)
    requires ops != []
    ensures var op := ops[|ops| - 1];
            var d := StreamAfter(ops[..|ops| - 1], maxBytes, root);
            StreamAfter(ops, maxBytes, root) == if Reaches(op, root) then AppendLine(d, op.line, maxBytes, op.now) else d
  {
    AppendBothAt(AppendAll(ops[..|ops| - 1], maxBytes), ops[|ops| - 1], maxBytes, root);
  }

  lemma {:induction false} MadeListsArchives(ops: seq<AppendOperation>, maxBytes: int, root: Root)
    ensures Lists(Made(ops, maxBytes, root), StreamAfter(ops, maxBytes, root))
  {
    if ops != [] {
      var front, op := ops[..|ops| - 1], ops[|ops| - 1];
      MadeListsArchives(front, maxBytes, root);
      StreamStep(ops, maxBytes, root);
      FreeNameIsFree(StreamAfter(front, maxBytes, root).archives.Keys, op.now, 0);
    }
  }

  lemma ReadOneMore(archives: map<ArchiveName, seq<Line>>, order: seq<ArchiveName>, n: ArchiveName, lines: seq<Line>)
    requires n !in archives && forall m :: m in order ==> m in archives
    ensures ReadArchives(archives[n := lines], order + [n]) == ReadArchives(archives, order) + lines
  {
    assert (order + [n])[..|order|] == order;
    ReadArchivesSame(archives, archives[n := lines], order);
  }

  /** Read in the order of making, the stream is exactly what was appended. */
  lemma {:induction false} MadeReadsInAppendOrder(ops: seq<AppendOperation>, maxBytes: int, root: Root)
    ensures ReadStream(StreamAfter(ops, maxBytes, root), Made(ops, maxBytes, root)) == Appended(ops, root)
  {
    if ops != [] {
      var front, op := ops[..|ops| - 1], ops[|ops| - 1];
      var d, order := StreamAfter(front, maxBytes, root), Made(front, maxBytes, root);
      MadeReadsInAppendOrder(front, maxBytes, root);
      MadeListsArchives(front, maxBytes, root);
      StreamStep(ops, maxBytes, root);
      if Reaches(op, root) && MustRoll(d, op.line, maxBytes) {
        var n := FreeName(d.archives.Keys, op.now, 0);
        FreeNameIsFree(d.archives.Keys, op.now, 0);
        ReadOneMore(d.archives, order, n, d.active.value);
        assert [] + [op.line] == [op.line];
      }
    }
  }

  /** Each archive's lower counters were taken, at the same instant, when it was made. */
  lemma {:induction false} LowerCountersCameFirst(ops: seq<AppendOperation>, maxBytes: int, root: Root, j: nat, c: nat)
    requires j < |Made(ops, maxBytes, root)| && c < Made(ops, maxBytes, root)[j].counter
    ensures ArchiveName(Made(ops, maxBytes, root)[j].timestamp, c) in Made(ops, maxBytes, root)[..j]
  {
    var front, op := ops[..|ops| - 1], ops[|ops| - 1];
    var made, earlier := Made(ops, maxBytes, root), Made(front, maxBytes, root);
    if j < |earlier| {
      LowerCountersCameFirst(front, maxBytes, root, j, c);
      assert made[..j] == earlier[..j];
    } else {
      var d := StreamAfter(front, maxBytes, root);
      FreeNameIsFree(d.archives.Keys, op.now, 0);
      MadeListsArchives(front, maxBytes, root);
      assert made[..j] == earlier;
    }
  }

  ghost predicate InstantsIncrease(names: seq<ArchiveName>) {
    forall i, j :: 0 <= i < j < |names| ==> names[i].timestamp < names[j].timestamp
  }

  lemma NameOrderIsStrict(a: ArchiveName, b: ArchiveName)
    requires NameLeq()(a, b) && NameLeq()(b, a)
    ensures a == b
  {
    var x, y := NameKey(a), NameKey(b);
    LexAntisymmetric(x, y);
    assert x[0] == y[0] && x[1] == y[1];
    if a.counter > 0 && b.counter > 0 {
      assert x[2..] == Decimal(a.counter) && y[2..] == Decimal(b.counter);
      DecimalParses(a.counter);
      DecimalParses(b.counter);
    }
  }

  lemma EarlierInstantSortsFirst(a: ArchiveName, b: ArchiveName)
    ensures a.timestamp < b.timestamp ==> NameLeq()(a, b)
    ensures NameLeq()(a, b) ==> a.timestamp <= b.timestamp
  {
    assert NameKey(a)[0] == a.timestamp && NameKey(b)[0] == b.timestamp;
  }

  lemma {:induction false} DistinctSameMultiset<T>(a: seq<T>, b: seq<T>)
    requires Distinct(a) && Distinct(b) && forall x :: x in a <==> x in b
    ensures multiset(a) == multiset(b)
  {
    forall x ensures multiset(a)[x] == multiset(b)[x] {
      DistinctCount(a, x);
      DistinctCount(b, x);
      assert x in a <==> x in multiset(a);
      assert x in b <==> x in multiset(b);
    }
  }

  /** Exactly when archives are listed in the order in which they were made: no two rollovers
      share an instant, and the clock does not run backwards between them. */
  lemma ListedAsMadeIff(ops: seq<AppendOperation>, maxBytes: int, root: Root, order: seq<ArchiveName>)
    requires Lists(order, StreamAfter(ops, maxBytes, root)) && SortedBy(order, NameLeq())
    ensures order == Made(ops, maxBytes, root) <==> InstantsIncrease(Made(ops, maxBytes, root))
  {
    var made := Made(ops, maxBytes, root);
    MadeListsArchives(ops, maxBytes, root);
    if InstantsIncrease(made) {
      forall i, j | 0 <= i < j < |made| ensures NameLeq()(made[i], made[j]) {
        EarlierInstantSortsFirst(made[i], made[j]);
      }
      forall x, y | x in order && y in order && NameLeq()(x, y) && NameLeq()(y, x) ensures x == y {
        NameOrderIsStrict(x, y);
      }
      DistinctSameMultiset(order, made);
      SortedUnique(order, made, NameLeq());
    }
    if order == made {
      forall i, j | 0 <= i < j < |made| ensures made[i].timestamp < made[j].timestamp {
        EarlierInstantSortsFirst(made[i], made[j]);
        if made[i].timestamp == made[j].timestamp { NoSharedInstant(ops, maxBytes, root, i, j); }
      }
    }
  }

  /** Two archives of one instant never stand in sorted order as they were made. */
  lemma NoSharedInstant(ops: seq<AppendOperation>, maxBytes: int, root: Root, i: nat, j: nat)
    requires i < j < |Made(ops, maxBytes, root)|
    requires Made(ops, maxBytes, root)[i].timestamp == Made(ops, maxBytes, root)[j].timestamp
    ensures !SortedBy(Made(ops, maxBytes, root), NameLeq())
  {
    var made := Made(ops, maxBytes, root);
    MadeListsArchives(ops, maxBytes, root);
    var first := ArchiveName(made[i].timestamp, 0);
    if made[j].counter > 0 {
      LowerCountersCameFirst(ops, maxBytes, root, j, 0);
      var p :| 0 <= p < j && made[p] == first;
      FirstArchiveSortsLast(first.timestamp, made[j].counter);
      assert !NameLeq()(made[p], made[j]);
    } else {
      assert made[i] != made[j] && made[j] == first;
      assert first !in made[..i];
      LowerCountersCameFirst(ops, maxBytes, root, i, 0);
    }
  }

  /** Then reading yields the lines in append order, not just the same lines. */
  lemma ReadsInAppendOrder(ops: seq<AppendOperation>, maxBytes: int, root: Root, order: seq<ArchiveName>)
    requires Lists(order, StreamAfter(ops, maxBytes, root)) && SortedBy(order, NameLeq())
    requires InstantsIncrease(Made(ops, maxBytes, root))
    ensures ReadStream(StreamAfter(ops, maxBytes, root), order) == Appended(ops, root)
  {
    ListedAsMadeIff(ops, maxBytes, root, order);
    MadeReadsInAppendOrder(ops, maxBytes, root);
  }

  /** And then loading sorts the appended events stably: events of one timestamp come back in
      the order in which they were appended. */
  lemma LoadsInAppendOrder(ops: seq<AppendOperation>, maxBytes: int, root: Root, order: seq<ArchiveName>)
    requires Lists(order, StreamAfter(ops, maxBytes, root)) && SortedBy(order, NameLeq())
    requires InstantsIncrease(Made(ops, maxBytes, root)) && Distinct(EventIds(Appended(ops, root)))
    ensures var loaded := Load(ReadStream(StreamAfter(ops, maxBytes, root), order));
            && loaded == Sort(Events(Appended(ops, root)), ByTimestamp())
            && SortedStably(loaded, Events(Appended(ops, root)), ByTimestamp())
  {
    ReadsInAppendOrder(ops, maxBytes, root, order);
    ValuesOfDistinct(Appended(ops, root));
    ByTimestampTotal();
    SortIsStable(Events(Appended(ops, root)), ByTimestamp());
  }

  // ---- Two rollovers in one instant ------------------------------------------

  /** Three lines of one byte each, in files of one byte, written at one instant. */
  function Burst(now: int): seq<AppendOperation> {
    [AppendOperation(Line(StoredEvent(1, now, 0), 1), None, now),
     AppendOperation(Line(StoredEvent(2, now, 0), 1), None, now),
     AppendOperation(Line(StoredEvent(3, now, 0), 1), None, now)]
  }

  lemma FirstOfBurst(now: int)
    ensures var ops := Burst(now)[..1];
            StreamAfter(ops, 1, GlobalRoot) == Directory(map[], Some([ops[0].line])) && Made(ops, 1, GlobalRoot) == []
            && Appended(ops, GlobalRoot) == [ops[0].line]
  {
    var ops := Burst(now)[..1];
    assert ops[..0] == [];
    assert StreamAfter([], 1, GlobalRoot) == NO_FILES;
    StreamStep(ops, 1, GlobalRoot);
    assert [] + [ops[0].line] == [ops[0].line];
  }

  lemma SecondOfBurst(now: int)
    ensures var ops := Burst(now)[..2];
            && StreamAfter(ops, 1, GlobalRoot) == Directory(map[ArchiveName(now, 0) := [ops[0].line]], Some([ops[1].line]))
            && Made(ops, 1, GlobalRoot) == [ArchiveName(now, 0)]
            && Appended(ops, GlobalRoot) == [ops[0].line, ops[1].line]
  {
    var ops := Burst(now)[..2];
    var d := Directory(map[], Some([ops[0].line]));
    assert ops[..1] == Burst(now)[..1];
    FirstOfBurst(now);
    StreamStep(ops, 1, GlobalRoot);
    assert [ops[0].line][..0] == [] && Size([ops[0].line]) == 1;
    assert MustRoll(d, ops[1].line, 1);
    assert FreeName(d.archives.Keys, now, 0) == ArchiveName(now, 0);
    assert [] + [ops[1].line] == [ops[1].line];
  }

  lemma BurstStream(now: int)
    ensures var ops := Burst(now);
            var d := StreamAfter(ops, 1, GlobalRoot);
            && Made(ops, 1, GlobalRoot) == [ArchiveName(now, 0), ArchiveName(now, 1)]
            && d.archives == map[ArchiveName(now, 0) := [ops[0].line], ArchiveName(now, 1) := [ops[1].line]]
            && d.active == Some([ops[2].line])
            && Appended(ops, GlobalRoot) == [ops[0].line, ops[1].line, ops[2].line]
  {
    var ops := Burst(now);
    var d := Directory(map[ArchiveName(now, 0) := [ops[0].line]], Some([ops[1].line]));
    assert ops[..|ops| - 1] == ops[..2];
    SecondOfBurst(now);
    StreamStep(ops, 1, GlobalRoot);
    assert [ops[1].line][..0] == [] && Size([ops[1].line]) == 1;
    assert MustRoll(d, ops[2].line, 1);
    var names := d.archives.Keys;
    assert names == {ArchiveName(now, 0)};
    assert FreeName(names, now, 0) == FreeName(names, now, 1) == ArchiveName(now, 1);
    assert [] + [ops[2].line] == [ops[2].line];
  }

  /** The listing swaps the two archives, and the lines come back in another order. */
  lemma BurstIsReadOutOfOrder(now: int, order: seq<ArchiveName>)
    requires Lists(order, StreamAfter(Burst(now), 1, GlobalRoot)) && SortedBy(order, NameLeq())
    ensures order == [ArchiveName(now, 1), ArchiveName(now, 0)] != Made(Burst(now), 1, GlobalRoot)
    ensures ReadStream(StreamAfter(Burst(now), 1, GlobalRoot), order) != Appended(Burst(now), GlobalRoot)
  {
    var ops := Burst(now);
    var d := StreamAfter(ops, 1, GlobalRoot);
    var zero, one := ArchiveName(now, 0), ArchiveName(now, 1);
    BurstStream(now);
    FirstArchiveSortsLast(now, 1);
    NameOrder();
    assert NameLeq()(one, zero);
    forall n ensures n in order <==> n in [one, zero] {}
    forall x, y | x in order && y in order && NameLeq()(x, y) && NameLeq()(y, x) ensures x == y {
      NameOrderIsStrict(x, y);
    }
    DistinctSameMultiset(order, [one, zero]);
    SortedUnique(order, [one, zero], NameLeq());
    assert [one, zero][..1] == [one] && [one][..0] == [];
    assert ReadArchives(d.archives, [one]) == [] + [ops[1].line];
    assert ReadArchives(d.archives, order) == [ops[1].line] + [ops[0].line];
    assert ReadStream(d, order)[0] == ops[1].line != ops[0].line == Appended(ops, GlobalRoot)[0];
  }
}
