/** In which order file names sort as text, and what is loaded from the lines that were read. */
module RollingStoreReading {
  import opened Ordering
  import opened Decimals
  import opened Lexicographic
  import opened StableSort
  import opened RollingStore
  import opened RollingStoreProperties

  // ---- File names as text ------------------------------------------------------------

  function Chars(s: seq<Byte>): string {
    seq(|s|, i requires 0 <= i < |s| => s[i] as char)
  }

  function Suffix(counter: nat): string {
    (if counter == 0 then "" else "-" + Chars(Decimal(counter))) + ".jsonl"
  }

  /** `stamp` is the instant as text. */
  function FileName(stamp: string, counter: nat): string {
    "events-" + stamp + Suffix(counter)
  }

  lemma PrependParts(front: string, a: string, b: string)
    requires TextBefore(a, b)
    ensures TextBefore(front + a, front + b)
  {
    var i :| 0 <= i < |a| && i < |b| && a[..i] == b[..i] && a[i] < b[i];
    assert (front + a)[..|front| + i] == front + a[..i] && (front + b)[..|front| + i] == front + b[..i];
    PartsAt(front + a, front + b, |front| + i);
  }

  lemma AppendParts(a: string, b: string, x: string, y: string)
    requires TextBefore(a, b)
    ensures TextBefore(a + x, b + y)
  {
    var i :| 0 <= i < |a| && i < |b| && a[..i] == b[..i] && a[i] < b[i];
    assert (a + x)[..i] == a[..i] && (b + y)[..i] == b[..i];
    PartsAt(a + x, b + y, i);
  }

  /** Digits that sort before others, or are their front, do so with `.jsonl` behind them. */
  lemma DigitsPart(x: seq<Byte>, y: seq<Byte>)
    requires LexLeq(x, y) && x != y && forall k :: 0 <= k < |y| ==> IsDigit(y[k])
    ensures TextBefore(Chars(x) + ".jsonl", Chars(y) + ".jsonl")
  {
    var i := LexParts(x, y);
    var a, b := Chars(x) + ".jsonl", Chars(y) + ".jsonl";
    assert a[..i] == Chars(x[..i]) && b[..i] == Chars(y[..i]);
    assert b[i] == y[i] as char;
    PartsAt(a, b, i);
  }

  lemma NumberedPart(a: nat, b: nat)
    requires a != 0 && b != 0 && a != b && LexLeq(Decimal(a), Decimal(b))
    ensures TextBefore(Suffix(a), Suffix(b))
  {
    DecimalParses(a);
    DecimalParses(b);
    var x, y := Chars(Decimal(a)) + ".jsonl", Chars(Decimal(b)) + ".jsonl";
    DigitsPart(Decimal(a), Decimal(b));
    PrependParts("-", x, y);
    assert "-" + x == Suffix(a) && "-" + y == Suffix(b);
  }

  lemma SuffixesPart(a: nat, b: nat)
    requires LexLeq(if a == 0 then [1] else [0] + Decimal(a), if b == 0 then [1] else [0] + Decimal(b)) && a != b
    ensures TextBefore(Suffix(a), Suffix(b))
  {
    assert a != 0;
    if b == 0 {
      PartsAt(Suffix(a), Suffix(b), 0);
    } else {
      assert ([0] + Decimal(a))[1..] == Decimal(a) && ([0] + Decimal(b))[1..] == Decimal(b);
      NumberedPart(a, b);
    }
  }

  lemma EarlierStampComesFirst(stampA: string, stampB: string, a: nat, b: nat)
    requires TextBefore(stampA, stampB)
    ensures TextBefore(FileName(stampA, a), FileName(stampB, b))
  {
    AppendParts(stampA, stampB, Suffix(a), Suffix(b));
    PrependParts("events-", stampA + Suffix(a), stampB + Suffix(b));
    assert "events-" + (stampA + Suffix(a)) == FileName(stampA, a);
    assert "events-" + (stampB + Suffix(b)) == FileName(stampB, b);
  }

  lemma SmallerNameComesFirst(a: ArchiveName, b: ArchiveName, stampA: string, stampB: string)
    requires a.timestamp < b.timestamp ==> TextBefore(stampA, stampB)
    requires a.timestamp == b.timestamp ==> stampA == stampB
    requires NameLeq()(a, b) && a != b
    ensures TextBefore(FileName(stampA, a.counter), FileName(stampB, b.counter))
  {
    var x, y := NameKey(a), NameKey(b);
    if a.timestamp < b.timestamp {
      EarlierStampComesFirst(stampA, stampB, a.counter, b.counter);
    } else {
      assert x[1..] == if a.counter == 0 then [1] else [0] + Decimal(a.counter);
      assert y[1..] == if b.counter == 0 then [1] else [0] + Decimal(b.counter);
      SuffixesPart(a.counter, b.counter);
      PrependParts("events-" + stampA, Suffix(a.counter), Suffix(b.counter));
    }
  }

  lemma TextOneWay(a: string, b: string)
    requires TextBefore(a, b)
    ensures !TextBefore(b, a) && a != b
  {
    var i :| 0 <= i < |a| && i < |b| && a[..i] == b[..i] && a[i] < b[i];
    PartsAt(a, b, i);
  }

  /** The store's order of archives is the text order of their file names, for instants written
      so that they compare as text. */
  lemma NamesCompareAsText(a: ArchiveName, b: ArchiveName, stampA: string, stampB: string)
    requires a.timestamp < b.timestamp ==> TextBefore(stampA, stampB)
    requires b.timestamp < a.timestamp ==> TextBefore(stampB, stampA)
    requires a.timestamp == b.timestamp ==> stampA == stampB
    ensures NameLeq()(a, b) <==> a == b || TextBefore(FileName(stampA, a.counter), FileName(stampB, b.counter))
  {
    NameOrder();
    if NameLeq()(a, b) {
      if a != b { SmallerNameComesFirst(a, b, stampA, stampB); }
    } else {
      SmallerNameComesFirst(b, a, stampB, stampA);
      TextOneWay(FileName(stampB, b.counter), FileName(stampA, a.counter));
    }
  }

  // ---- What is loaded ------------------------------------------------------------------

  /** The line is the last of its event id. */
  ghost predicate LastOfItsId(lines: seq<Line>, k: nat) {
    k < |lines| && forall j :: k < j < |lines| ==> lines[j].event.id != lines[k].event.id
  }

  ghost predicate HeldBy(lines: seq<Line>, e: StoredEvent) {
    exists k: nat :: LastOfItsId(lines, k) && lines[k].event == e
  }

  /** The id of `x` appears before that of `y`. */
  ghost predicate IdAppearsFirst(lines: seq<Line>, x: Id, y: Id) {
    exists a :: 0 <= a < |lines| && lines[a].event.id == x && forall b :: 0 <= b <= a ==> lines[b].event.id != y
  }

  lemma {:induction false} LastWithAt(lines: seq<Line>, id: Id) returns (k: nat)
    requires LastWith(lines, id).Some?
    ensures LastOfItsId(lines, k) && lines[k].event == LastWith(lines, id).value && lines[k].event.id == id
  {
    var n := |lines| - 1;
    if lines[n].event.id == id {
      k := n;
    } else {
      k := LastWithAt(lines[..n], id);
      assert lines[..n][k] == lines[k];
    }
  }

  lemma {:induction false} ValuesAt(lines: seq<Line>, ids: seq<Id>)
    requires forall id :: id in ids ==> id in EventIds(lines)
    ensures |Values(lines, ids)| == |ids|
    ensures forall i :: 0 <= i < |ids| ==> HeldBy(lines, Values(lines, ids)[i]) && Values(lines, ids)[i].id == ids[i]
  {
    if ids != [] {
      var n := |ids| - 1;
      ValuesAt(lines, ids[..n]);
      assert ids[n] in ids;
      LastWithSpec(lines, ids[n]);
      var k := LastWithAt(lines, ids[n]);
    }
  }

  lemma ValuesAreHeld(lines: seq<Line>, e: StoredEvent)
    ensures e in Values(lines, FirstOccurrences(EventIds(lines))) <==> HeldBy(lines, e)
  {
    var ids := FirstOccurrences(EventIds(lines));
    var values := Values(lines, ids);
    ValuesAt(lines, ids);
    EventsAt(lines);
    if HeldBy(lines, e) {
      var k: nat :| LastOfItsId(lines, k) && lines[k].event == e;
      assert EventIds(lines)[k] in ids;
      var i :| 0 <= i < |ids| && ids[i] == e.id;
      var j: nat :| LastOfItsId(lines, j) && lines[j].event == values[i];
      assert j == k;
    }
  }

  lemma ValuesInOrder(lines: seq<Line>, i: nat, j: nat)
    requires i < j < |Values(lines, FirstOccurrences(EventIds(lines)))|
    ensures var values := Values(lines, FirstOccurrences(EventIds(lines))); IdAppearsFirst(lines, values[i].id, values[j].id)
  {
    var ids := FirstOccurrences(EventIds(lines));
    ValuesAt(lines, ids);
    EventsAt(lines);
    var a := FirstOccurrencesInOrder(EventIds(lines), i, j);
    assert forall b :: 0 <= b <= a ==> lines[b].event.id == EventIds(lines)[b];
  }

  ghost predicate LoadedInOrder(lines: seq<Line>, x: StoredEvent, y: StoredEvent) {
    x.id != y.id && x.timestamp <= y.timestamp && (x.timestamp == y.timestamp ==> IdAppearsFirst(lines, x.id, y.id))
  }

  lemma SortedPairInOrder(lines: seq<Line>, x: StoredEvent, y: StoredEvent)
    requires var values := Values(lines, FirstOccurrences(EventIds(lines)));
             x in values && y in values && x != y && SortsBefore(values, ByTimestamp(), x, y)
    ensures LoadedInOrder(lines, x, y)
  {
    var ids := FirstOccurrences(EventIds(lines));
    var values := Values(lines, ids);
    ValuesAt(lines, ids);
    var i :| 0 <= i < |values| && values[i] == x;
    var j :| 0 <= j < |values| && values[j] == y;
    assert ids[i] != ids[j];
    if x.timestamp == y.timestamp {
      var a, b :| 0 <= a < b < |values| && values[a] == x && values[b] == y;
      ValuesInOrder(lines, a, b);
    }
  }

  lemma ValuesDistinct(lines: seq<Line>)
    ensures Distinct(Values(lines, FirstOccurrences(EventIds(lines))))
  {
    var ids := FirstOccurrences(EventIds(lines));
    ValuesAt(lines, ids);
    var values := Values(lines, ids);
    forall i, j | 0 <= i < j < |values| ensures values[i] != values[j] { assert ids[i] != ids[j]; }
  }

  /** Loading keeps of every id the event read last, once; the events come by timestamp, and at
      one timestamp in the order in which their ids were first read. */
  lemma LoadSpec(lines: seq<Line>)
    ensures forall e :: e in Load(lines) <==> HeldBy(lines, e)
    ensures forall i, j :: 0 <= i < j < |Load(lines)| ==> LoadedInOrder(lines, Load(lines)[i], Load(lines)[j])
  {
    var values := Values(lines, FirstOccurrences(EventIds(lines)));
    ByTimestampTotal();
    ValuesDistinct(lines);
    SortPermutes(values, ByTimestamp());
    SortIsStable(values, ByTimestamp());
    DistinctMultiset(values);
    DistinctMultiset(Load(lines));
    forall e ensures e in Load(lines) <==> HeldBy(lines, e) { ValuesAreHeld(lines, e); }
    forall i, j | 0 <= i < j < |Load(lines)| ensures LoadedInOrder(lines, Load(lines)[i], Load(lines)[j]) {
      SortedPairInOrder(lines, Load(lines)[i], Load(lines)[j]);
    }
  }
}
