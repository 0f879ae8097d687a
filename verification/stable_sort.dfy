/** What stability means for `sorted`, and when sorting a part of a list gives the front
    of sorting all of it. */
module StableSort {
  import opened Ordering

  ghost predicate Precedes<T(!new)>(s: seq<T>, x: T, y: T) {
    exists i, j :: 0 <= i < j < |s| && s[i] == x && s[j] == y
  }

  /** Whether a stable sort of `s` puts `x` no later than `y`: by the order, and where the
      order ties by the position in `s`. */
  ghost predicate SortsBefore<T(!new)>(s: seq<T>, leq: (T, T) -> bool, x: T, y: T) {
    x == y || (leq(x, y) && (leq(y, x) ==> Precedes(s, x, y)))
  }

  ghost predicate SortedStably<T(!new)>(r: seq<T>, s: seq<T>, leq: (T, T) -> bool) {
    forall i, j :: 0 <= i < j < |r| ==> SortsBefore(s, leq, r[i], r[j])
  }

  lemma PrecedesInLonger<T(!new)>(before: seq<T>, s: seq<T>, after: seq<T>, x: T, y: T)
    requires Precedes(s, x, y)
    ensures Precedes(before + s + after, x, y)
  {
    var i, j :| 0 <= i < j < |s| && s[i] == x && s[j] == y;
    var whole := before + s + after;
    assert whole[|before| + i] == x && whole[|before| + j] == y;
  }

  lemma LaterStaysLater<T(!new)>(head: T, s: seq<T>, leq: (T, T) -> bool, x: T, y: T)
    requires SortsBefore(s, leq, x, y)
    ensures SortsBefore([head] + s, leq, x, y)
  {
    if Precedes(s, x, y) {
      PrecedesInLonger([head], s, [], x, y);
      assert [head] + s + [] == [head] + s;
    }
  }

  lemma HeadPrecedes<T(!new)>(head: T, s: seq<T>, y: T)
    requires y in s
    ensures Precedes([head] + s, head, y)
  {
    var j :| 0 <= j < |s| && s[j] == y;
    assert ([head] + s)[0] == head && ([head] + s)[j + 1] == y;
  }

  lemma {:induction false} InsertStably<T(!new)>(x: T, r: seq<T>, s: seq<T>, leq: (T, T) -> bool)
    requires TotalPreorder(leq) && SortedStably(r, s, leq) && forall y :: y in r ==> y in s
    ensures SortedStably(Insert(x, r, leq), [x] + s, leq)
  {
    var result := Insert(x, r, leq);
    if r == [] {
    } else if leq(x, r[0]) {
      forall i, j | 0 <= i < j < |result| ensures SortsBefore([x] + s, leq, result[i], result[j]) {
        if i > 0 {
          LaterStaysLater(x, s, leq, r[i - 1], r[j - 1]);
        } else {
          HeadPrecedes(x, s, r[j - 1]);
          assert j > 1 ==> SortsBefore(s, leq, r[0], r[j - 1]);
        }
      }
    } else {
      InsertStably(x, r[1..], s, leq);
      InsertPermutes(x, r[1..], leq);
      var rest := Insert(x, r[1..], leq);
      forall y | y in rest ensures SortsBefore([x] + s, leq, r[0], y) {
        assert y in multiset(rest);
        if y != x {
          var k :| 0 <= k < |r| - 1 && r[1..][k] == y;
          LaterStaysLater(x, s, leq, r[0], r[k + 1]);
        }
      }
    }
  }

  lemma {:induction false} SortIsStable<T(!new)>(s: seq<T>, leq: (T, T) -> bool)
    requires TotalPreorder(leq)
    ensures SortedStably(Sort(s, leq), s, leq)
  {
    if s == [] {
    } else {
      SortIsStable(s[1..], leq);
      SortPermutes(s[1..], leq);
      InsertStably(s[0], Sort(s[1..], leq), s[1..], leq);
      assert s == [s[0]] + s[1..];
    }
  }

  lemma NotBothWays<T(!new)>(s: seq<T>, x: T, y: T)
    requires Distinct(s) && Precedes(s, x, y)
    ensures !Precedes(s, y, x)
  {
  }

  lemma OneWayOrTheOther<T(!new)>(s: seq<T>, x: T, y: T)
    requires x in s && y in s && x != y
    ensures Precedes(s, x, y) || Precedes(s, y, x)
  {
    var i :| 0 <= i < |s| && s[i] == x;
    var j :| 0 <= j < |s| && s[j] == y;
  }

  /** A stable sort of distinct elements is the only list that is sorted stably. */
  lemma StablySortedIsSort<T(!new)>(r: seq<T>, s: seq<T>, leq: (T, T) -> bool)
    requires TotalPreorder(leq) && Distinct(s) && multiset(r) == multiset(s) && SortedStably(r, s, leq)
    ensures r == Sort(s, leq)
  {
    SortIsStable(s, leq);
    SortPermutes(s, leq);
    ghost var before := (x: T, y: T) => SortsBefore(s, leq, x, y);
    forall x, y | x in r && y in r && before(x, y) && before(y, x) ensures x == y {
      if Precedes(s, x, y) { NotBothWays(s, x, y); }
    }
    SortedUnique(r, Sort(s, leq), before);
  }

  // ---- Elements that tie -----------------------------------------------------

  /** Where all elements with `p` tie, sorting leaves them in their order. */
  lemma {:induction false} SortKeepsTies<T(!new)>(s: seq<T>, leq: (T, T) -> bool, p: T -> bool)
    requires TotalPreorder(leq) && forall x, y :: p(x) && p(y) ==> leq(x, y)
    ensures Filter(Sort(s, leq), p) == Filter(s, p)
  {
    if s != [] {
      SortKeepsTies(s[1..], leq, p);
      InsertKeepsTies(s[0], Sort(s[1..], leq), leq, p);
      assert s == [s[0]] + s[1..];
      FilterAppend([s[0]], s[1..], p);
    }
  }

  lemma {:induction false} InsertKeepsTies<T(!new)>(x: T, s: seq<T>, leq: (T, T) -> bool, p: T -> bool)
    requires forall x, y :: p(x) && p(y) ==> leq(x, y)
    ensures Filter(Insert(x, s, leq), p) == Filter([x], p) + Filter(s, p)
  {
    if s == [] || leq(x, s[0]) {
      FilterAppend([x], s, p);
    } else {
      InsertKeepsTies(x, s[1..], leq, p);
      assert s == [s[0]] + s[1..];
      FilterAppend([s[0]], Insert(x, s[1..], leq), p);
      FilterAppend([s[0]], s[1..], p);
      FilterOne(x, p);
      FilterOne(s[0], p);
    }
  }

  lemma FilterOne<T>(x: T, p: T -> bool)
    ensures Filter([x], p) == if p(x) then [x] else []
  {
    assert [x][..0] == [];
  }

  // ---- Sorting a part ------------------------------------------------------

  /** The part holds elements of the whole only, all of which sort before whatever it leaves
      out, and among themselves as they do in the whole. */
  ghost predicate SortsToFront<T(!new)>(part: seq<T>, whole: seq<T>, leq: (T, T) -> bool) {
    && (forall x :: x in part ==> x in whole)
    && (forall x, y :: x in part && y in whole && y !in part ==> SortsBefore(whole, leq, x, y))
    && (forall x, y :: x in part && y in part && SortsBefore(part, leq, x, y) ==> SortsBefore(whole, leq, x, y))
  }

  /** Exactly when sorting a part gives the front of sorting the whole. */
  lemma SortedPartIsFrontIff<T(!new)>(part: seq<T>, whole: seq<T>, leq: (T, T) -> bool)
    requires TotalPreorder(leq) && Distinct(part) && Distinct(whole)
    ensures Sort(part, leq) <= Sort(whole, leq) <==> SortsToFront(part, whole, leq)
  {
    if Sort(part, leq) <= Sort(whole, leq) {
      FrontSortsToFront(part, whole, leq);
    }
    if SortsToFront(part, whole, leq) {
      SortsToFrontIsFront(part, whole, leq);
    }
  }

  lemma PositionOf<T>(s: seq<T>, x: T) returns (i: nat)
    requires x in s
    ensures i < |s| && s[i] == x
  {
    i :| i < |s| && s[i] == x;
  }

  /** In the sorted list, whatever comes first sorts before. */
  lemma SortedPositions<T(!new)>(s: seq<T>, leq: (T, T) -> bool, i: nat, j: nat)
    requires TotalPreorder(leq) && Distinct(s) && i < |Sort(s, leq)| && j < |Sort(s, leq)|
    ensures SortsBefore(s, leq, Sort(s, leq)[i], Sort(s, leq)[j]) <==> i <= j
  {
    SortIsStable(s, leq);
    SortPermutes(s, leq);
    DistinctMultiset(s);
    DistinctMultiset(Sort(s, leq));
    var x, y := Sort(s, leq)[i], Sort(s, leq)[j];
    if j < i {
      assert SortsBefore(s, leq, y, x) && x != y;
      if Precedes(s, x, y) { NotBothWays(s, x, y); }
    }
  }

  lemma FrontSortsToFront<T(!new)>(part: seq<T>, whole: seq<T>, leq: (T, T) -> bool)
    requires TotalPreorder(leq) && Distinct(part) && Distinct(whole) && Sort(part, leq) <= Sort(whole, leq)
    ensures SortsToFront(part, whole, leq)
  {
    var p, w := Sort(part, leq), Sort(whole, leq);
    SortPermutes(part, leq);
    SortPermutes(whole, leq);
    forall x | x in part ensures x in whole {
      var i := PositionOf(p, x);
      assert w[i] == x;
    }
    forall x, y | x in part && y in whole && (y !in part || SortsBefore(part, leq, x, y))
      ensures SortsBefore(whole, leq, x, y)
    {
      var i := PositionOf(p, x);
      var j := PositionOf(w, y);
      assert w[i] == x && (j < |p| ==> p[j] == y);
      SortedPositions(whole, leq, i, j);
      if j < |p| { SortedPositions(part, leq, i, j); }
    }
  }

  function LeftOut<T(==)>(part: seq<T>): T -> bool { (x: T) => x !in part }

  lemma {:induction false} FilterPrecedes<T(!new)>(s: seq<T>, p: T -> bool, x: T, y: T)
    requires Precedes(Filter(s, p), x, y)
    ensures Precedes(s, x, y)
  {
    var front, last := s[..|s| - 1], s[|s| - 1];
    var f := Filter(front, p);
    assert s == front + [last];
    if Precedes(f, x, y) {
      FilterPrecedes(front, p, x, y);
      PrecedesInLonger([], front, [last], x, y);
      assert [] + front + [last] == s;
    } else {
      var i, j :| 0 <= i < j < |Filter(s, p)| && Filter(s, p)[i] == x && Filter(s, p)[j] == y;
      assert j == |f| && y == last && f[i] == x;
      FilterMember(front, p, x);
      var k := PositionOf(front, x);
      assert s[k] == x && s[|front|] == y;
    }
  }

  lemma {:induction false} FilterKeepsPrecedes<T(!new)>(s: seq<T>, p: T -> bool, x: T, y: T)
    requires Precedes(s, x, y) && p(x) && p(y)
    ensures Precedes(Filter(s, p), x, y)
  {
    var front, last := s[..|s| - 1], s[|s| - 1];
    var i, j :| 0 <= i < j < |s| && s[i] == x && s[j] == y;
    var f := Filter(front, p);
    if j < |front| {
      assert front[i] == x && front[j] == y;
      FilterKeepsPrecedes(front, p, x, y);
      PrecedesInLonger([], f, [last], x, y);
      assert [] + f + [last] == f + [last] && [] + f + [] == f;
    } else {
      assert front[i] == x;
      FilterMember(front, p, x);
      var k := PositionOf(f, x);
      assert (f + [last])[k] == x && (f + [last])[|f|] == y;
    }
  }

  lemma {:induction false} FilterPartition<T>(s: seq<T>, p: T -> bool, q: T -> bool)
    requires forall x :: x in s ==> (p(x) <==> !q(x))
    ensures multiset(Filter(s, p)) + multiset(Filter(s, q)) == multiset(s)
  {
    if s == [] {
    } else {
      var front, last := s[..|s| - 1], s[|s| - 1];
      FilterPartition(front, p, q);
      assert s == front + [last] && last in s;
      FilterStep(front, last, p);
      FilterStep(front, last, q);
    }
  }

  lemma SortsToFrontIsFront<T(!new)>(part: seq<T>, whole: seq<T>, leq: (T, T) -> bool)
    requires TotalPreorder(leq) && Distinct(part) && Distinct(whole) && SortsToFront(part, whole, leq)
    ensures Sort(part, leq) <= Sort(whole, leq)
  {
    var rest := Filter(whole, LeftOut(part));
    var p, r := Sort(part, leq), Sort(rest, leq);
    SortPermutes(part, leq);
    SortPermutes(rest, leq);
    RestCompletes(part, whole);
    forall i, j | 0 <= i < j < |p + r| ensures SortsBefore(whole, leq, (p + r)[i], (p + r)[j]) {
      var x, y := (p + r)[i], (p + r)[j];
      if j < |p| {
        SortIsStable(part, leq);
        assert x == p[i] && y == p[j] && x in part && y in part;
      } else if i < |p| {
        assert x in part && y in rest;
        FilterMember(whole, LeftOut(part), y);
      } else {
        SortIsStable(rest, leq);
        assert SortsBefore(rest, leq, x, y);
        if Precedes(rest, x, y) { FilterPrecedes(whole, LeftOut(part), x, y); }
      }
    }
    StablySortedIsSort(p + r, whole, leq);
  }

  lemma RestCompletes<T(!new)>(part: seq<T>, whole: seq<T>)
    requires Distinct(part) && Distinct(whole) && forall x :: x in part ==> x in whole
    ensures multiset(part) + multiset(Filter(whole, LeftOut(part))) == multiset(whole)
  {
    var kept := (x: T) => x in part;
    FilterPartition(whole, LeftOut(part), kept);
    forall x ensures multiset(part)[x] == multiset(Filter(whole, kept))[x] {
      FilterMember(whole, kept, x);
      FilterMultiplicity(whole, kept, x);
      DistinctCount(part, x);
      DistinctCount(whole, x);
      assert x in part <==> x in multiset(part);
      assert x in whole <==> x in multiset(whole);
    }
    assert multiset(part) == multiset(Filter(whole, kept));
  }

  lemma {:induction false} FilterMultiplicity<T>(s: seq<T>, p: T -> bool, x: T)
    ensures multiset(Filter(s, p))[x] == if p(x) then multiset(s)[x] else 0
  {
    if s == [] {
    } else {
      FilterMultiplicity(s[..|s| - 1], p, x);
      assert s == s[..|s| - 1] + [s[|s| - 1]];
    }
  }

  /** For a prefix the condition is simply that nothing later is smaller. */
  lemma PrefixSortsToFrontIff<T(!new)>(s: seq<T>, n: nat, leq: (T, T) -> bool)
    requires Distinct(s) && n <= |s|
    ensures SortsToFront(s[..n], s, leq) <==> forall x, y :: x in s[..n] && y in s[n..] ==> leq(x, y)
  {
    forall x, y | x in s[..n] && y in s[n..] ensures Precedes(s, x, y) && y !in s[..n] && x != y && y in s {
      var i := PositionOf(s[..n], x);
      var j := PositionOf(s[n..], y);
      assert s[i] == x && s[n + j] == y;
    }
    forall y | y in s && y !in s[..n] ensures y in s[n..] {
      assert s == s[..n] + s[n..];
    }
    forall x, y | Precedes(s[..n], x, y) ensures Precedes(s, x, y) {
      PrecedesInLonger([], s[..n], s[n..], x, y);
      assert [] + s[..n] + s[n..] == s;
    }
    assert forall x :: x in s[..n] ==> x in s;
  }
}
