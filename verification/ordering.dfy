/** The shared vocabulary: an optional value, a fallible result, Python's stable
    `sorted`, and the first-occurrence order in which a Python dict lists its keys. */
module Ordering {

  datatype Option<+T> = None | Some(value: T)

  datatype Result<+T, +E> = Ok(value: T) | Err(error: E)

  // ---- Stable sorting ----------------------------------------------------

  ghost predicate TotalPreorder<T(!new)>(leq: (T, T) -> bool) {
    && (forall x, y :: leq(x, y) || leq(y, x))
    && (forall x, y, z :: leq(x, y) && leq(y, z) ==> leq(x, z))
  }

  ghost predicate SortedBy<T>(s: seq<T>, leq: (T, T) -> bool) {
    forall i, j :: 0 <= i < j < |s| ==> leq(s[i], s[j])
  }

  function Insert<T>(x: T, s: seq<T>, leq: (T, T) -> bool): seq<T> {
    if s == [] || leq(x, s[0]) then [x] + s else [s[0]] + Insert(x, s[1..], leq)
  }

  /** Python's `sorted` with the order of the keys given as `leq`. */
  function Sort<T>(s: seq<T>, leq: (T, T) -> bool): seq<T> {
    if s == [] then [] else Insert(s[0], Sort(s[1..], leq), leq)
  }

  lemma {:induction false} InsertPermutes<T>(x: T, s: seq<T>, leq: (T, T) -> bool)
    ensures multiset(Insert(x, s, leq)) == multiset(s) + multiset{x}
  {
    if s == [] || leq(x, s[0]) {
    } else {
      InsertPermutes(x, s[1..], leq);
      assert s == [s[0]] + s[1..];
    }
  }

  lemma {:induction false} SortPermutes<T>(s: seq<T>, leq: (T, T) -> bool)
    ensures multiset(Sort(s, leq)) == multiset(s)
    ensures |Sort(s, leq)| == |s|
    ensures forall x :: x in Sort(s, leq) <==> x in s
  {
    if s == [] {
    } else {
      SortPermutes(s[1..], leq);
      InsertPermutes(s[0], Sort(s[1..], leq), leq);
      assert s == [s[0]] + s[1..];
    }
    assert |multiset(Sort(s, leq))| == |multiset(s)|;
    forall x ensures x in Sort(s, leq) <==> x in s {
      assert x in Sort(s, leq) <==> x in multiset(Sort(s, leq));
      assert x in s <==> x in multiset(s);
    }
  }

  lemma {:induction false} InsertSorted<T(!new)>(x: T, s: seq<T>, leq: (T, T) -> bool)
    requires TotalPreorder(leq) && SortedBy(s, leq)
    ensures SortedBy(Insert(x, s, leq), leq)
  {
    if s == [] || leq(x, s[0]) {
    } else {
      InsertSorted(x, s[1..], leq);
      var rest := Insert(x, s[1..], leq);
      InsertPermutes(x, s[1..], leq);
      forall y | y in rest ensures leq(s[0], y) {
        assert y in multiset(rest);
        assert y == x || y in s[1..];
      }
    }
  }

  lemma {:induction false} SortSorts<T(!new)>(s: seq<T>, leq: (T, T) -> bool)
    requires TotalPreorder(leq)
    ensures SortedBy(Sort(s, leq), leq)
  {
    if s == [] {
    } else {
      SortSorts(s[1..], leq);
      InsertSorted(s[0], Sort(s[1..], leq), leq);
    }
  }

  /** Sorting what is already sorted changes nothing. */
  lemma {:induction false} SortFixesSorted<T>(s: seq<T>, leq: (T, T) -> bool)
    requires SortedBy(s, leq)
    ensures Sort(s, leq) == s
  {
    if s == [] {
    } else {
      SortFixesSorted(s[1..], leq);
    }
  }

  /** Of the elements that tie for first place, the earliest one comes first. */
  lemma {:induction false} SortHead<T(!new)>(s: seq<T>, leq: (T, T) -> bool) returns (k: nat)
    requires TotalPreorder(leq) && s != []
    ensures k < |s| && Sort(s, leq) != [] && Sort(s, leq)[0] == s[k]
    ensures forall i :: 0 <= i < |s| ==> leq(s[k], s[i])
    ensures forall i :: 0 <= i < k ==> !leq(s[i], s[k])
  {
    SortPermutes(s, leq);
    if |s| == 1 {
      k := 0;
    } else {
      var j := SortHead(s[1..], leq);
      SortPermutes(s[1..], leq);
      if leq(s[0], s[1..][j]) {
        k := 0;
        forall i | 0 <= i < |s| ensures leq(s[0], s[i]) {
          if i > 0 { assert s[i] == s[1..][i - 1]; }
        }
      } else {
        k := j + 1;
        forall i | 0 <= i < |s| ensures leq(s[k], s[i]) {
          if i > 0 { assert s[i] == s[1..][i - 1]; }
        }
        forall i | 0 <= i < k ensures !leq(s[i], s[k]) {
          if i > 0 { assert s[i] == s[1..][i - 1]; }
        }
      }
    }
  }

  /** Where the order never ties, a sorted list is determined by its elements. */
  lemma {:induction false} SortedUnique<T>(a: seq<T>, b: seq<T>, leq: (T, T) -> bool)
    requires SortedBy(a, leq) && SortedBy(b, leq) && multiset(a) == multiset(b)
    requires forall x, y :: x in a && y in a && leq(x, y) && leq(y, x) ==> x == y
    ensures a == b
  {
    assert |multiset(a)| == |multiset(b)|;
    if a != [] {
      SortedFirst(a, b, leq);
      MultisetTail(a);
      MultisetTail(b);
      SortedUnique(a[1..], b[1..], leq);
    }
  }

  lemma MultisetTail<T>(s: seq<T>)
    requires s != []
    ensures s == [s[0]] + s[1..] && multiset(s[1..]) == multiset(s) - multiset{s[0]}
    ensures forall x :: x in s[1..] ==> x in s
  {
    assert s == [s[0]] + s[1..];
  }

  lemma SortedFirst<T>(a: seq<T>, b: seq<T>, leq: (T, T) -> bool)
    requires SortedBy(a, leq) && SortedBy(b, leq) && multiset(a) == multiset(b) && a != [] && b != []
    requires forall x, y :: x in a && y in a && leq(x, y) && leq(y, x) ==> x == y
    ensures a[0] == b[0]
  {
    assert a[0] in multiset(b) && b[0] in multiset(a);
    var i :| 0 <= i < |a| && a[i] == b[0];
    var j :| 0 <= j < |b| && b[j] == a[0];
    if i > 0 && j > 0 {
      assert leq(a[0], a[i]) && leq(b[0], b[j]);
    }
  }

  // ---- Comprehensions with a condition -----------------------------------

  function Filter<T>(s: seq<T>, p: T -> bool): seq<T> {
    if s == [] then [] else
      var r := Filter(s[..|s| - 1], p);
      if p(s[|s| - 1]) then r + [s[|s| - 1]] else r
  }

  lemma {:induction false} FilterMember<T>(s: seq<T>, p: T -> bool, x: T)
    ensures x in Filter(s, p) <==> x in s && p(x)
  {
    if s == [] {
    } else {
      FilterMember(s[..|s| - 1], p, x);
      assert s == s[..|s| - 1] + [s[|s| - 1]];
    }
  }

  lemma FilterStep<T>(s: seq<T>, x: T, p: T -> bool)
    ensures Filter(s + [x], p) == if p(x) then Filter(s, p) + [x] else Filter(s, p)
  {
    assert (s + [x])[..|s|] == s;
  }

  lemma {:induction false} FilterPrefix<T>(s: seq<T>, t: seq<T>, p: T -> bool)
    ensures Filter(s, p) <= Filter(s + t, p)
  {
    if t == [] {
      assert s + t == s;
    } else {
      FilterPrefix(s, t[..|t| - 1], p);
      assert s + t == (s + t[..|t| - 1]) + [t[|t| - 1]];
      FilterStep(s + t[..|t| - 1], t[|t| - 1], p);
    }
  }

  lemma {:induction false} FilterAll<T>(s: seq<T>, p: T -> bool)
    requires forall x :: x in s ==> p(x)
    ensures Filter(s, p) == s
  {
    if s == [] {
    } else {
      FilterAll(s[..|s| - 1], p);
      assert s == s[..|s| - 1] + [s[|s| - 1]];
    }
  }

  lemma FilterNone<T>(s: seq<T>, p: T -> bool)
    ensures Filter(s, p) == [] <==> forall x :: x in s ==> !p(x)
  {
    forall x { FilterMember(s, p, x); }
    if Filter(s, p) != [] {
      assert Filter(s, p)[0] in Filter(s, p);
    }
  }

  /** `picked` is what stands at the positions `at`, which are those where `p` holds. */
  ghost predicate PickedAt<T>(picked: seq<T>, s: seq<T>, p: T -> bool, at: seq<nat>) {
    && |at| == |picked|
    && (forall i :: 0 <= i < |at| ==> at[i] < |s| && s[at[i]] == picked[i] && p(picked[i]))
    && (forall i, j :: 0 <= i < j < |at| ==> at[i] < at[j])
    && (forall k :: 0 <= k < |s| && p(s[k]) ==> k in at)
  }

  lemma {:induction false} FilterPicks<T>(s: seq<T>, p: T -> bool) returns (at: seq<nat>)
    ensures PickedAt(Filter(s, p), s, p, at)
  {
    if s == [] {
      at := [];
    } else {
      var n := |s| - 1;
      at := FilterPicks(s[..n], p);
      PickedStep(Filter(s[..n], p), s[..n], s[n], p, at);
      assert s == s[..n] + [s[n]];
      if p(s[n]) { at := at + [n]; }
    }
  }

  lemma PickedStep<T>(picked: seq<T>, s: seq<T>, x: T, p: T -> bool, at: seq<nat>)
    requires PickedAt(picked, s, p, at)
    ensures if p(x) then PickedAt(picked + [x], s + [x], p, at + [|s|]) else PickedAt(picked, s + [x], p, at)
  {
    var longer := s + [x];
    forall k | 0 <= k < |s| && p(longer[k]) ensures k in at {
      assert longer[k] == s[k];
    }
    if p(x) { assert (at + [|s|])[|at|] == |s|; }
  }

  lemma {:induction false} FilterAppend<T>(s: seq<T>, t: seq<T>, p: T -> bool)
    ensures Filter(s + t, p) == Filter(s, p) + Filter(t, p)
  {
    if t == [] {
      assert s + t == s;
    } else {
      var n := |t| - 1;
      FilterAppend(s, t[..n], p);
      assert s + t == (s + t[..n]) + [t[n]] && t == t[..n] + [t[n]];
      FilterStep(s + t[..n], t[n], p);
    }
  }

  lemma PrefixStep<T>(s: seq<T>, i: nat)
    requires i < |s|
    ensures s[..i + 1] == s[..i] + [s[i]]
  {
  }

  lemma OneMore<T>(a: seq<T>, b: seq<T>, i: nat)
    requires i < |b|
    ensures a + b[..i + 1] == a + b[..i] + [b[i]]
  {
  }

  // ---- Concatenation ----------------------------------------------------

  function Flatten<T>(groups: seq<seq<T>>): (r: seq<T>) {
    if groups == [] then [] else Flatten(groups[..|groups| - 1]) + groups[|groups| - 1]
  }

  lemma {:induction false} FlattenMember<T>(groups: seq<seq<T>>, x: T)
    ensures x in Flatten(groups) <==> exists k :: 0 <= k < |groups| && x in groups[k]
  {
    if groups == [] {
    } else {
      var n := |groups| - 1;
      FlattenMember(groups[..n], x);
      if x in Flatten(groups[..n]) {
        var k :| 0 <= k < n && x in groups[..n][k];
        assert x in groups[k];
      }
      if k :| 0 <= k < |groups| && x in groups[k] {
        if k < n { assert x in groups[..n][k]; }
      }
    }
  }

  lemma {:induction false} FlattenAppend<T>(a: seq<seq<T>>, b: seq<seq<T>>)
    ensures Flatten(a + b) == Flatten(a) + Flatten(b)
  {
    if b == [] {
      assert a + b == a;
    } else {
      var n := |b| - 1;
      FlattenAppend(a, b[..n]);
      assert (a + b)[..|a + b| - 1] == a + b[..n];
    }
  }

  // ---- Key order of a dict ----------------------------------------------

  predicate Distinct<T(==)>(s: seq<T>) {
    forall i, j :: 0 <= i < j < |s| ==> s[i] != s[j]
  }

  /** The keys of a dict filled by assigning to the keys `s` in turn. */
  function FirstOccurrences<T(==,!new)>(s: seq<T>): (r: seq<T>)
    ensures Distinct(r)
    ensures forall x :: x in r <==> x in s
  {
    if s == [] then [] else
      var r := FirstOccurrences(s[..|s| - 1]);
      var x := s[|s| - 1];
      assert s == s[..|s| - 1] + [x];
      if x in r then r else r + [x]
  }

  lemma FirstOccurrencesStep<T(!new)>(s: seq<T>, x: T)
    ensures FirstOccurrences(s + [x]) ==
            if x in s then FirstOccurrences(s) else FirstOccurrences(s) + [x]
  {
    assert (s + [x])[..|s|] == s;
  }

  /** The keys come in the order in which they first appear. */
  lemma {:induction false} FirstOccurrencesInOrder<T(!new)>(s: seq<T>, i: nat, j: nat) returns (a: nat)
    requires i < j < |FirstOccurrences(s)|
    ensures a < |s| && s[a] == FirstOccurrences(s)[i]
    ensures forall b :: 0 <= b <= a ==> s[b] != FirstOccurrences(s)[j]
  {
    var n := |s| - 1;
    var r := FirstOccurrences(s[..n]);
    if j < |r| {
      a := FirstOccurrencesInOrder(s[..n], i, j);
    } else {
      assert r[i] in s[..n];
      a :| 0 <= a < n && s[a] == r[i];
      assert forall b :: 0 <= b < n ==> s[b] == s[..n][b] && s[..n][b] in s[..n];
    }
  }

  /** Keys that were reduced before are reduced alike. */
  lemma {:induction false} FirstOccurrencesAgain<T(!new)>(a: seq<T>, b: seq<T>)
    ensures FirstOccurrences(FirstOccurrences(a) + b) == FirstOccurrences(a + b)
  {
    if b == [] {
      assert a + b == a && FirstOccurrences(a) + b == FirstOccurrences(a);
      FirstOccurrencesOfDistinct(FirstOccurrences(a));
    } else {
      var n := |b| - 1;
      var f := FirstOccurrences(a);
      FirstOccurrencesAgain(a, b[..n]);
      assert a + b == (a + b[..n]) + [b[n]];
      assert f + b == (f + b[..n]) + [b[n]];
      FirstOccurrencesStep(a + b[..n], b[n]);
      FirstOccurrencesStep(f + b[..n], b[n]);
    }
  }

  lemma {:induction false} FirstOccurrencesOfDistinct<T(!new)>(s: seq<T>)
    requires Distinct(s)
    ensures FirstOccurrences(s) == s
  {
    if s != [] {
      var n := |s| - 1;
      FirstOccurrencesOfDistinct(s[..n]);
      assert s[n] !in s[..n];
    }
  }

  function IntLeq(): (int, int) -> bool { (x, y) => x <= y }

  ghost predicate Increasing(s: seq<int>) {
    forall i, j :: 0 <= i < j < |s| ==> s[i] < s[j]
  }

  /** `sorted(keys)` for a dict with these keys: each key once, increasing. */
  function SortedKeys(s: seq<int>): seq<int> {
    Sort(FirstOccurrences(s), IntLeq())
  }

  lemma DistinctMultiset<T>(s: seq<T>)
    ensures Distinct(s) <==> forall x :: multiset(s)[x] <= 1
  {
    if Distinct(s) {
      forall x ensures multiset(s)[x] <= 1 { DistinctCount(s, x); }
    } else {
      var i, j :| 0 <= i < j < |s| && s[i] == s[j];
      assert s == s[..j] + [s[j]] + s[j + 1..];
      assert s[i] in s[..j];
      assert multiset(s) == multiset(s[..j]) + multiset{s[j]} + multiset(s[j + 1..]);
      assert multiset(s)[s[j]] >= 2;
    }
  }

  lemma {:induction false} DistinctCount<T>(s: seq<T>, x: T)
    requires Distinct(s)
    ensures multiset(s)[x] <= 1
  {
    if s == [] {
    } else {
      DistinctCount(s[1..], x);
      assert s == [s[0]] + s[1..];
      assert s[0] !in s[1..];
    }
  }

  lemma SortedKeysSpec(s: seq<int>)
    ensures Increasing(SortedKeys(s))
    ensures forall x :: x in SortedKeys(s) <==> x in s
  {
    var r := FirstOccurrences(s);
    SortSorts(r, IntLeq());
    SortPermutes(r, IntLeq());
    DistinctMultiset(r);
    DistinctMultiset(SortedKeys(s));
  }

  /** A strictly increasing sequence is determined by its elements. */
  lemma {:induction false} IncreasingUnique(a: seq<int>, b: seq<int>)
    requires Increasing(a) && Increasing(b)
    requires forall x :: x in a <==> x in b
    ensures a == b
  {
    assert |b| > 0 ==> b[0] in b;
    if a == [] {
    } else {
      assert a[0] in a;
      assert a[0] in b && b[0] in a;
      assert a[0] == b[0];
      forall x ensures x in a[1..] <==> x in b[1..] {
        assert x in a <==> x == a[0] || x in a[1..];
        assert x in b <==> x == b[0] || x in b[1..];
      }
      IncreasingUnique(a[1..], b[1..]);
      assert a == [a[0]] + a[1..] && b == [b[0]] + b[1..];
    }
  }

  /** The members of a set in some order, each once. */
  method Enumerate<T(!new)>(s: set<T>) returns (r: seq<T>)
    ensures |r| == |s| && Distinct(r)
    ensures forall x :: x in r <==> x in s
  {
    r := [];
    var remaining := s;
    while remaining != {}
      invariant remaining <= s && |r| + |remaining| == |s|
      invariant Distinct(r)
      invariant forall x :: x in r <==> x in s && x !in remaining
      decreases remaining
    {
      var x :| x in remaining;
      remaining := remaining - {x};
      r := r + [x];
    }
  }
}
