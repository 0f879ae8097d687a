/** The first element of each key, in order of appearance: what `dict.setdefault`
    keeps, and what a loop with a `seen` set collects. */
module FirstPerKey {
  import opened Ordering
  import opened Sums

  predicate HasKey<T(==,!new), K(==)>(s: seq<T>, key: T -> K, k: K) {
    exists x :: x in s && key(x) == k
  }

  /** No two elements share a key. */
  ghost predicate DistinctKeys<T, K>(s: seq<T>, key: T -> K) {
    forall i, j :: 0 <= i < j < |s| ==> key(s[i]) != key(s[j])
  }

  ghost function KeySet<T(!new), K>(s: seq<T>, key: T -> K): set<K> {
    set x | x in s :: key(x)
  }

  function FirstPer<T(==,!new), K(==)>(s: seq<T>, key: T -> K): seq<T> {
    if s == [] then [] else
      var r := FirstPer(s[..|s| - 1], key);
      var x := s[|s| - 1];
      if HasKey(r, key, key(x)) then r else r + [x]
  }

  /** `s[i]` is the first element of `s` with its key. */
  ghost predicate IsFirst<T, K>(s: seq<T>, key: T -> K, i: int) {
    0 <= i < |s| && forall j :: 0 <= j < i ==> key(s[j]) != key(s[i])
  }

  lemma FirstPerStep<T(!new), K>(s: seq<T>, x: T, key: T -> K)
    ensures FirstPer(s + [x], key) ==
            if HasKey(FirstPer(s, key), key, key(x)) then FirstPer(s, key) else FirstPer(s, key) + [x]
  {
    assert (s + [x])[..|s|] == s;
  }

  /** With the set of keys already seen at hand. */
  lemma FirstPerSeen<T(!new), K>(s: seq<T>, x: T, key: T -> K)
    ensures FirstPer(s + [x], key) ==
            if key(x) in KeySet(FirstPer(s, key), key) then FirstPer(s, key) else FirstPer(s, key) + [x]
    ensures KeySet(FirstPer(s, key) + [x], key) == KeySet(FirstPer(s, key), key) + {key(x)}
  {
    FirstPerStep(s, x, key);
    KeySetStep(FirstPer(s, key), x, key);
  }

  /** Every key is represented, once, by an element of the sequence. */
  lemma {:induction false} FirstPerSpec<T(!new), K>(s: seq<T>, key: T -> K)
    ensures DistinctKeys(FirstPer(s, key), key)
    ensures forall x :: x in FirstPer(s, key) ==> x in s
    ensures KeySet(FirstPer(s, key), key) == KeySet(s, key)
  {
    if s == [] {
    } else {
      var p, x := s[..|s| - 1], s[|s| - 1];
      FirstPerSpec(p, key);
      assert s == p + [x];
      var r := FirstPer(p, key);
      KeySetStep(p, x, key);
      KeySetStep(r, x, key);
      assert HasKey(r, key, key(x)) <==> key(x) in KeySet(r, key);
    }
  }

  lemma KeySetStep<T(!new), K>(s: seq<T>, x: T, key: T -> K)
    ensures KeySet(s + [x], key) == KeySet(s, key) + {key(x)}
  {
    assert forall y :: y in s + [x] <==> y in s || y == x;
    assert x in s + [x];
  }

  lemma KeptKey<T(!new)>(s: seq<T>, key: T -> int, k: int)
    ensures HasKey(FirstPer(s, key), key, k) <==> k in KeysOf(s, key)
  {
    FirstPerSpec(s, key);
    KeysOfMember(s, key, k);
    assert k in KeySet(s, key) <==> k in KeysOf(s, key);
  }

  /** Each key is represented by its first element. */
  lemma {:induction false} FirstPerKeepsFirsts<T(!new), K>(s: seq<T>, key: T -> K, i: nat)
    requires IsFirst(s, key, i)
    ensures s[i] in FirstPer(s, key)
  {
    var p, x := s[..|s| - 1], s[|s| - 1];
    assert s == p + [x];
    FirstPerSpec(p, key);
    if i < |p| {
      assert forall j :: 0 <= j < i ==> p[j] == s[j];
      assert IsFirst(p, key, i);
      FirstPerKeepsFirsts(p, key, i);
    } else {
      assert forall j :: 0 <= j < |p| ==> p[j] == s[j];
      assert !HasKey(p, key, key(x));
    }
  }

  /** What represents a key is the first element with it. */
  lemma {:induction false} FirstPerIsFirst<T(!new)>(s: seq<T>, key: T -> int, x: T, p: T -> bool)
    requires x in FirstPer(s, key) && forall y :: p(y) <==> key(y) == key(x)
    ensures Filter(s, p) != [] && Filter(s, p)[0] == x
  {
    var front, last := s[..|s| - 1], s[|s| - 1];
    assert s == front + [last];
    FilterStep(front, last, p);
    if x in FirstPer(front, key) {
      FirstPerIsFirst(front, key, x, p);
    } else {
      FirstPerSpec(front, key);
      FilterNone(front, p);
      forall y | y in front ensures key(y) != key(x) { assert key(y) in KeySet(front, key); }
    }
  }

  /** The keys are those of the whole sequence, in order of first appearance. */
  lemma {:induction false} KeysOfFirstPer<T(!new)>(s: seq<T>, key: T -> int)
    ensures KeysOf(FirstPer(s, key), key) == FirstOccurrences(KeysOf(s, key))
  {
    if s != [] {
      var front, last := s[..|s| - 1], s[|s| - 1];
      KeysOfFirstPer(front, key);
      KeptKey(front, key, key(last));
      WithKeyStep(FirstPer(front, key), last, key, 0);
    }
  }

  /** What is left of a sorted sequence is sorted. */
  lemma {:induction false} FirstPerSorted<T(!new), K>(s: seq<T>, key: T -> K, leq: (T, T) -> bool)
    requires SortedBy(s, leq)
    ensures SortedBy(FirstPer(s, key), leq)
  {
    if s == [] {
    } else {
      var p, x := s[..|s| - 1], s[|s| - 1];
      FirstPerSorted(p, key, leq);
      FirstPerSpec(p, key);
      forall y | y in FirstPer(p, key) ensures leq(y, x) {
        var j :| 0 <= j < |p| && p[j] == y;
        assert leq(s[j], s[|p|]);
      }
    }
  }

  /** Longer inputs only append. */
  lemma {:induction false} FirstPerPrefix<T(!new), K>(s: seq<T>, t: seq<T>, key: T -> K)
    ensures FirstPer(s, key) <= FirstPer(s + t, key)
  {
    if t == [] {
      assert s + t == s;
    } else {
      FirstPerPrefix(s, t[..|t| - 1], key);
      assert s + t == (s + t[..|t| - 1]) + [t[|t| - 1]];
      FirstPerStep(s + t[..|t| - 1], t[|t| - 1], key);
    }
  }

  /** Where keys are distinct, there are as many keys as elements. */
  lemma {:induction false} DistinctKeysCount<T(!new), K>(s: seq<T>, key: T -> K)
    requires DistinctKeys(s, key)
    ensures |KeySet(s, key)| == |s|
  {
    if s == [] {
    } else {
      var p, x := s[..|s| - 1], s[|s| - 1];
      DistinctKeysCount(p, key);
      assert s == p + [x];
      KeySetStep(p, x, key);
      assert forall j :: 0 <= j < |p| ==> p[j] == s[j];
      assert key(x) !in KeySet(p, key);
    }
  }

  /** There are never more keys than elements. */
  lemma {:induction false} KeysAtMostElements<T(!new), K>(s: seq<T>, key: T -> K)
    ensures |KeySet(s, key)| <= |s|
  {
    if s == [] {
    } else {
      var p, x := s[..|s| - 1], s[|s| - 1];
      KeysAtMostElements(p, key);
      assert s == p + [x];
      KeySetStep(p, x, key);
    }
  }

  lemma FirstPerCount<T(!new), K>(s: seq<T>, key: T -> K)
    ensures |FirstPer(s, key)| == |KeySet(s, key)|
  {
    FirstPerSpec(s, key);
    DistinctKeysCount(FirstPer(s, key), key);
  }

  lemma SubsetSize<K>(a: set<K>, b: set<K>)
    requires a <= b
    ensures |a| <= |b|
  {
    assert b == a + (b - a);
  }
}
