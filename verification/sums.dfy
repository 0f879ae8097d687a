/** Sums over lists, and the law behind every grouped report: splitting a list by
    a key and adding up the parts gives the whole. */
module Sums {
  import opened Ordering

  function Sum<T>(s: seq<T>, weight: T -> int): int {
    if s == [] then 0 else Sum(s[..|s| - 1], weight) + weight(s[|s| - 1])
  }

  /** The members of `s` whose key is `k`, in order. */
  function WithKey<T>(s: seq<T>, key: T -> int, k: int): seq<T> {
    if s == [] then [] else
      var r := WithKey(s[..|s| - 1], key, k);
      if key(s[|s| - 1]) == k then r + [s[|s| - 1]] else r
  }

  function KeysOf<T>(s: seq<T>, key: T -> int): seq<int> {
    if s == [] then [] else KeysOf(s[..|s| - 1], key) + [key(s[|s| - 1])]
  }

  /** Sum over the groups with the given keys of the sum within each group. */
  function GroupedSum<T>(s: seq<T>, key: T -> int, keys: seq<int>, weight: T -> int): int {
    if keys == [] then 0
    else GroupedSum(s, key, keys[..|keys| - 1], weight) + Sum(WithKey(s, key, keys[|keys| - 1]), weight)
  }

  lemma SumStep<T>(s: seq<T>, x: T, weight: T -> int)
    ensures Sum(s + [x], weight) == Sum(s, weight) + weight(x)
  {
    assert (s + [x])[..|s|] == s;
  }

  lemma {:induction false} SumAppend<T>(a: seq<T>, b: seq<T>, weight: T -> int)
    ensures Sum(a + b, weight) == Sum(a, weight) + Sum(b, weight)
  {
    if b == [] {
      assert a + b == a;
    } else {
      var n := |b| - 1;
      SumAppend(a, b[..n], weight);
      assert (a + b)[..|a + b| - 1] == a + b[..n];
    }
  }

  lemma {:induction false} CountedAs<T>(s: seq<T>, weight: T -> int, p: T -> bool)
    requires forall x :: weight(x) == if p(x) then 1 else 0
    ensures Sum(s, weight) == |Filter(s, p)|
  {
    if s != [] { CountedAs(s[..|s| - 1], weight, p); }
  }

  lemma {:induction false} EachCounted<T>(s: seq<T>, weight: T -> int)
    requires forall x :: weight(x) == 1
    ensures Sum(s, weight) == |s|
  {
    if s != [] { EachCounted(s[..|s| - 1], weight); }
  }

  lemma {:induction false} SumSame<T>(s: seq<T>, f: T -> int, g: T -> int)
    requires forall x :: f(x) == g(x)
    ensures Sum(s, f) == Sum(s, g)
  {
    if s != [] { SumSame(s[..|s| - 1], f, g); }
  }

  lemma {:induction false} WithKeyIsFilter<T>(s: seq<T>, key: T -> int, k: int, p: T -> bool)
    requires forall x :: p(x) <==> key(x) == k
    ensures WithKey(s, key, k) == Filter(s, p)
  {
    if s != [] { WithKeyIsFilter(s[..|s| - 1], key, k, p); }
  }

  lemma {:induction false} WithKeyMember<T>(s: seq<T>, key: T -> int, k: int, x: T)
    ensures x in WithKey(s, key, k) <==> x in s && key(x) == k
  {
    if s != [] {
      WithKeyMember(s[..|s| - 1], key, k, x);
      assert s == s[..|s| - 1] + [s[|s| - 1]];
    }
  }

  lemma {:induction false} KeysOfMember<T>(s: seq<T>, key: T -> int, k: int)
    ensures k in KeysOf(s, key) <==> exists x :: x in s && key(x) == k
  {
    if s != [] {
      KeysOfMember(s[..|s| - 1], key, k);
      assert s == s[..|s| - 1] + [s[|s| - 1]];
    }
  }

  lemma {:induction false} WithKeyEmpty<T>(s: seq<T>, key: T -> int, k: int)
    ensures WithKey(s, key, k) == [] <==> k !in KeysOf(s, key)
  {
    if s != [] { WithKeyEmpty(s[..|s| - 1], key, k); }
  }

  lemma {:induction false} KeysOfAt<T>(s: seq<T>, key: T -> int)
    ensures |KeysOf(s, key)| == |s|
    ensures forall i :: 0 <= i < |s| ==> KeysOf(s, key)[i] == key(s[i])
  {
    if s != [] { KeysOfAt(s[..|s| - 1], key); }
  }

  lemma KeysOfAppend<T>(a: seq<T>, b: seq<T>, key: T -> int)
    ensures KeysOf(a + b, key) == KeysOf(a, key) + KeysOf(b, key)
  {
    KeysOfAt(a, key);
    KeysOfAt(b, key);
    KeysOfAt(a + b, key);
  }

  lemma WithKeyStep<T>(s: seq<T>, x: T, key: T -> int, k: int)
    ensures WithKey(s + [x], key, k) == if key(x) == k then WithKey(s, key, k) + [x] else WithKey(s, key, k)
    ensures KeysOf(s + [x], key) == KeysOf(s, key) + [key(x)]
  {
    assert (s + [x])[..|s|] == s;
  }

  lemma GroupStep<T>(s: seq<T>, x: T, key: T -> int, k: int, weight: T -> int)
    ensures Sum(WithKey(s + [x], key, k), weight) == Sum(WithKey(s, key, k), weight) + if key(x) == k then weight(x) else 0
  {
    WithKeyStep(s, x, key, k);
    SumStep(WithKey(s, key, k), x, weight);
  }

  lemma LastKey(keys: seq<int>, k: int)
    requires keys != [] && Distinct(keys)
    ensures k in keys <==> k in keys[..|keys| - 1] || k == keys[|keys| - 1]
    ensures !(k in keys[..|keys| - 1] && k == keys[|keys| - 1])
  {
    assert keys == keys[..|keys| - 1] + [keys[|keys| - 1]];
  }

  lemma {:induction false} GroupedSumStep<T>(s: seq<T>, x: T, key: T -> int, keys: seq<int>, weight: T -> int)
    requires Distinct(keys)
    ensures GroupedSum(s + [x], key, keys, weight) ==
            GroupedSum(s, key, keys, weight) + if key(x) in keys then weight(x) else 0
  {
    if keys != [] {
      var n := |keys| - 1;
      GroupedSumStep(s, x, key, keys[..n], weight);
      GroupStep(s, x, key, keys[n], weight);
      LastKey(keys, key(x));
    }
  }

  lemma {:induction false} GroupedSumEmpty<T>(key: T -> int, keys: seq<int>, weight: T -> int)
    ensures GroupedSum([], key, keys, weight) == 0
  {
    if keys != [] { GroupedSumEmpty(key, keys[..|keys| - 1], weight); }
  }

  /** Grouping by any key loses nothing and counts nothing twice. */
  lemma {:induction false} GroupsAddUp<T>(s: seq<T>, key: T -> int, keys: seq<int>, weight: T -> int)
    requires Distinct(keys) && forall k :: k in KeysOf(s, key) ==> k in keys
    ensures GroupedSum(s, key, keys, weight) == Sum(s, weight)
  {
    if s == [] {
      GroupedSumEmpty(key, keys, weight);
    } else {
      var n := |s| - 1;
      assert s == s[..n] + [s[n]];
      WithKeyStep(s[..n], s[n], key, 0);
      GroupsAddUp(s[..n], key, keys, weight);
      GroupedSumStep(s[..n], s[n], key, keys, weight);
      assert key(s[n]) in KeysOf(s, key);
    }
  }

  /** A sum does not depend on the order of its terms. */
  lemma {:induction false} SumPermuted<T>(a: seq<T>, b: seq<T>, weight: T -> int)
    requires multiset(a) == multiset(b)
    ensures Sum(a, weight) == Sum(b, weight)
  {
    if a == [] {
      assert |multiset(a)| == |multiset(b)|;
    } else {
      var n := |a| - 1;
      assert a == a[..n] + [a[n]];
      assert a[n] in multiset(b);
      var k :| 0 <= k < |b| && b[k] == a[n];
      var rest := b[..k] + b[k + 1..];
      assert b == b[..k] + [b[k]] + b[k + 1..];
      assert multiset(rest) == multiset(b) - multiset{b[k]};
      assert multiset(a[..n]) == multiset(a) - multiset{a[n]};
      SumPermuted(a[..n], rest, weight);
      SumAppend(b[..k], b[k + 1..], weight);
      SumAppend(b[..k] + [b[k]], b[k + 1..], weight);
      SumStep(b[..k], b[k], weight);
    }
  }

  // ---- A defaultdict of lists ------------------------------------------------

  ghost predicate Grouped<T(!new)>(s: seq<T>, key: T -> int, order: seq<int>, grouped: map<int, seq<T>>) {
    && order == FirstOccurrences(KeysOf(s, key))
    && (forall id :: id in grouped <==> id in KeysOf(s, key))
    && (forall id :: id in grouped ==> grouped[id] == WithKey(s, key, id))
  }

  lemma GroupedStep<T(!new)>(s: seq<T>, x: T, key: T -> int, order: seq<int>, grouped: map<int, seq<T>>)
    requires Grouped(s, key, order, grouped)
    ensures var known := key(x) in grouped;
            Grouped(s + [x], key, if known then order else order + [key(x)],
                    grouped[key(x) := (if known then grouped[key(x)] else []) + [x]])
  {
    FirstOccurrencesStep(KeysOf(s, key), key(x));
    WithKeyEmpty(s, key, key(x));
    WithKeyStep(s, x, key, key(x));
    var known := key(x) in grouped;
    var grown := grouped[key(x) := (if known then grouped[key(x)] else []) + [x]];
    forall id | id in grown ensures grown[id] == WithKey(s + [x], key, id) {
      WithKeyStep(s, x, key, id);
    }
  }

  /** `grouped[key].append(item)` over a defaultdict of lists. */
  method GroupBy<T(!new)>(s: seq<T>, key: T -> int) returns (order: seq<int>, grouped: map<int, seq<T>>)
    ensures Grouped(s, key, order, grouped)
  {
    order, grouped := [], map[];
    for i := 0 to |s|
      invariant Grouped(s[..i], key, order, grouped)
    {
      GroupedStep(s[..i], s[i], key, order, grouped);
      assert s[..i + 1] == s[..i] + [s[i]];
      var k := key(s[i]);
      if k in grouped {
        grouped := grouped[k := grouped[k] + [s[i]]];
      } else {
        order := order + [k];
        grouped := grouped[k := [s[i]]];
      }
    }
    assert s[..|s|] == s;
  }
}
