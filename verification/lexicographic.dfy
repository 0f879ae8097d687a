/** Python's comparison of tuples: position by position, and a shorter tuple
    before a longer one that starts with it. */
module Lexicographic {

  predicate LexLeq(a: seq<int>, b: seq<int>) {
    a == [] || (b != [] && (a[0] < b[0] || (a[0] == b[0] && LexLeq(a[1..], b[1..]))))
  }

  lemma {:induction false} LexTotal(a: seq<int>, b: seq<int>)
    ensures LexLeq(a, b) || LexLeq(b, a)
  {
    if a == [] || b == [] {
    } else {
      LexTotal(a[1..], b[1..]);
    }
  }

  lemma {:induction false} LexTransitive(a: seq<int>, b: seq<int>, c: seq<int>)
    requires LexLeq(a, b) && LexLeq(b, c)
    ensures LexLeq(a, c)
  {
    if a == [] {
    } else if a[0] == b[0] == c[0] {
      LexTransitive(a[1..], b[1..], c[1..]);
    }
  }

  /** Only equal tuples tie. */
  lemma {:induction false} LexAntisymmetric(a: seq<int>, b: seq<int>)
    requires LexLeq(a, b) && LexLeq(b, a)
    ensures a == b
  {
    if a == [] {
    } else {
      LexAntisymmetric(a[1..], b[1..]);
      assert a == [a[0]] + a[1..] && b == [b[0]] + b[1..];
    }
  }

  /** A smaller tuple parts from a larger one at some position, or is its front. */
  lemma {:induction false} LexParts(a: seq<int>, b: seq<int>) returns (i: nat)
    requires LexLeq(a, b) && a != b
    ensures i <= |a| && i < |b| && a[..i] == b[..i] && (i == |a| || a[i] < b[i])
  {
    if a == [] || a[0] < b[0] {
      i := 0;
    } else {
      assert a == [a[0]] + a[1..] && b == [b[0]] + b[1..];
      var j := LexParts(a[1..], b[1..]);
      i := j + 1;
      assert a[..i] == [a[0]] + a[1..][..j] && b[..i] == [b[0]] + b[1..][..j];
    }
  }

  lemma LexStep(x: int, y: int, a: seq<int>, b: seq<int>)
    ensures LexLeq([x] + a, [y] + b) <==> x < y || (x == y && LexLeq(a, b))
  {
    assert ([x] + a)[1..] == a && ([y] + b)[1..] == b;
  }

  // ---- Text --------------------------------------------------------------------

  /** `a` comes before `b` in text order: they part at some position. */
  ghost predicate TextBefore(a: string, b: string) {
    exists i :: 0 <= i < |a| && i < |b| && a[..i] == b[..i] && a[i] < b[i]
  }

  lemma PartsAt(a: string, b: string, i: nat)
    requires i < |a| && i < |b| && a[..i] == b[..i] && a[i] < b[i]
    ensures TextBefore(a, b) && !TextBefore(b, a)
  {
    forall j | 0 <= j < |b| && j < |a| && b[..j] == a[..j] ensures !(b[j] < a[j]) {
      if j < i { assert a[j] == a[..i][j] == b[..i][j] == b[j]; }
    }
  }
}
