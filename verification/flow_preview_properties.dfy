/** What merging keeps, and why no better preview of the same size exists. */
module FlowPreviewProperties {
  import opened Ordering
  import opened Lexicographic
  import opened FirstPerKey
  import opened FlowPreview

  ghost function Kinds(steps: seq<Step>): set<Kind> {
    KeySet(steps, KindOf())
  }

  // ---- Merging -----------------------------------------------------------

  /** Provenance is united: an entry is held for a key exactly if a step with that key carried it. */
  lemma {:induction false} EvidenceIsUnion(steps: seq<Step>, key: StepKey, entry: int)
    ensures entry in Evidence(steps, key) <==> exists s :: s in steps && s.key == key && entry in s.provenance
  {
    if steps == [] {
    } else {
      var p, x := steps[..|steps| - 1], steps[|steps| - 1];
      EvidenceIsUnion(p, key, entry);
      assert steps == p + [x];
      assert x in steps;
      if key !in KeysOf(p) { EvidenceAbsent(p, key); }
      assert forall s :: s in steps <==> s in p || s == x;
    }
  }

  lemma {:induction false} EvidenceAbsent(steps: seq<Step>, key: StepKey)
    requires key !in KeysOf(steps)
    ensures Evidence(steps, key) == []
    ensures forall s :: s in steps ==> s.key != key
  {
    forall s | s in steps ensures s.key != key {
      var i :| 0 <= i < |steps| && steps[i] == s;
      assert KeysOf(steps)[i] == s.key;
    }
    if steps == [] {
    } else {
      var p := steps[..|steps| - 1];
      forall i | 0 <= i < |p| ensures KeysOf(p)[i] != key {
        assert KeysOf(steps)[i] == p[i].key;
      }
      EvidenceAbsent(p, key);
      assert KeysOf(steps)[|p|] == steps[|p|].key;
    }
  }

  /** One step per key, in the order in which the keys first appeared. */
  lemma DedupedKeys(steps: seq<Step>)
    ensures KeysOf(Deduped(steps)) == FirstOccurrences(KeysOf(steps))
    ensures DistinctKeys(Deduped(steps), StepKeyOf())
  {
    var r := Deduped(steps);
    assert forall i :: 0 <= i < |r| ==> r[i].key == FirstOccurrences(KeysOf(steps))[i];
  }

  lemma {:induction false} EvidenceOfDistinct(steps: seq<Step>, i: nat)
    requires DistinctKeys(steps, StepKeyOf()) && i < |steps|
    ensures Evidence(steps, steps[i].key) == steps[i].provenance
  {
    var p := steps[..|steps| - 1];
    assert forall j :: 0 <= j < |p| ==> KeysOf(p)[j] == StepKeyOf()(steps[j]);
    if i < |p| {
      EvidenceOfDistinct(p, i);
      assert StepKeyOf()(steps[|p|]) != StepKeyOf()(steps[i]);
    }
  }

  lemma {:induction false} FirstOccurrencesFixes<T(!new)>(s: seq<T>)
    requires Distinct(s)
    ensures FirstOccurrences(s) == s
  {
    if s == [] {
    } else {
      FirstOccurrencesFixes(s[..|s| - 1]);
      assert s == s[..|s| - 1] + [s[|s| - 1]];
    }
  }

  /** Steps that are already distinct are left alone. */
  lemma DedupedFixesDistinct(steps: seq<Step>)
    requires DistinctKeys(steps, StepKeyOf())
    ensures Deduped(steps) == steps
  {
    assert forall i :: 0 <= i < |steps| ==> KeysOf(steps)[i] == StepKeyOf()(steps[i]);
    FirstOccurrencesFixes(KeysOf(steps));
    forall i | 0 <= i < |steps| ensures Deduped(steps)[i] == steps[i] {
      EvidenceOfDistinct(steps, i);
    }
  }

  lemma DedupeIsIdempotent(steps: seq<Step>)
    ensures Deduped(Deduped(steps)) == Deduped(steps)
  {
    DedupedKeys(steps);
    DedupedFixesDistinct(Deduped(steps));
  }

  // ---- The capped preview ------------------------------------------------

  lemma TakeKeeps<T(!new), K>(s: seq<T>, n: nat, key: T -> K)
    requires DistinctKeys(s, key)
    ensures DistinctKeys(Take(s, n), key)
    ensures KeySet(Take(s, n), key) <= KeySet(s, key)
    ensures |KeySet(Take(s, n), key)| == if |s| <= n then |s| else n
  {
    DistinctKeysCount(Take(s, n), key);
    forall x | x in Take(s, n) ensures x in s {}
  }

  lemma {:induction false} FilterKeepsDistinct<T(!new), K>(s: seq<T>, p: T -> bool, key: T -> K)
    requires DistinctKeys(s, key)
    ensures DistinctKeys(Filter(s, p), key)
  {
    if s == [] {
    } else {
      var q, x := s[..|s| - 1], s[|s| - 1];
      FilterKeepsDistinct(q, p, key);
      forall y | y in Filter(q, p) ensures key(y) != key(x) {
        FilterMember(q, p, y);
        var j :| 0 <= j < |q| && q[j] == y;
        assert s[j] == y;
      }
    }
  }

  /** Filtering the shown steps out leaves all the others. */
  lemma UnseenCount(steps: seq<Step>, preview: seq<Step>)
    requires DistinctKeys(steps, StepKeyOf()) && DistinctKeys(preview, StepKeyOf())
    requires forall s :: s in preview ==> s in steps
    ensures |Filter(steps, Unseen(preview))| == |steps| - |preview|
  {
    var rest := Filter(steps, Unseen(preview));
    FilterKeepsDistinct(steps, Unseen(preview), StepKeyOf());
    var all, shown, left := KeySet(steps, StepKeyOf()), KeySet(preview, StepKeyOf()), KeySet(rest, StepKeyOf());
    forall s ensures s in rest <==> s in steps && s.key !in shown {
      FilterMember(steps, Unseen(preview), s);
      assert HasKey(preview, StepKeyOf(), s.key) <==> s.key in shown;
    }
    assert left == all - shown;
    DistinctKeysCount(steps, StepKeyOf());
    DistinctKeysCount(preview, StepKeyOf());
    DistinctKeysCount(rest, StepKeyOf());
  }

  /** Steps of distinct kinds have distinct keys. */
  lemma KindsSeparateKeys(steps: seq<Step>)
    requires DistinctKeys(steps, KindOf())
    ensures DistinctKeys(steps, StepKeyOf())
  {
    assert forall i, j :: 0 <= i < j < |steps| ==> KindOf()(steps[i]) != KindOf()(steps[j]);
  }

  lemma KindDiverseSpec(steps: seq<Step>, limit: nat)
    ensures DistinctKeys(KindDiverse(steps, limit), KindOf())
    ensures DistinctKeys(KindDiverse(steps, limit), StepKeyOf())
    ensures forall s :: s in KindDiverse(steps, limit) ==> s in FirstPer(steps, KindOf()) && s in steps
    ensures |KindDiverse(steps, limit)| == Min(limit, |Kinds(steps)|) == |Kinds(KindDiverse(steps, limit))|
  {
    FirstPerSpec(steps, KindOf());
    FirstPerCount(steps, KindOf());
    TakeKeeps(FirstPer(steps, KindOf()), limit, KindOf());
    KindsSeparateKeys(KindDiverse(steps, limit));
  }

  function Min(a: nat, b: nat): nat {
    if a <= b then a else b
  }

  lemma RemainingSpec(steps: seq<Step>, preview: seq<Step>, limit: nat)
    requires DistinctKeys(steps, StepKeyOf())
    ensures forall s :: s in Remaining(steps, preview, limit) ==> s in steps && Unseen(preview)(s)
    ensures DistinctKeys(Remaining(steps, preview, limit), StepKeyOf())
  {
    var rest := Filter(steps, Unseen(preview));
    FilterKeepsDistinct(steps, Unseen(preview), StepKeyOf());
    TakeKeeps(rest, limit, StepKeyOf());
    forall s | s in Remaining(steps, preview, limit) ensures s in steps && Unseen(preview)(s) {
      assert s in rest;
      FilterMember(steps, Unseen(preview), s);
    }
  }

  /** The preview holds exactly as many distinct steps as fit. */
  lemma CappedFillsTheLimit(steps: seq<Step>, limit: nat)
    requires DistinctKeys(steps, StepKeyOf())
    ensures |Capped(steps, limit)| == Min(limit, |steps|)
    ensures DistinctKeys(Capped(steps, limit), StepKeyOf())
    ensures forall s :: s in Capped(steps, limit) ==> s in steps
  {
    var preview := KindDiverse(steps, limit);
    KindDiverseSpec(steps, limit);
    KeysAtMostElements(steps, KindOf());
    if |preview| < limit < |steps| {
      var remaining := Remaining(steps, preview, limit - |preview|);
      UnseenCount(steps, preview);
      RemainingSpec(steps, preview, limit - |preview|);
      forall s | s in remaining ensures forall t :: t in preview ==> t.key != s.key {
        assert !HasKey(preview, StepKeyOf(), s.key);
      }
    }
  }

  lemma KindsOfMore(a: seq<Step>, b: seq<Step>)
    requires forall s :: s in a ==> s in b
    ensures Kinds(a) <= Kinds(b)
    ensures |Kinds(a)| <= |Kinds(b)|
  {
    SubsetSize(Kinds(a), Kinds(b));
  }

  /** It covers as many kinds as there is room for. */
  lemma CappedCoversKinds(steps: seq<Step>, limit: nat)
    requires DistinctKeys(steps, StepKeyOf())
    ensures |Kinds(Capped(steps, limit))| == Min(limit, |Kinds(steps)|)
  {
    var r, preview := Capped(steps, limit), KindDiverse(steps, limit);
    CappedFillsTheLimit(steps, limit);
    KindDiverseSpec(steps, limit);
    KeysAtMostElements(steps, KindOf());
    KeysAtMostElements(r, KindOf());
    if |steps| > limit {
      KindsOfMore(preview, r);
      KindsOfMore(r, steps);
    }
  }

  /** No choice of that many steps covers more kinds. */
  lemma CappedIsOptimal(steps: seq<Step>, limit: nat, other: seq<Step>)
    requires DistinctKeys(steps, StepKeyOf())
    requires |other| <= limit && forall s :: s in other ==> s in steps
    ensures |Kinds(other)| <= |Kinds(Capped(steps, limit))|
  {
    CappedCoversKinds(steps, limit);
    KeysAtMostElements(other, KindOf());
    KindsOfMore(other, steps);
  }

  /** A kind that is covered is covered by its first step. */
  lemma CappedShowsFirstOfKind(steps: seq<Step>, limit: nat, i: nat)
    requires DistinctKeys(steps, StepKeyOf()) && IsFirst(steps, KindOf(), i)
    requires steps[i].key.kind in Kinds(Capped(steps, limit))
    ensures steps[i] in Capped(steps, limit)
  {
    var r, preview, firsts := Capped(steps, limit), KindDiverse(steps, limit), FirstPer(steps, KindOf());
    FirstPerKeepsFirsts(steps, KindOf(), i);
    FirstPerSpec(steps, KindOf());
    if |steps| > limit {
      if |firsts| <= limit {
        assert steps[i] in preview;
      } else {
        assert r == preview == firsts[..limit];
        var s :| s in preview && KindOf()(s) == steps[i].key.kind;
        var a :| 0 <= a < limit && firsts[a] == s;
        var b :| 0 <= b < |firsts| && firsts[b] == steps[i];
        assert KindOf()(firsts[a]) == KindOf()(firsts[b]);
        assert a == b;
      }
    }
  }

  // ---- The whole pipeline ------------------------------------------------

  lemma RankedDedupedSpec(steps: seq<Step>)
    ensures DistinctKeys(Ranked(Deduped(steps)), StepKeyOf())
    ensures SortedBy(Ranked(Deduped(steps)), RankLeq())
    ensures KeySet(Ranked(Deduped(steps)), StepKeyOf()) == KeySet(steps, StepKeyOf())
    ensures Kinds(Ranked(Deduped(steps))) == Kinds(steps)
    ensures |Ranked(Deduped(steps))| == |KeySet(steps, StepKeyOf())|
  {
    var d := Deduped(steps);
    var r := Ranked(d);
    DedupedKeys(steps);
    RankIsTotalPreorder();
    SortSorts(d, RankLeq());
    SortPermutes(d, RankLeq());
    PermutedKeysStayDistinct(d, r);
    DistinctKeysCount(r, StepKeyOf());
    KeysSurviveDedupe(steps);
    assert KeySet(r, StepKeyOf()) == KeySet(d, StepKeyOf());
    KindsFromKeys(r, steps);
  }

  lemma KeysSurviveDedupe(steps: seq<Step>)
    ensures KeySet(Deduped(steps), StepKeyOf()) == KeySet(steps, StepKeyOf())
  {
    var d := Deduped(steps);
    DedupedKeys(steps);
    KeySetIsKeysOf(d);
    KeySetIsKeysOf(steps);
    assert forall k :: k in KeysOf(d) <==> k in KeysOf(steps);
  }

  lemma KeySetIsKeysOf(steps: seq<Step>)
    ensures forall k :: k in KeySet(steps, StepKeyOf()) <==> k in KeysOf(steps)
  {
    forall k | k in KeySet(steps, StepKeyOf()) ensures k in KeysOf(steps) {
      var s :| s in steps && s.key == k;
      var i :| 0 <= i < |steps| && steps[i] == s;
      assert KeysOf(steps)[i] == k;
    }
    forall k | k in KeysOf(steps) ensures k in KeySet(steps, StepKeyOf()) {
      var i :| 0 <= i < |steps| && KeysOf(steps)[i] == k;
      assert steps[i] in steps && StepKeyOf()(steps[i]) == k;
    }
  }

  lemma KindsFromKeys(a: seq<Step>, b: seq<Step>)
    requires KeySet(a, StepKeyOf()) == KeySet(b, StepKeyOf())
    ensures Kinds(a) == Kinds(b)
  {
    KindsFromFewerKeys(a, b);
    KindsFromFewerKeys(b, a);
  }

  lemma KindsFromFewerKeys(a: seq<Step>, b: seq<Step>)
    requires KeySet(a, StepKeyOf()) <= KeySet(b, StepKeyOf())
    ensures Kinds(a) <= Kinds(b)
  {
    forall s | s in a ensures KindOf()(s) in Kinds(b) {
      assert StepKeyOf()(s) in KeySet(b, StepKeyOf());
      var t :| t in b && StepKeyOf()(t) == s.key;
      assert KindOf()(t) == s.key.kind;
    }
  }

  lemma PermutedKeysStayDistinct(a: seq<Step>, b: seq<Step>)
    requires DistinctKeys(a, StepKeyOf()) && multiset(a) == multiset(b)
    ensures DistinctKeys(b, StepKeyOf())
  {
    assert Distinct(a) by {
      assert forall i, j :: 0 <= i < j < |a| ==> StepKeyOf()(a[i]) != StepKeyOf()(a[j]);
    }
    DistinctMultiset(a);
    DistinctMultiset(b);
    forall i, j | 0 <= i < j < |b| ensures StepKeyOf()(b[i]) != StepKeyOf()(b[j]) {
      assert b[i] in multiset(a) && b[j] in multiset(a) && b[i] != b[j];
      var x :| 0 <= x < |a| && a[x] == b[i];
      var y :| 0 <= y < |a| && a[y] == b[j];
      assert x < y || y < x;
    }
  }

  /** The preview of a file is full, covers as many kinds as fit and cannot be improved. */
  lemma PreviewIsOptimal(steps: seq<Step>, detail: DetailLevel, other: seq<Step>)
    requires |other| <= Limit(detail) && forall s :: s in other ==> s in Deduped(steps)
    ensures |Preview(steps, detail)| == Min(Limit(detail), |KeySet(steps, StepKeyOf())|)
    ensures DistinctKeys(Preview(steps, detail), StepKeyOf())
    ensures forall s :: s in Preview(steps, detail) ==> s in Deduped(steps)
    ensures |Kinds(Preview(steps, detail))| == Min(Limit(detail), |Kinds(steps)|)
    ensures |Kinds(other)| <= |Kinds(Preview(steps, detail))|
  {
    var r := Ranked(Deduped(steps));
    RankedDedupedSpec(steps);
    SortPermutes(Deduped(steps), RankLeq());
    CappedFillsTheLimit(r, Limit(detail));
    CappedCoversKinds(r, Limit(detail));
    CappedIsOptimal(r, Limit(detail), other);
  }

  /** Whatever kind a collected step has: if the preview shows that kind at all, it shows a
      step of it that ranks at least as high. */
  lemma PreviewShowsBestOfKind(steps: seq<Step>, detail: DetailLevel, s: Step) returns (best: Step)
    requires s in Deduped(steps) && s.key.kind in Kinds(Preview(steps, detail))
    ensures best in Preview(steps, detail) && best.key.kind == s.key.kind && RankLeq()(best, s)
  {
    var r := Ranked(Deduped(steps));
    RankedDedupedSpec(steps);
    RankIsTotalPreorder();
    SortPermutes(Deduped(steps), RankLeq());
    best := CappedShowsBest(r, Limit(detail), s);
  }

  lemma CappedShowsBest(steps: seq<Step>, limit: nat, s: Step) returns (best: Step)
    requires DistinctKeys(steps, StepKeyOf()) && SortedBy(steps, RankLeq()) && TotalPreorder(RankLeq())
    requires s in steps && s.key.kind in Kinds(Capped(steps, limit))
    ensures best in Capped(steps, limit) && best.key.kind == s.key.kind && RankLeq()(best, s)
  {
    var n :| 0 <= n < |steps| && steps[n] == s;
    var i := FirstOfKind(steps, n);
    CappedShowsFirstOfKind(steps, limit, i);
    best := steps[i];
  }

  lemma FirstOfKind(steps: seq<Step>, n: nat) returns (i: nat)
    requires n < |steps|
    ensures i <= n && IsFirst(steps, KindOf(), i) && steps[i].key.kind == steps[n].key.kind
  {
    i := 0;
    while steps[i].key.kind != steps[n].key.kind
      invariant i <= n
      invariant forall j :: 0 <= j < i ==> steps[j].key.kind != steps[n].key.kind
      decreases n - i
    {
      i := i + 1;
    }
  }

  /** Which kinds are shown when not all fit: those of the highest priority. */
  lemma PreviewPrefersHighPriority(steps: seq<Step>, detail: DetailLevel, shown: Kind, missing: Kind)
    requires shown in Kinds(Preview(steps, detail))
    requires missing in Kinds(steps) && missing !in Kinds(Preview(steps, detail))
    ensures Priority(shown) < Priority(missing)
  {
    var r, limit := Ranked(Deduped(steps)), Limit(detail);
    RankedDedupedSpec(steps);
    var firsts := FirstPer(r, KindOf());
    FirstPerSpec(r, KindOf());
    KindDiverseSpec(r, limit);
    FirstPerCount(r, KindOf());
    if |firsts| <= limit {
      AllKindsShown(r, limit);
    } else {
      KeysAtMostElements(r, KindOf());
      FirstPerSorted(r, KindOf(), RankLeq());
      FrontPrefersHighPriority(firsts, limit, shown, missing);
    }
  }

  lemma FrontPrefersHighPriority(firsts: seq<Step>, limit: nat, shown: Kind, missing: Kind)
    requires SortedBy(firsts, RankLeq()) && limit <= |firsts|
    requires shown in Kinds(firsts[..limit]) && missing in Kinds(firsts) && missing !in Kinds(firsts[..limit])
    ensures Priority(shown) < Priority(missing)
  {
    var a := StepOfKind(firsts[..limit], shown);
    var b := StepOfKind(firsts, missing);
    NotInFront(firsts, limit, b);
    BetterRankBetterKind(firsts[a], firsts[b]);
  }

  lemma NotInFront(steps: seq<Step>, limit: nat, i: nat)
    requires limit <= |steps| && i < |steps| && steps[i].key.kind !in Kinds(steps[..limit])
    ensures limit <= i
  {
    assert forall j :: 0 <= j < limit ==> KindOf()(steps[..limit][j]) in Kinds(steps[..limit]);
  }

  lemma StepOfKind(steps: seq<Step>, kind: Kind) returns (i: nat)
    requires kind in Kinds(steps)
    ensures i < |steps| && steps[i].key.kind == kind
  {
    var x :| x in steps && KindOf()(x) == kind;
    i :| i < |steps| && steps[i] == x;
  }

  lemma BetterRankBetterKind(a: Step, b: Step)
    requires RankLeq()(a, b)
    ensures Priority(a.key.kind) <= Priority(b.key.kind)
    ensures Priority(a.key.kind) == Priority(b.key.kind) ==> a.key.kind == b.key.kind
  {
    assert RankKey(a)[0] == Priority(a.key.kind) && RankKey(b)[0] == Priority(b.key.kind);
  }

  lemma AllKindsShown(steps: seq<Step>, limit: nat)
    requires DistinctKeys(steps, StepKeyOf()) && |Kinds(steps)| <= limit
    ensures Kinds(Capped(steps, limit)) == Kinds(steps)
  {
    CappedFillsTheLimit(steps, limit);
    CappedCoversKinds(steps, limit);
    KindsOfMore(Capped(steps, limit), steps);
    assert |Kinds(steps) - Kinds(Capped(steps, limit))| == 0;
  }

  /** The ranking does not depend on the order in which steps were collected. */
  lemma RankingIgnoresOrder(a: seq<Step>, b: seq<Step>)
    requires KeySet(a, StepKeyOf()) == KeySet(b, StepKeyOf())
    ensures KeysOf(Ranked(Deduped(a))) == KeysOf(Ranked(Deduped(b)))
  {
    RankedDedupedSpec(a);
    RankedDedupedSpec(b);
    SameRankedKeys(Ranked(Deduped(a)), Ranked(Deduped(b)));
  }

  lemma {:induction false} SameRankedKeys(r: seq<Step>, t: seq<Step>)
    requires SortedBy(r, RankLeq()) && SortedBy(t, RankLeq())
    requires DistinctKeys(r, StepKeyOf()) && DistinctKeys(t, StepKeyOf())
    requires KeySet(r, StepKeyOf()) == KeySet(t, StepKeyOf())
    ensures KeysOf(r) == KeysOf(t)
  {
    DistinctKeysCount(r, StepKeyOf());
    DistinctKeysCount(t, StepKeyOf());
    if r == [] {
    } else {
      FirstKeysAgree(r, t);
      KeySetTail(r);
      KeySetTail(t);
      assert DistinctKeys(r[1..], StepKeyOf()) && DistinctKeys(t[1..], StepKeyOf());
      SameRankedKeys(r[1..], t[1..]);
      assert KeysOf(r) == [r[0].key] + KeysOf(r[1..]);
      assert KeysOf(t) == [t[0].key] + KeysOf(t[1..]);
    }
  }

  lemma KeySetTail(r: seq<Step>)
    requires r != [] && DistinctKeys(r, StepKeyOf())
    ensures KeySet(r[1..], StepKeyOf()) == KeySet(r, StepKeyOf()) - {r[0].key}
  {
    var tail := r[1..];
    forall s | s in tail ensures s in r && s.key != r[0].key {
      var i :| 0 <= i < |tail| && tail[i] == s;
      assert StepKeyOf()(r[0]) != StepKeyOf()(r[i + 1]);
    }
    forall s | s in r ensures s == r[0] || s in tail {
      var i :| 0 <= i < |r| && r[i] == s;
      if i > 0 { assert tail[i - 1] == s; }
    }
  }

  lemma FirstKeysAgree(r: seq<Step>, t: seq<Step>)
    requires r != [] && t != []
    requires SortedBy(r, RankLeq()) && SortedBy(t, RankLeq())
    requires KeySet(r, StepKeyOf()) == KeySet(t, StepKeyOf())
    ensures r[0].key == t[0].key
  {
    assert StepKeyOf()(r[0]) in KeySet(t, StepKeyOf()) && StepKeyOf()(t[0]) in KeySet(r, StepKeyOf());
    var x :| x in t && x.key == r[0].key;
    var y :| y in r && y.key == t[0].key;
    var i :| 0 <= i < |t| && t[i] == x;
    var j :| 0 <= j < |r| && r[j] == y;
    LexTotal(RankKey(t[0]), RankKey(t[0]));
    LexTotal(RankKey(r[0]), RankKey(r[0]));
    assert RankKey(x) == RankKey(r[0]) && RankKey(y) == RankKey(t[0]);
    assert RankLeq()(t[0], x) && RankLeq()(r[0], y);
    TiesShareTheirKey(r[0], t[0]);
  }
}
