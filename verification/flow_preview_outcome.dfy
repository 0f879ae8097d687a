/** What a preview shows, said of the collected steps: the order, the merged provenance, and
    which steps come first. */
module FlowPreviewOutcome {
  import opened Ordering
  import opened Lexicographic
  import opened FirstPerKey
  import opened FlowPreview
  import opened FlowPreviewProperties

  // ---- Ranking ------------------------------------------------------------------------

  /** The kinds from the most to the least important. */
  const KINDS := [SymbolAnchor, ExternalReferenceAnchor, TestSeam, StateSite, EventSubscribe, EventPublish, ApiCall, ContractUse,
                  PropEdge, RenderEdge, LocalFlowEdge, ImplementationAnchor, RelatedTestAnchor]

  ghost predicate MoreImportant(a: Kind, b: Kind) { ComesBefore(KINDS, a, b) }

  ghost predicate ComesBefore(kinds: seq<Kind>, a: Kind, b: Kind) {
    exists i, j :: 0 <= i < j < |kinds| && kinds[i] == a && kinds[j] == b
  }

  lemma ImportanceIsPriority(a: Kind, b: Kind)
    ensures MoreImportant(a, b) <==> Priority(a) < Priority(b)
  {
    KindAtItsPriority(a);
    KindAtItsPriority(b);
    forall i | 0 <= i < |KINDS| ensures Priority(KINDS[i]) == i { PriorityOfTheKindAt(i); }
    ByPriority(KINDS, a, b);
  }

  lemma ByPriority(kinds: seq<Kind>, a: Kind, b: Kind)
    requires forall i :: 0 <= i < |kinds| ==> Priority(kinds[i]) == i
    requires Priority(a) < |kinds| && kinds[Priority(a)] == a && Priority(b) < |kinds| && kinds[Priority(b)] == b
    ensures ComesBefore(kinds, a, b) <==> Priority(a) < Priority(b)
  {
  }

  lemma KindAtItsPriority(kind: Kind)
    ensures Priority(kind) < |KINDS| && KINDS[Priority(kind)] == kind
  {
  }

  lemma PriorityOfTheKindAt(i: nat)
    requires i < |KINDS|
    ensures Priority(KINDS[i]) == i
  {
  }

  /** An absent label counts as the empty one, before all others. */
  ghost predicate LabelBefore(a: Option<Label>, b: Option<Label>) {
    b.Some? && (a.None? || a.value < b.value)
  }

  /** `a` ranks before `b`: by kind, path, line, column, source, target and detail. */
  ghost predicate RanksBefore(a: StepKey, b: StepKey) {
    if a.kind != b.kind then MoreImportant(a.kind, b.kind)
    else if a.path != b.path then a.path < b.path
    else if a.line != b.line then a.line < b.line
    else if a.column != b.column then a.column < b.column
    else if a.source != b.source then a.source < b.source
    else if a.target != b.target then LabelBefore(a.target, b.target)
    else LabelBefore(a.detail, b.detail)
  }

  lemma RankKeyIs(s: Step)
    ensures RankKey(s) == [Priority(s.key.kind)] + ([s.key.path] + ([s.key.line] + ([s.key.column] + ([s.key.source]
                          + ([OrEmpty(s.key.target)] + ([OrEmpty(s.key.detail)] + []))))))
  {
  }

  lemma RankOrderIs(a: Step, b: Step)
    ensures RankLeq()(a, b) <==> a.key == b.key || RanksBefore(a.key, b.key)
  {
    var k, l := a.key, b.key;
    RankKeyIs(a);
    RankKeyIs(b);
    ImportanceIsPriority(k.kind, l.kind);
    ImportanceIsPriority(l.kind, k.kind);
    assert k.kind != l.kind ==> Priority(k.kind) != Priority(l.kind) by {
      assert KINDS[Priority(k.kind)] == k.kind && KINDS[Priority(l.kind)] == l.kind;
    }
    LabelTail(k, l);
    LexStep(k.source, l.source, LabelKey(k), LabelKey(l));
    LexStep(k.column, l.column, [k.source as int] + LabelKey(k), [l.source as int] + LabelKey(l));
    LexStep(k.line, l.line, [k.column as int] + ([k.source as int] + LabelKey(k)), [l.column as int] + ([l.source as int] + LabelKey(l)));
    LexStep(k.path, l.path, [k.line as int] + ([k.column as int] + ([k.source as int] + LabelKey(k))),
            [l.line as int] + ([l.column as int] + ([l.source as int] + LabelKey(l))));
    LexStep(Priority(k.kind), Priority(l.kind),
            [k.path] + ([k.line as int] + ([k.column as int] + ([k.source as int] + LabelKey(k)))),
            [l.path] + ([l.line as int] + ([l.column as int] + ([l.source as int] + LabelKey(l)))));
  }

  function LabelKey(k: StepKey): seq<int> { [OrEmpty(k.target) as int] + ([OrEmpty(k.detail) as int] + []) }

  lemma LabelTail(k: StepKey, l: StepKey)
    ensures LexLeq(LabelKey(k), LabelKey(l)) <==>
            if k.target != l.target then LabelBefore(k.target, l.target) else k.detail == l.detail || LabelBefore(k.detail, l.detail)
  {
    LexStep(OrEmpty(k.target), OrEmpty(l.target), [OrEmpty(k.detail) as int] + [], [OrEmpty(l.detail) as int] + []);
    LexStep(OrEmpty(k.detail), OrEmpty(l.detail), [], []);
  }

  // ---- Merged provenance -----------------------------------------------------------------

  function OfKey(key: StepKey): Step -> bool { (s: Step) => s.key == key }

  function Provenances(steps: seq<Step>): seq<seq<int>> {
    seq(|steps|, i requires 0 <= i < |steps| => steps[i].provenance)
  }

  /** A step on its own keeps its provenance; several unite theirs, in the order of collection. */
  lemma {:induction false} EvidenceInOrder(steps: seq<Step>, key: StepKey)
    ensures var own := Filter(steps, OfKey(key));
            Evidence(steps, key) == if |own| == 1 then own[0].provenance else FirstOccurrences(Flatten(Provenances(own)))
    ensures key in KeysOf(steps) <==> Filter(steps, OfKey(key)) != []
  {
    if steps != [] {
      var p, x := steps[..|steps| - 1], steps[|steps| - 1];
      EvidenceInOrder(p, key);
      assert steps == p + [x];
      assert KeysOf(steps) == KeysOf(p) + [x.key];
      if x.key == key { OneMoreProvenance(Filter(p, OfKey(key)), x); }
    }
  }

  lemma OneMoreProvenance(own: seq<Step>, x: Step)
    ensures Flatten(Provenances(own + [x])) == Flatten(Provenances(own)) + x.provenance
    ensures FirstOccurrences(FirstOccurrences(Flatten(Provenances(own))) + x.provenance) ==
            FirstOccurrences(Flatten(Provenances(own + [x])))
    ensures |own| == 1 ==> Flatten(Provenances(own)) == own[0].provenance
  {
    assert Provenances(own + [x])[..|own|] == Provenances(own);
    FirstOccurrencesAgain(Flatten(Provenances(own)), x.provenance);
    if |own| == 1 {
      assert Provenances(own)[..0] == [];
      assert Flatten(Provenances(own)) == [] + own[0].provenance;
    }
  }

  // ---- The preview -----------------------------------------------------------------------------

  /** Strictly in rank order. */
  ghost predicate InRankOrder(steps: seq<Step>) {
    forall i, j :: 0 <= i < j < |steps| ==> RanksBefore(steps[i].key, steps[j].key)
  }

  function PreviewSize(detail: DetailLevel): nat {
    match detail
    case Compact => 4
    case Standard => 6
    case Full => 10
  }

  /** A preview that shows everything is in rank order. One that does not starts with steps of
      different kinds, each the best of its kind, and goes on with others; both parts are in rank
      order, and no hidden step ranks before one of the second part. */
  ghost predicate LaidOut(preview: seq<Step>, all: seq<Step>) {
    if |preview| == |all| then InRankOrder(preview)
    else exists firsts, others :: preview == firsts + others && StartsBest(firsts, all) && GoesOn(firsts, others, all)
  }

  ghost predicate StartsBest(firsts: seq<Step>, all: seq<Step>) {
    && InRankOrder(firsts) && DistinctKeys(firsts, KindOf())
    && forall s, t :: s in firsts && t in all && t.key.kind == s.key.kind ==> t == s || RanksBefore(s.key, t.key)
  }

  ghost predicate GoesOn(firsts: seq<Step>, others: seq<Step>, all: seq<Step>) {
    && InRankOrder(others)
    && forall s, t :: s in others && t in all && t !in firsts && t !in others ==> RanksBefore(s.key, t.key)
  }

  lemma RankedInOrder(steps: seq<Step>)
    requires DistinctKeys(steps, StepKeyOf()) && SortedBy(steps, RankLeq())
    ensures InRankOrder(steps)
  {
    forall i, j | 0 <= i < j < |steps| ensures RanksBefore(steps[i].key, steps[j].key) {
      RankOrderIs(steps[i], steps[j]);
      assert StepKeyOf()(steps[i]) != StepKeyOf()(steps[j]);
    }
  }

  lemma FirstsAreBest(steps: seq<Step>, limit: nat)
    requires DistinctKeys(steps, StepKeyOf()) && SortedBy(steps, RankLeq())
    ensures StartsBest(KindDiverse(steps, limit), steps)
  {
    var all, firsts := FirstPer(steps, KindOf()), KindDiverse(steps, limit);
    KindDiverseSpec(steps, limit);
    FirstPerSorted(steps, KindOf(), RankLeq());
    RankedInOrder(firsts);
    forall s, t | s in firsts && t in steps && t.key.kind == s.key.kind ensures t == s || RanksBefore(s.key, t.key) {
      var j :| 0 <= j < |steps| && steps[j] == t;
      var i := FirstOfKind(steps, j);
      FirstPerKeepsFirsts(steps, KindOf(), i);
      FirstPerSpec(steps, KindOf());
      OneOfKind(all, s, steps[i]);
      assert i < j ==> RankLeq()(steps[i], steps[j]) && StepKeyOf()(steps[i]) != StepKeyOf()(steps[j]);
      RankOrderIs(s, t);
    }
  }

  lemma OneOfKind(steps: seq<Step>, s: Step, t: Step)
    requires DistinctKeys(steps, KindOf()) && s in steps && t in steps && s.key.kind == t.key.kind
    ensures s == t
  {
    var i :| 0 <= i < |steps| && steps[i] == s;
    var j :| 0 <= j < |steps| && steps[j] == t;
    assert KindOf()(steps[i]) == KindOf()(steps[j]);
  }

  lemma {:induction false} FilterSorted(steps: seq<Step>, p: Step -> bool)
    requires SortedBy(steps, RankLeq())
    ensures SortedBy(Filter(steps, p), RankLeq())
  {
    if steps != [] {
      var front, x := steps[..|steps| - 1], steps[|steps| - 1];
      FilterSorted(front, p);
      forall y | y in Filter(front, p) ensures RankLeq()(y, x) {
        FilterMember(front, p, y);
        var k :| 0 <= k < |front| && front[k] == y;
        assert RankLeq()(steps[k], steps[|front|]);
      }
    }
  }

  lemma OthersGoOn(steps: seq<Step>, firsts: seq<Step>, limit: nat)
    requires DistinctKeys(steps, StepKeyOf()) && SortedBy(steps, RankLeq()) && forall s :: s in firsts ==> s in steps
    ensures GoesOn(firsts, Remaining(steps, firsts, limit), steps)
  {
    var rest := Filter(steps, Unseen(firsts));
    var others := Remaining(steps, firsts, limit);
    RemainingSpec(steps, firsts, limit);
    FilterSorted(steps, Unseen(firsts));
    FilterKeepsDistinct(steps, Unseen(firsts), StepKeyOf());
    RankedInOrder(rest);
    assert InRankOrder(others) by { assert forall i :: 0 <= i < |others| ==> others[i] == rest[i]; }
    forall s, t | s in others && t in steps && t !in firsts && t !in others ensures RanksBefore(s.key, t.key) {
      UnseenByKey(steps, firsts, t);
      FilterMember(steps, Unseen(firsts), t);
      var j :| 0 <= j < |rest| && rest[j] == t;
      var i :| 0 <= i < |others| && others[i] == s;
      assert forall k :: 0 <= k < |others| ==> rest[k] in others;
    }
  }

  lemma UnseenByKey(steps: seq<Step>, firsts: seq<Step>, t: Step)
    requires DistinctKeys(steps, StepKeyOf()) && t in steps && t !in firsts && forall s :: s in firsts ==> s in steps
    ensures Unseen(firsts)(t)
  {
    if s :| s in firsts && s.key == t.key {
      var i :| 0 <= i < |steps| && steps[i] == s;
      var j :| 0 <= j < |steps| && steps[j] == t;
      assert StepKeyOf()(steps[i]) == StepKeyOf()(steps[j]);
    }
  }

  /** The preview of any collected steps: how many, and in which order. */
  lemma PreviewIsLaidOut(steps: seq<Step>, detail: DetailLevel)
    ensures |Preview(steps, detail)| == if |Deduped(steps)| <= PreviewSize(detail) then |Deduped(steps)| else PreviewSize(detail)
    ensures LaidOut(Preview(steps, detail), Deduped(steps))
  {
    var ranked := Ranked(Deduped(steps));
    RankedDedupedSpec(steps);
    SortPermutes(Deduped(steps), RankLeq());
    CappedFillsTheLimit(ranked, Limit(detail));
    CappedIsLaidOut(ranked, Limit(detail));
    SameMembers(Capped(ranked, Limit(detail)), ranked, Deduped(steps));
  }

  lemma CappedIsLaidOut(ranked: seq<Step>, limit: nat)
    requires DistinctKeys(ranked, StepKeyOf()) && SortedBy(ranked, RankLeq())
    ensures LaidOut(Capped(ranked, limit), ranked)
  {
    CappedFillsTheLimit(ranked, limit);
    if |ranked| <= limit {
      RankedInOrder(ranked);
    } else {
      var firsts := KindDiverse(ranked, limit);
      FirstsAreBest(ranked, limit);
      KindDiverseSpec(ranked, limit);
      var room: nat := if |firsts| >= limit then 0 else limit - |firsts|;
      OthersGoOn(ranked, firsts, room);
      if |firsts| >= limit {
        NothingRemains(ranked, firsts);
        assert firsts + Remaining(ranked, firsts, room) == firsts;
      }
      assert Capped(ranked, limit) == firsts + Remaining(ranked, firsts, room);
    }
  }

  lemma NothingRemains(steps: seq<Step>, firsts: seq<Step>)
    ensures Remaining(steps, firsts, 0) == []
  {
  }

  lemma SameMembers(preview: seq<Step>, a: seq<Step>, b: seq<Step>)
    requires LaidOut(preview, a) && |a| == |b| && forall s :: s in a <==> s in b
    ensures LaidOut(preview, b)
  {
    if |preview| != |a| {
      var firsts, others :| preview == firsts + others && StartsBest(firsts, a) && GoesOn(firsts, others, a);
      assert StartsBest(firsts, b) && GoesOn(firsts, others, b);
    }
  }
}
