/** Collecting, ranking and capping implementation-flow steps. Paths and labels are
    opaque values with a total order; a label that is present is not empty. */
module FlowPreview {
  import opened Ordering
  import opened Lexicographic
  import opened FirstPerKey

  datatype Kind =
    | SymbolAnchor
    | ExternalReferenceAnchor
    | TestSeam
    | StateSite
    | EventSubscribe
    | EventPublish
    | ApiCall
    | ContractUse
    | PropEdge
    | RenderEdge
    | LocalFlowEdge
    | ImplementationAnchor
    | RelatedTestAnchor

  /** The code of a non-empty label; 0 stands for the empty string. */
  type Label = n: nat | 1 <= n witness 1

  datatype StepKey = StepKey(path: int, line: nat, column: nat, kind: Kind, source: Label,
                             target: Option<Label>, detail: Option<Label>)

  datatype Step = Step(key: StepKey, provenance: seq<int>)

  datatype DetailLevel = Compact | Standard | Full

  function StepKeyOf(): Step -> StepKey { (s: Step) => s.key }

  function KindOf(): Step -> Kind { (s: Step) => s.key.kind }

  function KeysOf(steps: seq<Step>): (r: seq<StepKey>)
    ensures |r| == |steps|
  {
    seq(|steps|, i requires 0 <= i < |steps| => steps[i].key)
  }

  // ---- Merging steps with the same key -----------------------------------

  /** The provenance held for `key` after the steps have been merged in turn. */
  function Evidence(steps: seq<Step>, key: StepKey): seq<int> {
    if steps == [] then [] else
      var p, x := steps[..|steps| - 1], steps[|steps| - 1];
      if x.key != key then Evidence(p, key)
      else if key in KeysOf(p) then FirstOccurrences(Evidence(p, key) + x.provenance)
      else x.provenance
  }

  function Deduped(steps: seq<Step>): (r: seq<Step>) {
    var keys := FirstOccurrences(KeysOf(steps));
    seq(|keys|, i requires 0 <= i < |keys| => Step(keys[i], Evidence(steps, keys[i])))
  }

  lemma KeysOfStep(steps: seq<Step>, x: Step)
    ensures KeysOf(steps + [x]) == KeysOf(steps) + [x.key]
    ensures FirstOccurrences(KeysOf(steps + [x])) ==
            if x.key in KeysOf(steps) then FirstOccurrences(KeysOf(steps))
            else FirstOccurrences(KeysOf(steps)) + [x.key]
  {
    assert KeysOf(steps + [x]) == KeysOf(steps) + [x.key];
    FirstOccurrencesStep(KeysOf(steps), x.key);
  }

  lemma EvidenceStep(steps: seq<Step>, x: Step, key: StepKey)
    ensures Evidence(steps + [x], key) ==
            if x.key != key then Evidence(steps, key)
            else if key in KeysOf(steps) then FirstOccurrences(Evidence(steps, key) + x.provenance)
            else x.provenance
  {
    assert (steps + [x])[..|steps|] == steps;
  }

  ghost predicate MergedSoFar(merged: map<StepKey, Step>, steps: seq<Step>) {
    && (forall k :: k in merged <==> k in KeysOf(steps))
    && (forall k :: k in merged ==> merged[k] == Step(k, Evidence(steps, k)))
  }

  lemma MergedStep(merged: map<StepKey, Step>, steps: seq<Step>, item: Step, entry: Step)
    requires MergedSoFar(merged, steps)
    requires entry == if item.key in merged
                      then item.(provenance := FirstOccurrences(merged[item.key].provenance + item.provenance))
                      else item
    ensures MergedSoFar(merged[item.key := entry], steps + [item])
  {
    KeysOfStep(steps, item);
    forall k { EvidenceStep(steps, item, k); }
  }

  /** A dict from key to merged step, listed in insertion order. */
  method DedupeSteps(steps: seq<Step>) returns (r: seq<Step>)
    ensures r == Deduped(steps)
  {
    var merged: map<StepKey, Step> := map[];
    var order: seq<StepKey> := [];
    var i := 0;
    while i < |steps|
      invariant 0 <= i <= |steps|
      invariant order == FirstOccurrences(KeysOf(steps[..i]))
      invariant MergedSoFar(merged, steps[..i])
    {
      var item := steps[i];
      PrefixStep(steps, i);
      KeysOfStep(steps[..i], item);
      var entry := item;
      if item.key in merged {
        entry := item.(provenance := FirstOccurrences(merged[item.key].provenance + item.provenance));
      } else {
        order := order + [item.key];
      }
      MergedStep(merged, steps[..i], item, entry);
      merged := merged[item.key := entry];
      i := i + 1;
    }
    assert steps[..i] == steps;
    r := Values(merged, order, steps);
  }

  method Values(merged: map<StepKey, Step>, order: seq<StepKey>, ghost steps: seq<Step>) returns (r: seq<Step>)
    requires order == FirstOccurrences(KeysOf(steps)) && MergedSoFar(merged, steps)
    ensures r == Deduped(steps)
  {
    assert forall k :: k in order ==> k in merged;
    r := seq(|order|, j requires 0 <= j < |order| => merged[order[j]]);
  }

  // ---- Ranking -----------------------------------------------------------

  function Priority(kind: Kind): nat {
    match kind
    case SymbolAnchor => 0
    case ExternalReferenceAnchor => 1
    case TestSeam => 2
    case StateSite => 3
    case EventSubscribe => 4
    case EventPublish => 5
    case ApiCall => 6
    case ContractUse => 7
    case PropEdge => 8
    case RenderEdge => 9
    case LocalFlowEdge => 10
    case ImplementationAnchor => 11
    case RelatedTestAnchor => 12
  }

  function OrEmpty(text: Option<Label>): nat {
    if text.Some? then text.value else 0
  }

  function RankKey(s: Step): (r: seq<int>)
    ensures |r| == 7
  {
    [Priority(s.key.kind), s.key.path, s.key.line, s.key.column, s.key.source, OrEmpty(s.key.target), OrEmpty(s.key.detail)]
  }

  function RankLeq(): (Step, Step) -> bool {
    (a: Step, b: Step) => LexLeq(RankKey(a), RankKey(b))
  }

  function Ranked(steps: seq<Step>): seq<Step> {
    Sort(steps, RankLeq())
  }

  lemma RankIsTotalPreorder()
    ensures TotalPreorder(RankLeq())
  {
    forall a, b ensures RankLeq()(a, b) || RankLeq()(b, a) {
      LexTotal(RankKey(a), RankKey(b));
    }
    forall a, b, c | RankLeq()(a, b) && RankLeq()(b, c) ensures RankLeq()(a, c) {
      LexTransitive(RankKey(a), RankKey(b), RankKey(c));
    }
  }

  /** The rank key tells any two keys apart. */
  lemma TiesShareTheirKey(a: Step, b: Step)
    requires RankLeq()(a, b) && RankLeq()(b, a)
    ensures a.key == b.key
  {
    var x, y := RankKey(a), RankKey(b);
    LexAntisymmetric(x, y);
    assert x[0] == y[0] && x[1] == y[1] && x[2] == y[2] && x[3] == y[3];
    assert x[4] == y[4] && x[5] == y[5] && x[6] == y[6];
  }

  // ---- Capping -----------------------------------------------------------

  function Limit(detail: DetailLevel): (n: nat) {
    match detail
    case Compact => 4
    case Standard => 6
    case Full => 10
  }

  function Take<T>(s: seq<T>, n: nat): seq<T> {
    if |s| <= n then s else s[..n]
  }

  function Unseen(preview: seq<Step>): Step -> bool {
    (s: Step) => !HasKey(preview, StepKeyOf(), s.key)
  }

  function KindDiverse(steps: seq<Step>, limit: nat): seq<Step> {
    Take(FirstPer(steps, KindOf()), limit)
  }

  function Remaining(steps: seq<Step>, preview: seq<Step>, limit: nat): seq<Step> {
    Take(Filter(steps, Unseen(preview)), limit)
  }

  function Capped(steps: seq<Step>, limit: nat): seq<Step> {
    if |steps| <= limit then steps else
      var preview := KindDiverse(steps, limit);
      if |preview| >= limit then preview
      else preview + Remaining(steps, preview, limit - |preview|)
  }

  /** The steps shown for a file. */
  function Preview(steps: seq<Step>, detail: DetailLevel): seq<Step> {
    Capped(Ranked(Deduped(steps)), Limit(detail))
  }

  lemma FrontIsFinal(steps: seq<Step>, i: nat, limit: nat)
    requires i <= |steps| && |FirstPer(steps[..i], KindOf())| == limit
    ensures KindDiverse(steps, limit) == FirstPer(steps[..i], KindOf())
  {
    FirstPerPrefix(steps[..i], steps[i..], KindOf());
    assert steps[..i] + steps[i..] == steps;
  }

  method KindDiversePreview(steps: seq<Step>, limit: nat) returns (preview: seq<Step>)
    requires 1 <= limit
    ensures preview == KindDiverse(steps, limit)
  {
    preview := [];
    var seen: set<Kind> := {};
    var i := 0;
    while i < |steps|
      invariant 0 <= i <= |steps|
      invariant preview == FirstPer(steps[..i], KindOf()) && |preview| < limit
      invariant seen == KeySet(preview, KindOf())
    {
      var s := steps[i];
      PrefixStep(steps, i);
      FirstPerSeen(steps[..i], s, KindOf());
      i := i + 1;
      if s.key.kind in seen { continue; }
      preview := preview + [s];
      seen := seen + {s.key.kind};
      if |preview| >= limit {
        FrontIsFinal(steps, i, limit);
        return;
      }
    }
    assert steps[..i] == steps;
  }

  lemma RemainingIsFinal(steps: seq<Step>, preview: seq<Step>, i: nat, limit: nat)
    requires i <= |steps| && |Filter(steps[..i], Unseen(preview))| == limit
    ensures Remaining(steps, preview, limit) == Filter(steps[..i], Unseen(preview))
  {
    FilterPrefix(steps[..i], steps[i..], Unseen(preview));
    assert steps[..i] + steps[i..] == steps;
  }

  method RemainingPreviewSteps(steps: seq<Step>, preview: seq<Step>, limit: nat) returns (remaining: seq<Step>)
    requires 1 <= limit
    ensures remaining == Remaining(steps, preview, limit)
  {
    var previewKeys := set s | s in preview :: s.key;
    remaining := [];
    var i := 0;
    while i < |steps|
      invariant 0 <= i <= |steps|
      invariant remaining == Filter(steps[..i], Unseen(preview)) && |remaining| < limit
    {
      var s := steps[i];
      PrefixStep(steps, i);
      FilterStep(steps[..i], s, Unseen(preview));
      assert s.key in previewKeys <==> HasKey(preview, StepKeyOf(), s.key);
      i := i + 1;
      if s.key in previewKeys { continue; }
      remaining := remaining + [s];
      if |remaining| >= limit {
        RemainingIsFinal(steps, preview, i, limit);
        return;
      }
    }
    assert steps[..i] == steps;
  }

  method CapSteps(steps: seq<Step>, detail: DetailLevel) returns (r: seq<Step>)
    ensures r == Capped(steps, Limit(detail))
  {
    var limit := Limit(detail);
    if |steps| <= limit { return steps; }
    var preview := KindDiversePreview(steps, limit);
    if |preview| >= limit { return preview; }
    var remaining := RemainingPreviewSteps(steps, preview, limit - |preview|);
    r := preview + remaining;
  }
}
