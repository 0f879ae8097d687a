/** Evidence accounting: what each recorded call adds to its session, and what the
    report later computes from the stored events. */
module TokenEconomics {
  import opened Ordering
  import opened Sums
  import opened FirstPerKey

  type Id = int

  datatype EvidenceItem = EvidenceItem(id: Id, tokens: nat)

  datatype Outcome = Succeeded | Failed | Interrupted

  datatype CallEvent = CallEvent(callId: Id, session: Id, startedAt: int, elapsedMs: nat, outcome: Outcome,
                                 response: nat, footprint: nat, unique: nat, duplicate: nat,
                                 evidence: seq<EvidenceItem>)

  datatype Call = Call(callId: Id, session: Id, startedAt: int, elapsedMs: nat, outcome: Outcome, response: nat,
                       evidence: seq<EvidenceItem>)

  function ItemIdOf(): EvidenceItem -> Id { (i: EvidenceItem) => i.id }
  function TokensOf(): EvidenceItem -> int { (i: EvidenceItem) => i.tokens }
  function SessionOf(): CallEvent -> Id { (e: CallEvent) => e.session }
  function UniqueOf(): CallEvent -> int { (e: CallEvent) => e.unique }
  function DuplicateOf(): CallEvent -> int { (e: CallEvent) => e.duplicate }
  function FootprintOf(): CallEvent -> int { (e: CallEvent) => e.footprint }

  lemma {:induction false} TokensNonNegative(items: seq<EvidenceItem>)
    ensures Sum(items, TokensOf()) >= 0
  {
    if items != [] { TokensNonNegative(items[..|items| - 1]); }
  }

  // ---- Recording -------------------------------------------------------------------

  function ItemIds(items: seq<EvidenceItem>): seq<Id> {
    KeysOf(items, ItemIdOf())
  }

  /** Ids of all evidence of the events, in order, with repetitions. */
  function EvidenceIds(events: seq<CallEvent>): seq<Id> {
    if events == [] then [] else EvidenceIds(events[..|events| - 1]) + ItemIds(events[|events| - 1].evidence)
  }

  function SessionEvents(events: seq<CallEvent>, session: Id): seq<CallEvent> {
    WithKey(events, SessionOf(), session)
  }

  /** The items whose id is not among `seen`. */
  function Unseen(items: seq<EvidenceItem>, seen: seq<Id>): seq<EvidenceItem> {
    if items == [] then [] else
      var r := Unseen(items[..|items| - 1], seen);
      if items[|items| - 1].id in seen then r else r + [items[|items| - 1]]
  }

  function Clamp(n: int): nat { if n < 0 then 0 else n }

  /** The event stored for a call after the given earlier events. */
  function Recorded(events: seq<CallEvent>, c: Call): CallEvent {
    var seen := EvidenceIds(SessionEvents(events, c.session));
    TokensNonNegative(c.evidence);
    TokensNonNegative(Unseen(c.evidence, seen));
    var footprint := Sum(c.evidence, TokensOf());
    var unique := Sum(Unseen(c.evidence, seen), TokensOf());
    CallEvent(c.callId, c.session, c.startedAt, c.elapsedMs, c.outcome, c.response, footprint, unique,
              Clamp(footprint - unique), c.evidence)
  }

  function RecordAll(calls: seq<Call>): seq<CallEvent> {
    if calls == [] then [] else
      var events := RecordAll(calls[..|calls| - 1]);
      events + [Recorded(events, calls[|calls| - 1])]
  }

  class TokenEconomicsStore {
    var events: seq<CallEvent>

    constructor ()
      ensures events == []
    {
      events := [];
    }

    /** `_record`: the events file is read back, the call is measured against its
        session's earlier evidence, and one event is appended. */
    method Record(c: Call) returns (e: CallEvent)
      modifies this
      ensures e == Recorded(old(events), c)
      ensures events == old(events) + [e]
    {
      var seen := CollectSeen(events, c.session);
      var footprint, unique := Measure(c.evidence, seen, EvidenceIds(SessionEvents(events, c.session)));
      var rest: int := footprint as int - unique;
      e := CallEvent(c.callId, c.session, c.startedAt, c.elapsedMs, c.outcome, c.response, footprint, unique, Clamp(rest),
                     c.evidence);
      events := events + [e];
    }
  }

  /** The evidence ids of a session's earlier events. */
  method CollectSeen(events: seq<CallEvent>, session: Id) returns (seen: set<Id>)
    ensures forall id :: id in seen <==> id in EvidenceIds(SessionEvents(events, session))
  {
    seen := {};
    for i := 0 to |events|
      invariant forall id :: id in seen <==> id in EvidenceIds(SessionEvents(events[..i], session))
    {
      assert events[..i + 1][..i] == events[..i];
      var items := events[i].evidence;
      if events[i].session == session {
        ghost var earlier := SessionEvents(events[..i], session);
        assert (earlier + [events[i]])[..|earlier|] == earlier;
        seen := seen + (set k | 0 <= k < |items| :: items[k].id);
        ItemIdsAt(items);
      }
    }
    assert events[..|events|] == events;
  }

  /** The tokens of all items, and of those not seen before. */
  method Measure(items: seq<EvidenceItem>, seen: set<Id>, ghost before: seq<Id>) returns (footprint: nat, unique: nat)
    requires forall id :: id in seen <==> id in before
    ensures footprint == Sum(items, TokensOf()) && unique == Sum(Unseen(items, before), TokensOf())
  {
    footprint, unique := 0, 0;
    for i := 0 to |items|
      invariant footprint == Sum(items[..i], TokensOf())
      invariant unique == Sum(Unseen(items[..i], before), TokensOf())
    {
      assert items[..i + 1][..i] == items[..i];
      footprint := footprint + items[i].tokens;
      if items[i].id !in seen {
        SumStep(Unseen(items[..i], before), items[i], TokensOf());
        unique := unique + items[i].tokens;
      }
    }
    assert items[..|items|] == items;
  }

  lemma {:induction false} ItemIdsAt(items: seq<EvidenceItem>)
    ensures |ItemIds(items)| == |items|
    ensures forall k :: 0 <= k < |items| ==> ItemIds(items)[k] == items[k].id
  {
    if items != [] { ItemIdsAt(items[..|items| - 1]); }
  }

  // ---- Reporting ---------------------------------------------------------------------

  /** The values of the dict filled by `setdefault(evidence_id, item)`. */
  function FirstItems(items: seq<EvidenceItem>): seq<EvidenceItem> {
    FirstPer(items, ItemIdOf())
  }

  function AllItems(events: seq<CallEvent>): seq<EvidenceItem> {
    if events == [] then [] else AllItems(events[..|events| - 1]) + events[|events| - 1].evidence
  }

  function UniqueTokens(events: seq<CallEvent>): int {
    Sum(FirstItems(AllItems(events)), TokensOf())
  }

  function DuplicateTokens(events: seq<CallEvent>): int {
    Clamp(Sum(events, FootprintOf()) - UniqueTokens(events))
  }

  /** `_percentile`, with the index floor(percent * (n - 1) / 100). */
  function Percentile(values: seq<int>, percent: nat): int
    requires percent <= 100
  {
    if values == [] then 0 else
      SortPermutes(values, IntLeq());
      var index := (|values| - 1) * percent / 100;
      assert 0 <= index <= |values| - 1 by { IndexInRange(|values| - 1, percent); }
      Sort(values, IntLeq())[index]
  }

  lemma IndexInRange(n: nat, percent: nat)
    requires percent <= 100
    ensures 0 <= n * percent / 100 <= n
  {
    assert n * percent <= n * 100;
  }

  function Elapsed(events: seq<CallEvent>): seq<int> {
    if events == [] then [] else Elapsed(events[..|events| - 1]) + [events[|events| - 1].elapsedMs]
  }

  function Maximum(values: seq<int>): int {
    if values == [] then 0
    else if |values| == 1 then values[0]
    else var m := Maximum(values[..|values| - 1]); if values[|values| - 1] > m then values[|values| - 1] else m
  }

  datatype Aggregate = Aggregate(eventCount: int, successCount: int, failureCount: int, unfinishedCount: int,
                                 totalElapsed: int, p50: int, p95: int, maxElapsed: int,
                                 totalResponse: int, totalFootprint: int, uniqueTokens: int, duplicateTokens: int)

  function EventCount(): CallEvent -> int { (e: CallEvent) => 1 }
  function SuccessCount(): CallEvent -> int { (e: CallEvent) => if e.outcome.Succeeded? then 1 else 0 }
  function FailureCount(): CallEvent -> int { (e: CallEvent) => if e.outcome.Succeeded? then 0 else 1 }
  function ElapsedOf(): CallEvent -> int { (e: CallEvent) => e.elapsedMs }
  function ResponseOf(): CallEvent -> int { (e: CallEvent) => e.response }
  function UnfinishedOne(): Id -> int { (c: Id) => 1 }

  /** `_aggregate` of some events and some unfinished calls. */
  function AggregateOf(events: seq<CallEvent>, unfinished: seq<Id>): Aggregate {
    Aggregate(Sum(events, EventCount()), Sum(events, SuccessCount()), Sum(events, FailureCount()),
              Sum(unfinished, UnfinishedOne()), Sum(events, ElapsedOf()),
              Percentile(Elapsed(events), 50), Percentile(Elapsed(events), 95), Maximum(Elapsed(events)),
              Sum(events, ResponseOf()), Sum(events, FootprintOf()), UniqueTokens(events), DuplicateTokens(events))
  }

  /** The dict loop of `_aggregate`. */
  method CollectUnique(events: seq<CallEvent>) returns (values: seq<EvidenceItem>)
    ensures values == FirstItems(AllItems(events))
  {
    var unique: map<Id, EvidenceItem> := map[];
    values := [];
    for i := 0 to |events|
      invariant values == FirstItems(AllItems(events[..i]))
      invariant unique.Keys == KeySet(values, ItemIdOf())
    {
      assert events[..i + 1][..i] == events[..i];
      unique, values := CollectItems(unique, values, events[i].evidence, AllItems(events[..i]));
    }
    assert events[..|events|] == events;
  }

  /** The inner loop: the evidence of one event. */
  method CollectItems(unique: map<Id, EvidenceItem>, values: seq<EvidenceItem>, items: seq<EvidenceItem>,
                      ghost before: seq<EvidenceItem>)
    returns (grownUnique: map<Id, EvidenceItem>, grown: seq<EvidenceItem>)
    requires values == FirstItems(before) && unique.Keys == KeySet(values, ItemIdOf())
    ensures grown == FirstItems(before + items) && grownUnique.Keys == KeySet(grown, ItemIdOf())
  {
    grownUnique, grown := unique, values;
    ghost var done := before;
    for k := 0 to |items|
      invariant done == before + items[..k]
      invariant grown == FirstItems(done) && grownUnique.Keys == KeySet(grown, ItemIdOf())
    {
      FirstPerSeen(done, items[k], ItemIdOf());
      OneMore(before, items, k);
      done := done + [items[k]];
      if items[k].id !in grownUnique {
        grownUnique := grownUnique[items[k].id := items[k]];
        grown := grown + [items[k]];
      }
    }
    assert items[..|items|] == items;
  }

  /** The item is what the last of the references with its id resolves to. */
  ghost predicate LastResolved<R>(references: seq<R>, resolve: R -> Option<EvidenceItem>, item: EvidenceItem) {
    exists k :: 0 <= k < |references| && resolve(references[k]) == Some(item) && NoneAfter(references, resolve, k, item.id)
  }

  ghost predicate NoneAfter<R>(references: seq<R>, resolve: R -> Option<EvidenceItem>, k: int, id: Id) {
    forall j :: 0 <= k < j < |references| && resolve(references[j]).Some? ==> resolve(references[j]).value.id != id
  }

  lemma LastResolvedStays<R>(references: seq<R>, resolve: R -> Option<EvidenceItem>, r: R, item: EvidenceItem)
    requires LastResolved(references, resolve, item) && (resolve(r).Some? ==> resolve(r).value.id != item.id)
    ensures LastResolved(references + [r], resolve, item)
  {
    var k :| 0 <= k < |references| && resolve(references[k]) == Some(item) && NoneAfter(references, resolve, k, item.id);
    assert (references + [r])[k] == references[k] && NoneAfter(references + [r], resolve, k, item.id);
  }

  lemma LastResolvedNow<R>(references: seq<R>, resolve: R -> Option<EvidenceItem>, r: R)
    requires resolve(r).Some?
    ensures LastResolved(references + [r], resolve, resolve(r).value)
  {
    var k := |references|;
    assert (references + [r])[k] == r && NoneAfter(references + [r], resolve, k, resolve(r).value.id);
  }

  method IndexReferences<R>(references: seq<R>, resolve: R -> Option<EvidenceItem>) returns (items: map<Id, EvidenceItem>)
    ensures forall id :: id in items ==> items[id].id == id && LastResolved(references, resolve, items[id])
    ensures forall k :: 0 <= k < |references| && resolve(references[k]).Some? ==> resolve(references[k]).value.id in items
  {
    items := map[];
    for i := 0 to |references|
      invariant forall id :: id in items ==> items[id].id == id && LastResolved(references[..i], resolve, items[id])
      invariant forall k :: 0 <= k < i && resolve(references[k]).Some? ==> resolve(references[k]).value.id in items
    {
      PrefixStep(references, i);
      var found := resolve(references[i]);
      forall id | id in items && (found.Some? ==> id != found.value.id) ensures LastResolved(references[..i + 1], resolve, items[id]) {
        LastResolvedStays(references[..i], resolve, references[i], items[id]);
      }
      if found.Some? {
        LastResolvedNow(references[..i], resolve, references[i]);
        items := items[found.value.id := found.value];
      }
    }
    assert references[..|references|] == references;
  }

  method SortedIds(ids: set<Id>) returns (sorted: seq<Id>)
    ensures Increasing(sorted) && forall id :: id in sorted <==> id in ids
  {
    var keys := Enumerate(ids);
    sorted := Sort(keys, IntLeq());
    SortPermutes(keys, IntLeq());
    SortSorts(keys, IntLeq());
    DistinctMultiset(keys);
    DistinctMultiset(sorted);
  }

  /** Collected evidence: one item per id, by increasing id, for exactly the references that
      resolve to a file; the last reference of an id counts. */
  method CollectEvidence<R>(references: seq<R>, resolve: R -> Option<EvidenceItem>) returns (evidence: seq<EvidenceItem>)
    ensures Increasing(ItemIds(evidence))
    ensures forall item :: item in evidence ==> LastResolved(references, resolve, item)
    ensures forall k :: 0 <= k < |references| && resolve(references[k]).Some? ==>
              resolve(references[k]).value.id in ItemIds(evidence)
  {
    var items := IndexReferences(references, resolve);
    var ids := SortedIds(items.Keys);
    assert forall id :: id in ids <==> id in items;
    evidence := [];
    for k := 0 to |ids|
      invariant ItemIds(evidence) == ids[..k]
      invariant forall item :: item in evidence ==> LastResolved(references, resolve, item)
    {
      assert ids[k] in ids;
      var item := items[ids[k]];
      assert (evidence + [item])[..|evidence|] == evidence;
      assert ids[..k + 1] == ids[..k] + [item.id];
      evidence := evidence + [item];
    }
    assert ids[..|ids|] == ids;
  }
}
