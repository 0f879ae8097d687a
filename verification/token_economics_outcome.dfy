/** What a recorded event and a report row hold, said of the calls and events behind them. */
module TokenEconomicsOutcome {
  import opened Ordering
  import opened Sums
  import opened FirstPerKey
  import opened TokenEconomics
  import opened TokenEconomicsProperties

  // ---- Recorded events -----------------------------------------------------------------

  /** An earlier call of the same session gave this evidence. */
  ghost predicate Given(calls: seq<Call>, k: nat, id: Id)
    requires k < |calls|
  {
    exists j: nat :: j < k && calls[j].session == calls[k].session && exists i :: i in calls[j].evidence && i.id == id
  }

  ghost function New(calls: seq<Call>, k: nat): EvidenceItem -> bool
    requires k < |calls|
  {
    (i: EvidenceItem) => !Given(calls, k, i.id)
  }

  /** What is stored for the `k`-th call: the call itself, the tokens of its evidence, and those
      of the evidence its session had not seen. */
  ghost predicate StoredFor(calls: seq<Call>, k: nat, e: CallEvent)
    requires k < |calls|
  {
    var c := calls[k];
    && e.callId == c.callId && e.session == c.session && e.startedAt == c.startedAt && e.elapsedMs == c.elapsedMs
    && e.outcome == c.outcome && e.response == c.response && e.evidence == c.evidence
    && e.footprint == Sum(c.evidence, TokensOf())
    && e.unique == Sum(Filter(c.evidence, New(calls, k)), TokensOf())
    && e.duplicate == if e.footprint >= e.unique then e.footprint - e.unique else 0
  }

  lemma {:induction false} UnseenIsFilter(items: seq<EvidenceItem>, seen: seq<Id>, p: EvidenceItem -> bool)
    requires forall i :: p(i) <==> i.id !in seen
    ensures Unseen(items, seen) == Filter(items, p)
  {
    if items != [] { UnseenIsFilter(items[..|items| - 1], seen, p); }
  }

  ghost predicate AllStored(calls: seq<Call>, events: seq<CallEvent>) {
    |events| == |calls| && forall k: nat :: k < |calls| ==> StoredFor(calls, k, events[k])
  }

  lemma {:induction false} EachCallIsStored(calls: seq<Call>)
    ensures AllStored(calls, RecordAll(calls))
  {
    if calls != [] {
      var n := |calls| - 1;
      var front := calls[..n];
      assert calls == front + [calls[n]];
      EachCallIsStored(front);
      forall k: nat | k < n ensures StoredFor(calls, k, RecordAll(calls)[k]) {
        StoredInLonger(front, calls[n], k, RecordAll(front)[k]);
      }
      LastIsStored(front, calls[n]);
    }
  }

  lemma StoredInLonger(front: seq<Call>, c: Call, k: nat, e: CallEvent)
    requires k < |front| && StoredFor(front, k, e)
    ensures StoredFor(front + [c], k, e)
  {
    var calls := front + [c];
    forall id ensures Given(calls, k, id) <==> Given(front, k, id) {
      if Given(calls, k, id) {
        var j: nat :| j < k && calls[j].session == calls[k].session && exists i :: i in calls[j].evidence && i.id == id;
        assert calls[j] == front[j];
      }
      if Given(front, k, id) {
        var j: nat :| j < k && front[j].session == front[k].session && exists i :: i in front[j].evidence && i.id == id;
        assert calls[j] == front[j];
      }
    }
    FilterAlike(front[k].evidence, New(calls, k), New(front, k));
  }

  lemma {:induction false} FilterAlike(items: seq<EvidenceItem>, p: EvidenceItem -> bool, q: EvidenceItem -> bool)
    requires forall i :: p(i) <==> q(i)
    ensures Filter(items, p) == Filter(items, q)
  {
    if items != [] { FilterAlike(items[..|items| - 1], p, q); }
  }

  lemma SeenIsGiven(front: seq<Call>, c: Call, events: seq<CallEvent>, id: Id)
    requires AllStored(front, events) && id in EvidenceIds(SessionEvents(events, c.session))
    ensures Given(front + [c], |front|, id)
  {
    var calls := front + [c];
    var own := SessionEvents(events, c.session);
    EvidenceIdsMember(own, id);
    var e :| e in own && id in ItemIds(e.evidence);
    WithKeyMember(events, SessionOf(), c.session, e);
    KeysOfMember(e.evidence, ItemIdOf(), id);
    var j: nat :| j < |events| && events[j] == e;
    assert StoredFor(front, j, e) && calls[j] == front[j];
  }

  lemma GivenIsSeen(front: seq<Call>, c: Call, events: seq<CallEvent>, id: Id)
    requires AllStored(front, events) && Given(front + [c], |front|, id)
    ensures id in EvidenceIds(SessionEvents(events, c.session))
  {
    var calls := front + [c];
    var j: nat :| j < |front| && calls[j].session == c.session && exists i :: i in calls[j].evidence && i.id == id;
    var e := events[j];
    assert StoredFor(front, j, e) && calls[j] == front[j];
    KeysOfMember(e.evidence, ItemIdOf(), id);
    WithKeyMember(events, SessionOf(), c.session, e);
    EvidenceIdsMember(SessionEvents(events, c.session), id);
  }

  lemma {:induction false} LastIsStored(front: seq<Call>, c: Call)
    requires AllStored(front, RecordAll(front))
    ensures StoredFor(front + [c], |front|, Recorded(RecordAll(front), c))
  {
    var calls, events := front + [c], RecordAll(front);
    var seen := EvidenceIds(SessionEvents(events, c.session));
    forall i: EvidenceItem ensures New(calls, |front|)(i) <==> i.id !in seen {
      if i.id in seen { SeenIsGiven(front, c, events, i.id); }
      if Given(calls, |front|, i.id) { GivenIsSeen(front, c, events, i.id); }
    }
    UnseenIsFilter(c.evidence, seen, New(calls, |front|));
  }

  // ---- Report rows --------------------------------------------------------------------------

  function WithOutcome(success: bool): CallEvent -> bool { (e: CallEvent) => e.outcome.Succeeded? == success }
  function DurationOf(): CallEvent -> int { (e: CallEvent) => e.elapsedMs }
  function ResponseTokens(): CallEvent -> int { (e: CallEvent) => e.response }
  function FootprintTokens(): CallEvent -> int { (e: CallEvent) => e.footprint }

  function Durations(events: seq<CallEvent>): seq<int> {
    seq(|events|, i requires 0 <= i < |events| => events[i].elapsedMs)
  }

  /** All evidence, event by event. */
  function Evidence(events: seq<CallEvent>): seq<EvidenceItem> {
    Flatten(seq(|events|, i requires 0 <= i < |events| => events[i].evidence))
  }

  /** The value at the truncated index of the sorted list: as many are no larger, and as many no
      smaller, as there are places up to it and from it. */
  ghost predicate RankedAt(values: seq<int>, percent: nat, p: int) {
    if values == [] then p == 0
    else
      var index := (|values| - 1) * percent / 100;
      p in values && Sum(values, AtMost(p)) >= index + 1 && Sum(values, AtLeast(p)) >= |values| - index
  }

  /** Of every evidence id the item given first. */
  ghost predicate FirstGiven(items: seq<EvidenceItem>, firsts: seq<EvidenceItem>) {
    && (forall i, j :: 0 <= i < j < |firsts| ==> firsts[i].id != firsts[j].id)
    && (forall x :: x in firsts ==> exists k :: 0 <= k < |items| && items[k] == x && forall j :: 0 <= j < k ==> items[j].id != x.id)
    && (forall x :: x in items ==> exists y :: y in firsts && y.id == x.id)
  }

  /** Every figure of a row. */
  ghost predicate RowOf(a: Aggregate, events: seq<CallEvent>, unfinished: seq<Id>) {
    && a.eventCount == |events| && a.unfinishedCount == |unfinished|
    && a.successCount == |Filter(events, WithOutcome(true))| && a.failureCount == |Filter(events, WithOutcome(false))|
    && a.totalElapsed == Sum(events, DurationOf()) && a.totalResponse == Sum(events, ResponseTokens())
    && a.totalFootprint == Sum(events, FootprintTokens())
    && RankedAt(Durations(events), 50, a.p50) && RankedAt(Durations(events), 95, a.p95)
    && (if events == [] then a.maxElapsed == 0
        else a.maxElapsed in Durations(events) && forall d :: d in Durations(events) ==> d <= a.maxElapsed)
    && (exists firsts :: FirstGiven(Evidence(events), firsts) && a.uniqueTokens == Sum(firsts, TokensOf()))
    && a.duplicateTokens == if a.totalFootprint >= a.uniqueTokens then a.totalFootprint - a.uniqueTokens else 0
  }

  lemma {:induction false} ElapsedAreDurations(events: seq<CallEvent>)
    ensures Elapsed(events) == Durations(events)
  {
    if events != [] { ElapsedAreDurations(events[..|events| - 1]); }
  }

  lemma {:induction false} AllItemsAreEvidence(events: seq<CallEvent>)
    ensures AllItems(events) == Evidence(events)
  {
    if events != [] {
      var n := |events| - 1;
      AllItemsAreEvidence(events[..n]);
      var all := seq(|events|, i requires 0 <= i < |events| => events[i].evidence);
      assert all[..n] == seq(n, i requires 0 <= i < n => events[..n][i].evidence);
    }
  }

  lemma FirstItemsAreFirst(items: seq<EvidenceItem>)
    ensures FirstGiven(items, FirstItems(items))
  {
    FirstPerSpec(items, ItemIdOf());
    var firsts := FirstItems(items);
    forall i, j | 0 <= i < j < |firsts| ensures firsts[i].id != firsts[j].id {
      assert ItemIdOf()(firsts[i]) != ItemIdOf()(firsts[j]);
    }
    forall x | x in firsts
      ensures exists k :: 0 <= k < |items| && items[k] == x && forall j :: 0 <= j < k ==> items[j].id != x.id
    {
      var k := FirstWithId(items, x);
    }
    forall x | x in items ensures exists y :: y in firsts && y.id == x.id {
      assert ItemIdOf()(x) in KeySet(firsts, ItemIdOf());
    }
  }

  lemma {:induction false} FirstWithId(items: seq<EvidenceItem>, x: EvidenceItem) returns (k: nat)
    requires x in FirstItems(items)
    ensures k < |items| && items[k] == x && forall j :: 0 <= j < k ==> items[j].id != x.id
  {
    var n := |items| - 1;
    var front := items[..n];
    if x in FirstItems(front) {
      k := FirstWithId(front, x);
    } else {
      k := n;
      KeptKey(front, ItemIdOf(), x.id);
      forall j | 0 <= j < n ensures items[j].id != x.id {
        KeysOfMember(front, ItemIdOf(), x.id);
        assert front[j] in front;
      }
    }
  }

  lemma PercentileIsRanked(values: seq<int>, percent: nat)
    requires percent <= 100
    ensures RankedAt(values, percent, Percentile(values, percent))
  {
    if values != [] { PercentileIsOrderStatistic(values, percent); }
  }

  /** Every figure of an aggregate is the count, sum, rank, maximum or deduplicated sum it is
      called. */
  lemma AggregateSpec(events: seq<CallEvent>, unfinished: seq<Id>)
    ensures RowOf(AggregateOf(events, unfinished), events, unfinished)
  {
    EachCounted(events, EventCount());
    EachCounted(unfinished, UnfinishedOne());
    CountedAs(events, SuccessCount(), WithOutcome(true));
    CountedAs(events, FailureCount(), WithOutcome(false));
    SumSame(events, ElapsedOf(), DurationOf());
    SumSame(events, ResponseOf(), ResponseTokens());
    SumSame(events, FootprintOf(), FootprintTokens());
    ElapsedAreDurations(events);
    PercentileIsRanked(Durations(events), 50);
    PercentileIsRanked(Durations(events), 95);
    if events != [] { MaximumSpec(Durations(events)); }
    AllItemsAreEvidence(events);
    FirstItemsAreFirst(Evidence(events));
  }

  ghost predicate Occurs<T>(s: seq<T>, key: T -> int, k: int) {
    exists x :: x in s && key(x) == k
  }

  /** A grouped report has one row per key that occurs, by increasing key, about exactly the
      events and unfinished calls of that key. */
  lemma GroupReportSpec(events: seq<CallEvent>, unfinished: seq<Id>, key: CallEvent -> int, unfinishedKey: Id -> int)
    ensures var keys := ReportKeys(events, unfinished, key, unfinishedKey);
            var report := GroupReport(events, unfinished, key, unfinishedKey, keys);
            && Increasing(keys) && |report| == |keys|
            && (forall k :: k in keys <==> Occurs(events, key, k) || Occurs(unfinished, unfinishedKey, k))
            && forall r :: 0 <= r < |keys| ==>
                 RowOf(report[r], Filter(events, (e: CallEvent) => key(e) == keys[r]), Filter(unfinished, (u: Id) => unfinishedKey(u) == keys[r]))
  {
    var keys := ReportKeys(events, unfinished, key, unfinishedKey);
    SortedKeysSpec(KeysOf(events, key) + KeysOf(unfinished, unfinishedKey));
    forall k ensures k in keys <==> Occurs(events, key, k) || Occurs(unfinished, unfinishedKey, k) {
      KeysOfMember(events, key, k);
      KeysOfMember(unfinished, unfinishedKey, k);
      assert k in keys <==> k in KeysOf(events, key) || k in KeysOf(unfinished, unfinishedKey);
    }
    GroupReportAt(events, unfinished, key, unfinishedKey, keys);
    forall r | 0 <= r < |keys|
      ensures RowOf(AggregateOf(WithKey(events, key, keys[r]), WithKey(unfinished, unfinishedKey, keys[r])),
                    Filter(events, (e: CallEvent) => key(e) == keys[r]), Filter(unfinished, (u: Id) => unfinishedKey(u) == keys[r]))
    {
      WithKeyIsFilter(events, key, keys[r], (e: CallEvent) => key(e) == keys[r]);
      WithKeyIsFilter(unfinished, unfinishedKey, keys[r], (u: Id) => unfinishedKey(u) == keys[r]);
      AggregateSpec(WithKey(events, key, keys[r]), WithKey(unfinished, unfinishedKey, keys[r]));
    }
  }

  lemma {:induction false} GroupReportAt(events: seq<CallEvent>, unfinished: seq<Id>, key: CallEvent -> int, unfinishedKey: Id -> int,
                                         keys: seq<int>)
    ensures |GroupReport(events, unfinished, key, unfinishedKey, keys)| == |keys|
    ensures forall r :: 0 <= r < |keys| ==>
              GroupReport(events, unfinished, key, unfinishedKey, keys)[r] ==
              AggregateOf(WithKey(events, key, keys[r]), WithKey(unfinished, unfinishedKey, keys[r]))
  {
    if keys != [] { GroupReportAt(events, unfinished, key, unfinishedKey, keys[..|keys| - 1]); }
  }
}
