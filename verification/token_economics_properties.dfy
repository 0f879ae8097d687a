/** Incremental dedupe agrees with batch dedupe; grouped reports add up where they
    should and are subadditive where they dedupe; percentiles are order statistics. */
module TokenEconomicsProperties {
  import opened Ordering
  import opened Sums
  import opened FirstPerKey
  import opened TokenEconomics

  /** An evidence id carries the hash of its text, so it determines the token count;
      a call's evidence names each id once. */
  ghost predicate ContentAddressed(items: seq<EvidenceItem>, tok: Id -> nat) {
    && Distinct(ItemIds(items))
    && forall i :: i in items ==> i.tokens == tok(i.id)
  }

  ghost predicate ContentCalls(calls: seq<Call>, tok: Id -> nat) {
    forall c :: c in calls ==> ContentAddressed(c.evidence, tok) && (!c.outcome.Succeeded? ==> c.evidence == [])
  }

  ghost predicate ContentEvents(events: seq<CallEvent>, tok: Id -> nat) {
    forall e :: e in events ==> ContentAddressed(e.evidence, tok) && e.footprint == Sum(e.evidence, TokensOf())
  }

  function WeightOf(tok: Id -> nat): Id -> int { (id: Id) => tok(id) }

  /** Tokens of the distinct ids. */
  function Spread(ids: seq<Id>, tok: Id -> nat): int { Sum(FirstOccurrences(ids), WeightOf(tok)) }

  lemma DistinctAlike(a: seq<Id>, b: seq<Id>)
    requires Distinct(a) && Distinct(b) && forall x :: x in a <==> x in b
    ensures multiset(a) == multiset(b)
  {
    forall x ensures multiset(a)[x] == multiset(b)[x] {
      DistinctCount(a, x);
      DistinctCount(b, x);
      assert x in a <==> x in multiset(a);
      assert x in b <==> x in multiset(b);
    }
  }

  lemma SpreadByElements(a: seq<Id>, b: seq<Id>, tok: Id -> nat)
    requires forall x :: x in a <==> x in b
    ensures Spread(a, tok) == Spread(b, tok)
  {
    DistinctAlike(FirstOccurrences(a), FirstOccurrences(b));
    SumPermuted(FirstOccurrences(a), FirstOccurrences(b), WeightOf(tok));
  }

  // ---- The report's unique tokens depend only on the set of ids ---------------------

  lemma ItemIdsStep(items: seq<EvidenceItem>, i: EvidenceItem)
    ensures ItemIds(items + [i]) == ItemIds(items) + [i.id]
  {
    assert (items + [i])[..|items|] == items;
  }

  lemma {:induction false} ItemIdsAppend(a: seq<EvidenceItem>, b: seq<EvidenceItem>)
    ensures ItemIds(a + b) == ItemIds(a) + ItemIds(b)
  {
    if b == [] {
      assert a + b == a;
    } else {
      var n := |b| - 1;
      ItemIdsAppend(a, b[..n]);
      assert a + b == a + b[..n] + [b[n]];
      ItemIdsStep(a + b[..n], b[n]);
    }
  }

  lemma {:induction false} FirstItemsSpread(items: seq<EvidenceItem>, tok: Id -> nat)
    requires forall i :: i in items ==> i.tokens == tok(i.id)
    ensures Sum(FirstItems(items), TokensOf()) == Spread(ItemIds(items), tok)
  {
    if items != [] {
      var n := |items| - 1;
      assert items == items[..n] + [items[n]];
      FirstItemsSpread(items[..n], tok);
      FirstItemSpread(items[..n], items[n], tok);
    }
  }

  lemma FirstItemSpread(items: seq<EvidenceItem>, x: EvidenceItem, tok: Id -> nat)
    requires x.tokens == tok(x.id)
    requires Sum(FirstItems(items), TokensOf()) == Spread(ItemIds(items), tok)
    ensures Sum(FirstItems(items + [x]), TokensOf()) == Spread(ItemIds(items + [x]), tok)
  {
    FirstPerStep(items, x, ItemIdOf());
    KeptKey(items, ItemIdOf(), x.id);
    ItemIdsStep(items, x);
    SpreadStep(ItemIds(items), x.id, tok);
    if x.id !in ItemIds(items) { SumStep(FirstItems(items), x, TokensOf()); }
  }

  lemma {:induction false} AllItemsSpec(events: seq<CallEvent>, tok: Id -> nat)
    requires ContentEvents(events, tok)
    ensures ItemIds(AllItems(events)) == EvidenceIds(events)
    ensures forall i :: i in AllItems(events) ==> i.tokens == tok(i.id)
  {
    if events != [] {
      var n := |events| - 1;
      assert events[n] in events;
      AllItemsSpec(events[..n], tok);
      ItemIdsAppend(AllItems(events[..n]), events[n].evidence);
    }
  }

  lemma UniqueIsSpread(events: seq<CallEvent>, tok: Id -> nat)
    requires ContentEvents(events, tok)
    ensures UniqueTokens(events) == Spread(EvidenceIds(events), tok)
  {
    AllItemsSpec(events, tok);
    FirstItemsSpread(AllItems(events), tok);
  }

  lemma {:induction false} EvidenceIdsMember(events: seq<CallEvent>, id: Id)
    ensures id in EvidenceIds(events) <==> exists e :: e in events && id in ItemIds(e.evidence)
  {
    if events != [] {
      EvidenceIdsMember(events[..|events| - 1], id);
      assert events == events[..|events| - 1] + [events[|events| - 1]];
    }
  }

  ghost predicate Cites(events: seq<CallEvent>, id: Id) {
    exists e :: e in events && id in ItemIds(e.evidence)
  }

  lemma SameEventsSameUnique(a: seq<CallEvent>, b: seq<CallEvent>, tok: Id -> nat)
    requires ContentEvents(a, tok) && ContentEvents(b, tok)
    requires forall id :: Cites(a, id) <==> Cites(b, id)
    ensures UniqueTokens(a) == UniqueTokens(b)
  {
    forall id ensures id in EvidenceIds(a) <==> id in EvidenceIds(b) {
      EvidenceIdsMember(a, id);
      EvidenceIdsMember(b, id);
      assert Cites(a, id) <==> Cites(b, id);
    }
    SpreadByElements(EvidenceIds(a), EvidenceIds(b), tok);
    UniqueIsSpread(a, tok);
    UniqueIsSpread(b, tok);
  }

  // ---- What one call adds ---------------------------------------------------------------

  lemma {:induction false} SpreadGrows(ids: seq<Id>, items: seq<EvidenceItem>, tok: Id -> nat)
    requires ContentAddressed(items, tok)
    ensures Spread(ids + ItemIds(items), tok) == Spread(ids, tok) + Sum(Unseen(items, ids), TokensOf())
    ensures 0 <= Sum(Unseen(items, ids), TokensOf()) <= Sum(items, TokensOf())
  {
    if items == [] {
      assert ids + ItemIds(items) == ids;
    } else {
      var n := |items| - 1;
      var last := items[n];
      ItemIdsAt(items);
      ItemIdsAt(items[..n]);
      assert ItemIds(items)[..n] == ItemIds(items[..n]);
      assert last in items;
      assert forall i :: i in items[..n] ==> i in items;
      SpreadGrows(ids, items[..n], tok);
      assert ids + ItemIds(items) == ids + ItemIds(items[..n]) + [last.id];
      SpreadStep(ids + ItemIds(items[..n]), last.id, tok);
      SumStep(Unseen(items[..n], ids), last, TokensOf());
      assert last.id !in ItemIds(items[..n]);
    }
  }

  lemma SpreadStep(ids: seq<Id>, id: Id, tok: Id -> nat)
    ensures Spread(ids + [id], tok) == Spread(ids, tok) + if id in ids then 0 else tok(id)
  {
    FirstOccurrencesStep(ids, id);
    SumStep(FirstOccurrences(ids), id, WeightOf(tok));
  }

  lemma {:induction false} RecordAllContent(calls: seq<Call>, tok: Id -> nat)
    requires ContentCalls(calls, tok)
    ensures ContentEvents(RecordAll(calls), tok)
    ensures forall e :: e in RecordAll(calls) ==> e.unique + e.duplicate == e.footprint && (!e.outcome.Succeeded? ==> e.evidence == [])
  {
    if calls != [] {
      var n := |calls| - 1;
      assert calls[n] in calls;
      RecordAllContent(calls[..n], tok);
      var events := RecordAll(calls[..n]);
      SpreadGrows(EvidenceIds(SessionEvents(events, calls[n].session)), calls[n].evidence, tok);
    }
  }

  lemma EvidenceIdsStep(events: seq<CallEvent>, e: CallEvent)
    ensures EvidenceIds(events + [e]) == EvidenceIds(events) + ItemIds(e.evidence)
  {
    assert (events + [e])[..|events|] == events;
  }

  lemma {:induction false} SessionUnique(calls: seq<Call>, tok: Id -> nat, session: Id)
    requires ContentCalls(calls, tok)
    ensures var own := SessionEvents(RecordAll(calls), session);
            Sum(own, UniqueOf()) == Spread(EvidenceIds(own), tok)
  {
    if calls != [] {
      var n := |calls| - 1;
      assert calls[n] in calls;
      SessionUnique(calls[..n], tok, session);
      var events := RecordAll(calls[..n]);
      var e := Recorded(events, calls[n]);
      var own := SessionEvents(events, session);
      WithKeyStep(events, e, SessionOf(), session);
      if e.session == session {
        SpreadGrows(EvidenceIds(own), e.evidence, tok);
        EvidenceIdsStep(own, e);
        SumStep(own, e, UniqueOf());
      }
    }
  }

  lemma {:induction false} DuplicateIsRest(events: seq<CallEvent>)
    requires forall e :: e in events ==> e.unique + e.duplicate == e.footprint
    ensures Sum(events, UniqueOf()) + Sum(events, DuplicateOf()) == Sum(events, FootprintOf())
    ensures Sum(events, DuplicateOf()) >= 0
  {
    if events != [] {
      assert events[|events| - 1] in events;
      DuplicateIsRest(events[..|events| - 1]);
    }
  }

  lemma SessionContent(events: seq<CallEvent>, tok: Id -> nat, session: Id)
    requires ContentEvents(events, tok)
    ensures ContentEvents(SessionEvents(events, session), tok)
    ensures forall e :: e in SessionEvents(events, session) ==> e in events
  {
    forall e { WithKeyMember(events, SessionOf(), session, e); }
  }

  lemma PermutedMembers<T>(a: seq<T>, b: seq<T>)
    requires multiset(a) == multiset(b)
    ensures forall x :: x in a <==> x in b
  {
    forall x ensures x in a <==> x in b {
      assert x in a <==> x in multiset(a);
      assert x in b <==> x in multiset(b);
    }
  }

  /** For any sequence of recorded calls across any sessions, and in whatever order
      the report reads a session's events back: unique and duplicate tokens found
      call by call add up to what the report computes from the events, and neither
      clamp at zero ever changes a value. */
  lemma IncrementalEqualsBatch(calls: seq<Call>, tok: Id -> nat, session: Id, reread: seq<CallEvent>)
    requires ContentCalls(calls, tok)
    requires multiset(reread) == multiset(SessionEvents(RecordAll(calls), session))
    ensures var own := SessionEvents(RecordAll(calls), session);
            && Sum(own, UniqueOf()) == UniqueTokens(reread)
            && Sum(own, DuplicateOf()) == DuplicateTokens(reread)
            && UniqueTokens(reread) <= Sum(reread, FootprintOf())
            && forall e :: e in own ==> e.unique <= e.footprint
  {
    var own := SessionEvents(RecordAll(calls), session);
    RecordAllContent(calls, tok);
    SessionContent(RecordAll(calls), tok, session);
    PermutedMembers(own, reread);
    SessionUnique(calls, tok, session);
    UniqueIsSpread(own, tok);
    SameEventsSameUnique(own, reread, tok);
    DuplicateIsRest(own);
    SumPermuted(reread, own, FootprintOf());
  }

  function SucceededOnly(): CallEvent -> bool { (e: CallEvent) => e.outcome.Succeeded? }

  lemma {:induction false} DropFailuresSums(events: seq<CallEvent>)
    requires forall e :: e in events && !e.outcome.Succeeded? ==> e.unique == 0 && e.duplicate == 0
    ensures Sum(Filter(events, SucceededOnly()), UniqueOf()) == Sum(events, UniqueOf())
    ensures Sum(Filter(events, SucceededOnly()), DuplicateOf()) == Sum(events, DuplicateOf())
  {
    if events != [] {
      var n := |events| - 1;
      assert events[n] in events;
      DropFailuresSums(events[..n]);
      SumStep(Filter(events[..n], SucceededOnly()), events[n], UniqueOf());
      SumStep(Filter(events[..n], SucceededOnly()), events[n], DuplicateOf());
    }
  }

  /** Leaving failed and interrupted calls out of the report changes none of it. */
  lemma DroppingFailuresChangesNothing(calls: seq<Call>, tok: Id -> nat, session: Id)
    requires ContentCalls(calls, tok)
    ensures var own := SessionEvents(RecordAll(calls), session);
            var kept := Filter(own, SucceededOnly());
            && UniqueTokens(kept) == UniqueTokens(own)
            && Sum(kept, UniqueOf()) == Sum(own, UniqueOf()) && Sum(kept, DuplicateOf()) == Sum(own, DuplicateOf())
  {
    var own := SessionEvents(RecordAll(calls), session);
    var kept := Filter(own, SucceededOnly());
    RecordAllContent(calls, tok);
    SessionContent(RecordAll(calls), tok, session);
    forall e { FilterMember(own, SucceededOnly(), e); }
    SameEventsSameUnique(own, kept, tok);
    DropFailuresSums(own);
  }

  // ---- Grouped reports --------------------------------------------------------------------

  function GroupedUnique(events: seq<CallEvent>, key: CallEvent -> int, keys: seq<int>): int {
    if keys == [] then 0
    else GroupedUnique(events, key, keys[..|keys| - 1]) + UniqueTokens(WithKey(events, key, keys[|keys| - 1]))
  }

  lemma {:induction false} FewerSeenMoreUnseen(items: seq<EvidenceItem>, a: seq<Id>, b: seq<Id>)
    requires forall x :: x in a ==> x in b
    ensures Sum(Unseen(items, b), TokensOf()) <= Sum(Unseen(items, a), TokensOf())
  {
    if items != [] {
      var n := |items| - 1;
      FewerSeenMoreUnseen(items[..n], a, b);
      SumStep(Unseen(items[..n], a), items[n], TokensOf());
      SumStep(Unseen(items[..n], b), items[n], TokensOf());
    }
  }

  lemma UniqueStep(events: seq<CallEvent>, e: CallEvent, tok: Id -> nat)
    requires ContentEvents(events + [e], tok)
    ensures UniqueTokens(events + [e]) == UniqueTokens(events) + Sum(Unseen(e.evidence, EvidenceIds(events)), TokensOf())
    ensures 0 <= Sum(Unseen(e.evidence, EvidenceIds(events)), TokensOf()) <= e.footprint
  {
    assert forall x :: x in events ==> x in events + [e];
    assert e in events + [e];
    UniqueIsSpread(events, tok);
    UniqueIsSpread(events + [e], tok);
    EvidenceIdsStep(events, e);
    SpreadGrows(EvidenceIds(events), e.evidence, tok);
  }

  lemma {:induction false} GroupedUniqueStep(events: seq<CallEvent>, e: CallEvent, key: CallEvent -> int, keys: seq<int>, tok: Id -> nat)
    requires ContentEvents(events + [e], tok) && Distinct(keys)
    ensures GroupedUnique(events + [e], key, keys) ==
            GroupedUnique(events, key, keys)
            + if key(e) in keys then Sum(Unseen(e.evidence, EvidenceIds(WithKey(events, key, key(e)))), TokensOf()) else 0
  {
    if keys != [] {
      var n := |keys| - 1;
      GroupedUniqueStep(events, e, key, keys[..n], tok);
      WithKeyStep(events, e, key, keys[n]);
      assert keys == keys[..n] + [keys[n]];
      if key(e) == keys[n] {
        OwnUniqueStep(events, e, key, tok);
        assert key(e) !in keys[..n];
      }
    }
  }

  lemma OwnUniqueStep(events: seq<CallEvent>, e: CallEvent, key: CallEvent -> int, tok: Id -> nat)
    requires ContentEvents(events + [e], tok)
    ensures var own := WithKey(events, key, key(e));
            UniqueTokens(own + [e]) == UniqueTokens(own) + Sum(Unseen(e.evidence, EvidenceIds(own)), TokensOf())
  {
    var own := WithKey(events, key, key(e));
    forall x | x in own + [e] ensures x in events + [e] { WithKeyMember(events, key, key(e), x); }
    UniqueStep(own, e, tok);
  }

  lemma {:induction false} GroupedUniqueEmpty(key: CallEvent -> int, keys: seq<int>)
    ensures GroupedUnique([], key, keys) == 0
  {
    if keys != [] { GroupedUniqueEmpty(key, keys[..|keys| - 1]); }
  }

  /** Unique tokens: total <= sum over the groups <= total footprint, for any key. */
  lemma {:induction false} UniqueBetween(events: seq<CallEvent>, key: CallEvent -> int, keys: seq<int>, tok: Id -> nat)
    requires ContentEvents(events, tok) && Distinct(keys) && forall k :: k in KeysOf(events, key) ==> k in keys
    ensures UniqueTokens(events) <= GroupedUnique(events, key, keys) <= Sum(events, FootprintOf())
  {
    if events == [] {
      GroupedUniqueEmpty(key, keys);
    } else {
      var n := |events| - 1;
      var e := events[n];
      var before := events[..n];
      assert events == before + [e];
      UniqueBetween(before, key, keys, tok);
      assert key(e) in KeysOf(events, key);
      GroupedUniqueStep(before, e, key, keys, tok);
      UniqueStep(before, e, tok);
      var own := WithKey(before, key, key(e));
      forall id | id in EvidenceIds(own) ensures id in EvidenceIds(before) {
        EvidenceIdsMember(own, id);
        EvidenceIdsMember(before, id);
        forall x { WithKeyMember(before, key, key(e), x); }
      }
      FewerSeenMoreUnseen(e.evidence, EvidenceIds(own), EvidenceIds(before));
      forall x | x in own + [e] ensures x in events { WithKeyMember(before, key, key(e), x); }
      UniqueStep(own, e, tok);
    }
  }

  /** The additive columns of a grouped report. */
  datatype Column = Events | Successes | Failures | ElapsedTime | Response | Footprint

  function Field(c: Column, a: Aggregate): int {
    match c
    case Events => a.eventCount
    case Successes => a.successCount
    case Failures => a.failureCount
    case ElapsedTime => a.totalElapsed
    case Response => a.totalResponse
    case Footprint => a.totalFootprint
  }

  function ColumnWeight(c: Column): CallEvent -> int {
    match c
    case Events => EventCount()
    case Successes => SuccessCount()
    case Failures => FailureCount()
    case ElapsedTime => ElapsedOf()
    case Response => ResponseOf()
    case Footprint => FootprintOf()
  }

  /** `_aggregate_group`: one aggregate per key that has an event or an unfinished call. */
  function GroupReport(events: seq<CallEvent>, unfinished: seq<Id>, key: CallEvent -> int, unfinishedKey: Id -> int, keys: seq<int>)
    : seq<Aggregate>
  {
    if keys == [] then [] else
      var k := keys[|keys| - 1];
      GroupReport(events, unfinished, key, unfinishedKey, keys[..|keys| - 1])
      + [AggregateOf(WithKey(events, key, k), WithKey(unfinished, unfinishedKey, k))]
  }

  function ReportKeys(events: seq<CallEvent>, unfinished: seq<Id>, key: CallEvent -> int, unfinishedKey: Id -> int): seq<int> {
    SortedKeys(KeysOf(events, key) + KeysOf(unfinished, unfinishedKey))
  }

  function FieldOf(c: Column): Aggregate -> int { (a: Aggregate) => Field(c, a) }
  function UnfinishedOf(): Aggregate -> int { (a: Aggregate) => a.unfinishedCount }
  function UniqueColumn(): Aggregate -> int { (a: Aggregate) => a.uniqueTokens }

  /** A column of one group's aggregate is the sum over the group. */
  lemma FieldIsSum(events: seq<CallEvent>, unfinished: seq<Id>, c: Column)
    ensures FieldOf(c)(AggregateOf(events, unfinished)) == Sum(events, ColumnWeight(c))
  {
  }

  lemma GroupReportStep(events: seq<CallEvent>, unfinished: seq<Id>, key: CallEvent -> int, unfinishedKey: Id -> int,
                        keys: seq<int>, weight: Aggregate -> int)
    requires keys != []
    ensures var n := |keys| - 1;
            Sum(GroupReport(events, unfinished, key, unfinishedKey, keys), weight) ==
            Sum(GroupReport(events, unfinished, key, unfinishedKey, keys[..n]), weight)
            + weight(AggregateOf(WithKey(events, key, keys[n]), WithKey(unfinished, unfinishedKey, keys[n])))
  {
    var n := |keys| - 1;
    SumStep(GroupReport(events, unfinished, key, unfinishedKey, keys[..n]),
            AggregateOf(WithKey(events, key, keys[n]), WithKey(unfinished, unfinishedKey, keys[n])), weight);
  }

  lemma {:induction false} GroupReportSums(events: seq<CallEvent>, unfinished: seq<Id>, key: CallEvent -> int,
                                           unfinishedKey: Id -> int, keys: seq<int>, c: Column)
    ensures var report := GroupReport(events, unfinished, key, unfinishedKey, keys);
            && Sum(report, FieldOf(c)) == GroupedSum(events, key, keys, ColumnWeight(c))
            && Sum(report, UnfinishedOf()) == GroupedSum(unfinished, unfinishedKey, keys, UnfinishedOne())
            && Sum(report, UniqueColumn()) == GroupedUnique(events, key, keys)
  {
    if keys != [] {
      var n := |keys| - 1;
      GroupReportSums(events, unfinished, key, unfinishedKey, keys[..n], c);
      FieldIsSum(WithKey(events, key, keys[n]), WithKey(unfinished, unfinishedKey, keys[n]), c);
      GroupReportStep(events, unfinished, key, unfinishedKey, keys, FieldOf(c));
      GroupReportStep(events, unfinished, key, unfinishedKey, keys, UnfinishedOf());
      GroupReportStep(events, unfinished, key, unfinishedKey, keys, UniqueColumn());
    }
  }

  /** For any grouping: counts and totals of the groups add up to the ungrouped
      aggregate, unfinished calls included; unique tokens lie between the ungrouped
      figure and the total footprint. */
  lemma GroupedReportsAddUp(events: seq<CallEvent>, unfinished: seq<Id>, key: CallEvent -> int, unfinishedKey: Id -> int,
                            c: Column, tok: Id -> nat)
    requires ContentEvents(events, tok)
    ensures var report := GroupReport(events, unfinished, key, unfinishedKey, ReportKeys(events, unfinished, key, unfinishedKey));
            var total := AggregateOf(events, unfinished);
            && Sum(report, FieldOf(c)) == Field(c, total)
            && Sum(report, UnfinishedOf()) == total.unfinishedCount
            && total.uniqueTokens <= Sum(report, UniqueColumn()) <= total.totalFootprint
  {
    var keys := ReportKeys(events, unfinished, key, unfinishedKey);
    SortedKeysSpec(KeysOf(events, key) + KeysOf(unfinished, unfinishedKey));
    GroupReportSums(events, unfinished, key, unfinishedKey, keys, c);
    GroupsAddUp(events, key, keys, ColumnWeight(c));
    GroupsAddUp(unfinished, unfinishedKey, keys, UnfinishedOne());
    UniqueBetween(events, key, keys, tok);
  }

  // ---- Percentiles --------------------------------------------------------------------------

  function AtMost(x: int): int -> int { (v: int) => if v <= x then 1 else 0 }
  function AtLeast(x: int): int -> int { (v: int) => if v >= x then 1 else 0 }

  lemma {:induction false} CountBelow(s: seq<int>, k: nat)
    requires SortedBy(s, IntLeq()) && k < |s|
    ensures Sum(s, AtMost(s[k])) >= k + 1
  {
    var n := |s| - 1;
    if k < n {
      CountBelow(s[..n], k);
    } else {
      AllCounted(s[..n], AtMost(s[k]));
    }
  }

  lemma {:induction false} AllCounted(s: seq<int>, p: int -> int)
    requires forall i :: 0 <= i < |s| ==> p(s[i]) == 1
    ensures Sum(s, p) == |s|
  {
    if s != [] {
      var n := |s| - 1;
      AllCounted(s[..n], p);
    }
  }

  lemma {:induction false} CountNonNegative(s: seq<int>, x: int)
    ensures Sum(s, AtLeast(x)) >= 0
  {
    if s != [] { CountNonNegative(s[..|s| - 1], x); }
  }

  lemma CountAbove(s: seq<int>, k: nat)
    requires SortedBy(s, IntLeq()) && k < |s|
    ensures Sum(s, AtLeast(s[k])) >= |s| - k
  {
    assert s == s[..k] + s[k..];
    SumAppend(s[..k], s[k..], AtLeast(s[k]));
    AllCounted(s[k..], AtLeast(s[k]));
    CountNonNegative(s[..k], s[k]);
  }

  /** The percentile is one of the values; counting from below, at least index + 1
      values are no larger, and at least n - index are no smaller. */
  lemma PercentileIsOrderStatistic(values: seq<int>, percent: nat)
    requires values != [] && percent <= 100
    ensures var p := Percentile(values, percent);
            var index := (|values| - 1) * percent / 100;
            && p in values && Sum(values, AtMost(p)) >= index + 1 && Sum(values, AtLeast(p)) >= |values| - index
  {
    var s := Sort(values, IntLeq());
    var index := (|values| - 1) * percent / 100;
    IndexInRange(|values| - 1, percent);
    SortPermutes(values, IntLeq());
    SortSorts(values, IntLeq());
    CountBelow(s, index);
    CountAbove(s, index);
    SumPermuted(s, values, AtMost(s[index]));
    SumPermuted(s, values, AtLeast(s[index]));
    assert s[index] in s;
  }

  lemma {:induction false} MaximumSpec(values: seq<int>)
    requires values != []
    ensures Maximum(values) in values && forall v :: v in values ==> v <= Maximum(values)
  {
    if |values| > 1 {
      MaximumSpec(values[..|values| - 1]);
      assert values == values[..|values| - 1] + [values[|values| - 1]];
    }
  }

  lemma IndexMonotone(n: nat, low: nat, high: nat)
    requires low <= high
    ensures n * low / 100 <= n * high / 100
  {
    assert n * low <= n * high;
  }

  lemma PercentileMonotone(values: seq<int>, low: nat, high: nat)
    requires low <= high <= 100 && values != []
    ensures Percentile(values, low) <= Percentile(values, high)
    ensures Percentile(values, high) in values
  {
    var n := |values| - 1;
    var s := Sort(values, IntLeq());
    SortPermutes(values, IntLeq());
    SortSorts(values, IntLeq());
    IndexInRange(n, low);
    IndexInRange(n, high);
    IndexMonotone(n, low, high);
    var i, j := n * low / 100, n * high / 100;
    assert s[j] in s;
    assert i < j ==> IntLeq()(s[i], s[j]);
  }

  /** In every report row p50 <= p95 <= max. */
  lemma PercentilesOrdered(events: seq<CallEvent>, unfinished: seq<Id>)
    ensures var a := AggregateOf(events, unfinished); a.p50 <= a.p95 <= a.maxElapsed
  {
    var values := Elapsed(events);
    if values != [] {
      PercentileMonotone(values, 50, 95);
      MaximumSpec(values);
    }
  }
}
