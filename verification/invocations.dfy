/** The event log of tool calls and its reading back: `_collapse_invocations`,
    `summary` and `tool_usage`. */
module Invocations {
  import opened Ordering
  import opened Sums

  type Id = int

  datatype Status = Started | Success | Error | Interrupted

  predicate IsTerminal(s: Status) { !s.Started? }

  datatype Event = Event(eventId: Id, invocationId: Option<Id>, timestamp: int, tool: Id, status: Status,
                         durationMs: nat, payloadBytes: nat)

  /** `event.invocation_id or event.event_id` */
  function Key(e: Event): Id {
    match e.invocationId
    case Some(id) => id
    case None => e.eventId
  }

  function KeyOf(): Event -> Id { (e: Event) => Key(e) }

  datatype InvocationRecord = InvocationRecord(id: Id, tool: Id, hasStarted: bool, terminal: Option<Event>)

  function EventOrder(): (Event, Event) -> bool {
    (a: Event, b: Event) => a.timestamp < b.timestamp || (a.timestamp == b.timestamp && a.eventId <= b.eventId)
  }

  function LastTerminal(ordered: seq<Event>): Option<Event> {
    if ordered == [] then None
    else if IsTerminal(ordered[|ordered| - 1].status) then Some(ordered[|ordered| - 1])
    else LastTerminal(ordered[..|ordered| - 1])
  }

  type Group = g: seq<Event> | g != [] witness [Event(0, None, 0, 0, Started, 0, 0)]

  /** What one group of events says about its invocation. */
  function Record(id: Id, group: Group): InvocationRecord {
    SortPermutes(group, EventOrder());
    var ordered := Sort(group, EventOrder());
    var terminal := LastTerminal(ordered);
    var representative := if terminal.Some? then terminal.value else ordered[|ordered| - 1];
    InvocationRecord(id, representative.tool, exists e :: e in ordered && e.status.Started?, terminal)
  }

  function Records(events: seq<Event>, ids: seq<Id>): seq<InvocationRecord> {
    if ids == [] then [] else
      var id := ids[|ids| - 1];
      var group := WithKey(events, KeyOf(), id);
      var r := Records(events, ids[..|ids| - 1]);
      if group == [] then r else r + [Record(id, group)]
  }

  /** One record per invocation, by invocation id. */
  function Collapse(events: seq<Event>): seq<InvocationRecord> {
    Records(events, SortedKeys(KeysOf(events, KeyOf())))
  }

  // ---- The loops --------------------------------------------------------------

  lemma {:induction false} RecordsSpec(events: seq<Event>, ids: seq<Id>)
    requires forall id :: id in ids ==> id in KeysOf(events, KeyOf())
    ensures |Records(events, ids)| == |ids|
    ensures forall k :: 0 <= k < |ids| ==> Records(events, ids)[k].id == ids[k]
    ensures forall k :: 0 <= k < |ids| ==>
              WithKey(events, KeyOf(), ids[k]) != [] && Records(events, ids)[k] == Record(ids[k], WithKey(events, KeyOf(), ids[k]))
  {
    if ids != [] {
      var n := |ids| - 1;
      RecordsSpec(events, ids[..n]);
      assert ids[n] in ids;
      WithKeyEmpty(events, KeyOf(), ids[n]);
    }
  }

  method CollapseInvocations(events: seq<Event>) returns (invocations: seq<InvocationRecord>)
    ensures invocations == Collapse(events)
  {
    var order, grouped := GroupBy(events, KeyOf());
    var ids := Sort(order, IntLeq());
    SortedKeysSpec(KeysOf(events, KeyOf()));
    invocations := CollectRecords(ids, grouped, events, order);
  }

  lemma RecordsStep(events: seq<Event>, ids: seq<Id>, k: nat)
    requires k < |ids| && WithKey(events, KeyOf(), ids[k]) != []
    ensures Records(events, ids[..k + 1]) == Records(events, ids[..k]) + [Record(ids[k], WithKey(events, KeyOf(), ids[k]))]
  {
    assert ids[..k + 1][..k] == ids[..k];
  }

  method CollectRecords(ids: seq<Id>, grouped: map<Id, seq<Event>>, ghost events: seq<Event>, ghost order: seq<Id>)
    returns (invocations: seq<InvocationRecord>)
    requires Grouped(events, KeyOf(), order, grouped)
    requires forall id :: id in ids ==> id in KeysOf(events, KeyOf())
    ensures invocations == Records(events, ids)
  {
    invocations := [];
    for k := 0 to |ids|
      invariant invocations == Records(events, ids[..k])
    {
      assert ids[k] in ids;
      WithKeyEmpty(events, KeyOf(), ids[k]);
      RecordsStep(events, ids, k);
      invocations := invocations + [Record(ids[k], grouped[ids[k]])];
    }
    assert ids[..|ids|] == ids;
  }

  // ---- Summary and tool usage ----------------------------------------------------

  function One(): InvocationRecord -> int { (r: InvocationRecord) => 1 }
  function StartedCount(): InvocationRecord -> int { (r: InvocationRecord) => if r.hasStarted then 1 else 0 }
  function FinishedCount(): InvocationRecord -> int { (r: InvocationRecord) => if r.terminal.Some? then 1 else 0 }
  function UnfinishedCount(): InvocationRecord -> int {
    (r: InvocationRecord) => if r.hasStarted && r.terminal.None? then 1 else 0
  }
  function StatusCount(s: Status): InvocationRecord -> int {
    (r: InvocationRecord) => if r.terminal.Some? && r.terminal.value.status == s then 1 else 0
  }
  /** A per-event amount, summed over terminal events. */
  function Amount(f: Event -> int): InvocationRecord -> int {
    (r: InvocationRecord) => if r.terminal.Some? then f(r.terminal.value) else 0
  }
  function Payload(): Event -> int { (e: Event) => e.payloadBytes }
  function ToolOf(): InvocationRecord -> Id { (r: InvocationRecord) => r.tool }

  datatype Stats = Stats(totalCalls: int, startedCalls: int, finishedCalls: int, unfinishedCalls: int, successCalls: int,
                         errorCalls: int, payloadBytes: int, estimatedTokens: int, tokensSaved: int)

  /** The estimator's two numbers for a terminal event. */
  datatype Estimator = Estimator(tokens: Event -> int, saved: Event -> int)

  function StatsOf(group: seq<InvocationRecord>, est: Estimator): Stats {
    Stats(Sum(group, One()), Sum(group, StartedCount()), Sum(group, FinishedCount()), Sum(group, UnfinishedCount()),
          Sum(group, StatusCount(Success)), Sum(group, StatusCount(Error)), Sum(group, Amount(Payload())),
          Sum(group, Amount(est.tokens)), Sum(group, Amount(est.saved)))
  }

  function Summary(events: seq<Event>, est: Estimator): Stats {
    StatsOf(Collapse(events), est)
  }

  datatype ToolUsage = ToolUsage(tool: Id, stats: Stats)

  function UsageOrder(): (ToolUsage, ToolUsage) -> bool {
    (a: ToolUsage, b: ToolUsage) =>
      a.stats.totalCalls > b.stats.totalCalls || (a.stats.totalCalls == b.stats.totalCalls && a.tool <= b.tool)
  }

  function Usages(invocations: seq<InvocationRecord>, tools: seq<Id>, est: Estimator): seq<ToolUsage> {
    if tools == [] then [] else
      var tool := tools[|tools| - 1];
      Usages(invocations, tools[..|tools| - 1], est) + [ToolUsage(tool, StatsOf(WithKey(invocations, ToolOf(), tool), est))]
  }

  function Tools(invocations: seq<InvocationRecord>): seq<Id> {
    FirstOccurrences(KeysOf(invocations, ToolOf()))
  }

  method ComputeToolUsage(events: seq<Event>, est: Estimator) returns (usage: seq<ToolUsage>)
    ensures usage == Sort(Usages(Collapse(events), Tools(Collapse(events)), est), UsageOrder())
  {
    var invocations := CollapseInvocations(events);
    var order, byTool := GroupBy(invocations, ToolOf());
    assert forall id :: id in order ==> id in byTool;
    var results: seq<ToolUsage> := [];
    for k := 0 to |order|
      invariant results == Usages(invocations, order[..k], est)
    {
      assert order[..k + 1][..k] == order[..k];
      assert order[k] in order && order[k] in KeysOf(invocations, ToolOf());
      results := results + [ToolUsage(order[k], StatsOf(byTool[order[k]], est))];
    }
    assert order[..|order|] == order;
    usage := Sort(results, UsageOrder());
  }

  // ---- What the reports promise ---------------------------------------------------

  lemma {:induction false} LastTerminalSpec(s: seq<Event>)
    ensures LastTerminal(s).None? <==> forall e :: e in s ==> e.status.Started?
    ensures LastTerminal(s).Some? ==> LastTerminal(s).value in s && IsTerminal(LastTerminal(s).value.status)
  {
    if s != [] {
      LastTerminalSpec(s[..|s| - 1]);
      assert s == s[..|s| - 1] + [s[|s| - 1]];
    }
  }

  ghost predicate HasStartedEvent(events: seq<Event>, id: Id) {
    exists e :: e in events && Key(e) == id && e.status.Started?
  }

  ghost predicate HasTerminalEvent(events: seq<Event>, id: Id) {
    exists e :: e in events && Key(e) == id && IsTerminal(e.status)
  }

  lemma RecordSpec(events: seq<Event>, id: Id)
    requires WithKey(events, KeyOf(), id) != []
    ensures var r := Record(id, WithKey(events, KeyOf(), id));
            && (r.hasStarted <==> HasStartedEvent(events, id))
            && (r.terminal.Some? <==> HasTerminalEvent(events, id))
            && (r.hasStarted || r.terminal.Some?)
            && (r.terminal.Some? ==> r.terminal.value in events && Key(r.terminal.value) == id && r.tool == r.terminal.value.tool)
  {
    var group := WithKey(events, KeyOf(), id);
    SortPermutes(group, EventOrder());
    LastTerminalSpec(Sort(group, EventOrder()));
    forall e { WithKeyMember(events, KeyOf(), id, e); }
    assert group[0] in group;
  }

  /** Each invocation is counted once, under its own id. */
  lemma CollapseSpec(events: seq<Event>)
    ensures forall i, j :: 0 <= i < j < |Collapse(events)| ==> Collapse(events)[i].id < Collapse(events)[j].id
    ensures forall r :: r in Collapse(events) ==>
              WithKey(events, KeyOf(), r.id) != [] && r == Record(r.id, WithKey(events, KeyOf(), r.id))
    ensures forall id :: id in KeysOf(events, KeyOf()) <==> exists r :: r in Collapse(events) && r.id == id
  {
    var keys := KeysOf(events, KeyOf());
    var ids := SortedKeys(keys);
    SortedKeysSpec(keys);
    RecordsSpec(events, ids);
    forall id ensures id in keys <==> exists r :: r in Collapse(events) && r.id == id {
      if id in keys {
        var k :| 0 <= k < |ids| && ids[k] == id;
        assert Collapse(events)[k] in Collapse(events);
      }
    }
  }

  lemma {:induction false} FinishedPlusUnfinished(group: seq<InvocationRecord>)
    requires forall r :: r in group ==> r.hasStarted || r.terminal.Some?
    ensures Sum(group, One()) == Sum(group, FinishedCount()) + Sum(group, UnfinishedCount()) == |group|
  {
    if group != [] {
      var n := |group| - 1;
      assert group[n] in group;
      FinishedPlusUnfinished(group[..n]);
    }
  }

  /** On any log: every call is either finished or unfinished. */
  lemma TotalIsFinishedPlusUnfinished(events: seq<Event>, est: Estimator)
    ensures var s := Summary(events, est); s.totalCalls == s.finishedCalls + s.unfinishedCalls == |Collapse(events)|
  {
    CollapseSpec(events);
    forall r | r in Collapse(events) ensures r.hasStarted || r.terminal.Some? {
      RecordSpec(events, r.id);
    }
    FinishedPlusUnfinished(Collapse(events));
  }

  /** The columns shared by the summary and the per-tool table. */
  datatype Column =
    TotalCalls | StartedCalls | FinishedCalls | UnfinishedCalls | SuccessCalls | ErrorCalls | PayloadBytes | Tokens | TokensSaved

  function Field(c: Column, s: Stats): int {
    match c
    case TotalCalls => s.totalCalls
    case StartedCalls => s.startedCalls
    case FinishedCalls => s.finishedCalls
    case UnfinishedCalls => s.unfinishedCalls
    case SuccessCalls => s.successCalls
    case ErrorCalls => s.errorCalls
    case PayloadBytes => s.payloadBytes
    case Tokens => s.estimatedTokens
    case TokensSaved => s.tokensSaved
  }

  function Weight(c: Column, est: Estimator): InvocationRecord -> int {
    match c
    case TotalCalls => One()
    case StartedCalls => StartedCount()
    case FinishedCalls => FinishedCount()
    case UnfinishedCalls => UnfinishedCount()
    case SuccessCalls => StatusCount(Success)
    case ErrorCalls => StatusCount(Error)
    case PayloadBytes => Amount(Payload())
    case Tokens => Amount(est.tokens)
    case TokensSaved => Amount(est.saved)
  }

  function ColumnOf(c: Column): ToolUsage -> int { (u: ToolUsage) => Field(c, u.stats) }

  lemma {:induction false} UsagesTotal(invocations: seq<InvocationRecord>, tools: seq<Id>, est: Estimator, c: Column)
    ensures Sum(Usages(invocations, tools, est), ColumnOf(c)) == GroupedSum(invocations, ToolOf(), tools, Weight(c, est))
  {
    if tools != [] {
      var tool := tools[|tools| - 1];
      UsagesTotal(invocations, tools[..|tools| - 1], est, c);
      SumStep(Usages(invocations, tools[..|tools| - 1], est),
              ToolUsage(tool, StatsOf(WithKey(invocations, ToolOf(), tool), est)), ColumnOf(c));
    }
  }

  lemma SummaryField(events: seq<Event>, est: Estimator, c: Column)
    ensures Field(c, Summary(events, est)) == Sum(Collapse(events), Weight(c, est))
  {
  }

  /** Every column of the per-tool table adds up to the summary's figure. */
  lemma ToolUsageAddsUp(events: seq<Event>, est: Estimator, c: Column)
    ensures var invocations := Collapse(events);
            var usage := Sort(Usages(invocations, Tools(invocations), est), UsageOrder());
            Sum(usage, ColumnOf(c)) == Field(c, Summary(events, est))
  {
    var invocations := Collapse(events);
    var usages := Usages(invocations, Tools(invocations), est);
    SortPermutes(usages, UsageOrder());
    SumPermuted(Sort(usages, UsageOrder()), usages, ColumnOf(c));
    UsagesTotal(invocations, Tools(invocations), est, c);
    GroupsAddUp(invocations, ToolOf(), Tools(invocations), Weight(c, est));
    SummaryField(events, est, c);
  }

  // ---- The order of the log does not matter ------------------------------------------

  lemma {:induction false} WithKeyMultiset(s: seq<Event>, id: Id, e: Event)
    ensures multiset(WithKey(s, KeyOf(), id))[e] == if Key(e) == id then multiset(s)[e] else 0
  {
    if s != [] {
      var n := |s| - 1;
      assert s == s[..n] + [s[n]];
      WithKeyMultiset(s[..n], id, e);
    }
  }

  ghost predicate DistinctEventIds(events: seq<Event>) {
    forall i, j :: 0 <= i < j < |events| ==> events[i].eventId != events[j].eventId
  }

  lemma EventOrderTotal()
    ensures TotalPreorder(EventOrder())
  {
  }

  lemma GroupSortsAlike(a: seq<Event>, b: seq<Event>, id: Id)
    requires multiset(a) == multiset(b) && DistinctEventIds(a)
    ensures Sort(WithKey(a, KeyOf(), id), EventOrder()) == Sort(WithKey(b, KeyOf(), id), EventOrder())
  {
    var ga, gb := WithKey(a, KeyOf(), id), WithKey(b, KeyOf(), id);
    forall e ensures multiset(ga)[e] == multiset(gb)[e] {
      WithKeyMultiset(a, id, e);
      WithKeyMultiset(b, id, e);
    }
    assert multiset(ga) == multiset(gb);
    EventOrderTotal();
    SortSorts(ga, EventOrder());
    SortSorts(gb, EventOrder());
    SortPermutes(ga, EventOrder());
    SortPermutes(gb, EventOrder());
    var s := Sort(ga, EventOrder());
    forall x, y | x in s && y in s && EventOrder()(x, y) && EventOrder()(y, x) ensures x == y {
      WithKeyMember(a, KeyOf(), id, x);
      WithKeyMember(a, KeyOf(), id, y);
    }
    SortedUnique(s, Sort(gb, EventOrder()), EventOrder());
  }

  /** Collapsing gives the same records whatever order the log is read in. */
  lemma CollapseIgnoresOrder(a: seq<Event>, b: seq<Event>)
    requires multiset(a) == multiset(b) && DistinctEventIds(a)
    ensures Collapse(a) == Collapse(b)
  {
    var ka, kb := KeysOf(a, KeyOf()), KeysOf(b, KeyOf());
    forall id ensures id in ka <==> id in kb {
      KeysOfMember(a, KeyOf(), id);
      KeysOfMember(b, KeyOf(), id);
      if e :| e in a && Key(e) == id { assert e in multiset(b); }
      if e :| e in b && Key(e) == id { assert e in multiset(a); }
    }
    SortedKeysSpec(ka);
    SortedKeysSpec(kb);
    IncreasingUnique(SortedKeys(ka), SortedKeys(kb));
    RecordsAlike(a, b, SortedKeys(ka));
  }

  lemma {:induction false} RecordsAlike(a: seq<Event>, b: seq<Event>, ids: seq<Id>)
    requires multiset(a) == multiset(b) && DistinctEventIds(a)
    ensures Records(a, ids) == Records(b, ids)
  {
    if ids != [] {
      var id := ids[|ids| - 1];
      RecordsAlike(a, b, ids[..|ids| - 1]);
      GroupSortsAlike(a, b, id);
      SortPermutes(WithKey(a, KeyOf(), id), EventOrder());
      SortPermutes(WithKey(b, KeyOf(), id), EventOrder());
    }
  }
}
