/** What the reports say of a log, said of its events: how each call ended, and what every
    figure counts. */
module InvocationsOutcome {
  import opened Ordering
  import opened Sums
  import opened Invocations

  // ---- How a call ended ------------------------------------------------------------

  /** By timestamp, and at one timestamp by event id. */
  ghost predicate NoLater(e: Event, f: Event) {
    e.timestamp < f.timestamp || (e.timestamp == f.timestamp && e.eventId <= f.eventId)
  }

  /** `e` is the last event of its call that ends it. */
  ghost predicate LastEnd(events: seq<Event>, e: Event) {
    && e in events && e.status != Started
    && forall f :: f in events && Key(f) == Key(e) && f.status != Started ==> NoLater(f, e)
  }

  ghost predicate LastEvent(events: seq<Event>, e: Event) {
    e in events && forall f :: f in events && Key(f) == Key(e) ==> NoLater(f, e)
  }

  lemma {:induction false} LastTerminalIsLast(ordered: seq<Event>)
    requires SortedBy(ordered, EventOrder())
    ensures LastTerminal(ordered).Some? ==>
              LastTerminal(ordered).value.status != Started
              && forall f :: f in ordered && f.status != Started ==> NoLater(f, LastTerminal(ordered).value)
  {
    if ordered != [] {
      var n := |ordered| - 1;
      LastTerminalIsLast(ordered[..n]);
      assert ordered == ordered[..n] + [ordered[n]];
      forall f | f in ordered && IsTerminal(ordered[n].status) ensures NoLater(f, ordered[n]) {
        var k :| 0 <= k < |ordered| && ordered[k] == f;
        assert k < n ==> EventOrder()(f, ordered[n]);
      }
    }
  }

  /** A finished call is reported by its last terminal event; an unfinished one has the tool of
      its last event. */
  lemma CallIsReportedByItsLastEnd(events: seq<Event>, r: InvocationRecord)
    requires r in Collapse(events)
    ensures r.hasStarted <==> exists e :: e in events && Key(e) == r.id && e.status == Started
    ensures r.terminal.None? <==> forall e :: e in events && Key(e) == r.id ==> e.status == Started
    ensures r.terminal.Some? ==> LastEnd(events, r.terminal.value) && Key(r.terminal.value) == r.id && r.tool == r.terminal.value.tool
    ensures r.terminal.None? ==> exists e :: LastEvent(events, e) && Key(e) == r.id && r.tool == e.tool
  {
    CollapseSpec(events);
    RecordSpec(events, r.id);
    LastOfGroup(events, r.id);
  }

  lemma LastOfGroup(events: seq<Event>, id: Id)
    requires WithKey(events, KeyOf(), id) != []
    ensures var r := Record(id, WithKey(events, KeyOf(), id));
            && (r.terminal.Some? ==> r.terminal.value.status != Started)
            && (r.terminal.Some? ==> forall f :: f in events && Key(f) == id && f.status != Started ==> NoLater(f, r.terminal.value))
            && (r.terminal.None? ==> exists e :: LastEvent(events, e) && Key(e) == id && r.tool == e.tool)
  {
    var group := WithKey(events, KeyOf(), id);
    var ordered := Sort(group, EventOrder());
    EventOrderTotal();
    SortSorts(group, EventOrder());
    SortPermutes(group, EventOrder());
    LastTerminalIsLast(ordered);
    forall e { WithKeyMember(events, KeyOf(), id, e); }
    var last := ordered[|ordered| - 1];
    LastIsLast(ordered);
    assert last in ordered && LastEvent(events, last);
  }

  lemma LastIsLast(ordered: seq<Event>)
    requires SortedBy(ordered, EventOrder()) && ordered != []
    ensures forall f :: f in ordered ==> NoLater(f, ordered[|ordered| - 1])
  {
    var n := |ordered| - 1;
    forall f | f in ordered ensures NoLater(f, ordered[n]) {
      var k :| 0 <= k < |ordered| && ordered[k] == f;
      assert k < n ==> EventOrder()(f, ordered[n]);
    }
  }

  // ---- What the figures count ----------------------------------------------------------

  function HasStarted(): InvocationRecord -> bool { (r: InvocationRecord) => r.hasStarted }
  function HasEnded(): InvocationRecord -> bool { (r: InvocationRecord) => r.terminal.Some? }
  function StillOpen(): InvocationRecord -> bool { (r: InvocationRecord) => r.hasStarted && r.terminal.None? }
  function EndedAs(s: Status): InvocationRecord -> bool {
    (r: InvocationRecord) => r.terminal.Some? && r.terminal.value.status == s
  }

  /** The terminal events of the finished calls. */
  function Ends(records: seq<InvocationRecord>): seq<Event> {
    if records == [] then [] else
      var r := records[|records| - 1];
      Ends(records[..|records| - 1]) + if r.terminal.Some? then [r.terminal.value] else []
  }

  function PayloadOf(): Event -> int { (e: Event) => e.payloadBytes }

  ghost predicate Counts(s: Stats, records: seq<InvocationRecord>, est: Estimator) {
    && s.totalCalls == |records|
    && s.startedCalls == |Filter(records, HasStarted())|
    && s.finishedCalls == |Filter(records, HasEnded())|
    && s.unfinishedCalls == |Filter(records, StillOpen())|
    && s.successCalls == |Filter(records, EndedAs(Success))|
    && s.errorCalls == |Filter(records, EndedAs(Error))|
    && s.payloadBytes == Sum(Ends(records), PayloadOf())
    && s.estimatedTokens == Sum(Ends(records), est.tokens)
    && s.tokensSaved == Sum(Ends(records), est.saved)
  }

  lemma {:induction false} AmountOfEnds(records: seq<InvocationRecord>, f: Event -> int)
    ensures Sum(records, Amount(f)) == Sum(Ends(records), f)
  {
    if records != [] {
      var n := |records| - 1;
      AmountOfEnds(records[..n], f);
      if records[n].terminal.Some? {
        SumStep(Ends(records[..n]), records[n].terminal.value, f);
      } else {
        assert Ends(records[..n]) + [] == Ends(records[..n]);
      }
    }
  }

  lemma StatsCount(records: seq<InvocationRecord>, est: Estimator)
    ensures Counts(StatsOf(records, est), records, est)
  {
    EachCounted(records, One());
    CountedAs(records, StartedCount(), HasStarted());
    CountedAs(records, FinishedCount(), HasEnded());
    CountedAs(records, UnfinishedCount(), StillOpen());
    CountedAs(records, StatusCount(Success), EndedAs(Success));
    CountedAs(records, StatusCount(Error), EndedAs(Error));
    AmountOfEnds(records, Payload());
    SumSame(Ends(records), Payload(), PayloadOf());
    AmountOfEnds(records, est.tokens);
    AmountOfEnds(records, est.saved);
  }

  /** Every figure of the summary, as a count of the calls or a sum over their last ends. */
  lemma SummaryCounts(events: seq<Event>, est: Estimator)
    ensures Counts(Summary(events, est), Collapse(events), est)
  {
    StatsCount(Collapse(events), est);
  }

  ghost predicate BusierFirst(a: ToolUsage, b: ToolUsage) {
    a.stats.totalCalls > b.stats.totalCalls || (a.stats.totalCalls == b.stats.totalCalls && a.tool < b.tool)
  }

  /** A row counts exactly the calls of its tool. */
  ghost predicate RowOf(u: ToolUsage, records: seq<InvocationRecord>, est: Estimator) {
    exists own :: Counts(u.stats, own, est) && own != [] && PickedWith(own, records, u.tool)
  }

  ghost predicate PickedWith(own: seq<InvocationRecord>, records: seq<InvocationRecord>, tool: Id) {
    own == Filter(records, (r: InvocationRecord) => r.tool == tool)
  }

  /** The per-tool table: one row per tool, the busiest first and ties by tool. */
  lemma ToolUsageSpec(events: seq<Event>, est: Estimator)
    ensures var records := Collapse(events);
            var usage := Sort(Usages(records, Tools(records), est), UsageOrder());
            && (forall u :: u in usage ==> RowOf(u, records, est))
            && (forall i, j :: 0 <= i < j < |usage| ==> BusierFirst(usage[i], usage[j]))
            && (forall r :: r in records ==> exists u :: u in usage && u.tool == r.tool)
  {
    var records := Collapse(events);
    var usages := Usages(records, Tools(records), est);
    var usage := Sort(usages, UsageOrder());
    SortPermutes(usages, UsageOrder());
    UsagesAt(records, Tools(records), est);
    forall u | u in usage ensures RowOf(u, records, est) {
      var k :| 0 <= k < |usages| && usages[k] == u;
      RowCounts(records, Tools(records)[k], est);
    }
    UsageSorted(records, est);
    forall r | r in records ensures exists u :: u in usage && u.tool == r.tool {
      var u := RowForTool(records, r, est);
      assert u in usage;
    }
  }

  lemma RowForTool(records: seq<InvocationRecord>, r: InvocationRecord, est: Estimator) returns (u: ToolUsage)
    requires r in records
    ensures u in Usages(records, Tools(records), est) && u.tool == r.tool
  {
    UsagesAt(records, Tools(records), est);
    KeysOfMember(records, ToolOf(), r.tool);
    var k :| 0 <= k < |Tools(records)| && Tools(records)[k] == r.tool;
    u := Usages(records, Tools(records), est)[k];
  }

  lemma {:induction false} UsagesAt(records: seq<InvocationRecord>, tools: seq<Id>, est: Estimator)
    ensures |Usages(records, tools, est)| == |tools|
    ensures forall k :: 0 <= k < |tools| ==>
              Usages(records, tools, est)[k] == ToolUsage(tools[k], StatsOf(WithKey(records, ToolOf(), tools[k]), est))
  {
    if tools != [] { UsagesAt(records, tools[..|tools| - 1], est); }
  }

  lemma RowCounts(records: seq<InvocationRecord>, tool: Id, est: Estimator)
    requires tool in Tools(records)
    ensures RowOf(ToolUsage(tool, StatsOf(WithKey(records, ToolOf(), tool), est)), records, est)
  {
    var own := WithKey(records, ToolOf(), tool);
    StatsCount(own, est);
    WithKeyIsFilter(records, ToolOf(), tool, (r: InvocationRecord) => r.tool == tool);
    WithKeyEmpty(records, ToolOf(), tool);
  }

  lemma UsageSorted(records: seq<InvocationRecord>, est: Estimator)
    ensures var usage := Sort(Usages(records, Tools(records), est), UsageOrder());
            forall i, j :: 0 <= i < j < |usage| ==> BusierFirst(usage[i], usage[j])
  {
    var usages := Usages(records, Tools(records), est);
    var usage := Sort(usages, UsageOrder());
    RowsDistinct(records, est);
    assert TotalPreorder(UsageOrder());
    SortSorts(usages, UsageOrder());
    SortPermutes(usages, UsageOrder());
    DistinctMultiset(usages);
    DistinctMultiset(usage);
    forall i, j | 0 <= i < j < |usage| ensures BusierFirst(usage[i], usage[j]) {
      assert usage[i] in usages && usage[j] in usages;
      if usage[i].tool == usage[j].tool { OneRowPerTool(records, est, usage[i], usage[j]); }
      assert UsageOrder()(usage[i], usage[j]);
    }
  }

  lemma OneRowPerTool(records: seq<InvocationRecord>, est: Estimator, u: ToolUsage, v: ToolUsage)
    requires u in Usages(records, Tools(records), est) && v in Usages(records, Tools(records), est) && u.tool == v.tool
    ensures u == v
  {
    UsagesAt(records, Tools(records), est);
  }

  lemma RowsDistinct(records: seq<InvocationRecord>, est: Estimator)
    ensures Distinct(Usages(records, Tools(records), est))
  {
    UsagesAt(records, Tools(records), est);
  }
}
