/** Recorder calls and shutdown flushes running at once. A recorder call is two
    steps: it updates the active map under the lock, and later its event reaches
    the log. A flush takes its snapshot in one step and then ends the calls it saw
    one by one, whatever happened to them meanwhile. */
module RecorderRuns {
  import opened Ordering
  import opened Sums
  import opened Invocations
  import opened Recorder

  /** `pending` holds events whose recorder call has not written them yet;
      `flushing` the calls that running flushes have still to end. */
  datatype System = System(active: map<Id, ActiveCall>, log: seq<Event>, pending: set<Event>, flushing: seq<ActiveCall>)

  datatype Step =
    | BeginStart(e: Event, startedAt: int)
    | BeginEnd(e: Event)
    | Write(e: Event)
    | TakeSnapshot(calls: seq<ActiveCall>)
    | FlushOne(k: nat, e: Event)

  const INITIAL := System(map[], [], {}, [])

  ghost function AllEvents(s: System): set<Event> { EventSet(s.log) + s.pending }

  ghost predicate NewEvent(s: System, e: Event) {
    && Fresh(AllEvents(s), e.eventId)
    && (e.invocationId.Some? ==> e.eventId != e.invocationId.value)
  }

  /** Invocation ids and event ids are fresh; nothing else is asked of the callers,
      who may end any call at any time, even twice. */
  ghost predicate Enabled(s: System, step: Step) {
    match step
    case BeginStart(e, _) => NewEvent(s, e) && e.status.Started? && e.invocationId.Some? && Fresh(AllEvents(s), Key(e))
    case BeginEnd(e) => NewEvent(s, e) && IsTerminal(e.status)
    case Write(e) => e in s.pending
    case TakeSnapshot(calls) =>
      forall id :: id in s.active <==> exists c :: c in calls && c.id == id && id in s.active && s.active[id] == c
    case FlushOne(k, e) =>
      k < |s.flushing| && NewEvent(s, e) && e.status.Interrupted? && e.invocationId == Some(s.flushing[k].id)
  }

  ghost function Next(s: System, step: Step): System
    requires Enabled(s, step)
  {
    match step
    case BeginStart(e, startedAt) =>
      s.(active := s.active[Key(e) := ActiveCall(Key(e), e.tool, startedAt)], pending := s.pending + {e})
    case BeginEnd(e) =>
      s.(active := if e.invocationId.Some? then s.active - {e.invocationId.value} else s.active, pending := s.pending + {e})
    case Write(e) => s.(log := s.log + [e], pending := s.pending - {e})
    case TakeSnapshot(calls) => s.(flushing := s.flushing + calls)
    case FlushOne(k, e) =>
      s.(active := s.active - {s.flushing[k].id}, pending := s.pending + {e},
         flushing := s.flushing[..k] + s.flushing[k + 1..])
  }

  /** The active map is exactly what the events, written or not, leave open. */
  ghost predicate Invariant(s: System) {
    && ActiveMatches(s.active, AllEvents(s))
    && (forall e :: e in s.pending ==> e !in s.log)
    && DistinctEventIds(s.log)
    && (forall e, f :: e in AllEvents(s) && f in AllEvents(s) && e.eventId == f.eventId ==> e == f)
  }

  lemma StepKeepsInvariant(s: System, step: Step)
    requires Invariant(s) && Enabled(s, step)
    ensures Invariant(Next(s, step))
  {
    var t := Next(s, step);
    match step
    case BeginStart(e, startedAt) =>
      assert AllEvents(t) == AllEvents(s) + {e};
      StartKeeps(s.active, AllEvents(s), e, startedAt);
    case BeginEnd(e) =>
      assert AllEvents(t) == AllEvents(s) + {e};
      EndKeeps(s.active, AllEvents(s), e);
      if e.invocationId.None? { assert e.eventId !in s.active; }
      assert t.active == s.active - {Key(e)};
    case Write(e) =>
      assert EventSet(t.log) == EventSet(s.log) + {e};
      assert AllEvents(t) == AllEvents(s);
      forall i, j | 0 <= i < j < |t.log| ensures t.log[i].eventId != t.log[j].eventId {
        if j == |s.log| { assert s.log[i] in s.log && s.log[i] in AllEvents(s) && e in AllEvents(s); }
      }
    case TakeSnapshot(calls) =>
    case FlushOne(k, e) =>
      assert AllEvents(t) == AllEvents(s) + {e};
      EndKeeps(s.active, AllEvents(s), e);
  }

  ghost predicate Possible(s: System, steps: seq<Step>)
    decreases |steps|
  {
    steps == [] || (Enabled(s, steps[0]) && Possible(Next(s, steps[0]), steps[1..]))
  }

  ghost function Run(s: System, steps: seq<Step>): System
    requires Possible(s, steps)
    decreases |steps|
  {
    if steps == [] then s else Run(Next(s, steps[0]), steps[1..])
  }

  lemma {:induction false} RunKeepsInvariant(s: System, steps: seq<Step>)
    requires Invariant(s) && Possible(s, steps)
    ensures Invariant(Run(s, steps))
    decreases |steps|
  {
    if steps != [] {
      StepKeepsInvariant(s, steps[0]);
      RunKeepsInvariant(Next(s, steps[0]), steps[1..]);
    }
  }

  // ---- What the report says about the log of any run ------------------------------

  ghost predicate ReportedUnfinished(records: seq<InvocationRecord>, id: Id) {
    exists r :: r in records && r.id == id && r.hasStarted && r.terminal.None?
  }

  lemma UnfinishedFront(records: seq<InvocationRecord>, id: Id)
    requires records != [] && forall i, j :: 0 <= i < j < |records| ==> records[i].id < records[j].id
    ensures var n := |records| - 1;
            ReportedUnfinished(records[..n], id) <==>
            ReportedUnfinished(records, id) && !(records[n].id == id && records[n].hasStarted && records[n].terminal.None?)
  {
    var n := |records| - 1;
    assert forall k :: 0 <= k < n ==> records[..n][k] == records[k];
    assert forall r :: r in records <==> r in records[..n] || r == records[n];
    assert forall r :: r in records[..n] ==> r.id != records[n].id;
  }

  lemma {:induction false} UnfinishedSize(records: seq<InvocationRecord>, ids: set<Id>)
    requires forall i, j :: 0 <= i < j < |records| ==> records[i].id < records[j].id
    requires forall id :: id in ids <==> ReportedUnfinished(records, id)
    ensures Sum(records, UnfinishedCount()) == |ids|
  {
    if records == [] {
      assert forall id :: id !in ids;
      assert ids == {};
    } else {
      var n := |records| - 1;
      var last := records[n];
      assert last in records;
      var rest := if last.hasStarted && last.terminal.None? then ids - {last.id} else ids;
      forall id ensures id in rest <==> ReportedUnfinished(records[..n], id) { UnfinishedFront(records, id); }
      UnfinishedSize(records[..n], rest);
    }
  }

  lemma ReportedIffOpen(log: seq<Event>, id: Id)
    ensures ReportedUnfinished(Collapse(log), id) <==> Open(EventSet(log), id)
  {
    CollapseSpec(log);
    if r :| r in Collapse(log) && r.id == id && r.hasStarted && r.terminal.None? {
      RecordSpec(log, id);
      var e :| e in log && Key(e) == id && e.status.Started?;
      assert e in EventSet(log);
    }
    if Open(EventSet(log), id) {
      var e :| e in EventSet(log) && Key(e) == id && e.status.Started?;
      KeysOfMember(log, KeyOf(), id);
      var r :| r in Collapse(log) && r.id == id;
      assert forall f :: f in log ==> f in EventSet(log);
      RecordSpec(log, id);
    }
  }

  /** Over every run, flushes racing completing calls included: once all recorder
      calls have written their events, the calls reported unfinished are exactly the
      active ones, and every call is finished or unfinished. */
  lemma ReportAgreesWithActiveMap(steps: seq<Step>, est: Estimator)
    requires Possible(INITIAL, steps) && Run(INITIAL, steps).pending == {}
    ensures var s := Run(INITIAL, steps);
            var report := Summary(s.log, est);
            && report.unfinishedCalls == |s.active|
            && (forall id :: id in s.active <==> ReportedUnfinished(Collapse(s.log), id))
            && report.totalCalls == report.finishedCalls + |s.active|
  {
    var s := Run(INITIAL, steps);
    assert AllEvents(INITIAL) == {};
    RunKeepsInvariant(INITIAL, steps);
    assert AllEvents(s) == EventSet(s.log);
    CollapseSpec(s.log);
    forall id ensures id in s.active.Keys <==> ReportedUnfinished(Collapse(s.log), id) {
      ReportedIffOpen(s.log, id);
    }
    UnfinishedSize(Collapse(s.log), s.active.Keys);
    TotalIsFinishedPlusUnfinished(s.log, est);
  }

  /** Over every run the log names each event once, so the report does not depend on
      the order in which its files are read back. */
  lemma RunLogIsOrderFree(steps: seq<Step>, reread: seq<Event>)
    requires Possible(INITIAL, steps) && multiset(reread) == multiset(Run(INITIAL, steps).log)
    ensures Collapse(reread) == Collapse(Run(INITIAL, steps).log)
  {
    RunKeepsInvariant(INITIAL, steps);
    CollapseIgnoresOrder(Run(INITIAL, steps).log, reread);
  }

  /** A call that ended and was flushed as well is still one finished call. */
  lemma RacedCallCountsOnce(steps: seq<Step>, id: Id)
    requires Possible(INITIAL, steps) && HasTerminalEvent(Run(INITIAL, steps).log, id)
    ensures var s := Run(INITIAL, steps);
            && id !in s.active
            && exists r :: r in Collapse(s.log) && r.id == id && r.terminal.Some?
                           && forall q :: q in Collapse(s.log) && q.id == id ==> q == r
  {
    var s := Run(INITIAL, steps);
    RunKeepsInvariant(INITIAL, steps);
    var e :| e in s.log && Key(e) == id && IsTerminal(e.status);
    assert e in AllEvents(s);
    CollapseSpec(s.log);
    KeysOfMember(s.log, KeyOf(), id);
    var r :| r in Collapse(s.log) && r.id == id;
    RecordSpec(s.log, id);
  }
}
