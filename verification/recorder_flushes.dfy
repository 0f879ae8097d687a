/** What shutdown flushes achieve, whatever runs beside them, and how calls that race with them
    are reported. */
module RecorderFlushes {
  import opened Ordering
  import opened Invocations
  import opened InvocationsOutcome
  import opened Recorder
  import opened RecorderRuns

  ghost predicate Ended(events: set<Event>, id: Id) {
    exists e :: e in events && Key(e) == id && e.status != Started
  }

  /** Each of the calls has ended or has still to be ended by a flush. */
  ghost predicate InHand(s: System, calls: seq<ActiveCall>) {
    forall c :: c in calls ==> Ended(AllEvents(s), c.id) || exists d :: d in s.flushing && d.id == c.id
  }

  lemma StepKeepsInHand(s: System, step: Step, calls: seq<ActiveCall>)
    requires InHand(s, calls) && Enabled(s, step)
    ensures InHand(Next(s, step), calls)
  {
    var t := Next(s, step);
    assert AllEvents(s) <= AllEvents(t) by {
      if step.Write? { assert forall e :: e in s.log ==> e in t.log; assert step.e in t.log; }
    }
    forall c | c in calls ensures Ended(AllEvents(t), c.id) || exists d :: d in t.flushing && d.id == c.id {
      if Ended(AllEvents(s), c.id) {
        var e :| e in AllEvents(s) && Key(e) == c.id && e.status != Started;
        assert e in AllEvents(t);
      } else {
        var d :| d in s.flushing && d.id == c.id;
        StillInHand(s, step, d);
      }
    }
  }

  lemma StillInHand(s: System, step: Step, d: ActiveCall)
    requires Enabled(s, step) && d in s.flushing
    ensures Ended(AllEvents(Next(s, step)), d.id) || d in Next(s, step).flushing
  {
    var t := Next(s, step);
    var i :| 0 <= i < |s.flushing| && s.flushing[i] == d;
    match step
    case TakeSnapshot(more) => assert t.flushing[i] == d;
    case FlushOne(k, e) =>
      if i == k {
        assert e in AllEvents(t);
      } else if i < k {
        assert t.flushing[i] == d;
      } else {
        assert t.flushing[i - 1] == d;
      }
    case _ => assert t.flushing == s.flushing;
  }

  lemma {:induction false} RunKeepsInHand(s: System, steps: seq<Step>, calls: seq<ActiveCall>)
    requires InHand(s, calls) && Possible(s, steps)
    ensures InHand(Run(s, steps), calls)
    decreases |steps|
  {
    if steps != [] {
      StepKeepsInHand(s, steps[0], calls);
      RunKeepsInHand(Next(s, steps[0]), steps[1..], calls);
    }
  }

  /** Once all flushes are through, every call that one of them saw has ended: it is not active,
      and its end is written or about to be. */
  lemma FlushEndsWhatItSaw(steps: seq<Step>, calls: seq<ActiveCall>, more: seq<Step>)
    requires Possible(INITIAL, steps) && Enabled(Run(INITIAL, steps), TakeSnapshot(calls))
    requires Possible(Next(Run(INITIAL, steps), TakeSnapshot(calls)), more)
    requires Run(Next(Run(INITIAL, steps), TakeSnapshot(calls)), more).flushing == []
    ensures var s := Run(Next(Run(INITIAL, steps), TakeSnapshot(calls)), more);
            forall id :: id in Run(INITIAL, steps).active ==> id !in s.active && Ended(AllEvents(s), id)
  {
    var before := Run(INITIAL, steps);
    var start := Next(before, TakeSnapshot(calls));
    var s := Run(start, more);
    assert AllEvents(INITIAL) == {};
    RunKeepsInvariant(INITIAL, steps);
    StepKeepsInvariant(before, TakeSnapshot(calls));
    RunKeepsInvariant(start, more);
    forall c | c in calls ensures exists d :: d in start.flushing && d.id == c.id {
      assert c in start.flushing;
    }
    RunKeepsInHand(start, more, calls);
    forall id | id in before.active ensures id !in s.active && Ended(AllEvents(s), id) {
      var c :| c in calls && c.id == id;
      assert Ended(AllEvents(s), c.id);
    }
  }

  // ---- The active map knows the tool -------------------------------------------------

  /** Every active call is held under the tool its started event names. */
  ghost predicate ToolsKnown(s: System) {
    forall id :: id in s.active ==> s.active[id].id == id && StartedWith(AllEvents(s), id, s.active[id].tool)
  }

  ghost predicate StartedWith(events: set<Event>, id: Id, tool: Id) {
    exists e :: e in events && Key(e) == id && e.status == Started && e.tool == tool
  }

  lemma StepKeepsTools(s: System, step: Step)
    requires ToolsKnown(s) && Enabled(s, step)
    ensures ToolsKnown(Next(s, step))
  {
    var t := Next(s, step);
    assert AllEvents(s) <= AllEvents(t) by {
      if step.Write? { assert forall e :: e in s.log ==> e in t.log; assert step.e in t.log; }
    }
    forall id | id in t.active ensures t.active[id].id == id && StartedWith(AllEvents(t), id, t.active[id].tool) {
      if step.BeginStart? && id == Key(step.e) {
        assert step.e in AllEvents(t);
      } else {
        var e :| e in AllEvents(s) && Key(e) == id && e.status == Started && e.tool == s.active[id].tool;
        assert e in AllEvents(t);
      }
    }
  }

  lemma {:induction false} RunKeepsTools(s: System, steps: seq<Step>)
    requires ToolsKnown(s) && Possible(s, steps)
    ensures ToolsKnown(Run(s, steps))
    decreases |steps|
  {
    if steps != [] {
      StepKeepsTools(s, steps[0]);
      RunKeepsTools(Next(s, steps[0]), steps[1..]);
    }
  }

  // ---- The report of a run --------------------------------------------------------------

  /** Over every run, and in whatever order its log is read back: a call that ended more than
      once, as when it completed while it was flushed, is reported by the last of its ends. */
  lemma RunReportsLastEnds(steps: seq<Step>, reread: seq<Event>, r: InvocationRecord)
    requires Possible(INITIAL, steps) && multiset(reread) == multiset(Run(INITIAL, steps).log)
    requires r in Collapse(reread)
    ensures var log := Run(INITIAL, steps).log;
            && (r.terminal.None? <==> forall e :: e in log && Key(e) == r.id ==> e.status == Started)
            && (r.terminal.Some? ==> forall e :: LastEnd(log, e) && Key(e) == r.id <==> e == r.terminal.value)
  {
    var log := Run(INITIAL, steps).log;
    RunLogIsOrderFree(steps, reread);
    CallIsReportedByItsLastEnd(log, r);
    assert AllEvents(INITIAL) == {};
    RunKeepsInvariant(INITIAL, steps);
    if r.terminal.Some? {
      forall e | LastEnd(log, e) && Key(e) == r.id ensures e == r.terminal.value {
        assert NoLater(e, r.terminal.value) && NoLater(r.terminal.value, e);
        OneEventPerId(log, e, r.terminal.value);
      }
    }
  }

  lemma OneEventPerId(log: seq<Event>, e: Event, f: Event)
    requires DistinctEventIds(log) && e in log && f in log && e.eventId == f.eventId
    ensures e == f
  {
    var i :| 0 <= i < |log| && log[i] == e;
    var j :| 0 <= j < |log| && log[j] == f;
  }
}
