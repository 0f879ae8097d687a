/** `ToolCallRecorder`: the in-memory map of active calls beside the append-only
    log, first as the object it is, then with its steps interleaved. */
module Recorder {
  import opened Ordering
  import opened Invocations

  datatype ActiveCall = ActiveCall(id: Id, tool: Id, startedAt: int)

  ghost function EventSet(log: seq<Event>): set<Event> { set e | e in log }

  /** Started and not ended, as far as these events tell. */
  ghost predicate Open(events: set<Event>, id: Id) {
    && (exists e :: e in events && Key(e) == id && e.status.Started?)
    && (forall e :: e in events && Key(e) == id ==> e.status.Started?)
  }

  ghost predicate ActiveMatches(active: map<Id, ActiveCall>, events: set<Event>) {
    && (forall id :: id in active <==> Open(events, id))
    && (forall id :: id in active ==> active[id].id == id)
  }

  /** The id names no event and no invocation so far. */
  ghost predicate Fresh(events: set<Event>, id: Id) {
    forall e :: e in events ==> e.eventId != id && Key(e) != id
  }

  // ---- The active map agrees with the log ----------------------------------------

  lemma OpenStep(events: set<Event>, e: Event)
    ensures forall id :: id != Key(e) ==> (Open(events + {e}, id) <==> Open(events, id))
    ensures Open(events + {e}, Key(e)) <==> e.status.Started? && forall f :: f in events && Key(f) == Key(e) ==> f.status.Started?
  {
    assert e in events + {e};
    forall id | id != Key(e) ensures Open(events + {e}, id) <==> Open(events, id) {
      if f :| f in events && Key(f) == id && f.status.Started? { assert f in events + {e}; }
    }
  }

  /** Beginning a call under a fresh id: tracked, and one started event. */
  lemma StartKeeps(active: map<Id, ActiveCall>, events: set<Event>, e: Event, startedAt: int)
    requires ActiveMatches(active, events) && e.status.Started? && Fresh(events, Key(e))
    ensures ActiveMatches(active[Key(e) := ActiveCall(Key(e), e.tool, startedAt)], events + {e})
  {
    OpenStep(events, e);
  }

  /** Ending a call, known or not, once or again: untracked, and one terminal event. */
  lemma EndKeeps(active: map<Id, ActiveCall>, events: set<Event>, e: Event)
    requires ActiveMatches(active, events) && IsTerminal(e.status)
    ensures ActiveMatches(active - {Key(e)}, events + {e})
  {
    OpenStep(events, e);
  }

  // ---- The object ---------------------------------------------------------------------

  class ToolCallRecorder {
    var activeCalls: map<Id, ActiveCall>
    var log: seq<Event>

    /** What holds between recorder calls. */
    ghost predicate Valid() reads this { ActiveMatches(activeCalls, EventSet(log)) }

    constructor ()
      ensures Valid() && log == [] && activeCalls == map[]
    {
      activeCalls, log := map[], [];
    }

    method RecordStarted(id: Id, tool: Id, startedAt: int, eventId: Id, now: int) returns (e: Event)
      requires Valid() && Fresh(EventSet(log), id)
      modifies this
      ensures Valid()
      ensures e == Event(eventId, Some(id), now, tool, Started, 0, 0)
      ensures log == old(log) + [e] && activeCalls == old(activeCalls)[id := ActiveCall(id, tool, startedAt)]
    {
      activeCalls := activeCalls[id := ActiveCall(id, tool, startedAt)];
      e := Event(eventId, Some(id), now, tool, Started, 0, 0);
      StartKeeps(old(activeCalls), EventSet(log), e, startedAt);
      log := log + [e];
      assert EventSet(log) == EventSet(old(log)) + {e};
    }

    method ClearActiveCall(id: Option<Id>)
      modifies this
      ensures log == old(log)
      ensures activeCalls == if id.Some? then old(activeCalls) - {id.value} else old(activeCalls)
    {
      match id
      case None => return;
      case Some(i) => activeCalls := activeCalls - {i};
    }

    /** `record_success` and `record_error`; without an invocation id the event
        stands alone under its own id. */
    method RecordEnd(id: Option<Id>, tool: Id, status: Status, durationMs: nat, payloadBytes: nat, eventId: Id, now: int)
      returns (e: Event)
      requires Valid() && (status.Success? || status.Error?) && Fresh(EventSet(log), eventId)
      modifies this
      ensures Valid()
      ensures e == Event(eventId, id, now, tool, status, durationMs, payloadBytes)
      ensures log == old(log) + [e]
      ensures activeCalls == if id.Some? then old(activeCalls) - {id.value} else old(activeCalls)
    {
      ClearActiveCall(id);
      e := Event(eventId, id, now, tool, status, durationMs, payloadBytes);
      EndKeeps(old(activeCalls), EventSet(log), e);
      log := log + [e];
      assert EventSet(log) == EventSet(old(log)) + {e};
      if id.None? {
        assert eventId !in old(activeCalls);
      }
    }

    method RecordInterrupted(id: Id, tool: Id, durationMs: int, eventId: Id, now: int) returns (e: Event)
      requires Valid()
      modifies this
      ensures Valid()
      ensures e == Event(eventId, Some(id), now, tool, Interrupted, if durationMs < 0 then 0 else durationMs, 0)
      ensures log == old(log) + [e] && activeCalls == old(activeCalls) - {id}
    {
      ClearActiveCall(Some(id));
      e := Event(eventId, Some(id), now, tool, Interrupted, if durationMs < 0 then 0 else durationMs, 0);
      EndKeeps(old(activeCalls), EventSet(log), e);
      log := log + [e];
      assert EventSet(log) == EventSet(old(log)) + {e};
    }

    /** `tuple(self._active_calls.values())`, in some order. */
    method Snapshot() returns (calls: seq<ActiveCall>)
      requires Valid()
      ensures |calls| == |activeCalls|
      ensures forall id :: id in activeCalls <==> exists c :: c in calls && c.id == id
      ensures forall c :: c in calls ==> c.id in activeCalls && activeCalls[c.id] == c
    {
      var ids := Enumerate(activeCalls.Keys);
      assert forall id :: id in ids ==> id in activeCalls && activeCalls[id].id == id;
      calls := [];
      for k := 0 to |ids|
        invariant CallIds(calls) == ids[..k]
        invariant |calls| == k
        invariant forall c :: c in calls ==> c.id in activeCalls && activeCalls[c.id] == c
      {
        assert ids[k] in ids;
        var call := activeCalls[ids[k]];
        CallIdsStep(calls, call);
        calls := calls + [call];
        assert ids[..k + 1] == ids[..k] + [call.id];
      }
      assert ids[..|ids|] == ids;
      forall id { CallIdsMember(calls, id); }
    }

    /** Each of the calls ends as interrupted, in order. */
    method InterruptAll(calls: seq<ActiveCall>, eventIds: seq<Id>, now: int) returns (flushed: seq<Event>)
      requires Valid() && |eventIds| >= |calls|
      modifies this
      ensures Valid() && log == old(log) + flushed && Interrupts(flushed, calls, eventIds, now)
      ensures activeCalls.Keys == old(activeCalls).Keys - CalledIds(calls)
    {
      flushed := [];
      for k := 0 to |calls|
        invariant Valid() && log == old(log) + flushed
        invariant activeCalls.Keys == old(activeCalls).Keys - CalledIds(calls[..k])
        invariant Interrupts(flushed, calls[..k], eventIds, now)
      {
        var e := RecordInterrupted(calls[k].id, calls[k].tool, now - calls[k].startedAt, eventIds[k], now);
        CalledIdsStep(calls, k);
        assert calls[..k + 1] == calls[..k] + [calls[k]];
        flushed := flushed + [e];
      }
      assert calls[..|calls|] == calls;
    }

    /** Every active call ends as interrupted, each exactly once, after as long as it has run;
        and none is left. */
    method FlushInterruptedCalls(eventIds: seq<Id>, now: int) returns (flushed: seq<Event>)
      requires Valid() && |eventIds| >= |activeCalls|
      modifies this
      ensures Valid() && activeCalls == map[] && log == old(log) + flushed
      ensures |flushed| == |old(activeCalls)|
      ensures forall k :: 0 <= k < |flushed| ==> EndsActive(flushed[k], old(activeCalls), eventIds[k], now)
      ensures forall id :: id in old(activeCalls) <==> exists e :: e in flushed && e.invocationId == Some(id)
    {
      var calls := Snapshot();
      forall id ensures id in CalledIds(calls) <==> id in activeCalls {
        assert id in activeCalls <==> exists c :: c in calls && c.id == id;
      }
      assert CalledIds(calls) == activeCalls.Keys;
      flushed := InterruptAll(calls, eventIds, now);
      InterruptsEach(flushed, calls, eventIds, now);
      InterruptsActive(flushed, calls, eventIds, now, old(activeCalls));
      assert activeCalls.Keys == {};
    }
  }

  function CallIds(calls: seq<ActiveCall>): seq<Id> {
    if calls == [] then [] else CallIds(calls[..|calls| - 1]) + [calls[|calls| - 1].id]
  }

  lemma CallIdsStep(calls: seq<ActiveCall>, c: ActiveCall)
    ensures CallIds(calls + [c]) == CallIds(calls) + [c.id]
  {
    assert (calls + [c])[..|calls|] == calls;
  }

  lemma {:induction false} CallIdsMember(calls: seq<ActiveCall>, id: Id)
    ensures id in CallIds(calls) <==> exists c :: c in calls && c.id == id
  {
    if calls != [] {
      CallIdsMember(calls[..|calls| - 1], id);
      assert calls == calls[..|calls| - 1] + [calls[|calls| - 1]];
    }
  }

  ghost function CalledIds(calls: seq<ActiveCall>): set<Id> {
    set c | c in calls :: c.id
  }

  lemma CalledIdsStep(calls: seq<ActiveCall>, k: nat)
    requires k < |calls|
    ensures CalledIds(calls[..k + 1]) == CalledIds(calls[..k]) + {calls[k].id}
  {
    assert calls[..k + 1] == calls[..k] + [calls[k]];
  }

  /** The call ends as interrupted, having run since it started; a clock that went back counts
      as no time. */
  ghost predicate InterruptedEvent(e: Event, call: ActiveCall, eventId: Id, now: int) {
    && e.eventId == eventId && e.invocationId == Some(call.id) && e.timestamp == now && e.tool == call.tool
    && e.status.Interrupted? && e.payloadBytes == 0
    && e.durationMs == if now >= call.startedAt then now - call.startedAt else 0
  }

  ghost predicate EndsActive(e: Event, active: map<Id, ActiveCall>, eventId: Id, now: int) {
    exists id :: id in active && InterruptedEvent(e, active[id], eventId, now)
  }

  lemma InterruptsActive(flushed: seq<Event>, calls: seq<ActiveCall>, eventIds: seq<Id>, now: int, active: map<Id, ActiveCall>)
    requires |eventIds| >= |calls| && Interrupts(flushed, calls, eventIds, now)
    requires forall c :: c in calls ==> c.id in active && active[c.id] == c
    ensures forall k :: 0 <= k < |flushed| ==> EndsActive(flushed[k], active, eventIds[k], now)
  {
    forall k | 0 <= k < |flushed| ensures EndsActive(flushed[k], active, eventIds[k], now) {
      assert calls[k] in calls && InterruptedEvent(flushed[k], calls[k], eventIds[k], now);
    }
  }

  /** One interrupted event per call, in the same order. */
  ghost predicate Interrupts(flushed: seq<Event>, calls: seq<ActiveCall>, eventIds: seq<Id>, now: int)
    requires |eventIds| >= |calls|
  {
    |flushed| == |calls| && forall k :: 0 <= k < |calls| ==> InterruptedEvent(flushed[k], calls[k], eventIds[k], now)
  }

  lemma InterruptsEach(flushed: seq<Event>, calls: seq<ActiveCall>, eventIds: seq<Id>, now: int)
    requires |eventIds| >= |calls| && Interrupts(flushed, calls, eventIds, now)
    ensures forall id :: id in CalledIds(calls) <==> exists e :: e in flushed && e.invocationId == Some(id)
  {
    forall id | id in CalledIds(calls) ensures exists e :: e in flushed && e.invocationId == Some(id) {
      var k :| 0 <= k < |calls| && calls[k].id == id;
      assert flushed[k] in flushed;
    }
    forall e | e in flushed ensures e.invocationId.Some? && e.invocationId.value in CalledIds(calls) {
      var k :| 0 <= k < |flushed| && flushed[k] == e;
      assert calls[k] in calls;
    }
  }
}
