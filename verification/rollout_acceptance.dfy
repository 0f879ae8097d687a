/** Which rollouts the transcript builder accepts, of those the session parser accepts. */
module RolloutAcceptance {
  import opened Ordering
  import opened Rollout

  predicate IsCallOf(e: Event, id: string) {
    e.ResponseItem? && e.payload.Some? && e.payload.value.ToolCall? && e.payload.value.callId == Some(id)
  }

  /** Some event is a call with this id. */
  predicate Called(events: seq<Event>, id: string) {
    exists e :: e in events && IsCallOf(e, id)
  }

  predicate HasMeta(events: seq<Event>) {
    exists e :: e in events && e.SessionMeta?
  }

  /** A SuitCode name is an MCP name as well. */
  predicate ProperName(name: Option<string>) {
    name.Some? && Canonical(name.value).Ok? && (Canonical(name.value).value.Some? ==> IsMcpName(name.value))
  }

  /** What the builder asks of an event beyond what the parser does, given the events before. */
  predicate FitsAfter(earlier: seq<Event>, e: Event) {
    e.ResponseItem? ==>
      && HasMeta(earlier)
      && e.payload.Some?
      && match e.payload.value
         case Message(role, text) => role.OtherRole? || !text.BlankText?
         case ToolCall(name, callId) => callId.Some? && !Called(earlier, callId.value) && ProperName(name)
         case ToolOutput(callId) => callId.Some? && Called(earlier, callId.value)
         case Reasoning(_) => true
         case OtherPayload => true
  }

  predicate AllFit(events: seq<Event>) {
    forall i :: 0 <= i < |events| ==> FitsAfter(events[..i], events[i])
  }

  lemma AllFitStep(events: seq<Event>)
    requires events != []
    ensures var n := |events| - 1;
            AllFit(events) <==> AllFit(events[..n]) && FitsAfter(events[..n], events[n])
  {
    var n := |events| - 1;
    assert forall i :: 0 <= i < n ==> events[..n][..i] == events[..i] && events[..n][i] == events[i];
  }

  lemma SeenStep(events: seq<Event>, e: Event)
    ensures HasMeta(events + [e]) <==> HasMeta(events) || e.SessionMeta?
    ensures forall id :: Called(events + [e], id) <==> Called(events, id) || IsCallOf(e, id)
  {
    assert forall x :: x in events + [e] <==> x in events || x == e;
    forall id ensures Called(events + [e], id) <==> Called(events, id) || IsCallOf(e, id) {
      assert IsCallOf(e, id) ==> e in events + [e];
    }
  }

  /** What the builder knows is what the events said. */
  ghost predicate Knows(t: Transcript, events: seq<Event>) {
    && (t.sawMeta <==> HasMeta(events))
    && (forall id :: id in t.calls <==> Called(events, id))
    && (forall id :: id in t.calls ==> (t.calls[id].canonical.Some? ==> t.calls[id].isMcp))
  }

  lemma {:induction false} ReasoningKeeps(t: Transcript, summaries: seq<bool>)
    ensures AddReasoning(t, summaries).calls == t.calls && AddReasoning(t, summaries).sawMeta == t.sawMeta
  {
    if summaries != [] { ReasoningKeeps(t, summaries[..|summaries| - 1]); }
  }

  lemma BuildStep(t: Transcript, events: seq<Event>, e: Event)
    requires Knows(t, events) && e.timestamp.Some? && (e.SessionMeta? ==> e.isObject)
    ensures BuildEvent(t, e).Ok? <==> FitsAfter(events, e)
    ensures BuildEvent(t, e).Ok? ==> Knows(BuildEvent(t, e).value, events + [e])
  {
    SeenStep(events, e);
    if e.ResponseItem? && e.payload.Some? && e.payload.value.Reasoning? {
      ReasoningKeeps(t, e.payload.value.summaries);
    }
  }

  lemma {:induction false} BuildsIffAllFit(events: seq<Event>, highValue: set<string>)
    requires ParseEvents(events, highValue).Ok?
    ensures BuildEvents(events).Ok? <==> AllFit(events)
    ensures BuildEvents(events).Ok? ==> Knows(BuildEvents(events).value, events)
  {
    if events != [] {
      var n := |events| - 1;
      BuildsIffAllFit(events[..n], highValue);
      AllFitStep(events);
      assert events == events[..n] + [events[n]];
      if BuildEvents(events[..n]).Ok? { BuildStep(BuildEvents(events[..n]).value, events[..n], events[n]); }
    }
  }

  lemma {:induction false} MetasCounted(events: seq<Event>, highValue: set<string>)
    requires ParseEvents(events, highValue).Ok?
    ensures ParseEvents(events, highValue).value.metas > 0 <==> HasMeta(events)
  {
    if events != [] {
      var n := |events| - 1;
      MetasCounted(events[..n], highValue);
      assert events == events[..n] + [events[n]];
      SeenStep(events[..n], events[n]);
    }
  }

  /** Exactly which of the rollouts that the parser accepts the builder accepts too: every
      item comes after a session meta, messages are not blank, call ids are present and used
      once, outputs answer an earlier call, and SuitCode names are MCP names. */
  lemma BuilderAcceptsIff(events: seq<Event>, highValue: set<string>)
    requires Parse(events, highValue).Ok?
    ensures Build(events).Ok? <==> AllFit(events)
  {
    BuildsIffAllFit(events, highValue);
    MetasCounted(events, highValue);
  }
}
