/** The two scans agree wherever both succeed, and the estimate is well formed. */
module RolloutProperties {
  import opened Ordering
  import opened Rollout

  // ---- Reading the parser's counters off the segments ------------------------------------

  predicate IsCall(s: Segment) { s.kind.McpCall? || s.kind.CustomCall? }
  predicate IsOutput(s: Segment) { s.kind.McpOutput? || s.kind.CustomOutput? }

  datatype Reading = Reading(calls: nat, mcpCalls: nat, suitcodeCalls: nat, perTool: map<string, nat>,
                             firstSuitcode: Option<Sighting>, firstHighValue: Option<Sighting>)

  function ReadSegment(r: Reading, s: Segment, highValue: set<string>): Reading {
    if !IsCall(s) then r
    else
      var r := r.(calls := r.calls + 1, mcpCalls := r.mcpCalls + if s.isMcp then 1 else 0);
      if s.canonical.None? then r
      else
        var tool := s.canonical.value;
        r.(suitcodeCalls := r.suitcodeCalls + 1,
           perTool := r.perTool[tool := (if tool in r.perTool then r.perTool[tool] else 0) + 1],
           firstSuitcode := if r.firstSuitcode.None? then Some(Sighting(tool, r.calls)) else r.firstSuitcode,
           firstHighValue := if r.firstHighValue.None? && tool in highValue then Some(Sighting(tool, r.calls)) else r.firstHighValue)
  }

  function ReadSegments(segments: seq<Segment>, highValue: set<string>): Reading {
    if segments == [] then Reading(0, 0, 0, map[], None, None)
    else ReadSegment(ReadSegments(segments[..|segments| - 1], highValue), segments[|segments| - 1], highValue)
  }

  predicate Matches(m: Metrics, r: Reading) {
    && m.toolCalls == r.calls && m.mcpCalls == r.mcpCalls && m.suitcodeCalls == r.suitcodeCalls && m.perTool == r.perTool
    && m.firstSuitcode == r.firstSuitcode && m.firstHighValue == r.firstHighValue
  }

  lemma ReadStep(segments: seq<Segment>, s: Segment, highValue: set<string>)
    ensures ReadSegments(segments + [s], highValue) == ReadSegment(ReadSegments(segments, highValue), s, highValue)
  {
    assert (segments + [s])[..|segments|] == segments;
  }

  /** Segments that are not calls are invisible to the counters. */
  lemma NonCallIsInvisible(segments: seq<Segment>, s: Segment, highValue: set<string>)
    requires !IsCall(s)
    ensures ReadSegments(segments + [s], highValue) == ReadSegments(segments, highValue)
  {
    ReadStep(segments, s, highValue);
  }

  lemma {:induction false} ReasoningIsInvisible(t: Transcript, summaries: seq<bool>, highValue: set<string>)
    ensures ReadSegments(AddReasoning(t, summaries).segments, highValue) == ReadSegments(t.segments, highValue)
  {
    if summaries != [] {
      var n := |summaries| - 1;
      ReasoningIsInvisible(t, summaries[..n], highValue);
      var r := AddReasoning(t, summaries[..n]);
      NonCallIsInvisible(r.segments, PlainSegment(r, ReasoningSummary), highValue);
    }
  }

  lemma MessageIsInvisible(t: Transcript, role: Role, text: Text, highValue: set<string>)
    requires AddMessage(t, role, text).Ok?
    ensures ReadSegments(AddMessage(t, role, text).value.segments, highValue) == ReadSegments(t.segments, highValue)
  {
    NonCallIsInvisible(t.segments, PlainSegment(t, if role.UserRole? then UserMessage else AssistantMessage), highValue);
  }

  lemma OutputIsInvisible(t: Transcript, callId: Option<string>, highValue: set<string>)
    requires AddOutput(t, callId).Ok?
    ensures ReadSegments(AddOutput(t, callId).value.segments, highValue) == ReadSegments(t.segments, highValue)
  {
    NonCallIsInvisible(t.segments, AddOutput(t, callId).value.segments[|t.segments|], highValue);
  }

  lemma CallStepAgrees(m: Metrics, t: Transcript, name: Option<string>, callId: Option<string>, highValue: set<string>)
    requires Matches(m, ReadSegments(t.segments, highValue))
    requires name.Some? && CountCall(m, name.value, highValue).Ok? && AddCall(t, name, callId).Ok?
    ensures Matches(CountCall(m, name.value, highValue).value, ReadSegments(AddCall(t, name, callId).value.segments, highValue))
  {
    var canonical := Canonical(name.value).value;
    var isMcp := IsMcpName(name.value);
    var s := Segment(|t.segments| + 1, if isMcp then McpCall else CustomCall, callId, name, isMcp, canonical.Some?, canonical);
    assert AddCall(t, name, callId).value.segments == t.segments + [s];
    ReadStep(t.segments, s, highValue);
    CountAgreesWithRead(m, ReadSegments(t.segments, highValue), s, name.value, highValue);
  }

  lemma CountAgreesWithRead(m: Metrics, r: Reading, s: Segment, name: string, highValue: set<string>)
    requires Matches(m, r) && CountCall(m, name, highValue).Ok?
    requires IsCall(s) && s.isMcp == IsMcpName(name) && Canonical(name) == Ok(s.canonical)
    ensures Matches(CountCall(m, name, highValue).value, ReadSegment(r, s, highValue))
  {
  }

  lemma EventStepAgrees(m: Metrics, t: Transcript, e: Event, highValue: set<string>)
    requires Matches(m, ReadSegments(t.segments, highValue))
    requires ParseEvent(m, e, highValue).Ok? && BuildEvent(t, e).Ok?
    ensures Matches(ParseEvent(m, e, highValue).value, ReadSegments(BuildEvent(t, e).value.segments, highValue))
  {
    if e.ResponseItem? {
      match e.payload.value
      case Message(role, text) => MessageIsInvisible(t, role, text, highValue);
      case ToolCall(name, callId) => CallStepAgrees(m, t, name, callId, highValue);
      case ToolOutput(callId) => OutputIsInvisible(t, callId, highValue);
      case Reasoning(summaries) => ReasoningIsInvisible(t, summaries, highValue);
      case OtherPayload =>
    }
  }

  lemma {:induction false} ScansAgree(events: seq<Event>, highValue: set<string>)
    requires ParseEvents(events, highValue).Ok? && BuildEvents(events).Ok?
    ensures Matches(ParseEvents(events, highValue).value, ReadSegments(BuildEvents(events).value.segments, highValue))
  {
    if events != [] {
      var n := |events| - 1;
      ScansAgree(events[..n], highValue);
      EventStepAgrees(ParseEvents(events[..n], highValue).value, BuildEvents(events[..n]).value, events[n], highValue);
    }
  }

  // ---- The same counters in declarative terms --------------------------------------------

  function CallOnly(): Segment -> bool { (s: Segment) => IsCall(s) }
  function McpOnly(): Segment -> bool { (s: Segment) => s.isMcp }
  function SuitcodeOnly(): Segment -> bool { (s: Segment) => s.canonical.Some? }
  function ToolOnly(tool: string): Segment -> bool { (s: Segment) => s.canonical == Some(tool) }
  function HighValueOnly(highValue: set<string>): Segment -> bool {
    (s: Segment) => s.canonical.Some? && s.canonical.value in highValue
  }

  function Calls(segments: seq<Segment>): seq<Segment> { Filter(segments, CallOnly()) }

  /** The sighting is the first call that satisfies `p`, numbered from 1. */
  ghost predicate FirstAmong(sighting: Option<Sighting>, calls: seq<Segment>, p: Segment -> bool) {
    match sighting
    case None => forall i :: 0 <= i < |calls| ==> !p(calls[i])
    case Some(x) =>
      && 1 <= x.index <= |calls| && p(calls[x.index - 1]) && calls[x.index - 1].canonical == Some(x.tool)
      && forall i :: 0 <= i < x.index - 1 ==> !p(calls[i])
  }

  ghost predicate ToolsCounted(r: Reading, calls: seq<Segment>) {
    forall tool :: (if tool in r.perTool then r.perTool[tool] else 0) == |Filter(calls, ToolOnly(tool))|
  }

  ghost predicate CountedFrom(r: Reading, calls: seq<Segment>, highValue: set<string>) {
    && r.calls == |calls| && r.mcpCalls == |Filter(calls, McpOnly())| && r.suitcodeCalls == |Filter(calls, SuitcodeOnly())|
    && ToolsCounted(r, calls)
    && FirstAmong(r.firstSuitcode, calls, SuitcodeOnly()) && FirstAmong(r.firstHighValue, calls, HighValueOnly(highValue))
  }

  lemma FirstAmongStep(sighting: Option<Sighting>, calls: seq<Segment>, c: Segment, p: Segment -> bool)
    requires FirstAmong(sighting, calls, p) && (p(c) ==> c.canonical.Some?)
    ensures FirstAmong(if sighting.None? && p(c) then Some(Sighting(c.canonical.value, |calls| + 1)) else sighting, calls + [c], p)
  {
  }

  lemma {:induction false} ReadingCounts(segments: seq<Segment>, highValue: set<string>)
    ensures CountedFrom(ReadSegments(segments, highValue), Calls(segments), highValue)
  {
    if segments != [] {
      var n := |segments| - 1;
      var s := segments[n];
      ReadingCounts(segments[..n], highValue);
      if IsCall(s) { CallCounts(ReadSegments(segments[..n], highValue), Calls(segments[..n]), s, highValue); }
    }
  }

  lemma ToolsCountedStep(r: Reading, calls: seq<Segment>, s: Segment, highValue: set<string>)
    requires ToolsCounted(r, calls) && IsCall(s)
    ensures ToolsCounted(ReadSegment(r, s, highValue), calls + [s])
  {
    forall tool { FilterStep(calls, s, ToolOnly(tool)); }
  }

  lemma CallCounts(r: Reading, calls: seq<Segment>, s: Segment, highValue: set<string>)
    requires CountedFrom(r, calls, highValue) && IsCall(s)
    ensures CountedFrom(ReadSegment(r, s, highValue), calls + [s], highValue)
  {
    FilterStep(calls, s, McpOnly());
    FilterStep(calls, s, SuitcodeOnly());
    ToolsCountedStep(r, calls, s, highValue);
    FirstAmongStep(r.firstSuitcode, calls, s, SuitcodeOnly());
    FirstAmongStep(r.firstHighValue, calls, s, HighValueOnly(highValue));
  }

  /** Whenever parser and builder both accept a rollout, the parser's counts, per-tool
      counts and first tools are those of the captured call segments. */
  lemma ParserAgreesWithTranscript(events: seq<Event>, highValue: set<string>)
    requires Parse(events, highValue).Ok? && Build(events).Ok?
    ensures var m := Parse(events, highValue).value;
            var calls := Calls(Build(events).value);
            && Matches(m, ReadSegments(Build(events).value, highValue))
            && CountedFrom(ReadSegments(Build(events).value, highValue), calls, highValue)
            && m.toolCalls == |calls| && m.suitcodeCalls == |Filter(calls, SuitcodeOnly())|
            && FirstAmong(m.firstSuitcode, calls, SuitcodeOnly()) && FirstAmong(m.firstHighValue, calls, HighValueOnly(highValue))
  {
    ScansAgree(events, highValue);
    ReadingCounts(Build(events).value, highValue);
  }

  // ---- The shape of a transcript -------------------------------------------------------------

  /** Call segments, in any transcript the builder makes. */
  ghost predicate ProperSegment(s: Segment) {
    && !s.kind.SystemContext? && !s.kind.TerminalOutput?
    && (s.isSuitcode <==> s.canonical.Some?) && (s.isSuitcode ==> s.isMcp)
    && (IsCall(s) || IsOutput(s) ==> s.callId.Some? && s.toolName.Some? && (s.isMcp <==> s.kind.McpCall? || s.kind.McpOutput?))
    && (!IsCall(s) && !IsOutput(s) ==> !s.isMcp)
  }

  ghost predicate Answers(output: Segment, call: Segment) {
    && IsCall(call) && call.callId == output.callId && call.toolName == output.toolName
    && call.isMcp == output.isMcp && call.canonical == output.canonical
  }

  /** Segments are numbered from 1, are proper, and each output follows its call. */
  ghost predicate WellShaped(segments: seq<Segment>) {
    && (forall i :: 0 <= i < |segments| ==> segments[i].index == i + 1 && ProperSegment(segments[i]))
    && (forall i :: 0 <= i < |segments| && IsOutput(segments[i]) ==>
          exists j :: 0 <= j < i && Answers(segments[i], segments[j]))
  }

  /** The call index describes the call segments. */
  ghost predicate Indexed(t: Transcript) {
    forall id :: id in t.calls ==> exists j :: 0 <= j < |t.segments| && Describes(t.calls[id], id, t.segments[j])
  }

  ghost predicate Describes(info: CallInfo, id: string, call: Segment) {
    && IsCall(call) && call.callId == Some(id) && call.toolName == Some(info.toolName)
    && call.isMcp == info.isMcp && call.canonical == info.canonical && (info.canonical.Some? ==> info.isMcp)
  }

  lemma AppendKeepsShape(segments: seq<Segment>, s: Segment)
    requires WellShaped(segments) && s.index == |segments| + 1 && ProperSegment(s)
    requires IsOutput(s) ==> exists j :: 0 <= j < |segments| && Answers(s, segments[j])
    ensures WellShaped(segments + [s])
  {
    var grown := segments + [s];
    forall i | 0 <= i < |grown| && IsOutput(grown[i]) ensures exists j :: 0 <= j < i && Answers(grown[i], grown[j]) {
      if i < |segments| {
        var j :| 0 <= j < i && Answers(segments[i], segments[j]);
        assert Answers(grown[i], grown[j]);
      } else {
        var j :| 0 <= j < |segments| && Answers(s, segments[j]);
        assert Answers(grown[i], grown[j]);
      }
    }
  }

  lemma AppendKeepsIndex(t: Transcript, s: Segment)
    requires Indexed(t)
    ensures Indexed(t.(segments := t.segments + [s]))
  {
    var u := t.(segments := t.segments + [s]);
    forall id | id in u.calls ensures exists j :: 0 <= j < |u.segments| && Describes(u.calls[id], id, u.segments[j]) {
      var j :| 0 <= j < |t.segments| && Describes(t.calls[id], id, t.segments[j]);
      assert u.segments[j] == t.segments[j];
    }
  }

  lemma {:induction false} ReasoningKeepsShape(t: Transcript, summaries: seq<bool>)
    requires WellShaped(t.segments) && Indexed(t)
    ensures WellShaped(AddReasoning(t, summaries).segments) && Indexed(AddReasoning(t, summaries))
  {
    if summaries != [] {
      var n := |summaries| - 1;
      ReasoningKeepsShape(t, summaries[..n]);
      var r := AddReasoning(t, summaries[..n]);
      AppendKeepsShape(r.segments, PlainSegment(r, ReasoningSummary));
      AppendKeepsIndex(r, PlainSegment(r, ReasoningSummary));
    }
  }

  lemma CallKeepsShape(t: Transcript, name: Option<string>, callId: Option<string>)
    requires WellShaped(t.segments) && Indexed(t) && AddCall(t, name, callId).Ok?
    ensures WellShaped(AddCall(t, name, callId).value.segments) && Indexed(AddCall(t, name, callId).value)
  {
    var u := AddCall(t, name, callId).value;
    var s := u.segments[|t.segments|];
    assert u.segments == t.segments + [s];
    AppendKeepsShape(t.segments, s);
    AppendKeepsIndex(t, s);
    var grown := t.(segments := u.segments);
    forall id | id in u.calls ensures exists j :: 0 <= j < |u.segments| && Describes(u.calls[id], id, u.segments[j]) {
      if id == callId.value {
        assert Describes(u.calls[id], id, u.segments[|t.segments|]);
      } else {
        assert id in grown.calls && grown.calls[id] == u.calls[id];
      }
    }
  }

  lemma OutputKeepsShape(t: Transcript, callId: Option<string>)
    requires WellShaped(t.segments) && Indexed(t) && AddOutput(t, callId).Ok?
    ensures WellShaped(AddOutput(t, callId).value.segments) && Indexed(AddOutput(t, callId).value)
  {
    var s := AddOutput(t, callId).value.segments[|t.segments|];
    var id := callId.value;
    var j :| 0 <= j < |t.segments| && Describes(t.calls[id], id, t.segments[j]);
    assert Answers(s, t.segments[j]);
    AppendKeepsShape(t.segments, s);
    AppendKeepsIndex(t, s);
  }

  lemma {:induction false} TranscriptsAreWellShaped(events: seq<Event>)
    requires BuildEvents(events).Ok?
    ensures WellShaped(BuildEvents(events).value.segments) && Indexed(BuildEvents(events).value)
  {
    if events != [] {
      var n := |events| - 1;
      TranscriptsAreWellShaped(events[..n]);
      var t := BuildEvents(events[..n]).value;
      var u := BuildEvents(events).value;
      if events[n].ResponseItem? {
        match events[n].payload.value
        case Message(role, text) =>
          if !role.OtherRole? && text.ProperText? {
            var s := PlainSegment(t, if role.UserRole? then UserMessage else AssistantMessage);
            AppendKeepsShape(t.segments, s);
            AppendKeepsIndex(t, s);
          }
        case ToolCall(name, callId) => CallKeepsShape(t, name, callId);
        case ToolOutput(callId) => OutputKeepsShape(t, callId);
        case Reasoning(summaries) => ReasoningKeepsShape(t, summaries);
        case OtherPayload =>
      }
    }
  }

  // ---- The estimate ----------------------------------------------------------------------------

  function CategorySum(b: Breakdown): int {
    KindCount(b, UserMessage) + KindCount(b, AssistantMessage) + KindCount(b, McpCall) + KindCount(b, McpOutput)
    + KindCount(b, CustomCall) + KindCount(b, CustomOutput) + KindCount(b, TerminalOutput) + KindCount(b, ReasoningSummary)
  }

  function UncategorizedTokens(segments: seq<Segment>, count: Segment -> nat): nat {
    if segments == [] then 0
    else
      var s := segments[|segments| - 1];
      UncategorizedTokens(segments[..|segments| - 1], count) + if s.kind.SystemContext? then count(s) else 0
  }

  lemma EstimateStepSums(b: Breakdown, s: Segment, tokens: int, highValue: set<string>)
    ensures var c := EstimateSegment(b, s, tokens, highValue);
            && c.total == b.total + tokens
            && CategorySum(c) == CategorySum(b) + if s.kind.SystemContext? then 0 else tokens
  {
    match s.kind
    case _ =>
  }

  /** Exactly when the category counts add up to the total, as the breakdown's
      validator demands: no tokens in system-context segments. */
  lemma {:induction false} CategoriesSum(segments: seq<Segment>, count: Segment -> nat, highValue: set<string>)
    ensures var b := Estimate(segments, count, highValue);
            && CategorySum(b) + UncategorizedTokens(segments, count) == b.total
            && (CategorySum(b) == b.total <==> UncategorizedTokens(segments, count) == 0)
  {
    if segments != [] {
      var n := |segments| - 1;
      CategoriesSum(segments[..n], count, highValue);
      EstimateStepSums(Estimate(segments[..n], count, highValue), segments[n], count(segments[n]), highValue);
    }
  }

  lemma {:induction false} NoUncategorized(segments: seq<Segment>, count: Segment -> nat)
    requires forall i :: 0 <= i < |segments| ==> ProperSegment(segments[i])
    ensures UncategorizedTokens(segments, count) == 0
  {
    if segments != [] { NoUncategorized(segments[..|segments| - 1], count); }
  }

  function ToolAt(s: Option<Sighting>): Option<string> {
    match s
    case None => None
    case Some(x) => Some(x.tool)
  }

  /** The estimator finds the first tools where the counters do, and the tokens
      before them grow in the order they must. */
  lemma {:induction false} EstimateFirstTools(segments: seq<Segment>, count: Segment -> nat, highValue: set<string>)
    requires forall i :: 0 <= i < |segments| ==> ProperSegment(segments[i])
    ensures var b := Estimate(segments, count, highValue);
            var r := ReadSegments(segments, highValue);
            && b.firstSuitcode == ToolAt(r.firstSuitcode) && b.firstHighValue == ToolAt(r.firstHighValue)
            && (b.firstSuitcode.Some? <==> b.beforeSuitcode.Some?) && (b.firstHighValue.Some? <==> b.beforeHighValue.Some?)
            && (b.beforeHighValue.Some? ==> b.beforeSuitcode.Some?)
            && (b.beforeSuitcode.Some? ==> 0 <= b.beforeSuitcode.value <= b.total)
            && (b.beforeHighValue.Some? ==> b.beforeSuitcode.value <= b.beforeHighValue.value <= b.total)
            && b.total >= 0
  {
    if segments != [] {
      EstimateFirstTools(segments[..|segments| - 1], count, highValue);
    }
  }

  /** One rollout, read twice: the estimate of the built transcript is valid, names
      the parser's first tools, and orders the tokens spent before them. */
  lemma EstimateAgreesWithParser(events: seq<Event>, count: Segment -> nat, highValue: set<string>)
    requires Parse(events, highValue).Ok? && Build(events).Ok?
    ensures WellShaped(Build(events).value)
    ensures var m := Parse(events, highValue).value;
            var b := Estimate(Build(events).value, count, highValue);
            && CategorySum(b) == b.total
            && b.firstSuitcode == ToolAt(m.firstSuitcode) && b.firstHighValue == ToolAt(m.firstHighValue)
            && (b.beforeHighValue.Some? ==> b.beforeSuitcode.Some? && b.beforeSuitcode.value <= b.beforeHighValue.value <= b.total)
            && (b.beforeSuitcode.Some? ==> b.beforeSuitcode.value <= b.total)
  {
    var segments := Build(events).value;
    TranscriptsAreWellShaped(events);
    ParserAgreesWithTranscript(events, highValue);
    NoUncategorized(segments, count);
    CategoriesSum(segments, count, highValue);
    EstimateFirstTools(segments, count, highValue);
  }
}
