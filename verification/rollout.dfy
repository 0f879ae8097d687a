/** Two scans of one Codex rollout: the session parser's counters, and the transcript
    builder whose segments the token estimator reads. */
module Rollout {
  import opened Ordering

  datatype Role = UserRole | AssistantRole | OtherRole

  /** Message text: absent, blank, or with something in it. */
  datatype Text = NoText | BlankText | ProperText

  /** A missing or blank name or call id is `None`; others are stripped strings. */
  datatype Payload =
    | Message(role: Role, text: Text)
    | ToolCall(name: Option<string>, callId: Option<string>)
    | ToolOutput(outputOf: Option<string>)
    | Reasoning(summaries: seq<bool>)
    | OtherPayload

  /** `payload` is `None` when it is not an object. */
  datatype Event =
    | SessionMeta(timestamp: Option<int>, isObject: bool)
    | ResponseItem(timestamp: Option<int>, payload: Option<Payload>)
    | OtherEvent(timestamp: Option<int>)

  datatype ScanError =
    | MissingTimestamp | InvalidPayload | InvalidToolName | InvalidCallId | EmptySuitCodeName
    | ItemBeforeMeta | MissingMeta | DuplicateCallId | UnknownCallId | InvalidSegment

  // ---- Tool names -----------------------------------------------------------------------

  predicate StartsWith(s: string, prefix: string) { prefix <= s }

  function Strip(s: string): string {
    if s != [] && s[0] == ' ' then Strip(s[1..])
    else if s != [] && s[|s| - 1] == ' ' then Strip(s[..|s| - 1])
    else s
  }

  predicate IsMcpName(name: string) {
    StartsWith(name, "mcp__") || StartsWith(name, "functions.mcp__")
  }

  /** The name behind one of the SuitCode prefixes; an empty one is an error. */
  function Canonical(name: string): Result<Option<string>, ScanError> {
    var suffix :=
      if StartsWith(name, "mcp__suitcode__") then Some(Strip(name[|"mcp__suitcode__"|..]))
      else if StartsWith(name, "functions.mcp__suitcode__") then Some(Strip(name[|"functions.mcp__suitcode__"|..]))
      else if StartsWith(name, "suitcode__") then Some(Strip(name[|"suitcode__"|..]))
      else if StartsWith(name, "suitcode.") then Some(Strip(name[|"suitcode."|..]))
      else None;
    if suffix == Some("") then Err(EmptySuitCodeName) else Ok(suffix)
  }

  // ---- The session parser -----------------------------------------------------------------

  datatype Sighting = Sighting(tool: string, index: nat)

  datatype Metrics = Metrics(metas: nat, messages: nat, userMessages: nat, assistantMessages: nat,
                             toolCalls: nat, mcpCalls: nat, suitcodeCalls: nat, perTool: map<string, nat>,
                             firstSuitcode: Option<Sighting>, firstHighValue: Option<Sighting>)

  const NO_METRICS := Metrics(0, 0, 0, 0, 0, 0, 0, map[], None, None)

  function CountCall(m: Metrics, name: string, highValue: set<string>): Result<Metrics, ScanError> {
    var m := m.(toolCalls := m.toolCalls + 1, mcpCalls := m.mcpCalls + if IsMcpName(name) then 1 else 0);
    match Canonical(name)
    case Err(e) => Err(e)
    case Ok(None) => Ok(m)
    case Ok(Some(tool)) =>
      Ok(m.(suitcodeCalls := m.suitcodeCalls + 1,
            perTool := m.perTool[tool := (if tool in m.perTool then m.perTool[tool] else 0) + 1],
            firstSuitcode := if m.firstSuitcode.None? then Some(Sighting(tool, m.toolCalls)) else m.firstSuitcode,
            firstHighValue := if m.firstHighValue.None? && tool in highValue then Some(Sighting(tool, m.toolCalls))
                              else m.firstHighValue))
  }

  function ParseEvent(m: Metrics, e: Event, highValue: set<string>): Result<Metrics, ScanError> {
    if e.timestamp.None? then Err(MissingTimestamp)
    else match e
      case SessionMeta(_, isObject) => if isObject then Ok(m.(metas := m.metas + 1)) else Err(InvalidPayload)
      case OtherEvent(_) => Ok(m)
      case ResponseItem(_, None) => Err(InvalidPayload)
      case ResponseItem(_, Some(Message(role, _))) =>
        Ok(m.(messages := m.messages + 1,
              userMessages := m.userMessages + if role.UserRole? then 1 else 0,
              assistantMessages := m.assistantMessages + if role.AssistantRole? then 1 else 0))
      case ResponseItem(_, Some(ToolCall(name, _))) =>
        if name.None? then Err(InvalidToolName) else CountCall(m, name.value, highValue)
      case ResponseItem(_, Some(_)) => Ok(m)
  }

  function ParseEvents(events: seq<Event>, highValue: set<string>): Result<Metrics, ScanError> {
    if events == [] then Ok(NO_METRICS)
    else match ParseEvents(events[..|events| - 1], highValue)
      case Err(e) => Err(e)
      case Ok(m) => ParseEvent(m, events[|events| - 1], highValue)
  }

  function Parse(events: seq<Event>, highValue: set<string>): Result<Metrics, ScanError> {
    match ParseEvents(events, highValue)
    case Err(e) => Err(e)
    case Ok(m) => if m.metas == 0 then Err(MissingMeta) else Ok(m)
  }

  // ---- The transcript builder ---------------------------------------------------------------

  datatype Kind =
    UserMessage | AssistantMessage | McpCall | McpOutput | CustomCall | CustomOutput | TerminalOutput | ReasoningSummary | SystemContext

  datatype Segment = Segment(index: nat, kind: Kind, callId: Option<string>, toolName: Option<string>,
                             isMcp: bool, isSuitcode: bool, canonical: Option<string>)

  datatype CallInfo = CallInfo(toolName: string, isMcp: bool, canonical: Option<string>)

  datatype Transcript = Transcript(sawMeta: bool, segments: seq<Segment>, calls: map<string, CallInfo>)

  const NO_TRANSCRIPT := Transcript(false, [], map[])

  /** The segment validators that can refuse: a SuitCode tool must be an MCP tool. */
  function AddSegment(t: Transcript, s: Segment): Result<Transcript, ScanError> {
    if s.isSuitcode && !s.isMcp then Err(InvalidSegment) else Ok(t.(segments := t.segments + [s]))
  }

  function PlainSegment(t: Transcript, kind: Kind): Segment {
    Segment(|t.segments| + 1, kind, None, None, false, false, None)
  }

  function AddMessage(t: Transcript, role: Role, text: Text): Result<Transcript, ScanError> {
    if role.OtherRole? || text.NoText? then Ok(t)
    else if text.BlankText? then Err(InvalidSegment)
    else AddSegment(t, PlainSegment(t, if role.UserRole? then UserMessage else AssistantMessage))
  }

  function AddCall(t: Transcript, name: Option<string>, callId: Option<string>): Result<Transcript, ScanError> {
    if name.None? then Err(InvalidToolName)
    else if callId.None? then Err(InvalidCallId)
    else match Canonical(name.value)
      case Err(e) => Err(e)
      case Ok(canonical) =>
        var isMcp := IsMcpName(name.value);
        var s := Segment(|t.segments| + 1, if isMcp then McpCall else CustomCall, callId, name, isMcp, canonical.Some?, canonical);
        match AddSegment(t, s)
        case Err(e) => Err(e)
        case Ok(grown) =>
          if callId.value in t.calls then Err(DuplicateCallId)
          else Ok(grown.(calls := t.calls[callId.value := CallInfo(name.value, isMcp, canonical)]))
  }

  function AddOutput(t: Transcript, callId: Option<string>): Result<Transcript, ScanError> {
    if callId.None? then Err(InvalidCallId)
    else if callId.value !in t.calls then Err(UnknownCallId)
    else
      var info := t.calls[callId.value];
      AddSegment(t, Segment(|t.segments| + 1, if info.isMcp then McpOutput else CustomOutput, callId, Some(info.toolName),
                            info.isMcp, info.canonical.Some?, info.canonical))
  }

  /** One segment per summary with text. */
  function AddReasoning(t: Transcript, summaries: seq<bool>): Transcript {
    if summaries == [] then t
    else
      var n := |summaries| - 1;
      var r := AddReasoning(t, summaries[..n]);
      if summaries[n] then r.(segments := r.segments + [PlainSegment(r, ReasoningSummary)]) else r
  }

  function BuildEvent(t: Transcript, e: Event): Result<Transcript, ScanError> {
    match e
    case SessionMeta(_, isObject) => if isObject then Ok(t.(sawMeta := true)) else Err(InvalidPayload)
    case OtherEvent(_) => Ok(t)
    case ResponseItem(timestamp, payload) =>
      if !t.sawMeta then Err(ItemBeforeMeta)
      else if payload.None? then Err(InvalidPayload)
      else if timestamp.None? then Err(MissingTimestamp)
      else match payload.value
        case Message(role, text) => AddMessage(t, role, text)
        case ToolCall(name, callId) => AddCall(t, name, callId)
        case ToolOutput(callId) => AddOutput(t, callId)
        case Reasoning(summaries) => Ok(AddReasoning(t, summaries))
        case OtherPayload => Ok(t)
  }

  function BuildEvents(events: seq<Event>): Result<Transcript, ScanError> {
    if events == [] then Ok(NO_TRANSCRIPT)
    else match BuildEvents(events[..|events| - 1])
      case Err(e) => Err(e)
      case Ok(t) => BuildEvent(t, events[|events| - 1])
  }

  function Build(events: seq<Event>): Result<seq<Segment>, ScanError> {
    match BuildEvents(events)
    case Err(e) => Err(e)
    case Ok(t) => if !t.sawMeta then Err(MissingMeta) else Ok(t.segments)
  }

  // ---- The token estimator ----------------------------------------------------------------------

  datatype Breakdown = Breakdown(total: int, counts: map<Kind, int>, firstSuitcode: Option<string>, firstHighValue: Option<string>,
                                 beforeSuitcode: Option<int>, beforeHighValue: Option<int>)

  const NO_BREAKDOWN := Breakdown(0, map[], None, None, None, None)

  function KindCount(b: Breakdown, k: Kind): int { if k in b.counts then b.counts[k] else 0 }

  function EstimateSegment(b: Breakdown, s: Segment, tokens: int, highValue: set<string>): Breakdown {
    var b := if s.kind.SystemContext? then b else b.(counts := b.counts[s.kind := KindCount(b, s.kind) + tokens]);
    var b :=
      if s.isSuitcode && s.kind.McpCall? then
        var c := if b.firstSuitcode.None? then b.(firstSuitcode := s.canonical, beforeSuitcode := Some(b.total)) else b;
        if s.canonical.Some? && s.canonical.value in highValue && c.firstHighValue.None?
        then c.(firstHighValue := s.canonical, beforeHighValue := Some(c.total)) else c
      else b;
    b.(total := b.total + tokens)
  }

  function Estimate(segments: seq<Segment>, count: Segment -> nat, highValue: set<string>): Breakdown {
    if segments == [] then NO_BREAKDOWN
    else
      var s := segments[|segments| - 1];
      EstimateSegment(Estimate(segments[..|segments| - 1], count, highValue), s, count(s), highValue)
  }

  // ---- The loops of the source -----------------------------------------------------------------

  method ParseSession(events: seq<Event>, highValue: set<string>) returns (r: Result<Metrics, ScanError>)
    ensures r == Parse(events, highValue)
  {
    var m := NO_METRICS;
    for i := 0 to |events|
      invariant ParseEvents(events[..i], highValue) == Ok(m)
    {
      assert events[..i + 1][..i] == events[..i];
      var next := ParseEvent(m, events[i], highValue);
      if next.Err? {
        ParseErrorStays(events, i + 1, highValue);
        return Err(next.error);
      }
      m := next.value;
    }
    assert events[..|events|] == events;
    return if m.metas == 0 then Err(MissingMeta) else Ok(m);
  }

  lemma {:induction false} ParseErrorStays(events: seq<Event>, k: nat, highValue: set<string>)
    requires k <= |events| && ParseEvents(events[..k], highValue).Err?
    ensures ParseEvents(events, highValue) == ParseEvents(events[..k], highValue)
  {
    if k < |events| {
      assert events[..|events| - 1][..k] == events[..k];
      ParseErrorStays(events[..|events| - 1], k, highValue);
    } else {
      assert events[..k] == events;
    }
  }

  method BuildTranscript(events: seq<Event>) returns (r: Result<seq<Segment>, ScanError>)
    ensures r == Build(events)
  {
    var t := NO_TRANSCRIPT;
    for i := 0 to |events|
      invariant BuildEvents(events[..i]) == Ok(t)
    {
      assert events[..i + 1][..i] == events[..i];
      var next := BuildEvent(t, events[i]);
      if next.Err? {
        BuildErrorStays(events, i + 1);
        return Err(next.error);
      }
      t := next.value;
    }
    assert events[..|events|] == events;
    return if !t.sawMeta then Err(MissingMeta) else Ok(t.segments);
  }

  lemma {:induction false} BuildErrorStays(events: seq<Event>, k: nat)
    requires k <= |events| && BuildEvents(events[..k]).Err?
    ensures BuildEvents(events) == BuildEvents(events[..k])
  {
    if k < |events| {
      assert events[..|events| - 1][..k] == events[..k];
      BuildErrorStays(events[..|events| - 1], k);
    } else {
      assert events[..k] == events;
    }
  }

  method EstimateCapture(segments: seq<Segment>, count: Segment -> nat, highValue: set<string>) returns (b: Breakdown)
    ensures b == Estimate(segments, count, highValue)
  {
    b := NO_BREAKDOWN;
    for i := 0 to |segments|
      invariant b == Estimate(segments[..i], count, highValue)
    {
      assert segments[..i + 1][..i] == segments[..i];
      b := EstimateSegment(b, segments[i], count(segments[i]), highValue);
    }
    assert segments[..|segments|] == segments;
  }
}
