/** What the session parser, the transcript builder and the estimator return, said of the
    events and segments they read. */
module RolloutCounts {
  import opened Ordering
  import opened Sums
  import opened Rollout
  import opened RolloutProperties

  // ---- Tool names ---------------------------------------------------------------------

  /** `t` is `s` without the spaces around it. */
  ghost predicate Stripped(s: string, t: string) {
    exists i, j :: 0 <= i <= j <= |s| && StrippedAt(s, t, i, j)
  }

  ghost predicate StrippedAt(s: string, t: string, i: nat, j: nat)
    requires i <= j <= |s|
  {
    && s[i..j] == t && (forall k :: 0 <= k < i ==> s[k] == ' ') && (forall k :: j <= k < |s| ==> s[k] == ' ')
    && (t != "" ==> t[0] != ' ' && t[|t| - 1] != ' ')
  }

  lemma FrontSpace(s: string, t: string)
    requires s != "" && s[0] == ' ' && Stripped(s[1..], t)
    ensures Stripped(s, t)
  {
    var i, j :| 0 <= i <= j <= |s[1..]| && StrippedAt(s[1..], t, i, j);
    assert s[i + 1..j + 1] == s[1..][i..j];
    assert forall k :: 0 < k < |s| ==> s[k] == s[1..][k - 1];
    assert StrippedAt(s, t, i + 1, j + 1);
  }

  lemma BackSpace(s: string, t: string)
    requires s != "" && s[|s| - 1] == ' ' && Stripped(s[..|s| - 1], t)
    ensures Stripped(s, t)
  {
    var front := s[..|s| - 1];
    var i, j :| 0 <= i <= j <= |front| && StrippedAt(front, t, i, j);
    assert s[i..j] == front[i..j];
    assert StrippedAt(s, t, i, j);
  }

  lemma {:induction false} StripSpec(s: string)
    ensures Stripped(s, Strip(s))
    decreases |s|
  {
    if s != [] && s[0] == ' ' {
      StripSpec(s[1..]);
      FrontSpace(s, Strip(s));
    } else if s != [] && s[|s| - 1] == ' ' {
      StripSpec(s[..|s| - 1]);
      BackSpace(s, Strip(s));
    } else {
      assert s[0..|s|] == s;
      assert StrippedAt(s, Strip(s), 0, |s|);
    }
  }

  lemma BlankIff(s: string, t: string)
    requires Stripped(s, t)
    ensures t == "" <==> forall k :: 0 <= k < |s| ==> s[k] == ' '
  {
    var i, j :| 0 <= i <= j <= |s| && StrippedAt(s, t, i, j);
    if t != "" { assert s[i] == t[0]; }
  }

  lemma SameFront(s: string, t: string, i: nat, j: nat, u: string, x: nat, y: nat)
    requires i <= j <= |s| && x <= y <= |s| && StrippedAt(s, t, i, j) && StrippedAt(s, u, x, y) && t != "" && u != ""
    ensures i == x
  {
    assert s[i] == s[i..j][0] && s[x] == s[x..y][0];
  }

  lemma SameBack(s: string, t: string, i: nat, j: nat, u: string, x: nat, y: nat)
    requires i <= j <= |s| && x <= y <= |s| && StrippedAt(s, t, i, j) && StrippedAt(s, u, x, y) && t != "" && u != ""
    ensures j == y
  {
    assert s[j - 1] == s[i..j][j - i - 1] && s[y - 1] == s[x..y][y - x - 1];
  }

  lemma StrippedOnce(s: string, t: string, u: string)
    requires Stripped(s, t) && Stripped(s, u)
    ensures t == u
  {
    BlankIff(s, t);
    BlankIff(s, u);
    if t != "" {
      var i, j :| 0 <= i <= j <= |s| && StrippedAt(s, t, i, j);
      var x, y :| 0 <= x <= y <= |s| && StrippedAt(s, u, x, y);
      SameFront(s, t, i, j, u, x, y);
      SameBack(s, t, i, j, u, x, y);
    }
  }

  /** One of the four ways to name SuitCode's tools. */
  ghost predicate SuitcodePrefix(p: string) {
    p == "mcp__suitcode__" || p == "functions.mcp__suitcode__" || p == "suitcode__" || p == "suitcode."
  }

  ghost predicate NamesTool(name: string, tool: string) {
    exists p :: SuitcodePrefix(p) && p <= name && Stripped(name[|p|..], tool)
  }

  lemma OnePrefix(name: string, p: string, q: string)
    requires SuitcodePrefix(p) && SuitcodePrefix(q) && p <= name && q <= name
    ensures p == q
  {
    assert p[0] == name[0] == q[0];
    if p[0] == 's' { assert p[8] == name[8] == q[8]; }
  }

  lemma NamesBehind(name: string, p: string, tool: string)
    requires SuitcodePrefix(p) && p <= name
    ensures NamesTool(name, tool) <==> tool == Strip(name[|p|..])
  {
    StripSpec(name[|p|..]);
    if NamesTool(name, tool) {
      var q :| SuitcodePrefix(q) && q <= name && Stripped(name[|q|..], tool);
      OnePrefix(name, p, q);
      StrippedOnce(name[|p|..], tool, Strip(name[|p|..]));
    }
  }

  lemma CanonicalBehind(name: string, p: string)
    requires SuitcodePrefix(p) && p <= name
    ensures Canonical(name) == if Strip(name[|p|..]) == "" then Err(EmptySuitCodeName) else Ok(Some(Strip(name[|p|..])))
  {
    if "mcp__suitcode__" <= name { OnePrefix(name, p, "mcp__suitcode__"); }
    if "functions.mcp__suitcode__" <= name { OnePrefix(name, p, "functions.mcp__suitcode__"); }
    if "suitcode__" <= name { OnePrefix(name, p, "suitcode__"); }
    if "suitcode." <= name { OnePrefix(name, p, "suitcode."); }
  }

  lemma CanonicalNone(name: string)
    requires forall p :: SuitcodePrefix(p) ==> !(p <= name)
    ensures Canonical(name) == Ok(None)
  {
    assert SuitcodePrefix("mcp__suitcode__") && SuitcodePrefix("functions.mcp__suitcode__");
    assert SuitcodePrefix("suitcode__") && SuitcodePrefix("suitcode.");
  }

  /** A name is a SuitCode tool's exactly if one of the prefixes stands before it, and refused
      exactly if nothing else does. */
  lemma CanonicalIff(name: string, tool: string)
    ensures Canonical(name) == Ok(Some(tool)) <==> tool != "" && NamesTool(name, tool)
    ensures Canonical(name).Err? <==> NamesTool(name, "")
  {
    if p :| SuitcodePrefix(p) && p <= name {
      CanonicalBehind(name, p);
      NamesBehind(name, p, tool);
      NamesBehind(name, p, "");
    } else {
      CanonicalNone(name);
    }
  }

  // ---- What the parser counts -----------------------------------------------------------

  function IsMeta(): Event -> bool { (e: Event) => e.SessionMeta? }
  function IsMessage(): Event -> bool { (e: Event) => e.ResponseItem? && e.payload.Some? && e.payload.value.Message? }
  function IsMessageOf(role: Role): Event -> bool {
    (e: Event) => e.ResponseItem? && e.payload.Some? && e.payload.value.Message? && e.payload.value.role == role
  }
  function CallName(): Event -> bool {
    (e: Event) => e.ResponseItem? && e.payload.Some? && e.payload.value.ToolCall? && e.payload.value.name.Some?
  }

  /** The names of the tools called, in order. */
  function CalledNames(events: seq<Event>): seq<string> {
    if events == [] then [] else
      var e := events[|events| - 1];
      CalledNames(events[..|events| - 1]) + if CallName()(e) then [e.payload.value.name.value] else []
  }

  function McpNames(): string -> bool { (name: string) => "mcp__" <= name || "functions.mcp__" <= name }
  ghost function SuitcodeNames(): string -> bool { (name: string) => exists tool :: NamesTool(name, tool) }
  ghost function NamesOf(tool: string): string -> bool { (name: string) => NamesTool(name, tool) }
  ghost function HighValueNames(highValue: set<string>): string -> bool {
    (name: string) => exists tool :: tool in highValue && NamesTool(name, tool)
  }

  /** The first name with `p`, numbered from 1, under its tool. */
  ghost predicate FirstNamed(sighting: Option<Sighting>, names: seq<string>, p: string -> bool) {
    match sighting
    case None => forall i :: 0 <= i < |names| ==> !p(names[i])
    case Some(x) =>
      && 1 <= x.index <= |names| && p(names[x.index - 1]) && NamesTool(names[x.index - 1], x.tool)
      && forall i :: 0 <= i < x.index - 1 ==> !p(names[i])
  }

  ghost predicate CountsCalls(m: Metrics, names: seq<string>) {
    && m.toolCalls == |names| && m.mcpCalls == |Filter(names, McpNames())|
    && m.suitcodeCalls == |Filter(names, SuitcodeNames())|
  }

  ghost predicate FirstsNamed(m: Metrics, names: seq<string>, highValue: set<string>) {
    FirstNamed(m.firstSuitcode, names, SuitcodeNames()) && FirstNamed(m.firstHighValue, names, HighValueNames(highValue))
  }

  ghost predicate CountsMessages(m: Metrics, events: seq<Event>) {
    && m.metas == |Filter(events, IsMeta())| && m.messages == |Filter(events, IsMessage())|
    && m.userMessages == |Filter(events, IsMessageOf(UserRole))|
    && m.assistantMessages == |Filter(events, IsMessageOf(AssistantRole))|
  }

  lemma FirstNamedKept(x: Sighting, names: seq<string>, name: string, p: string -> bool)
    requires FirstNamed(Some(x), names, p)
    ensures FirstNamed(Some(x), names + [name], p)
  {
    var all := names + [name];
    assert all[x.index - 1] == names[x.index - 1];
    forall i | 0 <= i < x.index - 1 ensures !p(all[i]) { assert all[i] == names[i]; }
  }

  lemma FirstNamedNow(names: seq<string>, name: string, p: string -> bool, tool: string)
    requires FirstNamed(None, names, p) && (p(name) ==> NamesTool(name, tool))
    ensures FirstNamed(if p(name) then Some(Sighting(tool, |names| + 1)) else None, names + [name], p)
  {
    var all := names + [name];
    assert all[|names|] == name;
    forall i | 0 <= i < |names| ensures !p(all[i]) { assert all[i] == names[i]; }
  }

  lemma FirstNamedStep(sighting: Option<Sighting>, names: seq<string>, name: string, p: string -> bool, tool: string)
    requires FirstNamed(sighting, names, p) && (p(name) ==> NamesTool(name, tool))
    ensures FirstNamed(if sighting.None? && p(name) then Some(Sighting(tool, |names| + 1)) else sighting, names + [name], p)
  {
    match sighting
    case None => FirstNamedNow(names, name, p, tool);
    case Some(x) => FirstNamedKept(x, names, name, p);
  }

  lemma OneTool(name: string, a: string, b: string)
    requires NamesTool(name, a) && NamesTool(name, b)
    ensures a == b
  {
    var p :| SuitcodePrefix(p) && p <= name && Stripped(name[|p|..], a);
    var q :| SuitcodePrefix(q) && q <= name && Stripped(name[|q|..], b);
    OnePrefix(name, p, q);
    StrippedOnce(name[|p|..], a, b);
  }

  /** A name of a tool, or of none. */
  lemma NameStep(name: string, t: string)
    requires Canonical(name).Ok?
    ensures NamesTool(name, t) <==> Canonical(name).value == Some(t)
  {
    CanonicalIff(name, t);
  }

  ghost function CallsOf(m: Metrics, tool: string): nat {
    if tool in m.perTool then m.perTool[tool] else 0
  }

  lemma CallsOfStep(m: Metrics, name: string, highValue: set<string>, tool: string)
    requires CountCall(m, name, highValue).Ok?
    ensures CallsOf(CountCall(m, name, highValue).value, tool) ==
            CallsOf(m, tool) + if Canonical(name).value == Some(tool) then 1 else 0
  {
  }

  lemma ToolStep(m: Metrics, names: seq<string>, name: string, highValue: set<string>, tool: string)
    requires CallsOf(m, tool) == |Filter(names, NamesOf(tool))| && CountCall(m, name, highValue).Ok?
    ensures CallsOf(CountCall(m, name, highValue).value, tool) == |Filter(names + [name], NamesOf(tool))|
  {
    CallsOfStep(m, name, highValue, tool);
    NameStep(name, tool);
    FilterStep(names, name, NamesOf(tool));
  }

  lemma SuitcodeStep(name: string, highValue: set<string>)
    requires Canonical(name).Ok?
    ensures SuitcodeNames()(name) <==> Canonical(name).value.Some?
    ensures HighValueNames(highValue)(name) <==> Canonical(name).value.Some? && Canonical(name).value.value in highValue
    ensures Canonical(name).value.Some? ==> NamesTool(name, Canonical(name).value.value)
  {
    forall t ensures NamesTool(name, t) <==> Canonical(name).value == Some(t) { NameStep(name, t); }
  }

  lemma TotalsStep(m: Metrics, names: seq<string>, name: string, highValue: set<string>)
    requires CountsCalls(m, names) && CountCall(m, name, highValue).Ok?
    ensures CountsCalls(CountCall(m, name, highValue).value, names + [name])
  {
    McpStep(m, name, highValue);
    assert SuitcodeNames()(name) <==> Canonical(name).value.Some? by { SuitcodeStep(name, highValue); }
    FilterStep(names, name, McpNames());
    FilterStep(names, name, SuitcodeNames());
  }

  lemma McpStep(m: Metrics, name: string, highValue: set<string>)
    requires CountCall(m, name, highValue).Ok?
    ensures CountCall(m, name, highValue).value.mcpCalls == m.mcpCalls + if McpNames()(name) then 1 else 0
  {
  }

  lemma FirstsNamedStep(m: Metrics, names: seq<string>, name: string, highValue: set<string>)
    requires FirstsNamed(m, names, highValue) && m.toolCalls == |names| && CountCall(m, name, highValue).Ok?
    ensures FirstsNamed(CountCall(m, name, highValue).value, names + [name], highValue)
  {
    SuitcodeStep(name, highValue);
    var tool := if Canonical(name).value.Some? then Canonical(name).value.value else "";
    FirstNamedStep(m.firstSuitcode, names, name, SuitcodeNames(), tool);
    FirstNamedStep(m.firstHighValue, names, name, HighValueNames(highValue), tool);
  }

  lemma MessagesStep(m: Metrics, events: seq<Event>, e: Event, highValue: set<string>)
    requires CountsMessages(m, events) && ParseEvent(m, e, highValue).Ok?
    ensures CountsMessages(ParseEvent(m, e, highValue).value, events + [e])
  {
    FilterStep(events, e, IsMeta());
    FilterStep(events, e, IsMessage());
    FilterStep(events, e, IsMessageOf(UserRole));
    FilterStep(events, e, IsMessageOf(AssistantRole));
  }

  lemma CalledNamesStep(events: seq<Event>, e: Event)
    ensures CalledNames(events + [e]) ==
            if CallName()(e) then CalledNames(events) + [e.payload.value.name.value] else CalledNames(events)
  {
    assert (events + [e])[..|events|] == events;
  }

  predicate SameCalls(m: Metrics, n: Metrics) {
    && m.toolCalls == n.toolCalls && m.mcpCalls == n.mcpCalls && m.suitcodeCalls == n.suitcodeCalls
    && m.perTool == n.perTool && m.firstSuitcode == n.firstSuitcode && m.firstHighValue == n.firstHighValue
  }

  /** Only a named call moves the call counters. */
  lemma CallsMoveOnCalls(m: Metrics, e: Event, highValue: set<string>)
    requires ParseEvent(m, e, highValue).Ok?
    ensures if CallName()(e) then ParseEvent(m, e, highValue) == CountCall(m, e.payload.value.name.value, highValue)
            else SameCalls(m, ParseEvent(m, e, highValue).value)
  {
  }

  /** The last event: what was counted before it, and the names before and after. */
  lemma LastEvent(events: seq<Event>, highValue: set<string>) returns (front: seq<Event>, e: Event, m: Metrics)
    requires events != [] && ParseEvents(events, highValue).Ok?
    ensures |front| < |events| && events == front + [e] && ParseEvents(front, highValue) == Ok(m)
    ensures ParseEvents(events, highValue) == ParseEvent(m, e, highValue)
    ensures CalledNames(events) == if CallName()(e) then CalledNames(front) + [e.payload.value.name.value] else CalledNames(front)
    ensures if CallName()(e) then ParseEvents(events, highValue) == CountCall(m, e.payload.value.name.value, highValue)
            else SameCalls(m, ParseEvents(events, highValue).value)
  {
    front, e := events[..|events| - 1], events[|events| - 1];
    m := ParseEvents(front, highValue).value;
    assert events == front + [e];
    CalledNamesStep(front, e);
    CallsMoveOnCalls(m, e, highValue);
  }

  lemma {:induction false} MessagesAreCounted(events: seq<Event>, highValue: set<string>)
    requires ParseEvents(events, highValue).Ok?
    ensures CountsMessages(ParseEvents(events, highValue).value, events)
  {
    if events != [] {
      var front, e, m := LastEvent(events, highValue);
      MessagesAreCounted(front, highValue);
      MessagesStep(m, front, e, highValue);
    }
  }

  lemma {:induction false} CallsAreCounted(events: seq<Event>, highValue: set<string>)
    requires ParseEvents(events, highValue).Ok?
    ensures CountsCalls(ParseEvents(events, highValue).value, CalledNames(events))
  {
    if events != [] {
      var front, e, m := LastEvent(events, highValue);
      CallsAreCounted(front, highValue);
      if CallName()(e) { TotalsStep(m, CalledNames(front), e.payload.value.name.value, highValue); }
    }
  }

  lemma {:induction false} ToolIsCounted(events: seq<Event>, highValue: set<string>, tool: string)
    requires ParseEvents(events, highValue).Ok?
    ensures CallsOf(ParseEvents(events, highValue).value, tool) == |Filter(CalledNames(events), NamesOf(tool))|
  {
    if events != [] {
      var front, e, m := LastEvent(events, highValue);
      ToolIsCounted(front, highValue, tool);
      if CallName()(e) { ToolStep(m, CalledNames(front), e.payload.value.name.value, highValue, tool); }
    }
  }

  lemma {:induction false} FirstsAreFound(events: seq<Event>, highValue: set<string>)
    requires ParseEvents(events, highValue).Ok?
    ensures FirstsNamed(ParseEvents(events, highValue).value, CalledNames(events), highValue)
  {
    if events != [] {
      var front, e, m := LastEvent(events, highValue);
      FirstsAreFound(front, highValue);
      CallsAreCounted(front, highValue);
      if CallName()(e) { FirstsNamedStep(m, CalledNames(front), e.payload.value.name.value, highValue); }
    }
  }

  /** Every counter of the parser, and both first tools, read off the events. */
  lemma ParserCounts(events: seq<Event>, highValue: set<string>)
    requires ParseEvents(events, highValue).Ok?
    ensures var m := ParseEvents(events, highValue).value;
            && CountsMessages(m, events) && CountsCalls(m, CalledNames(events)) && FirstsNamed(m, CalledNames(events), highValue)
            && forall tool :: CallsOf(m, tool) == |Filter(CalledNames(events), NamesOf(tool))|
  {
    MessagesAreCounted(events, highValue);
    CallsAreCounted(events, highValue);
    FirstsAreFound(events, highValue);
    var m := ParseEvents(events, highValue).value;
    forall tool ensures CallsOf(m, tool) == |Filter(CalledNames(events), NamesOf(tool))| { ToolIsCounted(events, highValue, tool); }
  }

  /** What the parser takes: timestamps everywhere, objects where it looks into them, and tool
      names that name something. */
  ghost predicate Readable(e: Event) {
    && e.timestamp.Some?
    && (e.SessionMeta? ==> e.isObject)
    && (e.ResponseItem? ==>
          && e.payload.Some?
          && (e.payload.value.ToolCall? ==> e.payload.value.name.Some? && !NamesTool(e.payload.value.name.value, "")))
  }

  lemma EventParsesIff(m: Metrics, e: Event, highValue: set<string>)
    ensures ParseEvent(m, e, highValue).Ok? <==> Readable(e)
  {
    if CallName()(e) { CanonicalIff(e.payload.value.name.value, ""); }
  }

  lemma {:induction false} EventsParseIff(events: seq<Event>, highValue: set<string>)
    ensures ParseEvents(events, highValue).Ok? <==> forall e :: e in events ==> Readable(e)
  {
    if events != [] {
      var n := |events| - 1;
      EventsParseIff(events[..n], highValue);
      assert events == events[..n] + [events[n]];
      if ParseEvents(events[..n], highValue).Ok? { EventParsesIff(ParseEvents(events[..n], highValue).value, events[n], highValue); }
    }
  }

  /** Exactly which rollouts the parser accepts. */
  lemma ParserAcceptsIff(events: seq<Event>, highValue: set<string>)
    ensures Parse(events, highValue).Ok? <==> (forall e :: e in events ==> Readable(e)) && exists e :: e in events && e.SessionMeta?
  {
    EventsParseIff(events, highValue);
    if ParseEvents(events, highValue).Ok? {
      ParserCounts(events, highValue);
      FilterNone(events, IsMeta());
    }
  }

  // ---- What the builder captures --------------------------------------------------------------

  function TextsIn(summaries: seq<bool>): seq<bool> { Filter(summaries, (b: bool) => b) }

  ghost predicate PlainGroup(group: seq<Segment>, kind: Kind) {
    |group| == 1 && group[0].kind == kind
  }

  /** The segments captured from one event. */
  ghost predicate Shows(e: Event, group: seq<Segment>) {
    if !e.ResponseItem? || e.payload.None? then group == []
    else match e.payload.value
      case Message(role, text) =>
        if text.ProperText? && role == UserRole then PlainGroup(group, UserMessage)
        else if text.ProperText? && role == AssistantRole then PlainGroup(group, AssistantMessage)
        else group == []
      case ToolCall(name, callId) =>
        && name.Some? && PlainGroup(group, if McpNames()(name.value) then McpCall else CustomCall)
        && group[0].callId == callId && group[0].toolName == name
        && (match group[0].canonical case Some(tool) => NamesTool(name.value, tool) case None => !SuitcodeNames()(name.value))
      case ToolOutput(callId) => |group| == 1 && IsOutput(group[0]) && group[0].callId == callId
      case Reasoning(summaries) =>
        |group| == |TextsIn(summaries)| && forall s :: s in group ==> s.kind == ReasoningSummary
      case OtherPayload => group == []
  }

  lemma {:induction false} ReasoningShows(t: Transcript, summaries: seq<bool>) returns (group: seq<Segment>)
    ensures AddReasoning(t, summaries).segments == t.segments + group
    ensures |group| == |TextsIn(summaries)| && forall s :: s in group ==> s.kind == ReasoningSummary
  {
    if summaries == [] {
      group := [];
    } else {
      var n := |summaries| - 1;
      group := ReasoningShows(t, summaries[..n]);
      if summaries[n] { group := group + [PlainSegment(AddReasoning(t, summaries[..n]), ReasoningSummary)]; }
    }
  }

  lemma EventShows(t: Transcript, e: Event) returns (group: seq<Segment>)
    requires BuildEvent(t, e).Ok?
    ensures BuildEvent(t, e).value.segments == t.segments + group && Shows(e, group)
  {
    var u := BuildEvent(t, e).value;
    group := [];
    if e.ResponseItem? {
      match e.payload.value
      case Message(role, text) => if u != t { group := [u.segments[|t.segments|]]; }
      case ToolCall(name, callId) =>
        SuitcodeStep(name.value, {});
        group := [u.segments[|t.segments|]];
      case ToolOutput(callId) => group := [u.segments[|t.segments|]];
      case Reasoning(summaries) => group := ReasoningShows(t, summaries);
      case OtherPayload =>
    }
  }

  /** The transcript is what each event shows, event by event. */
  lemma {:induction false} EachEventShows(events: seq<Event>) returns (groups: seq<seq<Segment>>)
    requires BuildEvents(events).Ok?
    ensures |groups| == |events| && Flatten(groups) == BuildEvents(events).value.segments
    ensures forall i :: 0 <= i < |events| ==> Shows(events[i], groups[i])
  {
    if events == [] {
      groups := [];
    } else {
      var n := |events| - 1;
      var front := EachEventShows(events[..n]);
      var group := EventShows(BuildEvents(events[..n]).value, events[n]);
      groups := front + [group];
      assert groups[..n] == front;
    }
  }

  // ---- What the estimator counts ------------------------------------------------------------------

  function OfKind(kind: Kind): Segment -> bool { (s: Segment) => s.kind == kind }
  function Weight(count: Segment -> nat): Segment -> int { (s: Segment) => count(s) }
  function SuitcodeCall(): Segment -> bool { (s: Segment) => s.kind.McpCall? && s.isSuitcode }
  function HighValueCall(highValue: set<string>): Segment -> bool {
    (s: Segment) => s.kind.McpCall? && s.isSuitcode && s.canonical.Some? && s.canonical.value in highValue
  }

  /** The tool of the first segment with `p`, and the tokens of all segments before it. */
  ghost predicate FirstCall(tool: Option<string>, before: Option<int>, segments: seq<Segment>, p: Segment -> bool, weight: Segment -> int) {
    if forall s :: s in segments ==> !p(s) then tool == None && before == None
    else exists i :: 0 <= i < |segments| && p(segments[i]) && (forall j :: 0 <= j < i ==> !p(segments[j]))
                     && tool == segments[i].canonical && before == Some(Sum(segments[..i], weight))
  }

  lemma FirstCallStep(tool: Option<string>, before: Option<int>, segments: seq<Segment>, s: Segment, p: Segment -> bool,
                      weight: Segment -> int)
    requires FirstCall(tool, before, segments, p, weight) && (forall x :: p(x) && x in segments ==> x.canonical.Some?)
    ensures var first := tool.None? && p(s);
            FirstCall(if first then s.canonical else tool, if first then Some(Sum(segments, weight)) else before, segments + [s], p, weight)
  {
    var all := segments + [s];
    assert all[|segments|] == s && all[..|segments|] == segments;
    if forall x :: x in segments ==> !p(x) {
      if p(s) {
        assert s in all;
        forall j | 0 <= j < |segments| ensures !p(all[j]) { assert segments[j] in segments; }
      }
    } else {
      var i :| 0 <= i < |segments| && p(segments[i]) && (forall j :: 0 <= j < i ==> !p(segments[j]))
               && tool == segments[i].canonical && before == Some(Sum(segments[..i], weight));
      assert segments[i] in segments && all[i] == segments[i] && all[..i] == segments[..i] && all[i] in all;
    }
  }

  ghost predicate SumsKinds(b: Breakdown, segments: seq<Segment>, count: Segment -> nat) {
    && b.total == Sum(segments, Weight(count))
    && forall kind :: kind != SystemContext ==> KindCount(b, kind) == Sum(Filter(segments, OfKind(kind)), Weight(count))
  }

  lemma EstimateKind(b: Breakdown, s: Segment, tokens: int, highValue: set<string>, kind: Kind)
    requires kind != SystemContext
    ensures KindCount(EstimateSegment(b, s, tokens, highValue), kind) == KindCount(b, kind) + if s.kind == kind then tokens else 0
  {
  }

  lemma KindStep(b: Breakdown, front: seq<Segment>, s: Segment, count: Segment -> nat, highValue: set<string>, kind: Kind)
    requires kind != SystemContext && KindCount(b, kind) == Sum(Filter(front, OfKind(kind)), Weight(count))
    ensures KindCount(EstimateSegment(b, s, count(s), highValue), kind) == Sum(Filter(front + [s], OfKind(kind)), Weight(count))
  {
    EstimateKind(b, s, count(s), highValue, kind);
    FilterStep(front, s, OfKind(kind));
    SumStep(Filter(front, OfKind(kind)), s, Weight(count));
  }

  lemma SumsStep(b: Breakdown, front: seq<Segment>, s: Segment, count: Segment -> nat, highValue: set<string>)
    requires SumsKinds(b, front, count)
    ensures SumsKinds(EstimateSegment(b, s, count(s), highValue), front + [s], count)
  {
    SumStep(front, s, Weight(count));
    forall kind | kind != SystemContext
      ensures KindCount(EstimateSegment(b, s, count(s), highValue), kind) == Sum(Filter(front + [s], OfKind(kind)), Weight(count))
    {
      KindStep(b, front, s, count, highValue, kind);
    }
  }

  ghost predicate FirstCalls(b: Breakdown, segments: seq<Segment>, count: Segment -> nat, highValue: set<string>) {
    && FirstCall(b.firstSuitcode, b.beforeSuitcode, segments, SuitcodeCall(), Weight(count))
    && FirstCall(b.firstHighValue, b.beforeHighValue, segments, HighValueCall(highValue), Weight(count))
  }

  /** A segment moves the first tools only if it is a SuitCode call, and then with the total so far. */
  lemma EstimateFirsts(b: Breakdown, s: Segment, tokens: nat, highValue: set<string>)
    requires ProperSegment(s)
    ensures var c := EstimateSegment(b, s, tokens, highValue);
            && (if b.firstSuitcode.None? && SuitcodeCall()(s)
                then c.firstSuitcode == s.canonical && c.beforeSuitcode == Some(b.total)
                else c.firstSuitcode == b.firstSuitcode && c.beforeSuitcode == b.beforeSuitcode)
            && (if b.firstHighValue.None? && HighValueCall(highValue)(s)
                then c.firstHighValue == s.canonical && c.beforeHighValue == Some(b.total)
                else c.firstHighValue == b.firstHighValue && c.beforeHighValue == b.beforeHighValue)
  {
  }

  lemma FirstsStep(b: Breakdown, front: seq<Segment>, s: Segment, count: Segment -> nat, highValue: set<string>)
    requires FirstCalls(b, front, count, highValue) && b.total == Sum(front, Weight(count))
    requires forall x :: x in front + [s] ==> ProperSegment(x)
    ensures FirstCalls(EstimateSegment(b, s, count(s), highValue), front + [s], count, highValue)
  {
    assert s in front + [s] && forall x :: x in front ==> x in front + [s];
    EstimateFirsts(b, s, count(s), highValue);
    FirstCallStep(b.firstSuitcode, b.beforeSuitcode, front, s, SuitcodeCall(), Weight(count));
    FirstCallStep(b.firstHighValue, b.beforeHighValue, front, s, HighValueCall(highValue), Weight(count));
  }

  /** The total, each category, and the tokens before the first tools, as sums over the segments. */
  lemma {:induction false} EstimateSpec(segments: seq<Segment>, count: Segment -> nat, highValue: set<string>)
    requires forall s :: s in segments ==> ProperSegment(s)
    ensures SumsKinds(Estimate(segments, count, highValue), segments, count)
    ensures FirstCalls(Estimate(segments, count, highValue), segments, count, highValue)
  {
    if segments != [] {
      var n := |segments| - 1;
      assert segments == segments[..n] + [segments[n]];
      EstimateSpec(segments[..n], count, highValue);
      SumsStep(Estimate(segments[..n], count, highValue), segments[..n], segments[n], count, highValue);
      FirstsStep(Estimate(segments[..n], count, highValue), segments[..n], segments[n], count, highValue);
    }
  }
}
