/** `JsonlAnalyticsStore`: append-only streams of lines that roll over by size, one
    global and one per repository, read back through a dict of events by id. */
module RollingStore {
  import opened Ordering
  import opened Decimals
  import opened Lexicographic

  type Id = int

  datatype StoredEvent = StoredEvent(id: Id, timestamp: int, body: int)

  /** A written line and its encoded length. */
  datatype Line = Line(event: StoredEvent, bytes: nat)

  /** `events-<timestamp>.jsonl` with counter 0, `events-<timestamp>-<counter>.jsonl` otherwise. */
  datatype ArchiveName = ArchiveName(timestamp: int, counter: nat)

  /** The files of one stream; `active` is absent until the first append. */
  datatype Directory = Directory(archives: map<ArchiveName, seq<Line>>, active: Option<seq<Line>>)

  datatype Root = GlobalRoot | RepositoryRoot(path: Id)

  const NO_FILES := Directory(map[], None)

  function Size(lines: seq<Line>): nat {
    if lines == [] then 0 else Size(lines[..|lines| - 1]) + lines[|lines| - 1].bytes
  }

  // ---- Appending -----------------------------------------------------------------

  function Taken(names: set<ArchiveName>, timestamp: int, counter: nat): set<ArchiveName> {
    set n | n in names && n.timestamp == timestamp && n.counter >= counter
  }

  /** The first free counter at or above `counter`; the names are finitely many. */
  function FreeName(names: set<ArchiveName>, timestamp: int, counter: nat): ArchiveName
    decreases |Taken(names, timestamp, counter)|
  {
    var n := ArchiveName(timestamp, counter);
    if n !in names then n else
      assert Taken(names, timestamp, counter) == Taken(names, timestamp, counter + 1) + {n};
      FreeName(names, timestamp, counter + 1)
  }

  function RollOver(d: Directory, now: int): Directory
    requires d.active.Some?
  {
    Directory(d.archives[FreeName(d.archives.Keys, now, 0) := d.active.value], None)
  }

  predicate MustRoll(d: Directory, line: Line, maxBytes: int) {
    d.active.Some? && Size(d.active.value) + line.bytes > maxBytes
  }

  function AppendLine(d: Directory, line: Line, maxBytes: int, now: int): Directory {
    var d := if MustRoll(d, line, maxBytes) then RollOver(d, now) else d;
    d.(active := Some((if d.active.Some? then d.active.value else []) + [line]))
  }

  function DirectoryOf(streams: map<Root, Directory>, root: Root): Directory {
    if root in streams then streams[root] else NO_FILES
  }

  // ---- Reading --------------------------------------------------------------------

  function ReadArchives(archives: map<ArchiveName, seq<Line>>, order: seq<ArchiveName>): seq<Line> {
    if order == [] then [] else
      ReadArchives(archives, order[..|order| - 1])
      + if order[|order| - 1] in archives then archives[order[|order| - 1]] else []
  }

  /** File names compare as text: `events-T-1.jsonl` before `events-T-10.jsonl` before
      `events-T-2.jsonl` before `events-T.jsonl`. */
  function NameKey(n: ArchiveName): seq<int> {
    [n.timestamp] + if n.counter == 0 then [1] else [0] + Decimal(n.counter)
  }

  function NameLeq(): (ArchiveName, ArchiveName) -> bool {
    (a: ArchiveName, b: ArchiveName) => LexLeq(NameKey(a), NameKey(b))
  }

  lemma NameOrder()
    ensures TotalPreorder(NameLeq())
  {
    forall a, b ensures NameLeq()(a, b) || NameLeq()(b, a) { LexTotal(NameKey(a), NameKey(b)); }
    forall a, b, c | NameLeq()(a, b) && NameLeq()(b, c) ensures NameLeq()(a, c) {
      LexTransitive(NameKey(a), NameKey(b), NameKey(c));
    }
  }

  /** Names do not sort in the order in which archives are made: the first archive of an
      instant sorts behind all later ones. */
  lemma FirstArchiveSortsLast(timestamp: int, counter: nat)
    requires counter > 0
    ensures !NameLeq()(ArchiveName(timestamp, 0), ArchiveName(timestamp, counter))
  {
    var a, b := NameKey(ArchiveName(timestamp, 0)), NameKey(ArchiveName(timestamp, counter));
    assert a[0] == b[0] && a[1..][0] == 1 && b[1..][0] == 0;
    assert !LexLeq(a[1..], b[1..]);
  }

  /** `order` lists every archive once. */
  ghost predicate Lists(order: seq<ArchiveName>, d: Directory) {
    Distinct(order) && forall n :: n in order <==> n in d.archives
  }

  /** All lines of the stream: the archives in the given order, then the active file. */
  function ReadStream(d: Directory, order: seq<ArchiveName>): seq<Line> {
    ReadArchives(d.archives, order) + if d.active.Some? then d.active.value else []
  }

  function EventIds(lines: seq<Line>): seq<Id> {
    if lines == [] then [] else EventIds(lines[..|lines| - 1]) + [lines[|lines| - 1].event.id]
  }

  function LastWith(lines: seq<Line>, id: Id): Option<StoredEvent> {
    if lines == [] then None
    else if lines[|lines| - 1].event.id == id then Some(lines[|lines| - 1].event)
    else LastWith(lines[..|lines| - 1], id)
  }

  function Values(lines: seq<Line>, ids: seq<Id>): seq<StoredEvent> {
    if ids == [] then [] else
      var r := Values(lines, ids[..|ids| - 1]);
      match LastWith(lines, ids[|ids| - 1])
      case Some(e) => r + [e]
      case None => r
  }

  function ByTimestamp(): (StoredEvent, StoredEvent) -> bool {
    (a: StoredEvent, b: StoredEvent) => a.timestamp <= b.timestamp
  }

  /** The events of the lines: the last one of each id, by timestamp. */
  function Load(lines: seq<Line>): seq<StoredEvent> {
    Sort(Values(lines, FirstOccurrences(EventIds(lines))), ByTimestamp())
  }

  // ---- The object ---------------------------------------------------------------------

  /** The archives by name. */
  method SortedFiles(d: Directory) returns (files: seq<ArchiveName>)
    ensures Lists(files, d) && SortedBy(files, NameLeq())
  {
    var names := Enumerate(d.archives.Keys);
    files := Sort(names, NameLeq());
    NameOrder();
    SortSorts(names, NameLeq());
    SortPermutes(names, NameLeq());
    DistinctMultiset(names);
    DistinctMultiset(files);
  }

  class JsonlAnalyticsStore {
    const maxBytes: int
    var streams: map<Root, Directory>

    constructor (maxBytes: int)
      ensures streams == map[] && this.maxBytes == maxBytes
    {
      this.maxBytes := maxBytes;
      streams := map[];
    }

    /** The counter loop of `_rollover`: it ends, and at a name no file has. */
    method FindArchiveName(names: set<ArchiveName>, now: int) returns (name: ArchiveName)
      ensures name !in names && name == FreeName(names, now, 0)
    {
      name := ArchiveName(now, 0);
      var counter := 1;
      while name in names
        invariant name == ArchiveName(now, counter - 1) && counter >= 1
        invariant FreeName(names, now, 0) == FreeName(names, now, counter - 1)
        decreases |Taken(names, now, counter - 1)|
      {
        assert Taken(names, now, counter - 1) == Taken(names, now, counter) + {name};
        name := ArchiveName(now, counter);
        counter := counter + 1;
      }
    }

    method Append(root: Root, line: Line, now: int)
      modifies this
      ensures streams == old(streams)[root := AppendLine(DirectoryOf(old(streams), root), line, maxBytes, now)]
    {
      var d := DirectoryOf(streams, root);
      if d.active.Some? && Size(d.active.value) + line.bytes > maxBytes {
        var name := FindArchiveName(d.archives.Keys, now);
        d := Directory(d.archives[name := d.active.value], None);
      }
      var written := if d.active.Some? then d.active.value else [];
      streams := streams[root := d.(active := Some(written + [line]))];
    }

    method AppendEvent(line: Line, repository: Option<Id>, now: int)
      modifies this
      ensures streams == AppendBoth(old(streams), AppendOperation(line, repository, now), maxBytes)
    {
      Append(GlobalRoot, line, now);
      if repository.Some? {
        Append(RepositoryRoot(repository.value), line, now);
      }
    }

    method IterLines(root: Root) returns (lines: seq<Line>, ghost order: seq<ArchiveName>)
      ensures Lists(order, DirectoryOf(streams, root)) && SortedBy(order, NameLeq())
      ensures lines == ReadStream(DirectoryOf(streams, root), order)
    {
      var d := DirectoryOf(streams, root);
      var files := SortedFiles(d);
      order := files;
      lines := [];
      for k := 0 to |files|
        invariant lines == ReadArchives(d.archives, files[..k])
      {
        assert files[..k + 1][..k] == files[..k];
        assert files[k] in files;
        lines := lines + d.archives[files[k]];
      }
      assert files[..|files|] == files;
      lines := lines + if d.active.Some? then d.active.value else [];
    }

    /** The events of the requested streams, global lines first. */
    method LoadEvents(repository: Option<Id>, includeGlobal: bool)
      returns (events: seq<StoredEvent>, ghost globalOrder: seq<ArchiveName>, ghost repositoryOrder: seq<ArchiveName>)
      ensures Lists(globalOrder, DirectoryOf(streams, GlobalRoot)) && SortedBy(globalOrder, NameLeq())
      ensures repository.Some? ==>
                Lists(repositoryOrder, DirectoryOf(streams, RepositoryRoot(repository.value)))
                && SortedBy(repositoryOrder, NameLeq())
      ensures events == Load((if includeGlobal then ReadStream(DirectoryOf(streams, GlobalRoot), globalOrder) else [])
                             + (if repository.Some?
                                then ReadStream(DirectoryOf(streams, RepositoryRoot(repository.value)), repositoryOrder) else []))
    {
      var lines, repositoryLines: seq<Line>;
      lines, globalOrder := IterLines(GlobalRoot);
      if !includeGlobal { lines := []; }
      repositoryLines, repositoryOrder := [], [];
      if repository.Some? {
        repositoryLines, repositoryOrder := IterLines(RepositoryRoot(repository.value));
      }
      events := LoadLines(lines + repositoryLines);
    }
  }

  ghost predicate Indexed(lines: seq<Line>, keys: seq<Id>, byId: map<Id, StoredEvent>) {
    && keys == FirstOccurrences(EventIds(lines))
    && (forall id :: id in byId <==> id in EventIds(lines))
    && (forall id :: id in byId ==> LastWith(lines, id) == Some(byId[id]))
  }

  lemma IndexedStep(lines: seq<Line>, line: Line, keys: seq<Id>, byId: map<Id, StoredEvent>)
    requires Indexed(lines, keys, byId)
    ensures Indexed(lines + [line], if line.event.id in byId then keys else keys + [line.event.id],
                    byId[line.event.id := line.event])
  {
    EventIdsStep(lines, line);
    FirstOccurrencesStep(EventIds(lines), line.event.id);
    var grown := byId[line.event.id := line.event];
    forall id | id in grown ensures LastWith(lines + [line], id) == Some(grown[id]) {
      LastWithStep(lines, line, id);
    }
  }

  lemma EventIdsStep(lines: seq<Line>, line: Line)
    ensures EventIds(lines + [line]) == EventIds(lines) + [line.event.id]
  {
    assert (lines + [line])[..|lines|] == lines;
  }

  lemma LastWithStep(lines: seq<Line>, line: Line, id: Id)
    ensures LastWith(lines + [line], id) == if line.event.id == id then Some(line.event) else LastWith(lines, id)
  {
    assert (lines + [line])[..|lines|] == lines;
  }

  /** `events_by_id[event.event_id] = event` over all lines. */
  method IndexEvents(lines: seq<Line>) returns (keys: seq<Id>, byId: map<Id, StoredEvent>)
    ensures Indexed(lines, keys, byId)
  {
    keys, byId := [], map[];
    for k := 0 to |lines|
      invariant Indexed(lines[..k], keys, byId)
    {
      IndexedStep(lines[..k], lines[k], keys, byId);
      assert lines[..k + 1] == lines[..k] + [lines[k]];
      var e := lines[k].event;
      if e.id !in byId { keys := keys + [e.id]; }
      byId := byId[e.id := e];
    }
    assert lines[..|lines|] == lines;
  }

  method LoadLines(lines: seq<Line>) returns (events: seq<StoredEvent>)
    ensures events == Load(lines)
  {
    var keys, byId := IndexEvents(lines);
    assert forall id :: id in keys ==> id in byId;
    events := [];
    for k := 0 to |keys|
      invariant events == Values(lines, keys[..k])
    {
      assert keys[..k + 1][..k] == keys[..k];
      assert keys[k] in keys;
      events := events + [byId[keys[k]]];
    }
    assert keys[..|keys|] == keys;
    events := Sort(events, ByTimestamp());
  }

  // ---- Runs of appends -------------------------------------------------------------------

  datatype AppendOperation = AppendOperation(line: Line, repository: Option<Id>, now: int)

  function AppendBoth(streams: map<Root, Directory>, op: AppendOperation, maxBytes: int): map<Root, Directory> {
    var s := streams[GlobalRoot := AppendLine(DirectoryOf(streams, GlobalRoot), op.line, maxBytes, op.now)];
    match op.repository
    case None => s
    case Some(p) => s[RepositoryRoot(p) := AppendLine(DirectoryOf(s, RepositoryRoot(p)), op.line, maxBytes, op.now)]
  }

  function AppendAll(ops: seq<AppendOperation>, maxBytes: int): map<Root, Directory> {
    if ops == [] then map[] else AppendBoth(AppendAll(ops[..|ops| - 1], maxBytes), ops[|ops| - 1], maxBytes)
  }
}
