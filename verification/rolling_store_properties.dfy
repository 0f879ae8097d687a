/** Over every sequence of appends, whatever the line sizes and clock readings:
    nothing is lost or overwritten, the active file stays within bounds, and reading
    back gives exactly what was appended. */
module RollingStoreProperties {
  import opened Ordering
  import opened StableSort
  import opened RollingStore

  // ---- All lines of a directory ------------------------------------------------------

  ghost function ArchivedLines(archives: map<ArchiveName, seq<Line>>): multiset<Line>
    decreases |archives|
  {
    if archives == map[] then multiset{} else
      var n :| n in archives;
      ArchivedLines(archives - {n}) + multiset(archives[n])
  }

  lemma {:induction false} ArchivedWithout(archives: map<ArchiveName, seq<Line>>, n: ArchiveName)
    requires n in archives
    ensures ArchivedLines(archives) == ArchivedLines(archives - {n}) + multiset(archives[n])
    decreases |archives|
  {
    var p :| p in archives && ArchivedLines(archives) == ArchivedLines(archives - {p}) + multiset(archives[p]);
    if p != n {
      assert archives - {p} - {n} == archives - {n} - {p};
      ArchivedWithout(archives - {p}, n);
      ArchivedWithout(archives - {n}, p);
    }
  }

  ghost function AllLines(d: Directory): multiset<Line> {
    ArchivedLines(d.archives) + if d.active.Some? then multiset(d.active.value) else multiset{}
  }

  lemma {:induction false} FreeNameIsFree(names: set<ArchiveName>, timestamp: int, counter: nat)
    ensures FreeName(names, timestamp, counter) !in names
    ensures var n := FreeName(names, timestamp, counter);
            n.timestamp == timestamp && n.counter >= counter
            && forall c :: counter <= c < n.counter ==> ArchiveName(timestamp, c) in names
    decreases |Taken(names, timestamp, counter)|
  {
    if ArchiveName(timestamp, counter) in names {
      assert Taken(names, timestamp, counter) == Taken(names, timestamp, counter + 1) + {ArchiveName(timestamp, counter)};
      FreeNameIsFree(names, timestamp, counter + 1);
    }
  }

  /** Rolling over takes the first free name for this instant and overwrites nothing. */
  lemma RollOverKeeps(d: Directory, now: int)
    requires d.active.Some?
    ensures var r := RollOver(d, now);
            && AllLines(r) == AllLines(d) && r.active.None?
            && (forall n :: n in d.archives ==> n in r.archives && r.archives[n] == d.archives[n])
            && |r.archives| == |d.archives| + 1
  {
    var n := FreeName(d.archives.Keys, now, 0);
    FreeNameIsFree(d.archives.Keys, now, 0);
    var r := RollOver(d, now);
    ArchivedWithout(r.archives, n);
    assert r.archives - {n} == d.archives;
    assert r.archives.Keys == d.archives.Keys + {n};
  }

  /** At most the configured size, or a single line. */
  ghost predicate Bounded(d: Directory, maxBytes: int) {
    d.active.Some? ==> Size(d.active.value) <= maxBytes || |d.active.value| == 1
  }

  /** One append adds one line, keeps every archive, and keeps the active file bounded. */
  lemma AppendKeeps(d: Directory, line: Line, maxBytes: int, now: int)
    requires Bounded(d, maxBytes)
    ensures var r := AppendLine(d, line, maxBytes, now);
            && AllLines(r) == AllLines(d) + multiset{line}
            && (forall n :: n in d.archives ==> n in r.archives && r.archives[n] == d.archives[n])
            && Bounded(r, maxBytes) && r.active.Some?
  {
    if MustRoll(d, line, maxBytes) {
      RollOverKeeps(d, now);
    } else if d.active.Some? {
      var lines := d.active.value;
      assert (lines + [line])[..|lines|] == lines;
    }
  }

  // ---- Every run ----------------------------------------------------------------------------

  /** The lines that were appended to the stream. */
  function Appended(ops: seq<AppendOperation>, root: Root): seq<Line> {
    if ops == [] then [] else
      var r := Appended(ops[..|ops| - 1], root);
      var op := ops[|ops| - 1];
      if Reaches(op, root) then r + [op.line] else r
  }

  predicate Reaches(op: AppendOperation, root: Root) { root.GlobalRoot? || op.repository == Some(root.path) }

  lemma AppendBothAt(streams: map<Root, Directory>, op: AppendOperation, maxBytes: int, root: Root)
    ensures DirectoryOf(AppendBoth(streams, op, maxBytes), root) ==
            if Reaches(op, root) then AppendLine(DirectoryOf(streams, root), op.line, maxBytes, op.now)
            else DirectoryOf(streams, root)
  {
  }

  /** After any appends, each stream holds exactly its lines, within bounds. */
  lemma {:induction false} RunKeeps(ops: seq<AppendOperation>, maxBytes: int, root: Root)
    ensures var d := DirectoryOf(AppendAll(ops, maxBytes), root);
            AllLines(d) == multiset(Appended(ops, root)) && Bounded(d, maxBytes)
  {
    if ops != [] {
      var n := |ops| - 1;
      var before := AppendAll(ops[..n], maxBytes);
      RunKeeps(ops[..n], maxBytes, root);
      AppendBothAt(before, ops[n], maxBytes, root);
      AppendKeeps(DirectoryOf(before, root), ops[n].line, maxBytes, ops[n].now);
    }
  }

  /** No later append removes or rewrites an archive. */
  lemma ArchivesAreFinal(ops: seq<AppendOperation>, more: AppendOperation, maxBytes: int, root: Root, name: ArchiveName)
    requires name in DirectoryOf(AppendAll(ops, maxBytes), root).archives
    ensures var before := DirectoryOf(AppendAll(ops, maxBytes), root);
            var after := DirectoryOf(AppendAll(ops + [more], maxBytes), root);
            name in after.archives && after.archives[name] == before.archives[name]
  {
    assert (ops + [more])[..|ops|] == ops;
    RunKeeps(ops, maxBytes, root);
    AppendBothAt(AppendAll(ops, maxBytes), more, maxBytes, root);
    AppendKeeps(DirectoryOf(AppendAll(ops, maxBytes), root), more.line, maxBytes, more.now);
  }

  // ---- Reading back ---------------------------------------------------------------------------

  lemma {:induction false} ReadArchivesAll(archives: map<ArchiveName, seq<Line>>, order: seq<ArchiveName>)
    requires Distinct(order) && forall n :: n in order <==> n in archives
    ensures multiset(ReadArchives(archives, order)) == ArchivedLines(archives)
  {
    if order == [] {
      assert archives.Keys == {};
      assert archives == map[];
    } else {
      var k := |order| - 1;
      var n := order[k];
      assert order == order[..k] + [n];
      assert n in order;
      ReadArchivesAll(archives - {n}, order[..k]);
      ReadArchivesSame(archives, archives - {n}, order[..k]);
      ArchivedWithout(archives, n);
    }
  }

  lemma {:induction false} ReadArchivesSame(a: map<ArchiveName, seq<Line>>, b: map<ArchiveName, seq<Line>>, order: seq<ArchiveName>)
    requires forall n :: n in order ==> n in a && n in b && a[n] == b[n]
    ensures ReadArchives(a, order) == ReadArchives(b, order)
  {
    if order != [] {
      var k := |order| - 1;
      assert order[k] in order;
      assert forall n :: n in order[..k] ==> n in order;
      ReadArchivesSame(a, b, order[..k]);
    }
  }

  /** In whatever order the archives are listed, reading yields the appended lines. */
  lemma ReadsWhatWasAppended(ops: seq<AppendOperation>, maxBytes: int, root: Root, order: seq<ArchiveName>)
    requires Lists(order, DirectoryOf(AppendAll(ops, maxBytes), root))
    ensures multiset(ReadStream(DirectoryOf(AppendAll(ops, maxBytes), root), order)) == multiset(Appended(ops, root))
  {
    RunKeeps(ops, maxBytes, root);
    ReadArchivesAll(DirectoryOf(AppendAll(ops, maxBytes), root).archives, order);
  }

  function Events(lines: seq<Line>): seq<StoredEvent> {
    if lines == [] then [] else Events(lines[..|lines| - 1]) + [lines[|lines| - 1].event]
  }

  lemma {:induction false} EventsAt(lines: seq<Line>)
    ensures |Events(lines)| == |lines| == |EventIds(lines)|
    ensures forall k :: 0 <= k < |lines| ==> Events(lines)[k] == lines[k].event && EventIds(lines)[k] == lines[k].event.id
  {
    if lines != [] { EventsAt(lines[..|lines| - 1]); }
  }

  /** Event ids are fresh: two lines with one id carry the same event. */
  ghost predicate Consistent(lines: seq<Line>) {
    forall a, b :: a in lines && b in lines && a.event.id == b.event.id ==> a.event == b.event
  }

  lemma {:induction false} LastWithSpec(lines: seq<Line>, id: Id)
    ensures LastWith(lines, id).Some? <==> id in EventIds(lines)
    ensures LastWith(lines, id).Some? ==> exists l :: l in lines && l.event == LastWith(lines, id).value && l.event.id == id
  {
    if lines != [] {
      var n := |lines| - 1;
      LastWithSpec(lines[..n], id);
      assert lines == lines[..n] + [lines[n]];
      assert lines[n] in lines;
    }
  }

  lemma {:induction false} ValuesByLookup(a: seq<Line>, b: seq<Line>, ids: seq<Id>)
    requires forall id :: id in ids ==> LastWith(a, id) == LastWith(b, id)
    ensures Values(a, ids) == Values(b, ids)
  {
    if ids != [] {
      var n := |ids| - 1;
      assert ids[n] in ids;
      assert forall id :: id in ids[..n] ==> id in ids;
      ValuesByLookup(a, b, ids[..n]);
    }
  }

  lemma {:induction false} ValuesOfDistinct(lines: seq<Line>)
    requires Distinct(EventIds(lines))
    ensures Values(lines, FirstOccurrences(EventIds(lines))) == Events(lines)
  {
    if lines != [] {
      var n := |lines| - 1;
      var id := lines[n].event.id;
      EventsAt(lines);
      assert EventIds(lines[..n]) == EventIds(lines)[..n];
      ValuesOfDistinct(lines[..n]);
      FirstOccurrencesStep(EventIds(lines[..n]), id);
      assert id !in EventIds(lines[..n]);
      var earlier := FirstOccurrences(EventIds(lines[..n]));
      assert (earlier + [id])[..|earlier|] == earlier;
      ValuesByLookup(lines, lines[..n], earlier);
    }
  }

  lemma ByTimestampTotal()
    ensures TotalPreorder(ByTimestamp())
  {
  }

  lemma {:induction false} EventsMultiset(lines: seq<Line>, more: seq<Line>)
    requires multiset(lines) == multiset(more)
    ensures multiset(Events(lines)) == multiset(Events(more))
  {
    assert |multiset(lines)| == |multiset(more)|;
    if lines != [] {
      var n := |lines| - 1;
      assert lines == lines[..n] + [lines[n]];
      assert lines[n] in multiset(more);
      var k :| 0 <= k < |more| && more[k] == lines[n];
      var rest := more[..k] + more[k + 1..];
      assert more == more[..k] + [more[k]] + more[k + 1..];
      assert multiset(rest) == multiset(more) - multiset{more[k]};
      assert multiset(lines[..n]) == multiset(lines) - multiset{lines[n]};
      EventsMultiset(lines[..n], rest);
      EventsWithout(more, k);
    }
  }

  lemma EventsWithout(lines: seq<Line>, k: nat)
    requires k < |lines|
    ensures multiset(Events(lines)) == multiset(Events(lines[..k] + lines[k + 1..])) + multiset{lines[k].event}
  {
    var head, tail := lines[..k], lines[k + 1..];
    EventsAppend(head, tail);
    EventsAppend(lines[..k + 1], tail);
    SplitAround(lines, k);
    assert Events(lines[..k + 1]) == Events(head) + [lines[k].event];
  }

  lemma SplitAround(lines: seq<Line>, k: nat)
    requires k < |lines|
    ensures lines == lines[..k + 1] + lines[k + 1..] && lines[..k + 1][..k] == lines[..k]
  {
  }

  lemma {:induction false} EventsAppend(a: seq<Line>, b: seq<Line>)
    ensures Events(a + b) == Events(a) + Events(b)
    ensures EventIds(a + b) == EventIds(a) + EventIds(b)
  {
    if b == [] {
      assert a + b == a;
    } else {
      var n := |b| - 1;
      EventsAppend(a, b[..n]);
      assert (a + b)[..|a + b| - 1] == a + b[..n];
    }
  }

  lemma DistinctIdsPermuted(a: seq<Line>, b: seq<Line>)
    requires multiset(a) == multiset(b) && Distinct(EventIds(a))
    ensures Distinct(EventIds(b))
  {
    EventsAt(a);
    EventsAt(b);
    assert Distinct(a) by {
      forall i, j | 0 <= i < j < |a| ensures a[i] != a[j] { assert EventIds(a)[i] != EventIds(a)[j]; }
    }
    DistinctMultiset(a);
    DistinctMultiset(b);
    forall i, j | 0 <= i < j < |b| ensures EventIds(b)[i] != EventIds(b)[j] {
      assert b[i] in multiset(a) && b[j] in multiset(a);
      var x :| 0 <= x < |a| && a[x] == b[i];
      var y :| 0 <= y < |a| && a[y] == b[j];
      assert x != y;
      assert EventIds(a)[x] != EventIds(a)[y];
    }
  }

  /** Loading a stream after any appends under fresh event ids returns exactly the
      appended events, once each, by timestamp; events of one timestamp in reading order. */
  lemma LoadsExactlyWhatWasAppended(ops: seq<AppendOperation>, maxBytes: int, root: Root, order: seq<ArchiveName>)
    requires Lists(order, DirectoryOf(AppendAll(ops, maxBytes), root))
    requires Distinct(EventIds(Appended(ops, root)))
    ensures var lines := ReadStream(DirectoryOf(AppendAll(ops, maxBytes), root), order);
            && SortedBy(Load(lines), ByTimestamp()) && multiset(Load(lines)) == multiset(Events(Appended(ops, root)))
            && SortedStably(Load(lines), Events(lines), ByTimestamp())
  {
    var lines := ReadStream(DirectoryOf(AppendAll(ops, maxBytes), root), order);
    ReadsWhatWasAppended(ops, maxBytes, root, order);
    DistinctIdsPermuted(Appended(ops, root), lines);
    ValuesOfDistinct(lines);
    EventsMultiset(lines, Appended(ops, root));
    ByTimestampTotal();
    SortSorts(Events(lines), ByTimestamp());
    SortPermutes(Events(lines), ByTimestamp());
    SortIsStable(Events(lines), ByTimestamp());
  }

  // ---- Two streams ---------------------------------------------------------------------------

  lemma {:induction false} LookupAppend(a: seq<Line>, b: seq<Line>, id: Id)
    ensures LastWith(a + b, id) == if LastWith(b, id).Some? then LastWith(b, id) else LastWith(a, id)
  {
    if b == [] {
      assert a + b == a;
    } else {
      var n := |b| - 1;
      LookupAppend(a, b[..n], id);
      assert (a + b)[..|a + b| - 1] == a + b[..n];
    }
  }

  lemma {:induction false} FirstOccurrencesAppend(a: seq<Id>, b: seq<Id>)
    requires forall x :: x in b ==> x in a
    ensures FirstOccurrences(a + b) == FirstOccurrences(a)
  {
    if b == [] {
      assert a + b == a;
    } else {
      var n := |b| - 1;
      assert b[n] in b;
      assert forall x :: x in b[..n] ==> x in b;
      FirstOccurrencesAppend(a, b[..n]);
      assert a + b == a + b[..n] + [b[n]];
      FirstOccurrencesStep(a + b[..n], b[n]);
    }
  }

  /** Reading more lines of events already read changes nothing. */
  lemma RereadingChangesNothing(a: seq<Line>, b: seq<Line>)
    requires Consistent(a) && forall l :: l in b ==> l in a
    ensures Load(a + b) == Load(a)
  {
    EventsAppend(a, b);
    EventsAt(a);
    EventsAt(b);
    forall id | id in EventIds(b) ensures id in EventIds(a) {
      var k :| 0 <= k < |b| && EventIds(b)[k] == id;
      assert b[k] in b;
      var j :| 0 <= j < |a| && a[j] == b[k];
      assert EventIds(a)[j] == id;
    }
    FirstOccurrencesAppend(EventIds(a), EventIds(b));
    forall id | id in FirstOccurrences(EventIds(a)) ensures LastWith(a + b, id) == LastWith(a, id) {
      LookupAppend(a, b, id);
      LastWithSpec(a, id);
      LastWithSpec(b, id);
    }
    ValuesByLookup(a + b, a, FirstOccurrences(EventIds(a)));
  }

  lemma {:induction false} RepositoryWithinGlobal(ops: seq<AppendOperation>, path: Id)
    ensures forall l :: l in Appended(ops, RepositoryRoot(path)) ==> l in Appended(ops, GlobalRoot)
  {
    if ops != [] { RepositoryWithinGlobal(ops[..|ops| - 1], path); }
  }

  /** Adding a repository's stream to the global one never changes what is loaded. */
  lemma RepositoryStreamAddsNothing(ops: seq<AppendOperation>, maxBytes: int, path: Id,
                                    globalOrder: seq<ArchiveName>, repositoryOrder: seq<ArchiveName>)
    requires Consistent(Appended(ops, GlobalRoot))
    requires Lists(globalOrder, DirectoryOf(AppendAll(ops, maxBytes), GlobalRoot))
    requires Lists(repositoryOrder, DirectoryOf(AppendAll(ops, maxBytes), RepositoryRoot(path)))
    ensures var global := ReadStream(DirectoryOf(AppendAll(ops, maxBytes), GlobalRoot), globalOrder);
            var repository := ReadStream(DirectoryOf(AppendAll(ops, maxBytes), RepositoryRoot(path)), repositoryOrder);
            Load(global + repository) == Load(global)
  {
    var global := ReadStream(DirectoryOf(AppendAll(ops, maxBytes), GlobalRoot), globalOrder);
    var repository := ReadStream(DirectoryOf(AppendAll(ops, maxBytes), RepositoryRoot(path)), repositoryOrder);
    ReadsWhatWasAppended(ops, maxBytes, GlobalRoot, globalOrder);
    ReadsWhatWasAppended(ops, maxBytes, RepositoryRoot(path), repositoryOrder);
    RepositoryWithinGlobal(ops, path);
    SameMembers(global, Appended(ops, GlobalRoot));
    SameMembers(repository, Appended(ops, RepositoryRoot(path)));
    RereadingChangesNothing(global, repository);
  }

  lemma SameMembers(a: seq<Line>, b: seq<Line>)
    requires multiset(a) == multiset(b)
    ensures forall l :: l in a <==> l in b
  {
    forall l ensures l in a <==> l in b {
      assert l in a <==> l in multiset(a);
      assert l in b <==> l in multiset(b);
    }
  }
}
