/** Installing a server under a dotted name, down to the lines of the file. */
module CodexDottedName {
  import opened Ordering
  import opened TomlTables
  import opened TomlRoundTrip
  import opened TomlHeaders
  import opened TomlText
  import opened CodexInstall

  const DOTTED: Key := "my.server"

  /** What a reader makes of a server installed under `my.server`: a table in a table. */
  function Nested(server: Entries): Entries {
    Entry(SERVERS, Table(Entry("my", Table(Entry("server", Table(server), End)), End)), End)
  }

  lemma OneTable(m: map<Key, Value>, k: Key, path: seq<Key>)
    requires k in m ==> m[k].Dict?
    ensures MakeTable(m, [k] + path) ==
            match MakeTable(if k in m then m[k].entries else map[], path)
            case None => None
            case Some(sub) => Some(m[k := Dict(sub)])
  {
    assert ([k] + path)[1..] == path;
  }

  lemma OneKey(m: map<Key, Value>, k: Key, path: seq<Key>, j: Key, v: Scalar)
    requires k in m && m[k].Dict?
    ensures PutAt(m, [k] + path, j, v) ==
            match PutAt(m[k].entries, path, j, v)
            case None => None
            case Some(sub) => Some(m[k := Dict(sub)])
  {
    assert ([k] + path)[1..] == path;
  }

  function Chain(inner: map<Key, Value>): map<Key, Value> {
    map[SERVERS := Dict(map["my" := Dict(map["server" := Dict(inner)])])]
  }

  lemma NestedTables(v: Scalar)
    ensures MakeTable(map[], [SERVERS]) == Some(map[SERVERS := Dict(map[])])
    ensures MakeTable(map[SERVERS := Dict(map[])], [SERVERS, "my", "server"]) == Some(Chain(map[]))
    ensures PutAt(Chain(map[]), [SERVERS, "my", "server"], "enabled", v) == Some(Chain(map["enabled" := Atom(v)]))
  {
    assert [SERVERS] == [SERVERS] + [] && ["server"] == ["server"] + [];
    assert ["my", "server"] == ["my"] + ["server"] && [SERVERS, "my", "server"] == [SERVERS] + ["my", "server"];
    OneTable(map[], SERVERS, []);
    OneTable(map[], "server", []);
    OneTable(map[], "my", ["server"]);
    OneTable(map[SERVERS := Dict(map[])], SERVERS, ["my", "server"]);
    var bottom: map<Key, Value> := map["server" := Dict(map[])];
    var middle: map<Key, Value> := map["my" := Dict(bottom)];
    var enabled: map<Key, Value> := map["enabled" := Atom(v)];
    OneKey(bottom, "server", [], "enabled", v);
    assert bottom["server" := Dict(enabled)] == map["server" := Dict(enabled)];
    OneKey(middle, "my", ["server"], "enabled", v);
    assert middle["my" := Dict(bottom["server" := Dict(enabled)])] == map["my" := Dict(map["server" := Dict(enabled)])];
    OneKey(Chain(map[]), SERVERS, ["my", "server"], "enabled", v);
    assert Chain(map[])[SERVERS := Dict(map["my" := Dict(map["server" := Dict(enabled)])])] == Chain(enabled);
    assert map[SERVERS := Dict(map[])][SERVERS := Dict(middle)] == Chain(map[]);
  }

  /** The lines as a reader takes them. */
  function NestedLines(v: Scalar): seq<Line> {
    [Header([SERVERS]), Blank, Header([SERVERS, "my", "server"]), KeyValue("enabled", v)]
  }

  /** The state after the two headers, and after the value below them. */
  function Inside(inner: map<Key, Value>): State {
    State(Chain(inner), {[SERVERS]} + {[SERVERS, "my", "server"]}, [SERVERS, "my", "server"])
  }

  lemma NestedHeadersRead(v: Scalar)
    ensures Read(NestedLines(v)[..3]) == Some(Inside(map[]))
  {
    var path := [SERVERS, "my", "server"];
    var top := State(map[SERVERS := Dict(map[])], {[SERVERS]}, [SERVERS]);
    NestedTables(v);
    ReadStep([], Header([SERVERS]));
    assert [] + [Header([SERVERS])] == [Header([SERVERS])];
    assert {} + {[SERVERS]} == {[SERVERS]};
    assert Read([Header([SERVERS])]) == Some(top);
    ReadStep([Header([SERVERS])], Blank);
    assert path !in {[SERVERS]} by { assert |path| != |[SERVERS]|; }
    ReadStep([Header([SERVERS])] + [Blank], Header(path));
    assert NestedLines(v)[..3] == [Header([SERVERS])] + [Blank] + [Header(path)];
  }

  lemma NestedValueRead(v: Scalar)
    ensures ReadLine(Inside(map[]), KeyValue("enabled", v)) == Some(Inside(map["enabled" := Atom(v)]))
  {
    NestedTables(v);
  }

  lemma NestedLinesRead(v: Scalar)
    ensures Document(NestedLines(v)) == Some(Meaning(Nested(Entry("enabled", Leaf(v), End))))
  {
    var server := Entry("enabled", Leaf(v), End);
    NestedHeadersRead(v);
    NestedValueRead(v);
    ReadStep(NestedLines(v)[..3], KeyValue("enabled", v));
    assert NestedLines(v) == NestedLines(v)[..3] + [KeyValue("enabled", v)];
    NestedMeaning(server);
    assert Meaning(server) == map["enabled" := Atom(v)];
  }

  lemma NestedMeaning(server: Entries)
    ensures Meaning(Nested(server)) == Chain(Meaning(server))
    ensures WellFormed(server) ==> WellFormed(Nested(server))
  {
    var bottom := Entry("server", Table(server), End);
    var middle := Entry("my", Table(bottom), End);
    assert Meaning(bottom) == map["server" := Dict(Meaning(server))] && Meaning(middle) == map["my" := Dict(Meaning(bottom))];
    assert WellFormed(server) ==> WellFormed(bottom) && WellFormed(middle);
  }

  lemma {:induction false} SameTexts(a: seq<Line>, b: seq<Line>, show: Scalar -> string)
    requires |a| == |b| && forall k :: 0 <= k < |a| ==> LineText(a[k], show) == LineText(b[k], show)
    ensures Texts(a, show) == Texts(b, show)
  {
    if a != [] { SameTexts(a[..|a| - 1], b[..|b| - 1], show); }
  }

  lemma DottedTexts(v: Scalar, show: Scalar -> string)
    ensures Texts([Header([SERVERS]), Blank, Header([SERVERS, DOTTED]), KeyValue("enabled", v)], show) ==
            Texts(NestedLines(v), show)
  {
    DottedNameNamesAnotherTable();
    SameTexts([Header([SERVERS]), Blank, Header([SERVERS, DOTTED]), KeyValue("enabled", v)], NestedLines(v), show);
  }

  lemma NestedLinesPrintable(v: Scalar)
    ensures Printable(NestedLines(v))
  {
    assert IsBare(SERVERS) && IsBare("my") && IsBare("server") && IsBare("enabled");
  }

  lemma DottedFileReads(v: Scalar, show: Scalar -> string, read: string -> Option<Scalar>)
    requires Faithful(show, read)
    ensures var server := Entry("enabled", Leaf(v), End);
            TextDocument(DumpText(Entry(SERVERS, Table(Entry(DOTTED, Table(server), End)), End), show), read)
            == Some(Meaning(Nested(server)))
  {
    DottedDump(v);
    DottedTexts(v, show);
    NestedLinesPrintable(v);
    FileReads(NestedLines(v), show, read);
    NestedLinesRead(v);
  }

  lemma OneServer(lines: seq<Line>, path: seq<Key>, v: Scalar)
    ensures EmitTable(lines, path, Entry("enabled", Leaf(v), End)) == HeaderLines(lines, path) + [KeyValue("enabled", v)]
  {
    var server := Entry("enabled", Leaf(v), End);
    assert ScalarLines(server) == [KeyValue("enabled", v)] + ScalarLines(End) == [KeyValue("enabled", v)];
    var l := HeaderLines(lines, path) + ScalarLines(server);
    assert EmitChildren(l, path, server) == EmitChildren(l, path, End) == l;
  }

  lemma OneChild(lines: seq<Line>, path: seq<Key>, k: Key, c: Entries)
    ensures EmitTable(lines, path, Entry(k, Table(c), End)) == EmitTable(HeaderLines(lines, path), path + [k], c)
  {
    var e := Entry(k, Table(c), End);
    assert ScalarLines(e) == [];
    var l := HeaderLines(lines, path);
    assert l + [] == l;
    assert EmitChildren(l, path, e) == EmitChildren(EmitTable(l, path + [k], c), path, End);
  }

  lemma DottedDump(v: Scalar)
    ensures Dump(Entry(SERVERS, Table(Entry(DOTTED, Table(Entry("enabled", Leaf(v), End)), End)), End))
            == [Header([SERVERS]), Blank, Header([SERVERS, DOTTED]), KeyValue("enabled", v)]
  {
    var inner := Entry(DOTTED, Table(Entry("enabled", Leaf(v), End)), End);
    assert [] + [SERVERS] == [SERVERS] && [SERVERS] + [DOTTED] == [SERVERS, DOTTED];
    OneChild([], [], SERVERS, inner);
    OneChild([], [SERVERS], DOTTED, Entry("enabled", Leaf(v), End));
    OneServer([Header([SERVERS])], [SERVERS, DOTTED], v);
    assert HeaderLines([], []) == [] && HeaderLines([], [SERVERS]) == [Header([SERVERS])];
  }

  /** Into an empty configuration, under `my.server`: the file is read back as something else,
      and every further install reports a change. */
  lemma DottedNameNeverSettles(enabled: Scalar, show: Scalar -> string, read: string -> Option<Scalar>)
    requires Faithful(show, read)
    ensures var server := Entry("enabled", Leaf(enabled), End);
            && Apply(End, DOTTED, server, false).Ok?
            && TextDocument(DumpText(Apply(End, DOTTED, server, false).value.payload, show), read)
               == Some(Meaning(Nested(server)))
            && Apply(Nested(server), DOTTED, server, false).Ok?
            && Apply(Nested(server), DOTTED, server, false).value.changed
  {
    var server := Entry("enabled", Leaf(enabled), End);
    var payload := Entry(SERVERS, Table(Entry(DOTTED, Table(server), End)), End);
    assert Apply(End, DOTTED, server, false) == Ok(Outcome(true, payload));
    DottedFileReads(enabled, show, read);
    assert !IsBareChar(DOTTED[2]);
    assert WellFormed(server) by { assert WellFormed(End) && !HasKey(End, "enabled"); }
    NestedMeaning(server);
    RefusedIff(Nested(server), DOTTED, server, false);
    SecondInstallChangesAgain(End, DOTTED, server, Nested(server), show, read);
  }
}
