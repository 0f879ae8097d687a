/** How an emitted configuration is laid out: table by table, each with its own values in the
    order of the dict, and a blank line before every header but the first. */
module TomlLayout {
  import opened Ordering
  import opened TomlTables

  /** The values a table holds itself, in order. */
  function OwnValues(e: Entries): seq<(Key, Scalar)> {
    match e
    case End => []
    case Entry(k, n, rest) => (if n.Leaf? then [(k, n.value)] else []) + OwnValues(rest)
  }

  /** The tables it holds, in order. */
  function OwnTables(e: Entries): seq<(Key, Entries)> {
    match e
    case End => []
    case Entry(k, n, rest) => (if n.Table? then [(k, n.entries)] else []) + OwnTables(rest)
  }

  function ValueLines(values: seq<(Key, Scalar)>): seq<Line> {
    seq(|values|, i requires 0 <= i < |values| => KeyValue(values[i].0, values[i].1))
  }

  /** A table's header and values; the top level has no header. */
  function Block(path: seq<Key>, e: Entries): seq<Line> {
    (if path == [] then [] else [Header(path)]) + ValueLines(OwnValues(e))
  }

  lemma {:induction false} OwnTablesSmaller(e: Entries)
    ensures forall t :: t in OwnTables(e) ==> t.1 < e
  {
    if e.Entry? { OwnTablesSmaller(e.rest); }
  }

  /** The blocks of a table and of everything below it, depth first. */
  function Blocks(path: seq<Key>, e: Entries): seq<seq<Line>>
    decreases e, 1, 0
  {
    OwnTablesSmaller(e);
    [Block(path, e)] + BlocksOf(path, OwnTables(e), e)
  }

  function BlocksOf(path: seq<Key>, tables: seq<(Key, Entries)>, ghost bound: Entries): seq<seq<Line>>
    requires forall t :: t in tables ==> t.1 < bound
    decreases bound, 0, |tables|
  {
    if tables == [] then []
    else Blocks(path + [tables[0].0], tables[0].1) + BlocksOf(path, tables[1..], bound)
  }

  function Separated(lines: seq<Line>, block: seq<Line>): seq<Line> {
    if lines == [] then block else lines + [Blank] + block
  }

  /** The blocks one after the other, after what is there. */
  function Layout(lines: seq<Line>, blocks: seq<seq<Line>>): seq<Line>
    decreases |blocks|
  {
    if blocks == [] then lines else Layout(Separated(lines, blocks[0]), blocks[1..])
  }

  // ---- Emitting is laying out ------------------------------------------------------

  lemma {:induction false} LayoutAppend(lines: seq<Line>, a: seq<seq<Line>>, b: seq<seq<Line>>)
    ensures Layout(lines, a + b) == Layout(Layout(lines, a), b)
    decreases |a|
  {
    if a == [] {
      assert a + b == b;
    } else {
      LayoutAppend(Separated(lines, a[0]), a[1..], b);
      assert (a + b)[1..] == a[1..] + b;
    }
  }

  lemma {:induction false} ScalarsAreOwnValues(e: Entries)
    ensures ScalarLines(e) == ValueLines(OwnValues(e))
  {
    if e.Entry? { ScalarsAreOwnValues(e.rest); }
  }

  lemma {:induction false} EmitIsLayout(lines: seq<Line>, path: seq<Key>, e: Entries)
    requires path != []
    ensures EmitTable(lines, path, e) == Layout(lines, Blocks(path, e))
    decreases e, 1
  {
    ScalarsAreOwnValues(e);
    OwnTablesSmaller(e);
    var first := Separated(lines, Block(path, e));
    assert HeaderLines(lines, path) + ScalarLines(e) == first;
    ChildrenAreLayout(first, path, e, e);
    var all := [Block(path, e)] + BlocksOf(path, OwnTables(e), e);
    assert all[1..] == BlocksOf(path, OwnTables(e), e);
  }

  lemma {:induction false} ChildrenAreLayout(lines: seq<Line>, path: seq<Key>, e: Entries, bound: Entries)
    requires e == bound || e < bound
    requires forall t :: t in OwnTables(e) ==> t.1 < bound
    ensures EmitChildren(lines, path, e) == Layout(lines, BlocksOf(path, OwnTables(e), bound))
    decreases e, 0
  {
    match e
    case End =>
    case Entry(_, Leaf(_), rest) =>
      assert OwnTables(e) == OwnTables(rest);
      ChildrenAreLayout(lines, path, rest, bound);
    case Entry(k, Table(c), rest) =>
      var tables := OwnTables(e);
      assert tables[0] == (k, c) && tables[1..] == OwnTables(rest);
      EmitIsLayout(lines, path + [k], c);
      ChildrenAreLayout(EmitTable(lines, path + [k], c), path, rest, bound);
      LayoutAppend(lines, Blocks(path + [k], c), BlocksOf(path, OwnTables(rest), bound));
  }

  /** The emitted file is its blocks, laid out. */
  lemma DumpIsLayout(e: Entries)
    ensures Dump(e) == Layout([], Blocks([], e))
  {
    ScalarsAreOwnValues(e);
    OwnTablesSmaller(e);
    assert HeaderLines([], []) + ScalarLines(e) == Block([], e);
    ChildrenAreLayout(Block([], e), [], e, e);
    var all := [Block([], e)] + BlocksOf([], OwnTables(e), e);
    assert all[1..] == BlocksOf([], OwnTables(e), e);
  }
}
