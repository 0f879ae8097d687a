/** The TOML table emitter of the installer, and a reader that follows the "Table"
    section of TOML v1.0.0. Scalar values are opaque. */
module TomlTables {
  import opened Ordering

  type Key = string
  type Scalar = int

  /** A Python dict of the parsed configuration: entries in insertion order. */
  datatype Node = Leaf(value: Scalar) | Table(entries: Entries)
  datatype Entries = End | Entry(key: Key, node: Node, rest: Entries)

  /** What a configuration means: nested maps, without order. */
  datatype Value = Atom(value: Scalar) | Dict(entries: map<Key, Value>)

  datatype Line = Blank | Header(path: seq<Key>) | KeyValue(key: Key, value: Scalar)

  predicate HasKey(e: Entries, k: Key) {
    e.Entry? && (e.key == k || HasKey(e.rest, k))
  }

  /** No dict holds a key twice. */
  predicate WellFormed(e: Entries) {
    match e
    case End => true
    case Entry(k, n, rest) => !HasKey(rest, k) && (n.Table? ==> WellFormed(n.entries)) && WellFormed(rest)
  }

  function NodeMeaning(n: Node): Value {
    match n
    case Leaf(v) => Atom(v)
    case Table(e) => Dict(Meaning(e))
  }

  function Meaning(e: Entries): map<Key, Value> {
    match e
    case End => map[]
    case Entry(k, n, rest) => Meaning(rest)[k := NodeMeaning(n)]
  }

  // ---- Emitting -------------------------------------------------------------------

  function ScalarLines(e: Entries): seq<Line> {
    match e
    case End => []
    case Entry(k, Leaf(v), rest) => [KeyValue(k, v)] + ScalarLines(rest)
    case Entry(_, Table(_), rest) => ScalarLines(rest)
  }

  function HeaderLines(lines: seq<Line>, path: seq<Key>): seq<Line> {
    if path == [] then lines
    else (if lines != [] then lines + [Blank] else lines) + [Header(path)]
  }

  /** The lines after `_emit_toml_table(lines, path, table)`. */
  function EmitTable(lines: seq<Line>, path: seq<Key>, e: Entries): seq<Line>
    decreases e, 1
  {
    EmitChildren(HeaderLines(lines, path) + ScalarLines(e), path, e)
  }

  function EmitChildren(lines: seq<Line>, path: seq<Key>, e: Entries): seq<Line>
    decreases e, 0
  {
    match e
    case End => lines
    case Entry(_, Leaf(_), rest) => EmitChildren(lines, path, rest)
    case Entry(k, Table(c), rest) => EmitChildren(EmitTable(lines, path + [k], c), path, rest)
  }

  /** `_dump_toml`, as lines. */
  function Dump(e: Entries): seq<Line> { EmitTable([], [], e) }

  class TomlWriter {
    var lines: seq<Line>

    constructor ()
      ensures lines == []
    {
      lines := [];
    }

    method Emit(path: seq<Key>, table: Entries)
      modifies this
      ensures lines == EmitTable(old(lines), path, table)
      decreases table
    {
      var scalarItems, childItems := Partition(path, table);
      if path != [] {
        if lines != [] {
          lines := lines + [Blank];
        }
        lines := lines + [Header(path)];
      }
      assert lines == HeaderLines(old(lines), path);
      assert lines + ItemLines(scalarItems[..0]) == lines;
      for i := 0 to |scalarItems|
        invariant lines == HeaderLines(old(lines), path) + ItemLines(scalarItems[..i])
      {
        assert scalarItems[..i + 1] == scalarItems[..i] + [scalarItems[i]];
        ItemLinesStep(scalarItems[..i], scalarItems[i]);
        lines := lines + [KeyValue(scalarItems[i].0, scalarItems[i].1)];
      }
      assert scalarItems[..|scalarItems|] == scalarItems;
      ghost var before := lines;
      assert before == HeaderLines(old(lines), path) + ScalarLines(table);
      assert childItems[0..] == childItems;
      for i := 0 to |childItems|
        invariant EmitItems(lines, path, childItems[i..], End) == EmitItems(before, path, childItems, End)
      {
        assert childItems[i..][1..] == childItems[i + 1..];
        Emit(path + [childItems[i].0], childItems[i].1);
      }
    }
  }

  /** `scalar_items` and `child_items`. */
  method Partition(ghost path: seq<Key>, table: Entries)
    returns (scalarItems: seq<(Key, Scalar)>, childItems: seq<(Key, Entries)>)
    ensures ItemLines(scalarItems) == ScalarLines(table)
    ensures forall l :: EmitItems(l, path, childItems, End) == EmitChildren(l, path, table)
    ensures forall i :: 0 <= i < |childItems| ==> childItems[i].1 < table
  {
    scalarItems, childItems := [], [];
    var items := table;
    while items.Entry?
      invariant ItemLines(scalarItems) + ScalarLines(items) == ScalarLines(table)
      invariant forall l :: EmitItems(l, path, childItems, items) == EmitChildren(l, path, table)
      invariant forall i :: 0 <= i < |childItems| ==> childItems[i].1 < table
      invariant items == table || items < table
      decreases items
    {
      match items.node {
        case Leaf(v) =>
          ItemLinesStep(scalarItems, (items.key, v));
          scalarItems := scalarItems + [(items.key, v)];
          forall l { EmitItemsSkip(l, path, childItems, items); }
        case Table(c) =>
          forall l { EmitItemsStep(l, path, childItems, items); }
          childItems := childItems + [(items.key, c)];
      }
      items := items.rest;
    }
  }

  function ItemLines(items: seq<(Key, Scalar)>): seq<Line> {
    if items == [] then [] else [KeyValue(items[0].0, items[0].1)] + ItemLines(items[1..])
  }

  lemma {:induction false} ItemLinesStep(items: seq<(Key, Scalar)>, i: (Key, Scalar))
    ensures ItemLines(items + [i]) == ItemLines(items) + [KeyValue(i.0, i.1)]
  {
    if items == [] {
      assert items + [i] == [i];
    } else {
      ItemLinesStep(items[1..], i);
      assert (items + [i])[1..] == items[1..] + [i];
    }
  }

  /** The collected child tables first, then the children among `rest`. */
  function EmitItems(lines: seq<Line>, path: seq<Key>, items: seq<(Key, Entries)>, rest: Entries): seq<Line>
    decreases |items|
  {
    if items == [] then EmitChildren(lines, path, rest)
    else EmitItems(EmitTable(lines, path + [items[0].0], items[0].1), path, items[1..], rest)
  }

  lemma {:induction false} EmitItemsStep(lines: seq<Line>, path: seq<Key>, items: seq<(Key, Entries)>, e: Entries)
    requires e.Entry? && e.node.Table?
    ensures EmitItems(lines, path, items + [(e.key, e.node.entries)], e.rest) == EmitItems(lines, path, items, e)
    decreases |items|
  {
    var item := (e.key, e.node.entries);
    if items == [] {
      assert items + [item] == [item];
      assert [item][1..] == [];
    } else {
      EmitItemsStep(EmitTable(lines, path + [items[0].0], items[0].1), path, items[1..], e);
      assert (items + [item])[1..] == items[1..] + [item];
    }
  }

  lemma {:induction false} EmitItemsSkip(lines: seq<Line>, path: seq<Key>, items: seq<(Key, Entries)>, e: Entries)
    requires e.Entry? && e.node.Leaf?
    ensures EmitItems(lines, path, items, e.rest) == EmitItems(lines, path, items, e)
    decreases |items|
  {
    if items != [] {
      EmitItemsSkip(EmitTable(lines, path + [items[0].0], items[0].1), path, items[1..], e);
    }
  }

  // ---- Reading: the "Table" section of TOML v1.0.0 --------------------------------------

  /** The document so far, the tables a header has defined, and the one being filled. */
  datatype State = State(root: map<Key, Value>, defined: set<seq<Key>>, current: seq<Key>)

  /** The document with a table at `path`: super-tables are created on the way,
      existing tables are entered, and nothing else may stand in the way. */
  function MakeTable(m: map<Key, Value>, path: seq<Key>): Option<map<Key, Value>>
    decreases |path|
  {
    if path == [] then Some(m)
    else if path[0] in m && m[path[0]].Atom? then None
    else
      match MakeTable(if path[0] in m then m[path[0]].entries else map[], path[1..])
      case None => None
      case Some(sub) => Some(m[path[0] := Dict(sub)])
  }

  /** The document with one more key in the table at `path`; keys are not redefined. */
  function PutAt(m: map<Key, Value>, path: seq<Key>, k: Key, v: Scalar): Option<map<Key, Value>>
    decreases |path|
  {
    if path == [] then if k in m then None else Some(m[k := Atom(v)])
    else if path[0] !in m || m[path[0]].Atom? then None
    else
      match PutAt(m[path[0]].entries, path[1..], k, v)
      case None => None
      case Some(sub) => Some(m[path[0] := Dict(sub)])
  }

  function ReadLine(s: State, line: Line): Option<State> {
    match line
    case Blank => Some(s)
    case Header(path) =>
      if path == [] || path in s.defined then None
      else (match MakeTable(s.root, path)
            case None => None
            case Some(root) => Some(State(root, s.defined + {path}, path)))
    case KeyValue(k, v) =>
      match PutAt(s.root, s.current, k, v)
      case None => None
      case Some(root) => Some(s.(root := root))
  }

  function Read(lines: seq<Line>): Option<State> {
    if lines == [] then Some(State(map[], {}, []))
    else
      match Read(lines[..|lines| - 1])
      case None => None
      case Some(s) => ReadLine(s, lines[|lines| - 1])
  }

  /** The document the lines describe, if they are valid TOML. */
  function Document(lines: seq<Line>): Option<map<Key, Value>> {
    match Read(lines)
    case None => None
    case Some(s) => Some(s.root)
  }
}
