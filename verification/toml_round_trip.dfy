/** Reading an emitted configuration gives back the configuration, at any depth. */
module TomlRoundTrip {
  import opened Ordering
  import opened TomlTables

  // ---- The table at a path ------------------------------------------------------------

  function SubTable(m: map<Key, Value>, k: Key): map<Key, Value> {
    if k in m && m[k].Dict? then m[k].entries else map[]
  }

  /** The document `m` with the table at `path` replaced. */
  function Graft(m: map<Key, Value>, path: seq<Key>, table: map<Key, Value>): map<Key, Value>
    decreases |path|
  {
    if path == [] then table
    else m[path[0] := Dict(Graft(SubTable(m, path[0]), path[1..], table))]
  }

  lemma {:induction false} PutInGraft(m: map<Key, Value>, path: seq<Key>, table: map<Key, Value>, k: Key, v: Scalar)
    requires k !in table
    ensures PutAt(Graft(m, path, table), path, k, v) == Some(Graft(m, path, table[k := Atom(v)]))
    decreases |path|
  {
    if path != [] {
      PutInGraft(SubTable(m, path[0]), path[1..], table, k, v);
      var sub := Graft(SubTable(m, path[0]), path[1..], table);
      var sub' := Graft(SubTable(m, path[0]), path[1..], table[k := Atom(v)]);
      assert m[path[0] := Dict(sub)][path[0] := Dict(sub')] == m[path[0] := Dict(sub')];
    }
  }

  lemma {:induction false} MakeChildOfGraft(m: map<Key, Value>, path: seq<Key>, table: map<Key, Value>, k: Key)
    requires k !in table
    ensures MakeTable(Graft(m, path, table), path + [k]) == Some(Graft(m, path, table[k := Dict(map[])]))
    decreases |path|
  {
    if path == [] {
      assert path + [k] == [k];
      assert [k][1..] == [];
    } else {
      var sub := SubTable(m, path[0]);
      MakeChildOfGraft(sub, path[1..], table, k);
      assert (path + [k])[1..] == path[1..] + [k];
      var s := Graft(sub, path[1..], table);
      var s' := Graft(sub, path[1..], table[k := Dict(map[])]);
      assert m[path[0] := Dict(s)][path[0] := Dict(s')] == m[path[0] := Dict(s')];
    }
  }

  lemma {:induction false} GraftChild(m: map<Key, Value>, path: seq<Key>, table: map<Key, Value>, k: Key, child: map<Key, Value>)
    ensures Graft(Graft(m, path, table), path + [k], child) == Graft(m, path, table[k := Dict(child)])
    decreases |path|
  {
    if path == [] {
      assert path + [k] == [k];
      assert [k][1..] == [];
    } else {
      var sub := SubTable(m, path[0]);
      GraftChild(sub, path[1..], table, k, child);
      assert (path + [k])[1..] == path[1..] + [k];
      var s := Graft(sub, path[1..], table);
      var s' := Graft(sub, path[1..], table[k := Dict(child)]);
      assert m[path[0] := Dict(s)][path[0] := Dict(s')] == m[path[0] := Dict(s')];
    }
  }

  // ---- The two halves of a table -------------------------------------------------------

  function ScalarPart(e: Entries): map<Key, Value> {
    match e
    case End => map[]
    case Entry(k, Leaf(v), rest) => map[k := Atom(v)] + ScalarPart(rest)
    case Entry(_, Table(_), rest) => ScalarPart(rest)
  }

  function TablePart(e: Entries): map<Key, Value> {
    match e
    case End => map[]
    case Entry(_, Leaf(_), rest) => TablePart(rest)
    case Entry(k, Table(c), rest) => map[k := Dict(Meaning(c))] + TablePart(rest)
  }

  predicate HasTable(e: Entries, k: Key) {
    e.Entry? && ((e.key == k && e.node.Table?) || HasTable(e.rest, k))
  }

  lemma {:induction false} PartsKeys(e: Entries, k: Key)
    ensures k in Meaning(e) <==> HasKey(e, k)
    ensures k in TablePart(e) <==> HasTable(e, k)
    ensures k in ScalarPart(e) || k in TablePart(e) <==> HasKey(e, k)
  {
    if e.Entry? { PartsKeys(e.rest, k); }
  }

  lemma {:induction false} PartsDisjoint(e: Entries, k: Key)
    requires WellFormed(e)
    ensures !(k in ScalarPart(e) && k in TablePart(e))
  {
    if e.Entry? {
      PartsDisjoint(e.rest, k);
      PartsKeys(e.rest, k);
    }
  }

  lemma {:induction false} PartsTogether(e: Entries)
    requires WellFormed(e)
    ensures ScalarPart(e) + TablePart(e) == Meaning(e)
  {
    if e.Entry? {
      PartsTogether(e.rest);
      PartsKeys(e.rest, e.key);
      forall k { PartsKeys(e.rest, k); }
    }
  }

  // ---- Reading what was emitted ----------------------------------------------------------

  lemma ReadStep(lines: seq<Line>, line: Line)
    ensures Read(lines + [line]) == match Read(lines) case None => None case Some(s) => ReadLine(s, line)
  {
    assert (lines + [line])[..|lines|] == lines;
  }

  lemma ReadScalar(lines: seq<Line>, base: map<Key, Value>, path: seq<Key>, table: map<Key, Value>,
                   defined: set<seq<Key>>, k: Key, v: Scalar)
    requires Read(lines) == Some(State(Graft(base, path, table), defined, path)) && k !in table
    ensures Read(lines + [KeyValue(k, v)]) == Some(State(Graft(base, path, table[k := Atom(v)]), defined, path))
  {
    PutInGraft(base, path, table, k, v);
    ReadStep(lines, KeyValue(k, v));
  }

  lemma ScalarPartStep(table: map<Key, Value>, k: Key, v: Scalar, rest: Entries)
    requires !HasKey(rest, k)
    ensures table[k := Atom(v)] + ScalarPart(rest) == table + ScalarPart(Entry(k, Leaf(v), rest))
  {
    PartsKeys(rest, k);
  }

  lemma {:induction false} ReadScalars(lines: seq<Line>, base: map<Key, Value>, path: seq<Key>, table: map<Key, Value>,
                                       defined: set<seq<Key>>, e: Entries)
    requires Read(lines) == Some(State(Graft(base, path, table), defined, path))
    requires WellFormed(e) && forall k :: HasKey(e, k) ==> k !in table
    ensures Read(lines + ScalarLines(e)) == Some(State(Graft(base, path, table + ScalarPart(e)), defined, path))
    decreases e
  {
    match e
    case End =>
      assert lines + [] == lines && table + map[] == table;
    case Entry(k, Leaf(v), rest) =>
      assert HasKey(e, k);
      ReadScalar(lines, base, path, table, defined, k, v);
      forall j | HasKey(rest, j) ensures j !in table[k := Atom(v)] { assert HasKey(e, j); }
      ReadScalars(lines + [KeyValue(k, v)], base, path, table[k := Atom(v)], defined, rest);
      ScalarPartStep(table, k, v, rest);
      assert lines + [KeyValue(k, v)] + ScalarLines(rest) == lines + ScalarLines(e);
    case Entry(_, Table(_), rest) =>
      assert forall j :: HasKey(rest, j) ==> HasKey(e, j);
      ReadScalars(lines, base, path, table, defined, rest);
  }

  /** Tables under `path` defined so far stay clear of the children still to come. */
  ghost predicate Clear(defined: set<seq<Key>>, path: seq<Key>) {
    forall d :: d in defined ==> !(path <= d)
  }

  /** Whatever else is defined afterwards lies at or under `path`. */
  ghost predicate GrownUnder(before: set<seq<Key>>, after: set<seq<Key>>, path: seq<Key>) {
    forall d :: d in after ==> d in before || path <= d
  }

  lemma ClearAfter(before: set<seq<Key>>, after: set<seq<Key>>, path: seq<Key>, k: Key, j: Key)
    requires Clear(before, path + [j]) && j != k && GrownUnder(before, after, path + [k])
    ensures Clear(after, path + [j])
  {
    forall d | d in after ensures !(path + [j] <= d) {
      if d !in before {
        assert d[|path|] == (path + [k])[|path|] == k;
        assert (path + [j])[|path|] == j;
      }
    }
  }

  lemma GrownTwice(a: set<seq<Key>>, b: set<seq<Key>>, c: set<seq<Key>>, path: seq<Key>, k: Key)
    requires GrownUnder(a, b, path + [k]) && GrownUnder(b, c, path)
    ensures GrownUnder(a, c, path)
  {
    forall d | d in c ensures d in a || path <= d {
      if d in b && d !in a { assert path <= path + [k] <= d; }
    }
  }

  lemma TablePartStep(table: map<Key, Value>, k: Key, c: Entries, rest: Entries)
    requires !HasKey(rest, k)
    ensures table[k := Dict(Meaning(c))] + TablePart(rest) == table + TablePart(Entry(k, Table(c), rest))
  {
    PartsKeys(rest, k);
  }

  lemma {:induction false} ReadTable(lines: seq<Line>, base: map<Key, Value>, path: seq<Key>, table: map<Key, Value>,
                                     s: State, k: Key, c: Entries) returns (t: State)
    requires Read(lines) == Some(s) && s.root == Graft(base, path, table)
    requires k !in table && WellFormed(c) && Clear(s.defined, path + [k])
    ensures Read(EmitTable(lines, path + [k], c)) == Some(t)
    ensures t.root == Graft(base, path, table[k := Dict(Meaning(c))])
    ensures GrownUnder(s.defined, t.defined, path + [k])
    decreases c, 1
  {
    var own := path + [k];
    ReadStep(lines, Blank);
    var separated := if lines != [] then lines + [Blank] else lines;
    ReadStep(separated, Header(own));
    MakeChildOfGraft(base, path, table, k);
    GraftChild(base, path, table, k, map[]);
    var root := Graft(base, path, table);
    var defined := s.defined + {own};
    assert own <= own;
    assert Read(HeaderLines(lines, own)) == Some(State(Graft(root, own, map[]), defined, own));
    ReadScalars(HeaderLines(lines, own), root, own, map[], defined, c);
    assert map[] + ScalarPart(c) == ScalarPart(c);
    forall j | HasTable(c, j) ensures j !in ScalarPart(c) && Clear(defined, own + [j]) {
      PartsDisjoint(c, j);
      PartsKeys(c, j);
      forall d | d in defined ensures !(own + [j] <= d) {
        assert own + [j] <= d ==> own <= d;
      }
    }
    t := ReadChildren(HeaderLines(lines, own) + ScalarLines(c), root, own, ScalarPart(c),
                      State(Graft(root, own, ScalarPart(c)), defined, own), c);
    PartsTogether(c);
    GraftChild(base, path, table, k, Meaning(c));
  }

  lemma {:induction false} ReadChildren(lines: seq<Line>, base: map<Key, Value>, path: seq<Key>, table: map<Key, Value>,
                                        s: State, e: Entries) returns (t: State)
    requires Read(lines) == Some(s) && s.root == Graft(base, path, table)
    requires WellFormed(e)
    requires forall k :: HasTable(e, k) ==> k !in table && Clear(s.defined, path + [k])
    ensures Read(EmitChildren(lines, path, e)) == Some(t)
    ensures t.root == Graft(base, path, table + TablePart(e))
    ensures GrownUnder(s.defined, t.defined, path)
    decreases e, 0
  {
    match e
    case End =>
      t := s;
      assert table + map[] == table;
    case Entry(_, Leaf(_), rest) =>
      t := ReadChildren(lines, base, path, table, s, rest);
    case Entry(k, Table(c), rest) =>
      assert HasTable(e, k);
      var u := ReadTable(lines, base, path, table, s, k, c);
      var grown := table[k := Dict(Meaning(c))];
      forall j | HasTable(rest, j) ensures j !in grown && Clear(u.defined, path + [j]) {
        PartsKeys(rest, j);
        assert HasTable(e, j) && j != k;
        ClearAfter(s.defined, u.defined, path, k, j);
      }
      t := ReadChildren(EmitTable(lines, path + [k], c), base, path, grown, u, rest);
      TablePartStep(table, k, c, rest);
      GrownTwice(s.defined, u.defined, t.defined, path, k);
  }

  /** The emitted lines are valid TOML and describe exactly the nested dict, empty
      tables and all depths included. */
  lemma DumpRoundTrip(e: Entries)
    requires WellFormed(e)
    ensures Document(Dump(e)) == Some(Meaning(e))
  {
    assert Read([]) == Some(State(map[], {}, []));
    ReadScalars([], map[], [], map[], {}, e);
    assert [] + ScalarLines(e) == ScalarLines(e) && map[] + ScalarPart(e) == ScalarPart(e);
    forall k | HasTable(e, k) ensures k !in ScalarPart(e) && Clear({}, [] + [k]) {
      PartsDisjoint(e, k);
      PartsKeys(e, k);
    }
    var t := ReadChildren(ScalarLines(e), map[], [], ScalarPart(e), State(ScalarPart(e), {}, []), e);
    PartsTogether(e);
  }
}
