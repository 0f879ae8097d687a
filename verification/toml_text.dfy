/** The written configuration file as text, and a reader of it: lines as in the "Key/Value
    Pair" and "Table" sections of TOML v1.0.0, keys bare or dotted. How a scalar is printed
    and read is a parameter. */
module TomlText {
  import opened Ordering
  import opened TomlTables
  import opened TomlRoundTrip
  import opened TomlHeaders

  // ---- Printing ------------------------------------------------------------

  function LineText(line: Line, show: Scalar -> string): string {
    match line
    case Blank => ""
    case Header(path) => HeaderText(path)
    case KeyValue(k, v) => k + " = " + show(v)
  }

  function Texts(lines: seq<Line>, show: Scalar -> string): seq<string> {
    if lines == [] then [] else Texts(lines[..|lines| - 1], show) + [LineText(lines[|lines| - 1], show)]
  }

  predicate IsSpace(c: char) { c == ' ' || '\t' <= c <= '\r' }

  function StripEnd(s: string): string {
    if s != "" && IsSpace(s[|s| - 1]) then StripEnd(s[..|s| - 1]) else s
  }

  /** `_dump_toml` */
  function DumpText(e: Entries, show: Scalar -> string): string {
    StripEnd(Join(Texts(Dump(e), show), '\n')) + "\n"
  }

  /** Printed scalars are read back, stay on one line and do not end in a space. */
  ghost predicate Faithful(show: Scalar -> string, read: string -> Option<Scalar>) {
    forall v: Scalar ::
      read(show(v)) == Some(v) && '\n' !in show(v) && show(v) != "" && !IsSpace(show(v)[|show(v)| - 1])
  }

  // ---- Reading -------------------------------------------------------------

  function Position(s: string, c: char): (k: nat)
    ensures k <= |s|
  {
    if s == "" || s[0] == c then 0 else 1 + Position(s[1..], c)
  }

  function DropSpace(s: string): string {
    if s != "" && s[0] == ' ' then s[1..] else s
  }

  /** A dotted key: all but its last part name a table below the current one. */
  function PutDotted(s: State, path: seq<Key>, v: Scalar): Option<State>
    requires path != []
  {
    var table := s.current + path[..|path| - 1];
    match MakeTable(s.root, table)
    case None => None
    case Some(made) =>
      match PutAt(made, table, path[|path| - 1], v)
      case None => None
      case Some(root) => Some(s.(root := root))
  }

  function ReadText(s: State, text: string, read: string -> Option<Scalar>): Option<State> {
    if text == "" then Some(s)
    else if text[0] == '[' then
      match ParseHeader(text)
      case None => None
      case Some(path) => ReadLine(s, Header(path))
    else
      var k := Position(text, '=');
      var path := Split(StripEnd(text[..k]), '.');
      if k == |text| || !AllBare(path) then None else
        match read(DropSpace(text[k + 1..]))
        case None => None
        case Some(v) => if |path| == 1 then ReadLine(s, KeyValue(path[0], v)) else PutDotted(s, path, v)
  }

  function ReadTexts(texts: seq<string>, read: string -> Option<Scalar>): Option<State> {
    if texts == [] then Some(State(map[], {}, []))
    else
      match ReadTexts(texts[..|texts| - 1], read)
      case None => None
      case Some(s) => ReadText(s, texts[|texts| - 1], read)
  }

  /** The document a file describes, if it is valid. */
  function TextDocument(text: string, read: string -> Option<Scalar>): Option<map<Key, Value>> {
    match ReadTexts(Split(text, '\n'), read)
    case None => None
    case Some(s) => Some(s.root)
  }

  // ---- Such a reader only builds documents with bare keys --------------------

  predicate BareValue(v: Value) {
    v.Dict? ==> forall k :: k in v.entries ==> IsBare(k) && BareValue(v.entries[k])
  }

  predicate BareDocument(m: map<Key, Value>) {
    forall k :: k in m ==> IsBare(k) && BareValue(m[k])
  }

  predicate BareState(s: State) { BareDocument(s.root) && AllBare(s.current) }

  lemma {:induction false} MakeTableKeepsBare(m: map<Key, Value>, path: seq<Key>)
    requires BareDocument(m) && AllBare(path) && MakeTable(m, path).Some?
    ensures BareDocument(MakeTable(m, path).value)
    decreases |path|
  {
    if path != [] {
      assert path[0] in path && forall k :: k in path[1..] ==> k in path;
      MakeTableKeepsBare(if path[0] in m then m[path[0]].entries else map[], path[1..]);
    }
  }

  lemma {:induction false} PutAtKeepsBare(m: map<Key, Value>, path: seq<Key>, k: Key, v: Scalar)
    requires BareDocument(m) && AllBare(path) && IsBare(k) && PutAt(m, path, k, v).Some?
    ensures BareDocument(PutAt(m, path, k, v).value)
    decreases |path|
  {
    if path != [] {
      assert path[0] in path && forall j :: j in path[1..] ==> j in path;
      PutAtKeepsBare(m[path[0]].entries, path[1..], k, v);
    }
  }

  lemma ReadLineKeepsBare(s: State, line: Line)
    requires BareState(s) && BareLine(line) && ReadLine(s, line).Some?
    ensures BareState(ReadLine(s, line).value)
  {
    match line
    case Blank =>
    case Header(path) => MakeTableKeepsBare(s.root, path);
    case KeyValue(k, v) => PutAtKeepsBare(s.root, s.current, k, v);
  }

  lemma PutDottedKeepsBare(s: State, path: seq<Key>, v: Scalar)
    requires BareState(s) && path != [] && AllBare(path) && PutDotted(s, path, v).Some?
    ensures BareState(PutDotted(s, path, v).value)
  {
    var table := s.current + path[..|path| - 1];
    assert forall k :: k in table ==> k in s.current || k in path;
    assert path[|path| - 1] in path;
    MakeTableKeepsBare(s.root, table);
    PutAtKeepsBare(MakeTable(s.root, table).value, table, path[|path| - 1], v);
  }

  lemma ReadTextKeepsBare(s: State, text: string, read: string -> Option<Scalar>)
    requires BareState(s) && ReadText(s, text, read).Some?
    ensures BareState(ReadText(s, text, read).value)
  {
    if text == "" {
    } else if text[0] == '[' {
      ReadLineKeepsBare(s, Header(ParseHeader(text).value));
    } else {
      var k := Position(text, '=');
      var path := Split(StripEnd(text[..k]), '.');
      var v := read(DropSpace(text[k + 1..])).value;
      assert path[0] in path;
      if |path| == 1 { ReadLineKeepsBare(s, KeyValue(path[0], v)); } else { PutDottedKeepsBare(s, path, v); }
    }
  }

  lemma {:induction false} ReadTextsAreBare(texts: seq<string>, read: string -> Option<Scalar>)
    requires ReadTexts(texts, read).Some?
    ensures BareState(ReadTexts(texts, read).value)
  {
    if texts != [] {
      var n := |texts| - 1;
      ReadTextsAreBare(texts[..n], read);
      ReadTextKeepsBare(ReadTexts(texts[..n], read).value, texts[n], read);
    }
  }

  predicate AllKeysBare(e: Entries) {
    match e
    case End => true
    case Entry(k, n, rest) => IsBare(k) && (n.Table? ==> AllKeysBare(n.entries)) && AllKeysBare(rest)
  }

  lemma {:induction false} BareMeaningIff(e: Entries)
    requires WellFormed(e)
    ensures BareDocument(Meaning(e)) <==> AllKeysBare(e)
  {
    match e
    case End =>
    case Entry(k, n, rest) =>
      BareMeaningIff(rest);
      PartsKeys(rest, k);
      var m := Meaning(rest);
      assert BareDocument(m[k := NodeMeaning(n)]) <==> BareDocument(m) && IsBare(k) && BareValue(NodeMeaning(n)) by {
        assert m[k := NodeMeaning(n)][k] == NodeMeaning(n);
        assert forall j :: j in m ==> m[k := NodeMeaning(n)][j] == m[j];
      }
      if n.Table? { BareMeaningIff(n.entries); }
  }

  // ---- Lines with bare keys are read as they were meant ------------------------

  predicate BareLine(line: Line) {
    match line
    case Blank => true
    case Header(path) => path != [] && AllBare(path)
    case KeyValue(k, _) => IsBare(k)
  }

  lemma {:induction false} PositionOfFirst(a: string, c: char, rest: string)
    requires c !in a
    ensures Position(a + [c] + rest, c) == |a|
  {
    var s := a + [c] + rest;
    if a != "" {
      assert s[1..] == a[1..] + [c] + rest;
      PositionOfFirst(a[1..], c, rest);
    }
  }

  lemma KeyTextReads(k: Key)
    requires IsBare(k)
    ensures StripEnd(k + " ") == k && Split(k, '.') == [k] && '=' !in k + " " && AllBare([k])
  {
    assert (k + " ")[..|k|] == k;
    assert !IsSpace(k[|k| - 1]);
    SplitPlain(k, '.');
  }

  lemma BareLineReads(s: State, line: Line, show: Scalar -> string, read: string -> Option<Scalar>)
    requires Faithful(show, read) && BareLine(line)
    ensures ReadText(s, LineText(line, show), read) == ReadLine(s, line)
  {
    var text := LineText(line, show);
    match line
    case Blank =>
    case Header(path) => HeaderNamesItsTableIff(path);
    case KeyValue(k, v) =>
      KeyTextReads(k);
      assert text == (k + " ") + ['='] + (" " + show(v));
      PositionOfFirst(k + " ", '=', " " + show(v));
      assert text[..|k| + 1] == k + " " && text[|k| + 2..] == " " + show(v);
      assert (" " + show(v))[1..] == show(v);
      assert text[0] == k[0] != '[';
  }

  ghost predicate AllLinesBare(lines: seq<Line>) { forall l :: l in lines ==> BareLine(l) }

  lemma {:induction false} BareLinesRead(lines: seq<Line>, show: Scalar -> string, read: string -> Option<Scalar>)
    requires Faithful(show, read) && AllLinesBare(lines)
    ensures ReadTexts(Texts(lines, show), read) == Read(lines)
  {
    if lines != [] {
      var n := |lines| - 1;
      BareLinesRead(lines[..n], show, read);
      assert Texts(lines, show)[..|Texts(lines, show)| - 1] == Texts(lines[..n], show);
      assert lines[n] in lines;
      if Read(lines[..n]).Some? { BareLineReads(Read(lines[..n]).value, lines[n], show, read); }
    }
  }

  // ---- What is emitted for bare keys -------------------------------------------

  /** Bare lines, the last of which shows something. */
  ghost predicate Printable(lines: seq<Line>) {
    AllLinesBare(lines) && (lines != [] ==> !lines[|lines| - 1].Blank?)
  }

  lemma {:induction false} ScalarLinesPrintable(lines: seq<Line>, e: Entries)
    requires Printable(lines) && AllKeysBare(e)
    ensures Printable(lines + ScalarLines(e))
    decreases e
  {
    match e
    case End => assert lines + [] == lines;
    case Entry(k, Leaf(v), rest) =>
      ScalarLinesPrintable(lines + [KeyValue(k, v)], rest);
      assert lines + [KeyValue(k, v)] + ScalarLines(rest) == lines + ScalarLines(e);
    case Entry(_, Table(_), rest) => ScalarLinesPrintable(lines, rest);
  }

  lemma {:induction false} TablePrintable(lines: seq<Line>, path: seq<Key>, e: Entries)
    requires Printable(lines) && AllBare(path) && AllKeysBare(e)
    ensures Printable(EmitTable(lines, path, e))
    decreases e, 1
  {
    ScalarLinesPrintable(HeaderLines(lines, path), e);
    ChildrenPrintable(HeaderLines(lines, path) + ScalarLines(e), path, e);
  }

  lemma {:induction false} ChildrenPrintable(lines: seq<Line>, path: seq<Key>, e: Entries)
    requires Printable(lines) && AllBare(path) && AllKeysBare(e)
    ensures Printable(EmitChildren(lines, path, e))
    decreases e, 0
  {
    match e
    case End =>
    case Entry(_, Leaf(_), rest) => ChildrenPrintable(lines, path, rest);
    case Entry(k, Table(c), rest) =>
      TablePrintable(lines, path + [k], c);
      ChildrenPrintable(EmitTable(lines, path + [k], c), path, rest);
  }

  // ---- Lines and text ------------------------------------------------------------

  lemma {:induction false} JoinHas(parts: seq<string>, separator: char, c: char)
    requires c in Join(parts, separator) && c != separator
    ensures exists p :: p in parts && c in p
  {
    if |parts| == 1 {
      assert parts[0] in parts;
    } else if |parts| > 1 {
      if c in parts[0] {
        assert parts[0] in parts;
      } else {
        JoinHas(parts[1..], separator, c);
      }
    }
  }

  lemma {:induction false} JoinEnd(parts: seq<string>, separator: char)
    requires parts != [] && parts[|parts| - 1] != ""
    ensures var text, last := Join(parts, separator), parts[|parts| - 1];
            text != "" && text[|text| - 1] == last[|last| - 1]
  {
    if |parts| > 1 { JoinEnd(parts[1..], separator); }
  }

  lemma {:induction false} JoinNewLine(parts: seq<string>, separator: char)
    requires parts != []
    ensures Join(parts + [""], separator) == Join(parts, separator) + [separator]
  {
    if |parts| == 1 {
      assert (parts + [""])[1..] == [""];
      assert Join([""], separator) == "";
    } else {
      assert (parts + [""])[1..] == parts[1..] + [""];
      JoinNewLine(parts[1..], separator);
    }
  }

  lemma OneLine(line: Line, show: Scalar -> string, read: string -> Option<Scalar>)
    requires Faithful(show, read) && BareLine(line)
    ensures '\n' !in LineText(line, show)
    ensures !line.Blank? ==>
              LineText(line, show) != "" && !IsSpace(LineText(line, show)[|LineText(line, show)| - 1])
  {
    match line
    case Blank =>
    case Header(path) => if '\n' in Join(path, '.') { JoinHas(path, '.', '\n'); }
    case KeyValue(k, v) =>
      var text := LineText(line, show);
      assert read(show(v)) == Some(v);
      assert text[|text| - 1] == show(v)[|show(v)| - 1];
  }

  lemma {:induction false} TextsAt(lines: seq<Line>, show: Scalar -> string, k: nat)
    requires k < |lines|
    ensures |Texts(lines, show)| == |lines| && Texts(lines, show)[k] == LineText(lines[k], show)
  {
    var n := |lines| - 1;
    if n > 0 { TextsAt(lines[..n], show, if k < n then k else 0); }
  }

  /** A file of printable lines falls back into those lines and one empty one. */
  lemma FileSplits(lines: seq<Line>, show: Scalar -> string, read: string -> Option<Scalar>)
    requires Faithful(show, read) && Printable(lines) && lines != []
    ensures Split(StripEnd(Join(Texts(lines, show), '\n')) + "\n", '\n') == Texts(lines, show) + [""]
  {
    var texts := Texts(lines, show);
    var n := |lines| - 1;
    TextsAt(lines, show, n);
    assert lines[n] in lines;
    OneLine(lines[n], show, read);
    JoinEnd(texts, '\n');
    JoinNewLine(texts, '\n');
    forall t | t in texts + [""] ensures '\n' !in t {
      if t in texts {
        var k :| 0 <= k < |texts| && texts[k] == t;
        TextsAt(lines, show, k);
        assert lines[k] in lines;
        OneLine(lines[k], show, read);
      }
    }
    SplitJoin(texts + [""], '\n');
  }

  lemma FileReads(lines: seq<Line>, show: Scalar -> string, read: string -> Option<Scalar>)
    requires Faithful(show, read) && Printable(lines)
    ensures ReadTexts(Split(StripEnd(Join(Texts(lines, show), '\n')) + "\n", '\n'), read) == Read(lines)
  {
    if lines == [] {
      assert "\n"[1..] == "" && Split("", '\n') == [""];
      assert Split("\n", '\n') == ["", ""];
      assert ["", ""][..1] == [""] && [""][..0] == [];
      assert ReadTexts([""], read) == Some(State(map[], {}, []));
    } else {
      FileSplits(lines, show, read);
      BareLinesRead(lines, show, read);
      var texts := Texts(lines, show);
      assert (texts + [""])[..|texts|] == texts;
    }
  }

  /** Exactly when reading the written file gives back the configuration: all keys, at any
      depth, are bare. The emitter prints keys as they are. */
  lemma TextRoundTripIff(e: Entries, show: Scalar -> string, read: string -> Option<Scalar>)
    requires WellFormed(e) && Faithful(show, read)
    ensures TextDocument(DumpText(e, show), read) == Some(Meaning(e)) <==> AllKeysBare(e)
  {
    BareMeaningIff(e);
    if AllKeysBare(e) {
      TablePrintable([], [], e);
      FileReads(Dump(e), show, read);
      DumpRoundTrip(e);
    } else if TextDocument(DumpText(e, show), read).Some? {
      ReadTextsAreBare(Split(DumpText(e, show), '\n'), read);
    }
  }
}
