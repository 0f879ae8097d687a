/** Header lines as text: `[` + keys joined by dots + `]`, read by the bare-key
    grammar of TOML v1.0.0 ("Keys" and "Table"). */
module TomlHeaders {
  import opened Ordering
  import opened TomlTables

  predicate IsBareChar(c: char) {
    'A' <= c <= 'Z' || 'a' <= c <= 'z' || '0' <= c <= '9' || c == '_' || c == '-'
  }

  predicate IsBare(k: Key) {
    k != [] && forall i :: 0 <= i < |k| ==> IsBareChar(k[i])
  }

  predicate AllBare(path: seq<Key>) { forall k :: k in path ==> IsBare(k) }

  function Join(parts: seq<string>, separator: char): string {
    if parts == [] then ""
    else if |parts| == 1 then parts[0]
    else parts[0] + [separator] + Join(parts[1..], separator)
  }

  function HeaderText(path: seq<Key>): string { "[" + Join(path, '.') + "]" }

  /** The pieces between separators; always at least one. */
  function Split(s: string, separator: char): (r: seq<string>)
    ensures r != []
  {
    if s == "" then [""]
    else if s[0] == separator then [""] + Split(s[1..], separator)
    else
      var rest := Split(s[1..], separator);
      [[s[0]] + rest[0]] + rest[1..]
  }

  function ParseHeader(text: string): Option<seq<Key>> {
    if |text| < 2 || text[0] != '[' || text[|text| - 1] != ']' then None
    else
      var path := Split(text[1..|text| - 1], '.');
      if AllBare(path) then Some(path) else None
  }

  lemma {:induction false} SplitFirst(k: string, rest: string, separator: char)
    requires separator !in k
    ensures Split(k + [separator] + rest, separator) == [k] + Split(rest, separator)
  {
    var s := k + [separator] + rest;
    if k == "" {
      assert s == [separator] + rest;
      assert s[1..] == rest;
    } else {
      assert s[1..] == k[1..] + [separator] + rest;
      SplitFirst(k[1..], rest, separator);
      assert [k[0]] + k[1..] == k;
    }
  }

  lemma {:induction false} SplitPlain(k: string, separator: char)
    requires separator !in k
    ensures Split(k, separator) == [k]
  {
    if k != "" {
      SplitPlain(k[1..], separator);
      assert [k[0]] + k[1..] == k;
    }
  }

  lemma {:induction false} SplitJoin(parts: seq<string>, separator: char)
    requires parts != [] && forall k :: k in parts ==> separator !in k
    ensures Split(Join(parts, separator), separator) == parts
  {
    assert parts[0] in parts;
    if |parts| == 1 {
      SplitPlain(parts[0], separator);
      assert parts == [parts[0]];
    } else {
      assert forall k :: k in parts[1..] ==> k in parts;
      SplitJoin(parts[1..], separator);
      SplitFirst(parts[0], Join(parts[1..], separator), separator);
      assert parts == [parts[0]] + parts[1..];
    }
  }

  /** A header names the table it was printed for exactly when every key on the
      path is bare; the emitter prints keys unquoted and does not check. */
  lemma HeaderNamesItsTableIff(path: seq<Key>)
    ensures ParseHeader(HeaderText(path)) == Some(path) <==> path != [] && AllBare(path)
  {
    var text := HeaderText(path);
    assert text[1..|text| - 1] == Join(path, '.');
    if path != [] && AllBare(path) {
      SplitJoin(path, '.');
    }
  }

  /** A dotted server name is printed as two tables. */
  lemma DottedNameNamesAnotherTable()
    ensures HeaderText(["mcp_servers", "my.server"]) == HeaderText(["mcp_servers", "my", "server"])
    ensures AllBare(["mcp_servers", "my", "server"])
    ensures ParseHeader(HeaderText(["mcp_servers", "my.server"])) == Some(["mcp_servers", "my", "server"])
  {
    var path := ["mcp_servers", "my", "server"];
    assert AllBare(path) by {
      forall k | k in path ensures IsBare(k) {
        assert k == "mcp_servers" || k == "my" || k == "server";
      }
    }
    HeaderNamesItsTableIff(path);
    assert path[1..] == ["my", "server"] && path[1..][1..] == ["server"] && ["mcp_servers", "my.server"][1..] == ["my.server"];
    assert Join(["server"], '.') == "server" && Join(["my.server"], '.') == "my.server";
    assert Join(["my", "server"], '.') == "my" + ['.'] + "server" == "my.server";
    assert Join(path, '.') == "mcp_servers" + ['.'] + "my.server";
    assert Join(["mcp_servers", "my.server"], '.') == "mcp_servers" + ['.'] + "my.server";
  }
}
