/** The file that a first install writes, to the letter. */
module CodexInstallText {
  import opened Ordering
  import opened TomlTables
  import opened TomlHeaders
  import opened TomlText
  import opened CodexInstall

  /** The four settings of a server. */
  function Server(transport: Scalar, command: Scalar, arguments: Scalar, enabled: Scalar): Entries {
    Entry("transport", Leaf(transport), Entry("command", Leaf(command), Entry("args", Leaf(arguments),
          Entry("enabled", Leaf(enabled), End))))
  }

  function ServerLines(transport: Scalar, command: Scalar, arguments: Scalar, enabled: Scalar): seq<Line> {
    [KeyValue("transport", transport), KeyValue("command", command), KeyValue("args", arguments), KeyValue("enabled", enabled)]
  }

  lemma FreshLines(name: Key, transport: Scalar, command: Scalar, arguments: Scalar, enabled: Scalar)
    ensures var server := Server(transport, command, arguments, enabled);
            Dump(Entry(SERVERS, Table(Entry(name, Table(server), End)), End)) ==
            [Header([SERVERS]), Blank, Header([SERVERS, name])] + ServerLines(transport, command, arguments, enabled)
  {
    var server := Server(transport, command, arguments, enabled);
    var inner := Entry(name, Table(server), End);
    var path := [SERVERS, name];
    var headers := [Header([SERVERS]), Blank, Header(path)];
    var lines := headers + ServerLines(transport, command, arguments, enabled);
    assert [] + [SERVERS] == [SERVERS] && [SERVERS] + [name] == path;
    ServerTable([Header([SERVERS])], path, transport, command, arguments, enabled);
    assert HeaderLines([Header([SERVERS])], path) == headers;
    assert EmitChildren([Header([SERVERS])], [SERVERS], inner) == EmitChildren(lines, [SERVERS], End) == lines;
    assert HeaderLines([], [SERVERS]) + ScalarLines(inner) == [Header([SERVERS])];
    assert EmitTable([], [SERVERS], inner) == lines;
    var payload := Entry(SERVERS, Table(inner), End);
    assert HeaderLines([], []) + ScalarLines(payload) == [];
    assert EmitChildren([], [], payload) == EmitChildren(lines, [], End) == lines;
  }

  lemma ServerTable(lines: seq<Line>, path: seq<Key>, transport: Scalar, command: Scalar, arguments: Scalar, enabled: Scalar)
    ensures EmitTable(lines, path, Server(transport, command, arguments, enabled)) ==
            HeaderLines(lines, path) + ServerLines(transport, command, arguments, enabled)
  {
    var d := Entry("enabled", Leaf(enabled), End);
    var c := Entry("args", Leaf(arguments), d);
    var b := Entry("command", Leaf(command), c);
    var a := Entry("transport", Leaf(transport), b);
    assert ScalarLines(d) == [KeyValue("enabled", enabled)];
    assert ScalarLines(c) == [KeyValue("args", arguments)] + ScalarLines(d);
    assert ScalarLines(b) == [KeyValue("command", command)] + ScalarLines(c);
    assert ScalarLines(a) == [KeyValue("transport", transport)] + ScalarLines(b) == ServerLines(transport, command, arguments, enabled);
    var l := HeaderLines(lines, path) + ScalarLines(a);
    assert EmitChildren(l, path, b) == EmitChildren(l, path, c) == EmitChildren(l, path, d) == l;
  }

  lemma FreshTexts(name: Key, transport: Scalar, command: Scalar, arguments: Scalar, enabled: Scalar, show: Scalar -> string)
    ensures var lines := [Header([SERVERS]), Blank, Header([SERVERS, name])] + ServerLines(transport, command, arguments, enabled);
            Texts(lines, show) == ["[mcp_servers]", "", "[mcp_servers." + name + "]", "transport = " + show(transport),
                                   "command = " + show(command), "args = " + show(arguments), "enabled = " + show(enabled)]
  {
    var lines := [Header([SERVERS]), Blank, Header([SERVERS, name])] + ServerLines(transport, command, arguments, enabled);
    HeaderTexts(name);
    SettingTexts(show, transport, command, arguments, enabled);
    TextsAt(lines, show, 0);
    TextsAt(lines, show, 1);
    TextsAt(lines, show, 2);
    TextsAt(lines, show, 3);
    TextsAt(lines, show, 4);
    TextsAt(lines, show, 5);
    TextsAt(lines, show, 6);
  }

  lemma SettingTexts(show: Scalar -> string, transport: Scalar, command: Scalar, arguments: Scalar, enabled: Scalar)
    ensures LineText(KeyValue("transport", transport), show) == "transport = " + show(transport)
    ensures LineText(KeyValue("command", command), show) == "command = " + show(command)
    ensures LineText(KeyValue("args", arguments), show) == "args = " + show(arguments)
    ensures LineText(KeyValue("enabled", enabled), show) == "enabled = " + show(enabled)
  {
    assert "transport" + " = " == "transport = " && "command" + " = " == "command = ";
    assert "args" + " = " == "args = " && "enabled" + " = " == "enabled = ";
  }

  /** A first install into an empty configuration writes two headers, a blank line between them,
      and the four settings. */
  lemma FirstInstallText(name: Key, transport: Scalar, command: Scalar, arguments: Scalar, enabled: Scalar, show: Scalar -> string)
    requires show(enabled) != "" && !IsSpace(show(enabled)[|show(enabled)| - 1])
    ensures var server := Server(transport, command, arguments, enabled);
            var lines := ["[mcp_servers]", "", "[mcp_servers." + name + "]", "transport = " + show(transport),
                          "command = " + show(command), "args = " + show(arguments), "enabled = " + show(enabled)];
            && Apply(End, name, server, false).Ok?
            && DumpText(Apply(End, name, server, false).value.payload, show) == Join(lines, '\n') + "\n"
  {
    var payload := Entry(SERVERS, Table(Entry(name, Table(Server(transport, command, arguments, enabled)), End)), End);
    FreshLines(name, transport, command, arguments, enabled);
    FreshTexts(name, transport, command, arguments, enabled, show);
    JoinEnd(Texts(Dump(payload), show), '\n');
    assert Apply(End, name, Server(transport, command, arguments, enabled), false) == Ok(Outcome(true, payload));
  }

  lemma HeaderTexts(name: Key)
    ensures HeaderText([SERVERS]) == "[mcp_servers]" && HeaderText([SERVERS, name]) == "[mcp_servers." + name + "]"
  {
    assert [SERVERS, name][1..] == [name];
    assert Join([name], '.') == name && Join([SERVERS, name], '.') == SERVERS + ['.'] + name;
    assert "[" + SERVERS + ['.'] == "[mcp_servers.";
    assert HeaderText([SERVERS, name]) == ("[" + SERVERS + ['.']) + name + "]";
  }
}
