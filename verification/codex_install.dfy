/** `_apply_codex`: adding, replacing and removing one server entry in the user's
    configuration, written and read back through TOML. */
module CodexInstall {
  import opened Ordering
  import opened TomlTables
  import opened TomlHeaders
  import opened TomlText

  const SERVERS: Key := "mcp_servers"

  datatype InstallError = ServersNotATable

  function Lookup(e: Entries, k: Key): Option<Node> {
    match e
    case End => None
    case Entry(j, n, rest) => if j == k then Some(n) else Lookup(rest, k)
  }

  /** `payload[k] = n`: in place for an existing key, at the end for a new one. */
  function Assign(e: Entries, k: Key, n: Node): Entries {
    match e
    case End => Entry(k, n, End)
    case Entry(j, m, rest) => if j == k then Entry(j, n, rest) else Entry(j, m, Assign(rest, k, n))
  }

  function Remove(e: Entries, k: Key): Entries {
    match e
    case End => End
    case Entry(j, m, rest) => if j == k then rest else Entry(j, m, Remove(rest, k))
  }

  /** `payload.setdefault("mcp_servers", {})` */
  function WithServers(payload: Entries): Entries {
    if HasKey(payload, SERVERS) then payload else Assign(payload, SERVERS, Table(End))
  }

  datatype Outcome = Outcome(changed: bool, payload: Entries)

  /** Python compares dicts by contents, not by order. */
  function Apply(payload: Entries, name: Key, server: Entries, uninstall: bool): Result<Outcome, InstallError> {
    var p := WithServers(payload);
    match Lookup(p, SERVERS)
    case None => Err(ServersNotATable)
    case Some(Leaf(_)) => Err(ServersNotATable)
    case Some(Table(servers)) =>
      if uninstall then
        if HasKey(servers, name) then Ok(Outcome(true, Assign(p, SERVERS, Table(Remove(servers, name)))))
        else Ok(Outcome(false, p))
      else
        var same := match Lookup(servers, name)
                    case None => false
                    case Some(n) => NodeMeaning(n) == Dict(Meaning(server));
        if same then Ok(Outcome(false, p))
        else Ok(Outcome(true, Assign(p, SERVERS, Table(Assign(servers, name, Table(server))))))
  }

  /** The installer on one configuration file; an absent file reads as no entries. */
  class CodexConfig {
    var payload: Entries
    var file: Option<seq<Line>>

    constructor (payload: Entries, file: Option<seq<Line>>)
      ensures this.payload == payload && this.file == file
    {
      this.payload := payload;
      this.file := file;
    }

    method ApplyCodex(name: Key, server: Entries, uninstall: bool, dryRun: bool) returns (r: Result<bool, InstallError>)
      modifies this
      ensures match Apply(old(payload), name, server, uninstall)
              case Err(e) => r == Err(e) && file == old(file)
              case Ok(o) => r == Ok(o.changed) && payload == o.payload
                            && file == if o.changed && !dryRun then Some(Dump(o.payload)) else old(file)
    {
      if !HasKey(payload, SERVERS) {
        payload := Assign(payload, SERVERS, Table(End));
      }
      var found := Lookup(payload, SERVERS);
      if found.None? || found.value.Leaf? { return Err(ServersNotATable); }
      var servers := found.value.entries;
      var changed := false;
      if uninstall {
        if HasKey(servers, name) {
          payload := Assign(payload, SERVERS, Table(Remove(servers, name)));
          changed := true;
        }
      } else {
        var current := Lookup(servers, name);
        if current.None? || NodeMeaning(current.value) != Dict(Meaning(server)) {
          payload := Assign(payload, SERVERS, Table(Assign(servers, name, Table(server))));
          changed := true;
        }
      }
      if changed && !dryRun {
        var writer := new TomlWriter();
        writer.Emit([], payload);
        file := Some(writer.lines);
      }
      return Ok(changed);
    }
  }

  // ---- Edits on a dict ------------------------------------------------------------------

  lemma {:induction false} LookupSpec(e: Entries, k: Key)
    ensures Lookup(e, k).Some? <==> HasKey(e, k)
    ensures k in Meaning(e) <==> HasKey(e, k)
    ensures HasKey(e, k) ==> Meaning(e)[k] == NodeMeaning(Lookup(e, k).value)
    ensures WellFormed(e) && HasKey(e, k) && Lookup(e, k).value.Table? ==> WellFormed(Lookup(e, k).value.entries)
  {
    if e.Entry? { LookupSpec(e.rest, k); }
  }

  lemma {:induction false} AssignSpec(e: Entries, k: Key, n: Node)
    requires WellFormed(e) && (n.Table? ==> WellFormed(n.entries))
    ensures WellFormed(Assign(e, k, n))
    ensures forall j :: HasKey(Assign(e, k, n), j) <==> HasKey(e, j) || j == k
    ensures Meaning(Assign(e, k, n)) == Meaning(e)[k := NodeMeaning(n)]
    ensures Lookup(Assign(e, k, n), k) == Some(n)
  {
    if e.Entry? {
      AssignSpec(e.rest, k, n);
      LookupSpec(e.rest, k);
    }
  }

  lemma {:induction false} RemoveSpec(e: Entries, k: Key)
    requires WellFormed(e)
    ensures WellFormed(Remove(e, k))
    ensures forall j :: HasKey(Remove(e, k), j) <==> HasKey(e, j) && j != k
    ensures Meaning(Remove(e, k)) == Meaning(e) - {k}
  {
    if e.Entry? {
      RemoveSpec(e.rest, k);
      LookupSpec(e.rest, e.key);
    }
  }

  // ---- What an install and an uninstall do --------------------------------------------------

  /** The server table of a configuration, empty when there is none. */
  function ServersOf(config: map<Key, Value>): map<Key, Value> {
    if SERVERS in config && config[SERVERS].Dict? then config[SERVERS].entries else map[]
  }

  lemma WithServersSpec(payload: Entries)
    requires WellFormed(payload)
    ensures WellFormed(WithServers(payload)) && HasKey(WithServers(payload), SERVERS)
    ensures Meaning(WithServers(payload)) ==
            if SERVERS in Meaning(payload) then Meaning(payload) else Meaning(payload)[SERVERS := Dict(map[])]
  {
    LookupSpec(payload, SERVERS);
    AssignSpec(payload, SERVERS, Table(End));
  }

  /** Only a scalar in the place of the server table is refused. */
  lemma RefusedIff(payload: Entries, name: Key, server: Entries, uninstall: bool)
    requires WellFormed(payload)
    ensures Apply(payload, name, server, uninstall).Err? <==>
            SERVERS in Meaning(payload) && Meaning(payload)[SERVERS].Atom?
  {
    WithServersSpec(payload);
    LookupSpec(payload, SERVERS);
    LookupSpec(WithServers(payload), SERVERS);
  }

  /** The server entry becomes the given one, or goes away; every other entry of the
      configuration, and of the server table, is what it was. */
  lemma OnlyTheEntryChanges(payload: Entries, name: Key, server: Entries, uninstall: bool)
    requires WellFormed(payload) && WellFormed(server) && Apply(payload, name, server, uninstall).Ok?
    ensures var o := Apply(payload, name, server, uninstall).value;
            var servers := ServersOf(Meaning(payload));
            && WellFormed(o.payload)
            && Meaning(o.payload) == Meaning(payload)[SERVERS := Dict(if uninstall then servers - {name}
                                                                      else servers[name := Dict(Meaning(server))])]
            && (o.changed <==> if uninstall then name in servers
                               else name !in servers || servers[name] != Dict(Meaning(server)))
  {
    var p := WithServers(payload);
    WithServersSpec(payload);
    LookupSpec(payload, SERVERS);
    LookupSpec(p, SERVERS);
    var table := Lookup(p, SERVERS).value.entries;
    LookupSpec(table, name);
    assert Meaning(table) == ServersOf(Meaning(payload));
    if uninstall {
      RemoveSpec(table, name);
      AssignSpec(p, SERVERS, Table(Remove(table, name)));
      assert name !in Meaning(table) ==> Meaning(table) - {name} == Meaning(table);
    } else {
      AssignSpec(table, name, Table(server));
      AssignSpec(p, SERVERS, Table(Assign(table, name, Table(server))));
      assert name in Meaning(table) && Meaning(table)[name] == Dict(Meaning(server)) ==>
               Meaning(table)[name := Dict(Meaning(server))] == Meaning(table);
    }
  }

  // ---- Order -----------------------------------------------------------------------------------

  function Keys(e: Entries): seq<Key> {
    match e
    case End => []
    case Entry(k, _, rest) => [k] + Keys(rest)
  }

  lemma {:induction false} HasKeyInKeys(e: Entries, k: Key)
    ensures HasKey(e, k) <==> k in Keys(e)
  {
    if e.Entry? { HasKeyInKeys(e.rest, k); }
  }

  lemma {:induction false} AssignKeepsOrder(e: Entries, k: Key, n: Node)
    ensures Keys(Assign(e, k, n)) == if k in Keys(e) then Keys(e) else Keys(e) + [k]
  {
    if e.Entry? { AssignKeepsOrder(e.rest, k, n); }
  }

  /** The same keys in the same order, except that `k` is gone if it was there. */
  ghost predicate Without(before: seq<Key>, after: seq<Key>, k: Key) {
    if k in before then exists front, back :: after == front + back && before == front + [k] + back
    else after == before
  }

  lemma {:induction false} RemoveKeepsOrder(e: Entries, k: Key)
    ensures Without(Keys(e), Keys(Remove(e, k)), k)
  {
    match e
    case End =>
    case Entry(j, _, rest) =>
      if j == k {
        assert Keys(Remove(e, k)) == [] + Keys(rest) && Keys(e) == [] + [k] + Keys(rest);
      } else {
        RemoveKeepsOrder(rest, k);
        WithoutLater(j, Keys(rest), Keys(Remove(rest, k)), k);
      }
  }

  lemma WithoutLater(j: Key, before: seq<Key>, after: seq<Key>, k: Key)
    requires Without(before, after, k) && j != k
    ensures Without([j] + before, [j] + after, k)
  {
    if k in before {
      var front, back :| after == front + back && before == front + [k] + back;
      assert [j] + after == ([j] + front) + back && [j] + before == ([j] + front) + [k] + back;
      assert ([j] + before)[|front| + 1] == k;
    }
  }

  function ServerKeys(e: Entries): seq<Key> {
    match Lookup(e, SERVERS)
    case Some(Table(servers)) => Keys(servers)
    case _ => []
  }

  lemma {:induction false} LookupAssigned(e: Entries, k: Key, n: Node)
    ensures Lookup(Assign(e, k, n), k) == Some(n)
  {
    if e.Entry? { LookupAssigned(e.rest, k, n); }
  }

  /** The servers of a configuration with a server table in place. */
  lemma ServersInPlace(payload: Entries) returns (servers: Entries)
    requires Lookup(WithServers(payload), SERVERS).Some? && Lookup(WithServers(payload), SERVERS).value.Table?
    ensures Lookup(WithServers(payload), SERVERS) == Some(Table(servers)) && ServerKeys(payload) == Keys(servers)
    ensures Keys(WithServers(payload)) == (if SERVERS in Keys(payload) then Keys(payload) else Keys(payload) + [SERVERS])
  {
    HasKeyInKeys(payload, SERVERS);
    AssignKeepsOrder(payload, SERVERS, Table(End));
    LookupAssigned(payload, SERVERS, Table(End));
    LookupMissing(payload, SERVERS);
    servers := Lookup(WithServers(payload), SERVERS).value.entries;
  }

  /** What was in the file keeps its place; what is new comes last; what is removed leaves no gap. */
  lemma OrderIsKept(payload: Entries, name: Key, server: Entries, uninstall: bool)
    requires Apply(payload, name, server, uninstall).Ok?
    ensures var after := Apply(payload, name, server, uninstall).value.payload;
            && Keys(after) == (if SERVERS in Keys(payload) then Keys(payload) else Keys(payload) + [SERVERS])
            && if uninstall then Without(ServerKeys(payload), ServerKeys(after), name)
               else ServerKeys(after) == if name in ServerKeys(payload) then ServerKeys(payload) else ServerKeys(payload) + [name]
  {
    var p := WithServers(payload);
    var servers := ServersInPlace(payload);
    HasKeyInKeys(servers, name);
    if uninstall {
      RemoveKeepsOrder(servers, name);
      ServersReplaced(p, Remove(servers, name));
    } else {
      AssignKeepsOrder(servers, name, Table(server));
      LookupFound(servers, name);
      ServersReplaced(p, Assign(servers, name, Table(server)));
    }
  }

  lemma ServersReplaced(p: Entries, servers: Entries)
    requires SERVERS in Keys(p)
    ensures Keys(Assign(p, SERVERS, Table(servers))) == Keys(p) && ServerKeys(Assign(p, SERVERS, Table(servers))) == Keys(servers)
  {
    AssignKeepsOrder(p, SERVERS, Table(servers));
    LookupAssigned(p, SERVERS, Table(servers));
  }

  lemma {:induction false} LookupMissing(e: Entries, k: Key)
    ensures !HasKey(e, k) ==> Lookup(e, k) == None
  {
    if e.Entry? { LookupMissing(e.rest, k); }
  }

  lemma {:induction false} LookupFound(e: Entries, k: Key)
    ensures Lookup(e, k).Some? ==> k in Keys(e)
  {
    if e.Entry? { LookupFound(e.rest, k); }
  }

  // ---- Through the written file ---------------------------------------------------------------

  lemma InstallKeepsBare(payload: Entries, name: Key, server: Entries)
    requires WellFormed(payload) && WellFormed(server) && Apply(payload, name, server, false).Ok?
    requires AllKeysBare(payload) && AllKeysBare(server) && IsBare(name)
    ensures AllKeysBare(Apply(payload, name, server, false).value.payload)
  {
    var o := Apply(payload, name, server, false).value;
    OnlyTheEntryChanges(payload, name, server, false);
    BareMeaningIff(payload);
    BareMeaningIff(server);
    BareMeaningIff(o.payload);
    var servers := ServersOf(Meaning(payload));
    assert BareDocument(servers);
    assert BareDocument(servers[name := Dict(Meaning(server))]);
    assert IsBare(SERVERS);
  }

  /** Where all keys are bare, installing, writing the file, reading it back in any order and
      installing again reports no change; uninstalling then restores every other server. */
  lemma SecondInstallChangesNothing(payload: Entries, name: Key, server: Entries, reread: Entries,
                                    show: Scalar -> string, read: string -> Option<Scalar>)
    requires WellFormed(payload) && WellFormed(server) && WellFormed(reread) && Faithful(show, read)
    requires AllKeysBare(payload) && AllKeysBare(server) && IsBare(name)
    requires Apply(payload, name, server, false).Ok?
    requires var text := DumpText(Apply(payload, name, server, false).value.payload, show);
             TextDocument(text, read) == Some(Meaning(reread))
    ensures Apply(reread, name, server, false).Ok? && !Apply(reread, name, server, false).value.changed
    ensures Apply(reread, name, server, true).Ok?
    ensures ServersOf(Meaning(Apply(reread, name, server, true).value.payload)) == ServersOf(Meaning(payload)) - {name}
  {
    OnlyTheEntryChanges(payload, name, server, false);
    InstallKeepsBare(payload, name, server);
    TextRoundTripIff(Apply(payload, name, server, false).value.payload, show, read);
    RefusedIff(reread, name, server, false);
    RefusedIff(reread, name, server, true);
    OnlyTheEntryChanges(reread, name, server, false);
    OnlyTheEntryChanges(reread, name, server, true);
  }

  /** Whatever the configuration held and whatever is read back from the file: a second
      install under a name that is not bare reports a change. */
  lemma SecondInstallChangesAgain(payload: Entries, name: Key, server: Entries, reread: Entries,
                                  show: Scalar -> string, read: string -> Option<Scalar>)
    requires WellFormed(payload) && WellFormed(server) && WellFormed(reread) && !IsBare(name)
    requires Apply(payload, name, server, false).Ok? && Apply(reread, name, server, false).Ok?
    requires var text := DumpText(Apply(payload, name, server, false).value.payload, show);
             TextDocument(text, read) == Some(Meaning(reread))
    ensures Apply(reread, name, server, false).value.changed
  {
    var text := DumpText(Apply(payload, name, server, false).value.payload, show);
    ReadTextsAreBare(Split(text, '\n'), read);
    OnlyTheEntryChanges(reread, name, server, false);
    assert BareDocument(Meaning(reread)) && BareDocument(ServersOf(Meaning(reread)));
  }

  /** So for a configuration and a server of bare keys, a second install is silent exactly if
      the server name is bare. */
  lemma SecondInstallSilentIff(payload: Entries, name: Key, server: Entries, reread: Entries,
                               show: Scalar -> string, read: string -> Option<Scalar>)
    requires WellFormed(payload) && WellFormed(server) && WellFormed(reread) && Faithful(show, read)
    requires AllKeysBare(payload) && AllKeysBare(server)
    requires Apply(payload, name, server, false).Ok? && Apply(reread, name, server, false).Ok?
    requires var text := DumpText(Apply(payload, name, server, false).value.payload, show);
             TextDocument(text, read) == Some(Meaning(reread))
    ensures !Apply(reread, name, server, false).value.changed <==> IsBare(name)
  {
    if IsBare(name) {
      SecondInstallChangesNothing(payload, name, server, reread, show, read);
    } else {
      SecondInstallChangesAgain(payload, name, server, reread, show, read);
    }
  }
}
