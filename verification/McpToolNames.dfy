/** Names of tools on MCP servers: printing, parsing, and routing a call to the server it came from. */
module McpToolNames {
  import opened Options
  import opened Strings

  const PREFIX := "mcp__"
  const DELIM := "__"

  function Print(server: string, tool: string): string {
    PREFIX + server + DELIM + tool
  }

  predicate IsMcpTool(name: string) {
    PREFIX <= name
  }

  /** `ParseToolName`: the server reaches up to the first delimiter behind the prefix. */
  function Parse(name: string): Option<(string, string)> {
    if !IsMcpTool(name) then None
    else
      var d := Find(name, DELIM, |PREFIX|);
      if d == -1 then None else Some((name[|PREFIX|..d], name[d + |DELIM|..]))
  }

  /** A server name the parser can recognise: no delimiter inside, and no underscore at the end. */
  predicate Plain(server: string) {
    && (forall i :: 0 <= i < |server| - 1 ==> !(server[i] == '_' && server[i + 1] == '_'))
    && (server != "" ==> server[|server| - 1] != '_')
  }

  lemma DelimAt(s: string, p: nat)
    ensures OccursAt(s, DELIM, p) <==> p + 1 < |s| && s[p] == '_' && s[p + 1] == '_'
  {
    if p + 1 < |s| {
      assert s[p..p + 2] == [s[p], s[p + 1]];
    }
  }

  /** The first delimiter of the printed name is the one the printer put there exactly when the server name is plain. */
  lemma FirstDelimiter(server: string, tool: string)
    ensures Find(Print(server, tool), DELIM, |PREFIX|) == |PREFIX| + |server| <==> Plain(server)
  {
    var n, k := Print(server, tool), |PREFIX|;
    assert forall i :: 0 <= i < |server| ==> n[k + i] == server[i];
    assert n[k + |server|] == '_' && n[k + |server| + 1] == '_';
    DelimAt(n, k + |server|);
    if Plain(server) {
      forall p | k <= p < k + |server| ensures !OccursAt(n, DELIM, p) {
        DelimAt(n, p);
        assert n[p] == server[p - k];
        if p + 1 < k + |server| {
          assert n[p + 1] == server[p + 1 - k];
        }
      }
      FoundFirst(n, DELIM, k, k + |server|);
    } else if server[|server| - 1] == '_' {
      DelimAt(n, k + |server| - 1);
    } else {
      var i :| 0 <= i < |server| - 1 && server[i] == '_' && server[i + 1] == '_';
      assert n[k + i + 1] == server[i + 1];
      DelimAt(n, k + i);
    }
  }

  /** Parsing undoes printing, for whatever tool name, exactly when the server name contains no delimiter and
      does not end in an underscore. */
  lemma ParsePrintIff(server: string, tool: string)
    ensures Parse(Print(server, tool)) == Some((server, tool)) <==> Plain(server)
  {
    var n, k := Print(server, tool), |PREFIX|;
    FirstDelimiter(server, tool);
    assert n[..k] == PREFIX;
    var d := Find(n, DELIM, k);
    if d == k + |server| {
      assert n[k..d] == server && n[d + |DELIM|..] == tool;
    } else if d != -1 {
      assert |n[k..d]| != |server|;
    }
  }

  /** Two printed names with plain servers are equal only for the same server and tool. */
  lemma PrintInjective(s1: string, t1: string, s2: string, t2: string)
    requires Plain(s1) && Plain(s2) && Print(s1, t1) == Print(s2, t2)
    ensures s1 == s2 && t1 == t2
  {
    ParsePrintIff(s1, t1);
    ParsePrintIff(s2, t2);
  }

  // ---------------------------------------------------------------- the manager

  datatype Config = Config(isHttp: bool, loaded: bool, tools: seq<string>)

  /** One entry of the configuration file, and how its server behaves when it is read: `usable` says that the
      url or command is given, `connects` that the connection and handshake succeed. */
  datatype ServerEntry = ServerEntry(name: string, isHttp: bool, usable: bool, connects: bool, tools: seq<string>)

  datatype Route = BadName | NotConfigured | ClientMissing | Http(server: string, tool: string) | Stdio(server: string, tool: string)

  class McpClientManager {
    var configs: map<string, Config>
    var clients: set<string>
    var httpClients: set<string>

    /** A loaded configuration always has a client of its own transport, and every cached declaration is a
        printed name of its own server. */
    ghost predicate Valid()
      reads this
    {
      && (forall s :: s in configs && configs[s].loaded ==> if configs[s].isHttp then s in httpClients else s in clients)
      && Declared(configs)
    }

    constructor ()
      ensures Valid() && configs == map[] && clients == {} && httpClients == {}
    {
      configs, clients, httpClients := map[], {}, {};
    }

    /** Reads a configuration, entry by entry; an unusable entry leaves an older configuration in place. */
    method LoadConfigAndConnect(entries: seq<ServerEntry>)
      requires Valid()
      modifies this
      ensures Valid()
      ensures configs == Loaded(old(configs), entries)
    {
      for i := 0 to |entries|
        invariant forall s :: s in configs && configs[s].loaded ==> if configs[s].isHttp then s in httpClients else s in clients
        invariant configs == Loaded(old(configs), entries[..i])
      {
        var e := entries[i];
        assert entries[..i + 1][..i] == entries[..i];
        if e.usable {
          if e.connects {
            if e.isHttp {
              httpClients := httpClients + {e.name};
            } else {
              clients := clients + {e.name};
            }
          }
          configs := configs[e.name := Config(e.isHttp, e.connects, if e.connects then Names(e.name, e.tools) else [])];
        }
      }
      assert entries[..|entries|] == entries;
      LoadedDeclares(old(configs), entries);
    }

    /** Where a call of the tool named `name` goes; with the invariant no client is ever missing. */
    method ExecuteTool(name: string) returns (r: Route)
      requires Valid()
      ensures r == RouteOf(configs, name) && !r.ClientMissing?
    {
      match Parse(name)
      case None => r := BadName;
      case Some((s, t)) =>
        if s !in configs || !configs[s].loaded {
          r := NotConfigured;
        } else if configs[s].isHttp {
          r := if s in httpClients then Http(s, t) else ClientMissing;
        } else {
          r := if s in clients then Stdio(s, t) else ClientMissing;
        }
    }
  }

  /** The server and transport that serve a tool name. */
  function RouteOf(configs: map<string, Config>, name: string): Route {
    match Parse(name)
    case None => BadName
    case Some((s, t)) =>
      if s !in configs || !configs[s].loaded then NotConfigured
      else if configs[s].isHttp then Http(s, t) else Stdio(s, t)
  }

  /** Every tool a loaded server declares is routed to that very server, over its transport and under the tool's
      own name, exactly when the server's name is plain, whatever other servers are configured. */
  lemma DeclaredRoutedIff(configs: map<string, Config>, server: string, tools: seq<string>, k: nat)
    requires server in configs && configs[server].loaded && k < |tools| && configs[server].tools == Names(server, tools)
    ensures (RouteOf(configs, configs[server].tools[k])
             == if configs[server].isHttp then Http(server, tools[k]) else Stdio(server, tools[k]))
        <==> Plain(server)
  {
    ParsePrintIff(server, tools[k]);
  }

  /** Every cached declaration is a printed name of its own server. */
  ghost predicate Declared(configs: map<string, Config>) {
    forall s :: s in configs ==> exists ts :: configs[s].tools == Names(s, ts)
  }

  /** Reading a configuration, over whatever was read before, keeps it so. */
  lemma {:induction false} LoadedDeclares(configs: map<string, Config>, entries: seq<ServerEntry>)
    requires Declared(configs)
    ensures Declared(Loaded(configs, entries))
    decreases |entries|
  {
    if entries != [] {
      LoadedDeclares(configs, entries[..|entries| - 1]);
      var e := entries[|entries| - 1];
      var ts := if e.connects then e.tools else [];
      assert Names(e.name, []) == [];
      assert (if e.connects then Names(e.name, e.tools) else []) == Names(e.name, ts);
    }
  }

  /** So, after any loads, each declared tool of a loaded server is routed to that server exactly when the
      server's name is plain. */
  lemma DeclaredReachable(configs: map<string, Config>, server: string, k: nat)
    requires Declared(configs) && server in configs && configs[server].loaded && k < |configs[server].tools|
    ensures exists tool :: configs[server].tools[k] == Print(server, tool)
                        && ((RouteOf(configs, configs[server].tools[k])
                             == if configs[server].isHttp then Http(server, tool) else Stdio(server, tool))
                            <==> Plain(server))
  {
    var ts :| configs[server].tools == Names(server, ts);
    DeclaredRoutedIff(configs, server, ts, k);
    assert configs[server].tools[k] == Print(server, ts[k]);
  }

  /** The declared names of a server's tools. */
  function Names(server: string, tools: seq<string>): (ns: seq<string>)
    ensures |ns| == |tools| && forall i :: 0 <= i < |ns| ==> ns[i] == Print(server, tools[i])
  {
    seq(|tools|, i requires 0 <= i < |tools| => Print(server, tools[i]))
  }

  function Loaded(configs: map<string, Config>, entries: seq<ServerEntry>): map<string, Config> {
    if entries == [] then configs
    else
      var before, e := Loaded(configs, entries[..|entries| - 1]), entries[|entries| - 1];
      if !e.usable then before
      else before[e.name := Config(e.isHttp, e.connects, if e.connects then Names(e.name, e.tools) else [])]
  }

  /** Entry `i` is the last usable one of its name. */
  predicate LastUsable(entries: seq<ServerEntry>, i: nat) {
    && i < |entries| && entries[i].usable
    && forall j :: i < j < |entries| ==> !(entries[j].usable && entries[j].name == entries[i].name)
  }

  /** What a load makes of a server, in terms of its last usable entry: it is loaded exactly if the connection
      succeeded, over the entry's transport, with one printed name per tool. */
  lemma {:induction false} LoadedFromEntry(configs: map<string, Config>, entries: seq<ServerEntry>, i: nat)
    requires LastUsable(entries, i)
    ensures var e, after := entries[i], Loaded(configs, entries);
            && e.name in after
            && (after[e.name].loaded <==> e.connects) && after[e.name].isHttp == e.isHttp
            && |after[e.name].tools| == (if e.connects then |e.tools| else 0)
            && forall k :: 0 <= k < |after[e.name].tools| ==> after[e.name].tools[k] == Print(e.name, e.tools[k])
    decreases |entries|
  {
    if i < |entries| - 1 {
      assert !(entries[|entries| - 1].usable && entries[|entries| - 1].name == entries[i].name);
      LoadedFromEntry(configs, entries[..|entries| - 1], i);
    }
  }

  /** A server without a usable entry keeps what it had. */
  lemma {:induction false} LoadedKeeps(configs: map<string, Config>, entries: seq<ServerEntry>, name: string)
    requires forall j :: 0 <= j < |entries| ==> !(entries[j].usable && entries[j].name == name)
    ensures name in Loaded(configs, entries) <==> name in configs
    ensures name in configs ==> Loaded(configs, entries)[name] == configs[name]
    decreases |entries|
  {
    if entries != [] {
      assert !(entries[|entries| - 1].usable && entries[|entries| - 1].name == name);
      LoadedKeeps(configs, entries[..|entries| - 1], name);
    }
  }

  /** So, for a plain name, a tool name of a server reaches that server, over its transport and under the tool's own
      name, exactly if the connection succeeded; otherwise the server counts as not configured. */
  lemma EntryReachedIff(configs: map<string, Config>, entries: seq<ServerEntry>, i: nat, tool: string)
    requires LastUsable(entries, i) && Plain(entries[i].name)
    ensures var e := entries[i];
            var r := RouteOf(Loaded(configs, entries), Print(e.name, tool));
            && ((r == if e.isHttp then Http(e.name, tool) else Stdio(e.name, tool)) <==> e.connects)
            && (r == NotConfigured <==> !e.connects)
  {
    LoadedFromEntry(configs, entries, i);
    ParsePrintIff(entries[i].name, tool);
  }
}
