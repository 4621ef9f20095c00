/** The tool broker's registries: tools and policies registered directly, and those that come
    and go with MCP servers. */
module BrokerRegistry {
  import opened Wrappers

  datatype Role = Owner | Admin | Operator | Viewer

  datatype Source = Mcp | ProviderNative | LocalSandbox

  datatype ToolDef = ToolDef(name: string, description: string)

  datatype ServerConfig = ServerConfig(id: string, endpoint: string)

  /** `client` identifies the connection a server tool delegates to. */
  datatype BrokerTool = BrokerTool(id: string, serverId: string, name: string, description: string,
                                   sensitive: bool, source: Source, client: Option<nat>)

  datatype Policy = Policy(toolName: string, sensitive: bool, requiresApproval: bool, allowedRoles: set<Role>)

  datatype Broker = Broker(tools: map<string, BrokerTool>, policies: map<string, Policy>, clients: map<string, nat>,
                           configs: map<string, ServerConfig>, serverTools: map<string, set<string>>)

  const EMPTY := Broker(map[], map[], map[], map[], map[])

  /** The name patterns of destructive tools are abstracted to `sensitive`. */
  type Sensitivity = string -> bool

  function ToolFor(sensitive: Sensitivity, serverId: string, client: nat, def: ToolDef): BrokerTool {
    BrokerTool(serverId + ":" + def.name, serverId, def.name, def.description, sensitive(def.name), Mcp, Some(client))
  }

  function PolicyFor(sensitive: Sensitivity, name: string): Policy {
    var s := sensitive(name);
    Policy(name, s, s, if s then {Owner, Admin} else {Owner, Admin, Operator, Viewer})
  }

  /** What a server registers; of two tools with one name the later stays. */
  function ServerTools(sensitive: Sensitivity, serverId: string, client: nat, defs: seq<ToolDef>)
    : (m: map<string, BrokerTool>)
    ensures m.Keys == NamesOf(defs)
  {
    if defs == [] then map[]
    else
      var last := defs[|defs| - 1];
      var front := ServerTools(sensitive, serverId, client, defs[..|defs| - 1]);
      front[last.name := ToolFor(sensitive, serverId, client, last)]
  }

  function ServerPolicies(sensitive: Sensitivity, names: set<string>): (m: map<string, Policy>)
    ensures m.Keys == names
  {
    map name | name in names :: PolicyFor(sensitive, name)
  }

  function NamesOf(defs: seq<ToolDef>): set<string> {
    if defs == [] then {} else NamesOf(defs[..|defs| - 1]) + {defs[|defs| - 1].name}
  }

  // ----- Operations ---------------------------------------------------------------------------

  function RegisterTool(b: Broker, tool: BrokerTool): Broker {
    b.(tools := b.tools[tool.name := tool])
  }

  function RegisterPolicy(b: Broker, p: Policy): Broker {
    b.(policies := b.policies[p.toolName := p])
  }

  function Disconnect(b: Broker, id: string): Broker {
    var names := if id in b.serverTools then b.serverTools[id] else {};
    Broker(b.tools - names, b.policies - names, b.clients - {id}, b.configs - {id}, b.serverTools - {id})
  }

  function Install(sensitive: Sensitivity, b: Broker, config: ServerConfig, client: nat, defs: seq<ToolDef>): Broker {
    Broker(b.tools + ServerTools(sensitive, config.id, client, defs),
           b.policies + ServerPolicies(sensitive, NamesOf(defs)),
           b.clients[config.id := client], b.configs[config.id := config], b.serverTools[config.id := NamesOf(defs)])
  }

  /** `answer` is what connecting and listing tools gave; None when either threw. */
  function Connect(sensitive: Sensitivity, b: Broker, config: ServerConfig, client: nat, answer: Option<seq<ToolDef>>)
    : Broker
  {
    var c := if config.id in b.clients then Disconnect(b, config.id) else b;
    match answer
    case None => c
    case Some(defs) => Install(sensitive, c, config, client, defs)
  }

  // ----- A map kept as the sum of disjoint parts --------------------------------------------------

  ghost predicate InPart<V>(parts: map<string, map<string, V>>, id: string, name: string) {
    id in parts && name in parts[id]
  }

  /** `m` holds the entries of `own` and of every part, and nothing else. */
  ghost predicate Merged<V>(m: map<string, V>, own: map<string, V>, parts: map<string, map<string, V>>) {
    && (forall name :: name in m ==> name in own || exists id :: InPart(parts, id, name))
    && (forall name :: name in own ==> name in m && m[name] == own[name])
    && (forall id, name :: InPart(parts, id, name) ==> name in m && m[name] == parts[id][name])
  }

  ghost predicate Apart<V>(own: map<string, V>, parts: map<string, map<string, V>>) {
    && (forall i, j, name :: InPart(parts, i, name) && InPart(parts, j, name) ==> i == j)
    && (forall i, name :: InPart(parts, i, name) ==> name !in own)
  }

  lemma MergedIsUnique<V>(m: map<string, V>, n: map<string, V>, own: map<string, V>, parts: map<string, map<string, V>>)
    requires Merged(m, own, parts) && Merged(n, own, parts)
    ensures m == n
  {
    MergedWithin(m, n, own, parts);
    MergedWithin(n, m, own, parts);
    assert m.Keys == n.Keys;
  }

  lemma MergedWithin<V>(m: map<string, V>, n: map<string, V>, own: map<string, V>, parts: map<string, map<string, V>>)
    requires Merged(m, own, parts) && Merged(n, own, parts)
    ensures forall name :: name in m ==> name in n && n[name] == m[name]
  {
    forall name | name in m ensures name in n && n[name] == m[name] {
      if name !in own {
        var id :| InPart(parts, id, name);
      }
    }
  }

  lemma RemovePart<V>(m: map<string, V>, own: map<string, V>, parts: map<string, map<string, V>>, id: string)
    requires Merged(m, own, parts) && Apart(own, parts)
    ensures var names := if id in parts then parts[id].Keys else {};
      Merged(m - names, own, parts - {id}) && Apart(own, parts - {id})
  {
    var names := if id in parts then parts[id].Keys else {};
    var rest := parts - {id};
    assert forall name :: name in names <==> InPart(parts, id, name);
    assert forall i, name :: InPart(rest, i, name) <==> InPart(parts, i, name) && i != id;
    forall name | name in m - names ensures name in own || exists i :: InPart(rest, i, name) {
      if name !in own {
        var i :| InPart(parts, i, name);
        assert InPart(rest, i, name);
      }
    }
  }

  lemma AddPart<V>(m: map<string, V>, own: map<string, V>, parts: map<string, map<string, V>>, id: string,
                   part: map<string, V>)
    requires Merged(m, own, parts) && id !in parts && Apart(own, parts[id := part])
    ensures Merged(m + part, own, parts[id := part])
  {
    var more := parts[id := part];
    assert forall i, name :: InPart(more, i, name) <==> InPart(parts, i, name) || (i == id && name in part);
    forall name | name in part ensures name !in own && forall i :: !InPart(parts, i, name) {
      assert InPart(more, id, name);
    }
    forall name | name in m + part ensures name in own || exists i :: InPart(more, i, name) {
      if name in part {
        assert InPart(more, id, name);
      } else if name !in own {
        var i :| InPart(parts, i, name);
        assert InPart(more, i, name);
      }
    }
  }

  lemma SetOwn<V>(m: map<string, V>, own: map<string, V>, parts: map<string, map<string, V>>, name: string, v: V)
    requires Merged(m, own, parts) && forall id :: !InPart(parts, id, name)
    ensures Merged(m[name := v], own[name := v], parts)
  {
  }

  // ----- The broker as rebuilt from what is registered and connected ------------------------------

  datatype Server = Server(config: ServerConfig, client: nat, defs: seq<ToolDef>)

  /** What has been registered directly, and the servers that are connected. */
  datatype Wiring = Wiring(direct: map<string, BrokerTool>, directPolicies: map<string, Policy>,
                           servers: map<string, Server>)

  const NOTHING_WIRED := Wiring(map[], map[], map[])

  function ToolParts(sensitive: Sensitivity, w: Wiring): map<string, map<string, BrokerTool>> {
    map id | id in w.servers :: ServerTools(sensitive, id, w.servers[id].client, w.servers[id].defs)
  }

  function PolicyParts(sensitive: Sensitivity, w: Wiring): map<string, map<string, Policy>> {
    map id | id in w.servers :: ServerPolicies(sensitive, NamesOf(w.servers[id].defs))
  }

  /** Server tool names are pairwise disjoint and disjoint from direct registrations. */
  ghost predicate Disjoint(sensitive: Sensitivity, w: Wiring) {
    Apart(w.direct, ToolParts(sensitive, w)) && Apart(w.directPolicies, PolicyParts(sensitive, w))
  }

  /** The broker's maps are the direct entries plus those of the connected servers. */
  ghost predicate Rebuilt(sensitive: Sensitivity, b: Broker, w: Wiring) {
    && b.clients == (map id | id in w.servers :: w.servers[id].client)
    && b.configs == (map id | id in w.servers :: w.servers[id].config)
    && b.serverTools == (map id | id in w.servers :: NamesOf(w.servers[id].defs))
    && Merged(b.tools, w.direct, ToolParts(sensitive, w))
    && Merged(b.policies, w.directPolicies, PolicyParts(sensitive, w))
  }

  /** The maps are determined by the wiring. */
  lemma WiringDeterminesBroker(sensitive: Sensitivity, a: Broker, b: Broker, w: Wiring)
    requires Rebuilt(sensitive, a, w) && Rebuilt(sensitive, b, w)
    ensures a == b
  {
    MergedIsUnique(a.tools, b.tools, w.direct, ToolParts(sensitive, w));
    MergedIsUnique(a.policies, b.policies, w.directPolicies, PolicyParts(sensitive, w));
  }

  lemma DisconnectRebuilds(sensitive: Sensitivity, b: Broker, w: Wiring, id: string)
    requires Rebuilt(sensitive, b, w) && Disjoint(sensitive, w)
    ensures Rebuilt(sensitive, Disconnect(b, id), w.(servers := w.servers - {id}))
    ensures Disjoint(sensitive, w.(servers := w.servers - {id}))
  {
    hide Merged, Apart, ServerTools, ServerPolicies, NamesOf, ToolParts, PolicyParts;
    PartsWithout(sensitive, w, id);
    PartKeys(sensitive, w);
    RemovePart(b.tools, w.direct, ToolParts(sensitive, w), id);
    RemovePart(b.policies, w.directPolicies, PolicyParts(sensitive, w), id);
    ServersWithout(w, id);
  }

  lemma ServersWithout(w: Wiring, id: string)
    ensures var v := w.servers - {id};
      && (map i | i in v :: v[i].client) == (map i | i in w.servers :: w.servers[i].client) - {id}
      && (map i | i in v :: v[i].config) == (map i | i in w.servers :: w.servers[i].config) - {id}
      && (map i | i in v :: NamesOf(v[i].defs)) == (map i | i in w.servers :: NamesOf(w.servers[i].defs)) - {id}
  {
    hide NamesOf;
  }

  lemma PartsWithout(sensitive: Sensitivity, w: Wiring, id: string)
    ensures var v := w.(servers := w.servers - {id});
      && ToolParts(sensitive, v) == ToolParts(sensitive, w) - {id}
      && PolicyParts(sensitive, v) == PolicyParts(sensitive, w) - {id}
  {
    hide ServerTools, ServerPolicies, NamesOf;
  }

  lemma PartKeys(sensitive: Sensitivity, w: Wiring)
    ensures ToolParts(sensitive, w).Keys == w.servers.Keys && PolicyParts(sensitive, w).Keys == w.servers.Keys
    ensures forall id :: id in w.servers ==>
              ToolParts(sensitive, w)[id].Keys == PolicyParts(sensitive, w)[id].Keys == NamesOf(w.servers[id].defs)
  {
    hide ServerTools, ServerPolicies, NamesOf;
  }

  function WithServer(w: Wiring, config: ServerConfig, client: nat, defs: seq<ToolDef>): Wiring {
    w.(servers := w.servers[config.id := Server(config, client, defs)])
  }

  lemma ToolPartsWith(sensitive: Sensitivity, w: Wiring, config: ServerConfig, client: nat, defs: seq<ToolDef>)
    ensures ToolParts(sensitive, WithServer(w, config, client, defs))
         == ToolParts(sensitive, w)[config.id := ServerTools(sensitive, config.id, client, defs)]
  {
    hide ServerTools, NamesOf;
  }

  lemma PolicyPartsWith(sensitive: Sensitivity, w: Wiring, config: ServerConfig, client: nat, defs: seq<ToolDef>)
    ensures PolicyParts(sensitive, WithServer(w, config, client, defs))
         == PolicyParts(sensitive, w)[config.id := ServerPolicies(sensitive, NamesOf(defs))]
  {
    hide ServerPolicies, NamesOf;
  }

  lemma InstallRebuilds(sensitive: Sensitivity, b: Broker, w: Wiring, config: ServerConfig, client: nat,
                        defs: seq<ToolDef>)
    requires Rebuilt(sensitive, b, w) && config.id !in w.servers
    requires Disjoint(sensitive, WithServer(w, config, client, defs))
    ensures Rebuilt(sensitive, Install(sensitive, b, config, client, defs), WithServer(w, config, client, defs))
  {
    hide Apart, ServerTools, ServerPolicies, NamesOf, ToolParts, PolicyParts, Merged;
    ToolPartsWith(sensitive, w, config, client, defs);
    PolicyPartsWith(sensitive, w, config, client, defs);
    PartKeys(sensitive, w);
    AddPart(b.tools, w.direct, ToolParts(sensitive, w), config.id, ServerTools(sensitive, config.id, client, defs));
    AddPart(b.policies, w.directPolicies, PolicyParts(sensitive, w), config.id,
            ServerPolicies(sensitive, NamesOf(defs)));
    ServersListed(w, config, client, defs);
  }

  lemma ServersListed(w: Wiring, config: ServerConfig, client: nat, defs: seq<ToolDef>)
    ensures var v := WithServer(w, config, client, defs).servers;
      && (map id | id in v :: v[id].client) == (map id | id in w.servers :: w.servers[id].client)[config.id := client]
      && (map id | id in v :: v[id].config) == (map id | id in w.servers :: w.servers[id].config)[config.id := config]
      && (map id | id in v :: NamesOf(v[id].defs))
          == (map id | id in w.servers :: NamesOf(w.servers[id].defs))[config.id := NamesOf(defs)]
  {
    hide NamesOf;
  }

  // ----- Every run -------------------------------------------------------------------------------

  datatype Op =
    | AddTool(tool: BrokerTool)
    | AddPolicy(policy: Policy)
    | ConnectServer(config: ServerConfig, client: nat, answer: Option<seq<ToolDef>>)
    | DisconnectServer(id: string)

  function Apply(sensitive: Sensitivity, b: Broker, op: Op): Broker {
    match op
    case AddTool(t) => RegisterTool(b, t)
    case AddPolicy(p) => RegisterPolicy(b, p)
    case ConnectServer(config, client, answer) => Connect(sensitive, b, config, client, answer)
    case DisconnectServer(id) => Disconnect(b, id)
  }

  /** The wiring an operation leaves; a failed connect has already dropped the old connection. */
  function Rewire(w: Wiring, op: Op): Wiring {
    match op
    case AddTool(t) => w.(direct := w.direct[t.name := t])
    case AddPolicy(p) => w.(directPolicies := w.directPolicies[p.toolName := p])
    case ConnectServer(config, client, answer) =>
      if answer.None? then w.(servers := w.servers - {config.id})
      else WithServer(w, config, client, answer.value)
    case DisconnectServer(id) => w.(servers := w.servers - {id})
  }

  lemma StepRebuilds(sensitive: Sensitivity, b: Broker, w: Wiring, op: Op)
    requires Rebuilt(sensitive, b, w) && Disjoint(sensitive, w) && Disjoint(sensitive, Rewire(w, op))
    ensures Rebuilt(sensitive, Apply(sensitive, b, op), Rewire(w, op))
  {
    match op
    case AddTool(t) =>
      assert ToolParts(sensitive, Rewire(w, op)) == ToolParts(sensitive, w);
      assert PolicyParts(sensitive, Rewire(w, op)) == PolicyParts(sensitive, w);
      SetOwn(b.tools, w.direct, ToolParts(sensitive, w), t.name, t);
    case AddPolicy(p) =>
      assert ToolParts(sensitive, Rewire(w, op)) == ToolParts(sensitive, w);
      assert PolicyParts(sensitive, Rewire(w, op)) == PolicyParts(sensitive, w);
      SetOwn(b.policies, w.directPolicies, PolicyParts(sensitive, w), p.toolName, p);
    case ConnectServer(config, client, answer) =>
      ConnectRebuilds(sensitive, b, w, config, client, answer);
    case DisconnectServer(id) => DisconnectRebuilds(sensitive, b, w, id);
  }

  lemma ConnectRebuilds(sensitive: Sensitivity, b: Broker, w: Wiring, config: ServerConfig, client: nat,
                        answer: Option<seq<ToolDef>>)
    requires Rebuilt(sensitive, b, w) && Disjoint(sensitive, w)
    requires Disjoint(sensitive, Rewire(w, ConnectServer(config, client, answer)))
    ensures Rebuilt(sensitive, Connect(sensitive, b, config, client, answer),
                    Rewire(w, ConnectServer(config, client, answer)))
  {
    hide Merged, Apart, Install, Disconnect, ToolParts, PolicyParts, Disjoint, NamesOf;
    var c := if config.id in b.clients then Disconnect(b, config.id) else b;
    var v := w.(servers := w.servers - {config.id});
    DisconnectRebuilds(sensitive, b, w, config.id);
    if config.id !in b.clients {
      assert w.servers - {config.id} == w.servers;
      assert v == w;
    }
    if answer.Some? {
      assert WithServer(v, config, client, answer.value) == WithServer(w, config, client, answer.value);
      InstallRebuilds(sensitive, c, v, config, client, answer.value);
    }
  }

  function Run(sensitive: Sensitivity, b: Broker, ops: seq<Op>): Broker
    decreases |ops|
  {
    if ops == [] then b else Run(sensitive, Apply(sensitive, b, ops[0]), ops[1..])
  }

  function RewireAll(w: Wiring, ops: seq<Op>): Wiring
    decreases |ops|
  {
    if ops == [] then w else RewireAll(Rewire(w, ops[0]), ops[1..])
  }

  /** Names never collide along the way. */
  ghost predicate AlwaysDisjoint(sensitive: Sensitivity, w: Wiring, ops: seq<Op>)
    decreases |ops|
  {
    Disjoint(sensitive, w) && (ops != [] ==> AlwaysDisjoint(sensitive, Rewire(w, ops[0]), ops[1..]))
  }

  /** While names stay disjoint, in every run the tool and policy maps equal the direct entries
      plus those rebuilt from the servers connected at that point. */
  lemma {:induction false} EveryRunIsRebuilt(sensitive: Sensitivity, b: Broker, w: Wiring, ops: seq<Op>)
    requires Rebuilt(sensitive, b, w) && AlwaysDisjoint(sensitive, w, ops)
    ensures Rebuilt(sensitive, Run(sensitive, b, ops), RewireAll(w, ops))
    decreases |ops|
  {
    if ops != [] {
      StepRebuilds(sensitive, b, w, ops[0]);
      EveryRunIsRebuilt(sensitive, Apply(sensitive, b, ops[0]), Rewire(w, ops[0]), ops[1..]);
    }
  }

  /** A new broker is rebuilt from nothing. */
  lemma EmptyIsRebuilt(sensitive: Sensitivity)
    ensures Rebuilt(sensitive, EMPTY, NOTHING_WIRED) && Disjoint(sensitive, NOTHING_WIRED)
  {
    assert ToolParts(sensitive, NOTHING_WIRED) == map[] && PolicyParts(sensitive, NOTHING_WIRED) == map[];
  }

  /** From a new broker on, while names stay disjoint, the maps are the direct entries plus those
      of the servers connected at that point. */
  lemma EveryBrokerIsRebuilt(sensitive: Sensitivity, ops: seq<Op>)
    requires AlwaysDisjoint(sensitive, NOTHING_WIRED, ops)
    ensures Rebuilt(sensitive, Run(sensitive, EMPTY, ops), RewireAll(NOTHING_WIRED, ops))
  {
    EmptyIsRebuilt(sensitive);
    EveryRunIsRebuilt(sensitive, EMPTY, NOTHING_WIRED, ops);
  }

  /** The same servers are known to all three server maps. */
  ghost predicate SameServers(b: Broker) {
    b.clients.Keys == b.serverTools.Keys == b.configs.Keys
  }

  /** In every run, whether names collide or not. */
  lemma {:induction false} EveryRunKeepsServers(sensitive: Sensitivity, b: Broker, ops: seq<Op>)
    requires SameServers(b)
    ensures SameServers(Run(sensitive, b, ops))
    decreases |ops|
  {
    if ops != [] {
      assert SameServers(Apply(sensitive, b, ops[0])) by { hide ServerTools, ServerPolicies, NamesOf; }
      EveryRunKeepsServers(sensitive, Apply(sensitive, b, ops[0]), ops[1..]);
    }
  }

  /** At any point of any run, connecting an id is disconnecting it and connecting it afresh,
      whatever it had registered before and whether or not names collide. */
  lemma ReconnectIsFresh(sensitive: Sensitivity, ops: seq<Op>, config: ServerConfig, client: nat,
                         answer: Option<seq<ToolDef>>)
    ensures var b := Run(sensitive, EMPTY, ops);
      Connect(sensitive, b, config, client, answer)
        == Connect(sensitive, Disconnect(b, config.id), config, client, answer)
  {
    var b := Run(sensitive, EMPTY, ops);
    EveryRunKeepsServers(sensitive, EMPTY, ops);
    hide Install, Run;
    if config.id !in b.clients {
      NothingToDisconnect(b, config.id);
    }
  }

  predicate Mentions(op: Op, id: string) {
    match op
    case ConnectServer(config, _, _) => config.id == id
    case DisconnectServer(other) => other == id
    case _ => false
  }

  /** The run of a broker that never heard of the server. */
  function Forget(ops: seq<Op>, id: string): seq<Op> {
    if ops == [] then []
    else (if Mentions(ops[0], id) then [] else [ops[0]]) + Forget(ops[1..], id)
  }

  function Unplugged(w: Wiring, id: string): Wiring {
    w.(servers := w.servers - {id})
  }

  lemma UnpluggedIsDisjoint(sensitive: Sensitivity, w: Wiring, id: string)
    requires Disjoint(sensitive, w)
    ensures Disjoint(sensitive, Unplugged(w, id))
  {
    PartsWithout(sensitive, w, id);
    hide ToolParts, PolicyParts;
    var tools, policies := ToolParts(sensitive, w), PolicyParts(sensitive, w);
    assert forall i, name :: InPart(tools - {id}, i, name) ==> InPart(tools, i, name);
    assert forall i, name :: InPart(policies - {id}, i, name) ==> InPart(policies, i, name);
  }

  lemma RewireUnplugged(w: Wiring, op: Op, id: string)
    ensures Mentions(op, id) ==> Unplugged(Rewire(w, op), id) == Unplugged(w, id)
    ensures !Mentions(op, id) ==> Unplugged(Rewire(w, op), id) == Rewire(Unplugged(w, id), op)
  {
  }

  /** Forgetting a server forgets its part of the wiring and nothing else, and frees names only. */
  lemma {:induction false} ForgetUnplugs(sensitive: Sensitivity, w: Wiring, ops: seq<Op>, id: string)
    requires AlwaysDisjoint(sensitive, w, ops)
    ensures RewireAll(Unplugged(w, id), Forget(ops, id)) == Unplugged(RewireAll(w, ops), id)
    ensures AlwaysDisjoint(sensitive, Unplugged(w, id), Forget(ops, id))
    ensures Disjoint(sensitive, RewireAll(w, ops))
    decreases |ops|
  {
    UnpluggedIsDisjoint(sensitive, w, id);
    hide Disjoint, Rewire, Unplugged;
    if ops != [] {
      RewireUnplugged(w, ops[0], id);
      ForgetUnplugs(sensitive, Rewire(w, ops[0]), ops[1..], id);
      if Mentions(ops[0], id) {
        assert [] + Forget(ops[1..], id) == Forget(ops[1..], id);
      } else {
        assert ([ops[0]] + Forget(ops[1..], id))[1..] == Forget(ops[1..], id);
      }
    }
  }

  lemma ConnectUnplugged(w: Wiring, config: ServerConfig, client: nat, answer: Option<seq<ToolDef>>)
    ensures Rewire(Unplugged(w, config.id), ConnectServer(config, client, answer))
         == Rewire(w, ConnectServer(config, client, answer))
  {
  }

  /** Connecting a server after any run that kept names disjoint, whatever had been registered
      under its id, gives the broker that connecting it to a broker that never heard of the id
      gives. */
  lemma ReconnectEqualsFirstConnect(sensitive: Sensitivity, ops: seq<Op>, config: ServerConfig, client: nat,
                                    answer: Option<seq<ToolDef>>)
    requires AlwaysDisjoint(sensitive, NOTHING_WIRED, ops)
    requires Disjoint(sensitive, Rewire(RewireAll(NOTHING_WIRED, ops), ConnectServer(config, client, answer)))
    ensures Connect(sensitive, Run(sensitive, EMPTY, ops), config, client, answer)
         == Connect(sensitive, Run(sensitive, EMPTY, Forget(ops, config.id)), config, client, answer)
  {
    var w := RewireAll(NOTHING_WIRED, ops);
    assert Unplugged(NOTHING_WIRED, config.id) == NOTHING_WIRED;
    ForgetUnplugs(sensitive, NOTHING_WIRED, ops, config.id);
    UnpluggedIsDisjoint(sensitive, w, config.id);
    ConnectUnplugged(w, config, client, answer);
    EveryBrokerIsRebuilt(sensitive, ops);
    EveryBrokerIsRebuilt(sensitive, Forget(ops, config.id));
    hide Disjoint, AlwaysDisjoint, Rewire, RewireAll, Rebuilt, Unplugged, Connect, Run, Forget;
    ConnectRebuilds(sensitive, Run(sensitive, EMPTY, ops), w, config, client, answer);
    ConnectRebuilds(sensitive, Run(sensitive, EMPTY, Forget(ops, config.id)), Unplugged(w, config.id),
                    config, client, answer);
    WiringDeterminesBroker(sensitive, Connect(sensitive, Run(sensitive, EMPTY, ops), config, client, answer),
                           Connect(sensitive, Run(sensitive, EMPTY, Forget(ops, config.id)), config, client, answer),
                           Rewire(w, ConnectServer(config, client, answer)));
  }

  lemma NothingToDisconnect(b: Broker, id: string)
    requires id !in b.clients && id !in b.configs && id !in b.serverTools
    ensures Disconnect(b, id) == b
  {
    assert b.tools - {} == b.tools && b.policies - {} == b.policies;
    assert b.clients - {id} == b.clients && b.configs - {id} == b.configs && b.serverTools - {id} == b.serverTools;
  }

  /** Disconnecting undoes connecting a new server if and only if its tool names were free. */
  lemma DisconnectUndoesConnectExactly(sensitive: Sensitivity, b: Broker, config: ServerConfig, client: nat,
                                       defs: seq<ToolDef>)
    requires config.id !in b.clients && config.id !in b.configs && config.id !in b.serverTools
    ensures Disconnect(Connect(sensitive, b, config, client, Some(defs)), config.id) == b
       <==> NamesOf(defs) !! b.tools.Keys && NamesOf(defs) !! b.policies.Keys
  {
    hide ServerTools, ServerPolicies, NamesOf;
    var c := Connect(sensitive, b, config, client, Some(defs));
    var d := Disconnect(c, config.id);
    var names := NamesOf(defs);
    AddedThenRemoved(b.tools, ServerTools(sensitive, config.id, client, defs));
    AddedThenRemoved(b.policies, ServerPolicies(sensitive, names));
    assert d == Broker(b.tools - names, b.policies - names, b.clients, b.configs, b.serverTools);
    RemovingChangesNothing(b.tools, names);
    RemovingChangesNothing(b.policies, names);
  }

  lemma AddedThenRemoved<V>(m: map<string, V>, part: map<string, V>)
    ensures (m + part) - part.Keys == m - part.Keys
  {
  }

  lemma RemovingChangesNothing<V>(m: map<string, V>, names: set<string>)
    ensures m - names == m <==> names !! m.Keys
  {
    if m - names == m {
      forall name | name in names ensures name !in m {
        assert name !in m - names;
      }
    } else {
      assert (m - names).Keys == m.Keys - names;
    }
  }

  // ----- A direct registration lost -----------------------------------------------------------------

  const DIRECT := BrokerTool("t", "", "t", "direct", false, LocalSandbox, None)

  const SERVER := ServerConfig("s", "stdio")

  /** A tool registered directly, a server that lists a tool of the same name, and its
      disconnection: the direct tool is gone. */
  lemma DirectToolIsLost(sensitive: Sensitivity)
    ensures var connect := ConnectServer(SERVER, 1, Some([ToolDef("t", "remote")]));
      var ops := [AddTool(DIRECT), connect, DisconnectServer("s")];
      && Run(sensitive, EMPTY, ops[..1]).tools == map["t" := DIRECT]
      && Run(sensitive, EMPTY, ops) == EMPTY
  {
    var add, connect := AddTool(DIRECT), ConnectServer(SERVER, 1, Some([ToolDef("t", "remote")]));
    var ops := [add, connect, DisconnectServer("s")];
    var a, defs := RegisterTool(EMPTY, DIRECT), [ToolDef("t", "remote")];
    assert EMPTY.tools["t" := DIRECT] == map["t" := DIRECT];
    assert ops[..1] == [add] && [add][1..] == [];
    assert Run(sensitive, a, []) == a;
    assert ops[1..] == [connect, DisconnectServer("s")];
    assert [connect, DisconnectServer("s")][1..] == [DisconnectServer("s")] && [DisconnectServer("s")][1..] == [];
    assert defs[..0] == [] && NamesOf(defs) == {"t"};
    var b := Connect(sensitive, a, SERVER, 1, Some(defs));
    assert Disconnect(b, "s") == EMPTY;
    assert Run(sensitive, b, [DisconnectServer("s")]) == Run(sensitive, Disconnect(b, "s"), []);
  }

  // ----- Execution -------------------------------------------------------------------------------

  datatype Refusal = UnknownTool | RoleNotAllowed | ApprovalRequired

  datatype Call = Call(toolName: string, role: Role, approvalMode: bool, approved: bool)

  /** The checks of `execute` before the tool runs. */
  function Authorize(b: Broker, c: Call): Result<BrokerTool, Refusal> {
    if c.toolName !in b.tools then Err(UnknownTool)
    else if c.toolName in b.policies && c.role !in b.policies[c.toolName].allowedRoles then Err(RoleNotAllowed)
    else if c.toolName in b.policies && b.policies[c.toolName].requiresApproval && c.approvalMode && !c.approved then
      Err(ApprovalRequired)
    else Ok(b.tools[c.toolName])
  }

  /** A tool of a connected server runs exactly for owners and admins with approval where
      approval applies, if its name is sensitive, and for everyone otherwise. */
  lemma ServerToolsAreGuarded(sensitive: Sensitivity, b: Broker, w: Wiring, id: string, c: Call)
    requires Rebuilt(sensitive, b, w) && Disjoint(sensitive, w)
    requires id in w.servers && c.toolName in NamesOf(w.servers[id].defs)
    ensures Authorize(b, c).Ok? <==>
              (sensitive(c.toolName) ==> (c.role == Owner || c.role == Admin) && (c.approvalMode ==> c.approved))
  {
    hide Merged, ServerTools, NamesOf, Disjoint;
    ServerEntries(sensitive, b, w, id, c.toolName);
    hide Rebuilt, ToolParts, PolicyParts, ServerPolicies;
    assert c.role == Owner || c.role == Admin || c.role == Operator || c.role == Viewer;
  }

  lemma ServerEntries(sensitive: Sensitivity, b: Broker, w: Wiring, id: string, name: string)
    requires Rebuilt(sensitive, b, w) && id in w.servers && name in NamesOf(w.servers[id].defs)
    ensures name in b.tools && name in b.policies && b.policies[name] == PolicyFor(sensitive, name)
  {
    hide Merged, ServerTools, NamesOf;
    var parts := PolicyParts(sensitive, w);
    PartKeys(sensitive, w);
    assert parts[id] == ServerPolicies(sensitive, NamesOf(w.servers[id].defs));
    PartIsMerged(b.tools, w.direct, ToolParts(sensitive, w), id, name);
    PartIsMerged(b.policies, w.directPolicies, parts, id, name);
  }

  lemma PartIsMerged<V>(m: map<string, V>, own: map<string, V>, parts: map<string, map<string, V>>, id: string,
                        name: string)
    requires Merged(m, own, parts) && id in parts && name in parts[id]
    ensures name in m && m[name] == parts[id][name]
  {
    assert InPart(parts, id, name);
  }
}
