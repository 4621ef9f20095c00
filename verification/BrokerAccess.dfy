/** Who may call which tool, at any point of a run of the broker, in terms of what has been registered
    directly and which servers are connected. */
module BrokerAccess {
  import opened Wrappers
  import opened BrokerRegistry

  /** The server lists the name, and `description` is that of its last listing. */
  ghost predicate LastListed(defs: seq<ToolDef>, name: string, description: string) {
    exists i :: 0 <= i < |defs| && defs[i] == ToolDef(name, description)
      && forall j :: i < j < |defs| ==> defs[j].name != name
  }

  lemma {:induction false} NamesAreListed(defs: seq<ToolDef>, name: string)
    ensures name in NamesOf(defs) <==> exists i :: 0 <= i < |defs| && defs[i].name == name
  {
    if defs != [] {
      var front := defs[..|defs| - 1];
      NamesAreListed(front, name);
      if i :| 0 <= i < |front| && front[i].name == name { assert defs[i].name == name; }
      if i :| 0 <= i < |defs| && defs[i].name == name { assert i < |front| ==> front[i].name == name; }
    }
  }

  lemma {:induction false} ServerToolIs(sensitive: Sensitivity, serverId: string, client: nat, defs: seq<ToolDef>,
                                        name: string)
    requires name in NamesOf(defs)
    ensures var t := ServerTools(sensitive, serverId, client, defs)[name];
      && t == BrokerTool(serverId + ":" + name, serverId, name, t.description, sensitive(name), Mcp, Some(client))
      && LastListed(defs, name, t.description)
  {
    var front, last := defs[..|defs| - 1], defs[|defs| - 1];
    var t := ServerTools(sensitive, serverId, client, defs)[name];
    if last.name == name {
      assert defs[|defs| - 1] == ToolDef(name, t.description);
    } else {
      ServerToolIs(sensitive, serverId, client, front, name);
      var i :| 0 <= i < |front| && front[i] == ToolDef(name, t.description)
        && forall j :: i < j < |front| ==> front[j].name != name;
      forall j | i < j < |defs| ensures defs[j].name != name {
        if j < |front| { assert defs[j] == front[j]; }
      }
      assert defs[i] == ToolDef(name, t.description);
    }
  }

  ghost predicate ListedBy(w: Wiring, id: string, name: string) {
    id in w.servers && exists i :: 0 <= i < |w.servers[id].defs| && w.servers[id].defs[i].name == name
  }

  /** What a call of a directly registered tool comes to: without a policy it is allowed to everyone. */
  ghost predicate DirectAnswer(w: Wiring, c: Call, answer: Result<BrokerTool, Refusal>)
    requires c.toolName in w.direct
  {
    if c.toolName !in w.directPolicies then answer == Ok(w.direct[c.toolName])
    else
      var policy := w.directPolicies[c.toolName];
      var waiting := policy.requiresApproval && c.approvalMode && !c.approved;
      && (answer == Err(RoleNotAllowed) <==> c.role !in policy.allowedRoles)
      && (answer == Err(ApprovalRequired) <==> c.role in policy.allowedRoles && waiting)
      && (answer == Ok(w.direct[c.toolName]) <==> c.role in policy.allowedRoles && !waiting)
  }

  /** What a call of a server's tool comes to: a sensitive one is for owners and admins, approved where
      approval applies; any other is for everyone.  It is the server's own tool that is called. */
  ghost predicate ServerAnswer(sensitive: Sensitivity, w: Wiring, id: string, c: Call,
                               answer: Result<BrokerTool, Refusal>)
    requires id in w.servers
  {
    var high, waiting := c.role == Owner || c.role == Admin, c.approvalMode && !c.approved;
    && (answer == Err(RoleNotAllowed) <==> sensitive(c.toolName) && !high)
    && (answer == Err(ApprovalRequired) <==> sensitive(c.toolName) && high && waiting)
    && (answer.Ok? <==> !sensitive(c.toolName) || (high && !waiting))
    && (answer.Ok? ==>
          var t := answer.value;
          && t == BrokerTool(id + ":" + c.toolName, id, c.toolName, t.description, sensitive(c.toolName), Mcp,
                             Some(w.servers[id].client))
          && LastListed(w.servers[id].defs, c.toolName, t.description))
  }

  /** At any point of any run in which names stay disjoint, what a call comes to is decided by the
      direct registrations, or by the one connected server that lists the tool; any other is unknown. */
  lemma AccessExactly(sensitive: Sensitivity, ops: seq<Op>, c: Call)
    requires AlwaysDisjoint(sensitive, NOTHING_WIRED, ops)
    ensures var answer := Authorize(Run(sensitive, EMPTY, ops), c);
      var w := RewireAll(NOTHING_WIRED, ops);
      && (c.toolName in w.direct ==> DirectAnswer(w, c, answer))
      && (forall id :: ListedBy(w, id, c.toolName) ==> ServerAnswer(sensitive, w, id, c, answer))
      && (answer == Err(UnknownTool) <==> c.toolName !in w.direct && forall id :: !ListedBy(w, id, c.toolName))
  {
    EveryBrokerIsRebuilt(sensitive, ops);
    EndsDisjoint(sensitive, NOTHING_WIRED, ops);
    var b, w := Run(sensitive, EMPTY, ops), RewireAll(NOTHING_WIRED, ops);
    hide Run, RewireAll, AlwaysDisjoint, Authorize;
    if c.toolName in w.direct {
      DirectCall(sensitive, b, w, c);
    }
    forall id | ListedBy(w, id, c.toolName) ensures ServerAnswer(sensitive, w, id, c, Authorize(b, c)) {
      ServerCall(sensitive, b, w, id, c);
    }
    KnownExactly(sensitive, b, w, c.toolName);
    UnknownExactly(b, c);
  }

  lemma UnknownExactly(b: Broker, c: Call)
    ensures Authorize(b, c) == Err(UnknownTool) <==> c.toolName !in b.tools
  {
  }

  lemma {:induction false} EndsDisjoint(sensitive: Sensitivity, w: Wiring, ops: seq<Op>)
    requires AlwaysDisjoint(sensitive, w, ops)
    ensures Disjoint(sensitive, RewireAll(w, ops))
    decreases |ops|
  {
    if ops != [] {
      EndsDisjoint(sensitive, Rewire(w, ops[0]), ops[1..]);
    }
  }

  lemma DirectCall(sensitive: Sensitivity, b: Broker, w: Wiring, c: Call)
    requires Rebuilt(sensitive, b, w) && Disjoint(sensitive, w) && c.toolName in w.direct
    ensures DirectAnswer(w, c, Authorize(b, c))
  {
    hide ServerTools, ServerPolicies, NamesOf;
    PartKeys(sensitive, w);
    forall id | InPart(PolicyParts(sensitive, w), id, c.toolName)
      ensures InPart(ToolParts(sensitive, w), id, c.toolName)
    {}
    assert c.toolName in b.policies <==> c.toolName in w.directPolicies;
  }

  lemma ServerCall(sensitive: Sensitivity, b: Broker, w: Wiring, id: string, c: Call)
    requires Rebuilt(sensitive, b, w) && ListedBy(w, id, c.toolName)
    ensures ServerAnswer(sensitive, w, id, c, Authorize(b, c))
  {
    NamesAreListed(w.servers[id].defs, c.toolName);
    ServerToolIs(sensitive, id, w.servers[id].client, w.servers[id].defs, c.toolName);
    ServerEntries(sensitive, b, w, id, c.toolName);
    ServerToolInForce(sensitive, b, w, id, c.toolName);
    GuardedCall(sensitive, b, c);
    hide Rebuilt, ListedBy, ServerTools, NamesOf, LastListed, PolicyFor, Authorize;
  }

  /** A call under the default policy of a server's tool. */
  lemma GuardedCall(sensitive: Sensitivity, b: Broker, c: Call)
    requires c.toolName in b.tools && c.toolName in b.policies
    requires b.policies[c.toolName] == PolicyFor(sensitive, c.toolName)
    ensures var answer, high := Authorize(b, c), c.role == Owner || c.role == Admin;
      var waiting := c.approvalMode && !c.approved;
      && (answer == Err(RoleNotAllowed) <==> sensitive(c.toolName) && !high)
      && (answer == Err(ApprovalRequired) <==> sensitive(c.toolName) && high && waiting)
      && (answer.Ok? <==> !sensitive(c.toolName) || (high && !waiting))
      && (answer.Ok? ==> answer.value == b.tools[c.toolName])
  {
    assert c.role == Owner || c.role == Admin || c.role == Operator || c.role == Viewer;
  }

  /** The policy on record for a connected server's tool names the tool, marks it as sensitive or not, and
      asks for approval, and for an owner or admin, exactly if it is. */
  lemma ServerPolicyExactly(sensitive: Sensitivity, ops: seq<Op>, id: string, name: string)
    requires AlwaysDisjoint(sensitive, NOTHING_WIRED, ops)
    requires ListedBy(RewireAll(NOTHING_WIRED, ops), id, name)
    ensures var b := Run(sensitive, EMPTY, ops);
      && name in b.policies
      && var p := b.policies[name];
         && p.toolName == name && p.sensitive == p.requiresApproval == sensitive(name)
         && (forall role :: role in p.allowedRoles <==> !sensitive(name) || role == Owner || role == Admin)
  {
    EveryBrokerIsRebuilt(sensitive, ops);
    var w := RewireAll(NOTHING_WIRED, ops);
    NamesAreListed(w.servers[id].defs, name);
    hide Run, RewireAll, AlwaysDisjoint, Rebuilt, NamesOf;
    ServerEntries(sensitive, Run(sensitive, EMPTY, ops), w, id, name);
    var p := Run(sensitive, EMPTY, ops).policies[name];
    forall role ensures role in p.allowedRoles <==> !sensitive(name) || role == Owner || role == Admin {
      assert role == Owner || role == Admin || role == Operator || role == Viewer;
    }
  }

  lemma ServerToolInForce(sensitive: Sensitivity, b: Broker, w: Wiring, id: string, name: string)
    requires Rebuilt(sensitive, b, w) && id in w.servers && name in NamesOf(w.servers[id].defs)
    ensures name in b.tools
    ensures b.tools[name] == ServerTools(sensitive, id, w.servers[id].client, w.servers[id].defs)[name]
  {
    hide Merged, ServerTools, NamesOf;
    PartKeys(sensitive, w);
    PartIsMerged(b.tools, w.direct, ToolParts(sensitive, w), id, name);
  }

  lemma KnownExactly(sensitive: Sensitivity, b: Broker, w: Wiring, name: string)
    requires Rebuilt(sensitive, b, w)
    ensures name in b.tools <==> name in w.direct || exists id :: ListedBy(w, id, name)
  {
    hide ServerTools, ServerPolicies, NamesOf;
    PartKeys(sensitive, w);
    forall id ensures InPart(ToolParts(sensitive, w), id, name) <==> ListedBy(w, id, name) {
      if id in w.servers { NamesAreListed(w.servers[id].defs, name); }
    }
    if id :| ListedBy(w, id, name) {
      assert InPart(ToolParts(sensitive, w), id, name);
    }
  }
}
