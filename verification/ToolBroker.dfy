/** The tool broker: five maps updated in place. */
module ToolBroker {
  import opened Wrappers
  import opened BrokerRegistry

  class Registry {
    const sensitive: Sensitivity
    var tools: map<string, BrokerTool>
    var policies: map<string, Policy>
    var mcpClients: map<string, nat>
    var mcpConfigs: map<string, ServerConfig>
    var mcpServerTools: map<string, set<string>>

    constructor (sensitive: Sensitivity)
      ensures this.sensitive == sensitive && State() == EMPTY
    {
      this.sensitive := sensitive;
      tools, policies, mcpClients, mcpConfigs, mcpServerTools := map[], map[], map[], map[], map[];
    }

    ghost function State(): Broker
      reads this
    {
      Broker(tools, policies, mcpClients, mcpConfigs, mcpServerTools)
    }

    method AddDirectTool(tool: BrokerTool)
      modifies this
      ensures State() == RegisterTool(old(State()), tool)
    {
      tools := tools[tool.name := tool];
    }

    method AddDirectPolicy(policy: Policy)
      modifies this
      ensures State() == RegisterPolicy(old(State()), policy)
    {
      policies := policies[policy.toolName := policy];
    }

    /** `answer` is what the new client's connect and listTools gave, None when one threw. */
    method ConnectMcpServer(config: ServerConfig, client: nat, answer: Option<seq<ToolDef>>) returns (connected: bool)
      modifies this
      ensures State() == Connect(sensitive, old(State()), config, client, answer)
      ensures connected == answer.Some?
    {
      if config.id in mcpClients {
        DisconnectMcpServer(config.id);
      }
      if answer.None? {
        return false;
      }
      mcpClients := mcpClients[config.id := client];
      mcpConfigs := mcpConfigs[config.id := config];
      var registeredNames := RegisterServerTools(config.id, client, answer.value);
      mcpServerTools := mcpServerTools[config.id := registeredNames];
      connected := true;
    }

    /** The registration loop over the tools the server lists. */
    method RegisterServerTools(serverId: string, client: nat, toolDefs: seq<ToolDef>) returns (names: set<string>)
      modifies this`tools, this`policies
      ensures names == NamesOf(toolDefs)
      ensures tools == old(tools) + ServerTools(sensitive, serverId, client, toolDefs)
      ensures policies == old(policies) + ServerPolicies(sensitive, names)
    {
      names := {};
      for i := 0 to |toolDefs|
        invariant names == NamesOf(toolDefs[..i])
        invariant tools == old(tools) + ServerTools(sensitive, serverId, client, toolDefs[..i])
        invariant policies == old(policies) + ServerPolicies(sensitive, names)
      {
        assert toolDefs[..i + 1][..i] == toolDefs[..i];
        var name := toolDefs[i].name;
        PolicyAdded(sensitive, old(policies), names, name);
        ToolAdded(sensitive, old(tools), serverId, client, toolDefs, i);
        tools := tools[name := ToolFor(sensitive, serverId, client, toolDefs[i])];
        policies := policies[name := PolicyFor(sensitive, name)];
        names := names + {name};
        hide ServerTools, ServerPolicies, NamesOf, ToolFor, PolicyFor;
      }
      assert toolDefs[..|toolDefs|] == toolDefs;
    }

    method DisconnectMcpServer(serverId: string)
      modifies this
      ensures State() == Disconnect(old(State()), serverId)
    {
      if serverId in mcpClients {
        mcpClients := mcpClients - {serverId};
      }
      if serverId in mcpServerTools {
        var toolNames := mcpServerTools[serverId];
        var left := toolNames;
        while left != {}
          invariant left <= toolNames
          invariant tools == old(tools) - (toolNames - left) && policies == old(policies) - (toolNames - left)
          invariant mcpClients == old(mcpClients) - {serverId} && mcpConfigs == old(mcpConfigs)
          invariant mcpServerTools == old(mcpServerTools)
          decreases left
        {
          var name :| name in left;
          left := left - {name};
          tools := tools - {name};
          policies := policies - {name};
        }
        mcpServerTools := mcpServerTools - {serverId};
      }
      mcpConfigs := mcpConfigs - {serverId};
    }
  }

  lemma PolicyAdded(sensitive: Sensitivity, own: map<string, Policy>, names: set<string>, name: string)
    ensures (own + ServerPolicies(sensitive, names))[name := PolicyFor(sensitive, name)]
         == own + ServerPolicies(sensitive, names + {name})
  {
  }

  lemma ToolAdded(sensitive: Sensitivity, own: map<string, BrokerTool>, serverId: string, client: nat,
                  defs: seq<ToolDef>, i: nat)
    requires i < |defs|
    ensures var before := own + ServerTools(sensitive, serverId, client, defs[..i]);
      before[defs[i].name := ToolFor(sensitive, serverId, client, defs[i])]
         == own + ServerTools(sensitive, serverId, client, defs[..i + 1])
    ensures NamesOf(defs[..i + 1]) == NamesOf(defs[..i]) + {defs[i].name}
  {
    assert defs[..i + 1][..i] == defs[..i];
    ShadowedUpdate(own, ServerTools(sensitive, serverId, client, defs[..i]), defs[i].name,
                   ToolFor(sensitive, serverId, client, defs[i]));
  }

  lemma ShadowedUpdate<V>(own: map<string, V>, part: map<string, V>, name: string, v: V)
    ensures (own + part)[name := v] == own + part[name := v]
  {
  }
}
