/** The federation gateway: registries and the round-robin index updated in place, and the
    reader of an agent's event stream. */
module Gateway {
  import opened Wrappers
  import opened OrderedMap
  import opened LineFraming
  import opened GatewayRouting

  class A2AGateway {
    var localCards: Ordered<Card>
    var remoteAgents: Ordered<Card>
    var agentHealth: Ordered<bool>
    var roundRobinIndex: nat
    /** The agents whose checks are awaited. */
    var checks: seq<string>

    constructor ()
      ensures State() == EMPTY && Consistent(State())
    {
      localCards, remoteAgents, agentHealth, roundRobinIndex, checks := [], [], [], 0, [];
    }

    ghost function State(): Registry
      reads this
    {
      Registry(localCards, remoteAgents, agentHealth, roundRobinIndex, checks)
    }

    method RegisterCard(id: string, card: Card)
      modifies this
      ensures State() == Apply(old(State()), Op.RegisterCard(id, card))
    {
      localCards := Put(localCards, id, card);
    }

    method UnregisterCard(id: string) returns (removed: bool)
      modifies this
      ensures State() == Apply(old(State()), Op.UnregisterCard(id))
      ensures removed == Has(old(localCards), id)
    {
      removed := Has(localCards, id);
      localCards := Remove(localCards, id);
      remoteAgents := Remove(remoteAgents, id);
      agentHealth := Remove(agentHealth, id);
    }

    method RegisterRemoteAgent(id: string, card: Card)
      modifies this
      ensures State() == Apply(old(State()), RegisterRemote(id, card))
    {
      remoteAgents := Put(remoteAgents, id, card);
      agentHealth := Put(agentHealth, id, true);
    }

    /** The body of the check loop up to the point where it waits for the agent. */
    method BeginHealthCheck(id: string)
      modifies this
      ensures State() == Apply(old(State()), BeginCheck(id))
    {
      if Has(remoteAgents, id) {
        checks := checks + [id];
      }
    }

    /** The body of the check loop after the k-th awaited agent has answered. */
    method FinishHealthCheck(k: nat, healthy: bool)
      modifies this
      ensures State() == Apply(old(State()), FinishCheck(k, healthy))
    {
      if k < |checks| {
        agentHealth := Put(agentHealth, checks[k], healthy);
        checks := checks[..k] + checks[k + 1..];
      }
    }

    /** The whole loop, when nothing else happens while it waits. */
    method RunHealthChecks(healthy: string -> bool)
      modifies this
      ensures State() == Run(old(State()), Round(old(remoteAgents), |old(checks)|, healthy))
    {
      var agents := remoteAgents;
      ghost var start := State();
      for i := 0 to |agents|
        invariant State() == start.(agentHealth := agentHealth)
        invariant Run(State(), Round(agents[i..], |start.checks|, healthy))
               == Run(start, Round(agents, |start.checks|, healthy))
      {
        assert agents[i..][0] == agents[i] && agents[i..][1..] == agents[i + 1..];
        assert Has(remoteAgents, agents[i].key);
        RoundStep(State(), agents[i].key, healthy(agents[i].key), Round(agents[i + 1..], |start.checks|, healthy));
        BeginHealthCheck(agents[i].key);
        FinishHealthCheck(|checks| - 1, healthy(agents[i].key));
        assert checks == start.checks;
      }
      assert agents[|agents|..] == [];
    }

    method FindAgentsByCapabilities(capabilities: seq<string>) returns (matches: seq<string>)
      ensures matches == Offering(localCards, capabilities) + Offering(remoteAgents, capabilities)
    {
      matches := [];
      for i := 0 to |localCards|
        invariant matches == Offering(localCards[..i], capabilities)
      {
        assert localCards[..i + 1][..i] == localCards[..i];
        if Offers(localCards[i].value, capabilities) {
          matches := matches + [localCards[i].key];
        }
      }
      assert localCards[..|localCards|] == localCards;
      for i := 0 to |remoteAgents|
        invariant matches == Offering(localCards, capabilities) + Offering(remoteAgents[..i], capabilities)
      {
        assert remoteAgents[..i + 1][..i] == remoteAgents[..i];
        if Offers(remoteAgents[i].value, capabilities) {
          matches := matches + [remoteAgents[i].key];
        }
      }
      assert remoteAgents[..|remoteAgents|] == remoteAgents;
    }

    method DetermineRouting(r: Request) returns (routing: Routing)
      modifies this`roundRobinIndex
      ensures routing == Route(old(State()), r).0 && State() == Route(old(State()), r).1
    {
      if Get(remoteAgents, r.target).Some? {
        var healthy := IsHealthy(r.target);
        if healthy {
          return Decided(Direct(r.target, Get(remoteAgents, r.target).value.endpoint));
        }
      }
      var found := FindAgentsByCapabilities(r.capabilities);
      var matching := KeepHealthy(found);
      assert matching == Matching(State(), r.capabilities);
      hide Matching, HealthyOf, Offering, IsAgentHealthy;
      if |matching| > 0 {
        var selected := matching[roundRobinIndex % |matching|];
        roundRobinIndex := roundRobinIndex + 1;
        var client := Get(remoteAgents, selected);
        return if client.Some? then Decided(CapabilityMatch(selected, client.value.endpoint)) else NoClient;
      }
      var fallback := FirstHealthy();
      if fallback.Some? {
        var client := Get(remoteAgents, fallback.value);
        return if client.Some? then Decided(LeastLoad(fallback.value, client.value.endpoint)) else NoClient;
      }
      routing := NoRoute;
    }

    /** `ids.filter(id => this.isAgentHealthy(id))` */
    method KeepHealthy(ids: seq<string>) returns (kept: seq<string>)
      ensures kept == HealthyOf(State(), ids)
    {
      kept := [];
      for i := 0 to |ids|
        invariant kept == HealthyOf(State(), ids[..i])
      {
        assert ids[..i + 1][..i] == ids[..i];
        var healthy := IsHealthy(ids[i]);
        if healthy {
          kept := kept + [ids[i]];
        }
      }
      assert ids[..|ids|] == ids;
    }

    method IsHealthy(id: string) returns (healthy: bool)
      ensures healthy == IsAgentHealthy(State(), id)
    {
      if Has(localCards, id) && !Has(remoteAgents, id) {
        return true;
      }
      healthy := Get(agentHealth, id) == Some(true);
    }

    /** listHealthyAgents()[0] */
    method FirstHealthy() returns (id: Option<string>)
      ensures id == Fallback(State())
    {
      id := FirstMarkedHealthy(agentHealth);
      if id == None {
        id := FirstUnchecked(localCards, agentHealth);
      }
    }
  }

  // ----- The event stream ----------------------------------------------------------------------

  /** An update parsed from a "data: " line; `completed` is the task result it carries, if it
      announces completion. */
  datatype StreamUpdate = StreamUpdate(body: string, completed: Option<string>)

  /** None for lines without the prefix, the end marker, and text that does not parse. */
  type Parser = string -> Option<StreamUpdate>

  /** The updates delivered and the last completion result, after a list of lines. */
  datatype Progress = Progress(updates: seq<StreamUpdate>, final: Option<string>)

  function Receive(parse: Parser, p: Progress, lines: seq<string>): Progress
    decreases |lines|
  {
    if lines == [] then p
    else match parse(lines[0])
      case None => Receive(parse, p, lines[1..])
      case Some(u) =>
        Receive(parse, Progress(p.updates + [u], if u.completed.Some? then u.completed else p.final), lines[1..])
  }

  lemma {:induction false} ReceiveConcat(parse: Parser, p: Progress, a: seq<string>, b: seq<string>)
    ensures Receive(parse, p, a + b) == Receive(parse, Receive(parse, p, a), b)
    decreases |a|
  {
    if a == [] {
      assert a + b == b;
    } else {
      assert (a + b)[1..] == a[1..] + b;
      match parse(a[0])
      case None => ReceiveConcat(parse, p, a[1..], b);
      case Some(u) =>
        ReceiveConcat(parse, Progress(p.updates + [u], if u.completed.Some? then u.completed else p.final), a[1..], b);
    }
  }

  /** The updates delivered and the result do not depend on how the stream was cut into chunks:
      they are those of the complete lines of the whole stream. */
  method HandleStreamingResponse(chunks: seq<string>, parse: Parser)
    returns (updates: seq<StreamUpdate>, finalResult: Option<string>)
    ensures Progress(updates, finalResult) == Receive(parse, Progress([], None), Feed("", Concat(chunks)).lines)
  {
    updates, finalResult := [], None;
    var buffer := "";
    ghost var start := Progress([], None);
    for i := 0 to |chunks|
      invariant Unbroken(buffer)
      invariant Receive(parse, Progress(updates, finalResult), FeedAll(buffer, chunks[i..]).lines)
             == Receive(parse, start, FeedAll("", chunks).lines)
    {
      assert chunks[i..][0] == chunks[i] && chunks[i..][1..] == chunks[i + 1..];
      var lines := Split(buffer + chunks[i]);
      FeedUnbroken(buffer, chunks[i]);
      ghost var before := Progress(updates, finalResult);
      ReceiveConcat(parse, before, lines[..|lines| - 1], FeedAll(lines[|lines| - 1], chunks[i + 1..]).lines);
      buffer := lines[|lines| - 1];
      lines := lines[..|lines| - 1];
      updates, finalResult := ReceiveLines(parse, updates, finalResult, lines);
    }
    assert chunks[|chunks|..] == [] && chunks[0..] == chunks;
    ChunkingIndependence("", chunks);
  }

  method ReceiveLines(parse: Parser, updates: seq<StreamUpdate>, finalResult: Option<string>, lines: seq<string>)
    returns (newUpdates: seq<StreamUpdate>, newResult: Option<string>)
    ensures Progress(newUpdates, newResult) == Receive(parse, Progress(updates, finalResult), lines)
  {
    newUpdates, newResult := updates, finalResult;
    for k := 0 to |lines|
      invariant Receive(parse, Progress(newUpdates, newResult), lines[k..])
             == Receive(parse, Progress(updates, finalResult), lines)
    {
      assert lines[k..][0] == lines[k] && lines[k..][1..] == lines[k + 1..];
      var update := parse(lines[k]);
      if update.Some? {
        if update.value.completed.Some? {
          newResult := update.value.completed;
        }
        newUpdates := newUpdates + [update.value];
      }
    }
    assert lines[|lines|..] == [] && lines[0..] == lines;
  }
}
