/** The agent registry of the federation gateway and its routing decisions, as values. */
module GatewayRouting {
  import opened Wrappers
  import opened OrderedMap
  import opened Sequences

  datatype Card = Card(endpoint: string, capabilities: seq<string>)

  /** A remote agent's client is represented by its card.  `checks` lists the agents whose health
      checks have been sent and not answered, of however many rounds. */
  datatype Registry = Registry(localCards: Ordered<Card>, remoteAgents: Ordered<Card>, agentHealth: Ordered<bool>,
                               roundRobinIndex: nat, checks: seq<string>)

  const EMPTY := Registry([], [], [], 0, [])

  datatype Request = Request(target: string, capabilities: seq<string>)

  datatype Decision =
    | Direct(target: string, endpoint: string)
    | CapabilityMatch(target: string, endpoint: string)
    | LeastLoad(target: string, endpoint: string)

  /** `NoClient` is the exception raised when the chosen agent has a local card only. */
  datatype Routing = Decided(decision: Decision) | NoRoute | NoClient

  // ----- Registry operations ----------------------------------------------------------------

  datatype Op =
    | RegisterCard(id: string, card: Card)
    | UnregisterCard(id: string)
    | RegisterRemote(id: string, card: Card)
    | BeginCheck(id: string)
    | FinishCheck(k: nat, healthy: bool)
    | RouteTask(request: Request)

  /** A check is sent to a registered agent. */
  function Begin(g: Registry, id: string): Registry {
    if Has(g.remoteAgents, id) then g.(checks := g.checks + [id]) else g
  }

  /** The answer to the k-th open check is recorded, whether or not the agent is still registered. */
  function Finish(g: Registry, k: nat, healthy: bool): Registry {
    if k >= |g.checks| then g
    else g.(checks := g.checks[..k] + g.checks[k + 1..], agentHealth := Put(g.agentHealth, g.checks[k], healthy))
  }

  function Apply(g: Registry, op: Op): Registry {
    match op
    case RegisterCard(id, card) => g.(localCards := Put(g.localCards, id, card))
    case UnregisterCard(id) => g.(localCards := Remove(g.localCards, id), remoteAgents := Remove(g.remoteAgents, id),
                                  agentHealth := Remove(g.agentHealth, id))
    case RegisterRemote(id, card) =>
      g.(remoteAgents := Put(g.remoteAgents, id, card), agentHealth := Put(g.agentHealth, id, true))
    case BeginCheck(id) => Begin(g, id)
    case FinishCheck(k, healthy) => Finish(g, k, healthy)
    case RouteTask(request) => Route(g, request).1
  }

  function Run(g: Registry, ops: seq<Op>): Registry
    decreases |ops|
  {
    if ops == [] then g else Run(Apply(g, ops[0]), ops[1..])
  }

  // ----- Routing -----------------------------------------------------------------------------

  function IsAgentHealthy(g: Registry, id: string): bool {
    if Has(g.localCards, id) && !Has(g.remoteAgents, id) then true else Get(g.agentHealth, id) == Some(true)
  }

  predicate Offers(card: Card, capabilities: seq<string>) {
    exists i :: 0 <= i < |capabilities| && capabilities[i] in card.capabilities
  }

  /** The ids of the cards that offer one of the capabilities, in order. */
  function Offering(cards: Ordered<Card>, capabilities: seq<string>): seq<string> {
    if cards == [] then []
    else
      var last := cards[|cards| - 1];
      Offering(cards[..|cards| - 1], capabilities) + (if Offers(last.value, capabilities) then [last.key] else [])
  }

  function HealthyOf(g: Registry, ids: seq<string>): seq<string> {
    if ids == [] then []
    else
      var last := ids[|ids| - 1];
      HealthyOf(g, ids[..|ids| - 1]) + (if IsAgentHealthy(g, last) then [last] else [])
  }

  function Matching(g: Registry, capabilities: seq<string>): seq<string> {
    HealthyOf(g, Offering(g.localCards, capabilities) + Offering(g.remoteAgents, capabilities))
  }

  /** The first agent `listHealthyAgents` would list. */
  function FirstMarkedHealthy(health: Ordered<bool>): Option<string> {
    if health == [] then None else if health[0].value then Some(health[0].key) else FirstMarkedHealthy(health[1..])
  }

  function FirstUnchecked(cards: Ordered<Card>, health: Ordered<bool>): Option<string>
    decreases |cards|
  {
    if cards == [] then None
    else if !Has(health, cards[0].key) then Some(cards[0].key)
    else FirstUnchecked(cards[1..], health)
  }

  function Fallback(g: Registry): Option<string> {
    match FirstMarkedHealthy(g.agentHealth)
    case Some(id) => Some(id)
    case None => FirstUnchecked(g.localCards, g.agentHealth)
  }

  function Route(g: Registry, r: Request): (Routing, Registry) {
    if Get(g.remoteAgents, r.target).Some? && IsAgentHealthy(g, r.target) then
      (Decided(Direct(r.target, Get(g.remoteAgents, r.target).value.endpoint)), g)
    else
      var matching := Matching(g, r.capabilities);
      if |matching| > 0 then
        var selected := matching[g.roundRobinIndex % |matching|];
        var next := g.(roundRobinIndex := g.roundRobinIndex + 1);
        match Get(g.remoteAgents, selected)
        case Some(card) => (Decided(CapabilityMatch(selected, card.endpoint)), next)
        case None => (NoClient, next)
      else
        match Fallback(g)
        case None => (NoRoute, g)
        case Some(id) =>
          match Get(g.remoteAgents, id)
          case Some(card) => (Decided(LeastLoad(id, card.endpoint)), g)
          case None => (NoClient, g)
  }

  // ----- Health records ------------------------------------------------------------------------------

  /** Every registered remote agent has a health record. */
  ghost predicate Covered(g: Registry) {
    && Keyed(g.localCards) && Keyed(g.remoteAgents) && Keyed(g.agentHealth)
    && forall id :: Get(g.remoteAgents, id).Some? ==> Get(g.agentHealth, id).Some?
  }

  /** Health is recorded for exactly the registered remote agents. */
  ghost predicate Consistent(g: Registry) {
    Covered(g) && forall id :: Get(g.agentHealth, id).Some? ==> Get(g.remoteAgents, id).Some?
  }

  /** The agent of a check that is answered is registered when the answer arrives. */
  predicate AnswerInTime(g: Registry, op: Op) {
    op.FinishCheck? && op.k < |g.checks| ==> Get(g.remoteAgents, g.checks[op.k]).Some?
  }

  lemma UnregisterKeeps(g: Registry, id: string)
    requires Covered(g)
    ensures var h := Apply(g, UnregisterCard(id)); Covered(h) && (Consistent(g) ==> Consistent(h))
  {
    RemoveKeyed(g.localCards, id);
    RemoveKeyed(g.remoteAgents, id);
    RemoveKeyed(g.agentHealth, id);
    forall other
      ensures Get(Remove(g.agentHealth, id), other) == if other == id then None else Get(g.agentHealth, other)
      ensures Get(Remove(g.remoteAgents, id), other) == if other == id then None else Get(g.remoteAgents, other)
    {
      GetRemove(g.agentHealth, id, other);
      GetRemove(g.remoteAgents, id, other);
    }
  }

  lemma RegisterKeeps(g: Registry, id: string, card: Card)
    requires Covered(g)
    ensures var h := Apply(g, RegisterRemote(id, card)); Covered(h) && (Consistent(g) ==> Consistent(h))
  {
    PutKeyed(g.remoteAgents, id, card);
    PutKeyed(g.agentHealth, id, true);
    forall other
      ensures Get(Put(g.agentHealth, id, true), other) == if other == id then Some(true) else Get(g.agentHealth, other)
      ensures Get(Put(g.remoteAgents, id, card), other)
           == if other == id then Some(card) else Get(g.remoteAgents, other)
    {
      GetPut(g.agentHealth, id, true, other);
      GetPut(g.remoteAgents, id, card, other);
    }
  }

  /** Recording an answer keeps the records exact if and only if the agent is still registered. */
  lemma FinishKeepsExactly(g: Registry, k: nat, healthy: bool)
    requires Covered(g)
    ensures Covered(Finish(g, k, healthy))
    ensures Consistent(g) ==> (Consistent(Finish(g, k, healthy)) <==> AnswerInTime(g, FinishCheck(k, healthy)))
  {
    if k < |g.checks| {
      var id := g.checks[k];
      PutKeyed(g.agentHealth, id, healthy);
      forall other
        ensures Get(Put(g.agentHealth, id, healthy), other)
             == if other == id then Some(healthy) else Get(g.agentHealth, other)
      {
        GetPut(g.agentHealth, id, healthy, other);
      }
    }
  }

  /** After every operation each registered remote agent has a health record; and the records stay
      exact if and only if no answer arrives for an agent that is no longer registered. */
  lemma StepKeepsExactly(g: Registry, op: Op)
    requires Covered(g)
    ensures Covered(Apply(g, op))
    ensures Consistent(g) ==> (Consistent(Apply(g, op)) <==> AnswerInTime(g, op))
  {
    match op
    case RegisterCard(id, card) => PutKeyed(g.localCards, id, card);
    case UnregisterCard(id) => UnregisterKeeps(g, id);
    case RegisterRemote(id, card) => RegisterKeeps(g, id, card);
    case BeginCheck(_) =>
    case FinishCheck(k, healthy) => FinishKeepsExactly(g, k, healthy);
    case RouteTask(_) =>
  }

  lemma {:induction false} EveryRegistryIsCovered(g: Registry, ops: seq<Op>)
    requires Covered(g)
    ensures Covered(Run(g, ops))
    decreases |ops|
  {
    if ops != [] {
      StepKeepsExactly(g, ops[0]);
      EveryRegistryIsCovered(Apply(g, ops[0]), ops[1..]);
    }
  }

  /** The records are exact in every state of the run. */
  ghost predicate ConsistentThroughout(g: Registry, ops: seq<Op>)
    decreases |ops|
  {
    Consistent(g) && (ops != [] ==> ConsistentThroughout(Apply(g, ops[0]), ops[1..]))
  }

  /** No answer of the run arrives for an agent that is no longer registered. */
  predicate AnswersInTime(g: Registry, ops: seq<Op>)
    decreases |ops|
  {
    ops != [] ==> AnswerInTime(g, ops[0]) && AnswersInTime(Apply(g, ops[0]), ops[1..])
  }

  lemma {:induction false} ConsistentFromExactly(g: Registry, ops: seq<Op>)
    requires Consistent(g)
    ensures ConsistentThroughout(g, ops) <==> AnswersInTime(g, ops)
    decreases |ops|
  {
    if ops != [] {
      StepKeepsExactly(g, ops[0]);
      hide Covered, AnswerInTime, Apply;
      if Consistent(Apply(g, ops[0])) {
        ConsistentFromExactly(Apply(g, ops[0]), ops[1..]);
      }
    }
  }

  /** In every run of a new gateway, with checks and other operations interleaved in any way: health
      is recorded for exactly the remote agents throughout if and only if no agent is unregistered
      during its own check and still unregistered when the answer arrives. */
  lemma EveryRegistryIsConsistentExactly(ops: seq<Op>)
    ensures ConsistentThroughout(EMPTY, ops) <==> AnswersInTime(EMPTY, ops)
  {
    ConsistentFromExactly(EMPTY, ops);
  }

  /** One round of checks without anything in between: each registered agent is asked, and its answer
      recorded. */
  function Round(agents: Ordered<Card>, open: nat, healthy: string -> bool): seq<Op> {
    if agents == [] then []
    else
      [BeginCheck(agents[0].key), FinishCheck(open, healthy(agents[0].key))] + Round(agents[1..], open, healthy)
  }

  lemma RoundStep(g: Registry, id: string, healthy: bool, rest: seq<Op>)
    requires Has(g.remoteAgents, id)
    ensures Run(g, [BeginCheck(id), FinishCheck(|g.checks|, healthy)] + rest)
         == Run(g.(agentHealth := Put(g.agentHealth, id, healthy)), rest)
  {
    var begin, finish := BeginCheck(id), FinishCheck(|g.checks|, healthy);
    assert ([begin, finish] + rest)[1..] == [finish] + rest;
    assert ([finish] + rest)[1..] == rest;
    var h := Begin(g, id);
    assert h.checks[..|g.checks|] + h.checks[|g.checks| + 1..] == g.checks;
    assert Finish(h, |g.checks|, healthy) == g.(agentHealth := Put(g.agentHealth, id, healthy));
    assert Run(Begin(g, id), [finish] + rest) == Run(Finish(h, |g.checks|, healthy), rest);
  }

  /** Such a round leaves every agent in `agents` with its answer and every other one as it was. */
  lemma {:induction false} RoundAnswers(g: Registry, agents: Ordered<Card>, healthy: string -> bool)
    requires Keyed(agents) && forall i :: 0 <= i < |agents| ==> Has(g.remoteAgents, agents[i].key)
    ensures var h := Run(g, Round(agents, |g.checks|, healthy));
      && h == g.(agentHealth := h.agentHealth)
      && forall id :: Get(h.agentHealth, id)
                   == if Get(agents, id).Some? then Some(healthy(id)) else Get(g.agentHealth, id)
    decreases |agents|
  {
    if agents != [] {
      var a := agents[0].key;
      var next := g.(agentHealth := Put(g.agentHealth, a, healthy(a)));
      RoundStep(g, a, healthy(a), Round(agents[1..], |g.checks|, healthy));
      KeyedTail(agents);
      HeadNotInTail(agents);
      assert forall i :: 0 <= i < |agents[1..]| ==> agents[1..][i] == agents[i + 1];
      forall id ensures Get(next.agentHealth, id) == if id == a then Some(healthy(a)) else Get(g.agentHealth, id) {
        GetPut(g.agentHealth, a, healthy(a), id);
      }
      RoundAnswers(next, agents[1..], healthy);
    }
  }

  // ----- Every decision names a registered healthy agent ------------------------------------------

  lemma {:induction false} HealthyOfMember(g: Registry, ids: seq<string>, id: string)
    ensures id in HealthyOf(g, ids) <==> id in ids && IsAgentHealthy(g, id)
  {
    if ids != [] {
      HealthyOfMember(g, ids[..|ids| - 1], id);
      assert ids == ids[..|ids| - 1] + [ids[|ids| - 1]];
    }
  }

  lemma {:induction false} MarkedHealthyIsHealthy(health: Ordered<bool>)
    requires Keyed(health)
    ensures FirstMarkedHealthy(health).Some? ==> Get(health, FirstMarkedHealthy(health).value) == Some(true)
    ensures FirstMarkedHealthy(health) == None ==> forall id :: Get(health, id) != Some(true)
  {
    if health != [] {
      KeyedTail(health);
      MarkedHealthyIsHealthy(health[1..]);
      HeadNotInTail(health);
    }
  }

  lemma {:induction false} UncheckedHasNoHealth(cards: Ordered<Card>, health: Ordered<bool>)
    ensures FirstUnchecked(cards, health).Some? ==> Get(health, FirstUnchecked(cards, health).value) == None
    decreases |cards|
  {
    if cards != [] {
      GetIsHas(health, cards[0].key);
      UncheckedHasNoHealth(cards[1..], health);
    }
  }

  /** A decision that is returned names a registered remote agent that is marked healthy, with
      that agent's endpoint. */
  lemma DecisionsNameHealthyAgents(g: Registry, r: Request)
    requires Covered(g) && Route(g, r).0.Decided?
    ensures var d := Route(g, r).0.decision;
      && Get(g.agentHealth, d.target) == Some(true)
      && Get(g.remoteAgents, d.target).Some? && Get(g.remoteAgents, d.target).value.endpoint == d.endpoint
  {
    var d := Route(g, r).0.decision;
    GetIsHas(g.remoteAgents, d.target);
    match d
    case Direct(_, _) =>
    case CapabilityMatch(target, _) =>
      var matching := Matching(g, r.capabilities);
      assert matching[g.roundRobinIndex % |matching|] in matching;
      HealthyOfMember(g, Offering(g.localCards, r.capabilities) + Offering(g.remoteAgents, r.capabilities), target);
    case LeastLoad(target, _) =>
      MarkedHealthyIsHealthy(g.agentHealth);
      UncheckedHasNoHealth(g.localCards, g.agentHealth);
  }

  /** From an empty gateway on, after any operations whatever, checks of unregistered agents included,
      each decision names a registered healthy agent. */
  lemma EveryDecisionNamesHealthyAgent(ops: seq<Op>, r: Request)
    requires Route(Run(EMPTY, ops), r).0.Decided?
    ensures var g := Run(EMPTY, ops);
      var d := Route(g, r).0.decision;
      && Get(g.agentHealth, d.target) == Some(true)
      && Get(g.remoteAgents, d.target).Some? && Get(g.remoteAgents, d.target).value.endpoint == d.endpoint
  {
    EveryRegistryIsCovered(EMPTY, ops);
    hide Run, Route, Covered;
    DecisionsNameHealthyAgents(Run(EMPTY, ops), r);
  }

  /** With remote agents only, routing never fails while an agent is healthy, and never throws. */
  lemma RemoteOnlyRouting(g: Registry, r: Request)
    requires Consistent(g) && g.localCards == []
    ensures Route(g, r).0 != NoClient
    ensures Route(g, r).0 == NoRoute <==> forall id :: Get(g.agentHealth, id) != Some(true)
  {
    MarkedHealthyIsHealthy(g.agentHealth);
    GetIsHas(g.localCards, r.target);
    var ids := Offering(g.localCards, r.capabilities) + Offering(g.remoteAgents, r.capabilities);
    var matching := Matching(g, r.capabilities);
    if |matching| > 0 {
      var selected := matching[g.roundRobinIndex % |matching|];
      assert selected in matching;
      HealthyOfMember(g, ids, selected);
      GetIsHas(g.localCards, selected);
    }
  }

  /** With remote agents only, a decision is the only outcome while a registered agent matches. */
  lemma MatchedRouting(g: Registry, r: Request)
    requires Keyed(g.remoteAgents) && g.localCards == []
    requires Matching(g, r.capabilities) != []
    ensures Route(g, r).0.Decided?
  {
    GetIsHas(g.localCards, r.target);
    var matching := Matching(g, r.capabilities);
    var selected := matching[g.roundRobinIndex % |matching|];
    assert selected in matching;
    HealthyOfMember(g, Offering(g.localCards, r.capabilities) + Offering(g.remoteAgents, r.capabilities), selected);
    OfferingDistinct(g.remoteAgents, r.capabilities);
    GetIsHas(g.remoteAgents, selected);
  }

  /** The registry after a remote agent has been registered, checked, unregistered during the check,
      and has answered, before and after the answer. */
  lemma AgentComesAndGoes(card: Card)
    ensures var c := Apply(Apply(Apply(EMPTY, RegisterRemote("a", card)), BeginCheck("a")), UnregisterCard("a"));
      && c == Registry([], [], [], 0, ["a"])
      && Apply(c, FinishCheck(0, true)) == Registry([], [], [Pair("a", true)], 0, [])
  {
    var a := Registry([], [Pair("a", card)], [Pair("a", true)], 0, []);
    assert Apply(EMPTY, RegisterRemote("a", card)) == a;
    assert a.remoteAgents[0].key == "a" && [] + ["a"] == ["a"];
    assert Apply(a, BeginCheck("a")) == a.(checks := ["a"]);
    assert Remove(a.remoteAgents, "a") == Remove(a.remoteAgents[1..], "a");
    assert Remove(a.agentHealth, "a") == Remove(a.agentHealth[1..], "a");
    assert ["a"][..0] + ["a"][1..] == [];
  }

  /** A remote agent registered, checked, unregistered during the check, and answering: its record
      comes back, and routing picks it as a fallback and throws, where it should find no route. */
  lemma UnregisteredAgentComesBack(card: Card, request: Request)
    ensures var ops := [RegisterRemote("a", card), BeginCheck("a"), UnregisterCard("a")];
      var c, g := Run(EMPTY, ops), Run(EMPTY, ops + [FinishCheck(0, true)]);
      && g == Registry([], [], [Pair("a", true)], 0, []) && !Consistent(g)
      && Route(c, request).0 == NoRoute && Route(g, request).0 == NoClient
  {
    var c, g := Registry([], [], [], 0, ["a"]), Registry([], [], [Pair("a", true)], 0, []);
    AgentComesAndGoes(card);
    RunThenOne(EMPTY, RegisterRemote("a", card), BeginCheck("a"), UnregisterCard("a"), FinishCheck(0, true));
    hide Run, Apply;
    assert Get(g.agentHealth, "a").Some? && Get(g.remoteAgents, "a") == None;
    NothingMatches(g, request.capabilities);
    NothingMatches(c, request.capabilities);
  }

  lemma RunThenOne(g: Registry, a: Op, b: Op, c: Op, d: Op)
    ensures Run(g, [a, b, c]) == Apply(Apply(Apply(g, a), b), c)
    ensures Run(g, [a, b, c] + [d]) == Apply(Apply(Apply(Apply(g, a), b), c), d)
  {
    hide Apply;
    RunOps(g, [a, b, c], []);
    RunOps(g, [a, b, c], [d]);
    assert [a, b, c][1..] == [b, c] && [b, c][1..] == [c] && [c][1..] == [] && [d][1..] == [];
    assert Run(Apply(g, a), [b, c]) == Run(Apply(Apply(g, a), b), [c]);
  }

  lemma {:induction false} RunOps(g: Registry, ops: seq<Op>, more: seq<Op>)
    ensures Run(g, ops + more) == Run(Run(g, ops), more)
    decreases |ops|
  {
    hide Apply;
    if ops == [] {
      assert ops + more == more;
    } else {
      assert (ops + more)[1..] == ops[1..] + more;
      RunOps(Apply(g, ops[0]), ops[1..], more);
    }
  }

  lemma NothingMatches(g: Registry, capabilities: seq<string>)
    requires g.localCards == [] && g.remoteAgents == []
    ensures Matching(g, capabilities) == []
  {
    assert Offering(g.localCards, capabilities) + Offering(g.remoteAgents, capabilities) == [];
  }

  // ----- Round robin is fair -----------------------------------------------------------------------

  /** How many of the `k` numbers from `from` on are `j` modulo `n`. */
  function Hits(from: nat, k: nat, n: nat, j: nat): nat
    requires n > 0
    decreases k
  {
    if k == 0 then 0 else (if from % n == j then 1 else 0) + Hits(from + 1, k - 1, n, j)
  }

  lemma {:induction false} HitsSplit(from: nat, a: nat, b: nat, n: nat, j: nat)
    requires n > 0
    ensures Hits(from, a + b, n, j) == Hits(from, a, n, j) + Hits(from + a, b, n, j)
    decreases a
  {
    if a > 0 {
      HitsSplit(from + 1, a - 1, b, n, j);
    }
  }

  lemma DivModStep(x: nat, n: nat)
    requires n > 0
    ensures (x + n) / n == x / n + 1 && (x + n) % n == x % n
  {
    var q := x / n;
    assert x == q * n + x % n;
    assert x + n == (q + 1) * n + x % n;
    ModUnique(x + n, n, q + 1, x % n);
  }

  lemma ModUnique(x: nat, n: nat, q: nat, r: nat)
    requires n > 0 && x == q * n + r && r < n
    ensures x / n == q && x % n == r
  {
    var p, s := x / n, x % n;
    assert x == p * n + s && 0 <= s < n;
    MulAtLeast(if p < q then q - p else 1, n);
    MulAtLeast(if q < p then p - q else 1, n);
    assert q * n - p * n == (q - p) * n;
  }

  lemma MulAtLeast(a: nat, n: nat)
    requires a >= 1
    ensures a * n >= n
  {
    assert a * n == n + (a - 1) * n;
  }

  /** Any n consecutive numbers hit each residue once. */
  lemma {:induction false} FullRound(from: nat, n: nat, j: nat)
    requires j < n
    ensures Hits(from, n, n, j) == 1
    decreases from
  {
    if from == 0 {
      FirstRound(0, n, n, j);
    } else {
      FullRound(from - 1, n, j);
      HitsSplit(from - 1, 1, n, n, j);
      HitsSplit(from - 1, n, 1, n, j);
      DivModStep(from - 1, n);
      assert Hits(from - 1, 1, n, j) == if (from - 1) % n == j then 1 else 0;
      assert Hits(from - 1 + n, 1, n, j) == if (from - 1 + n) % n == j then 1 else 0;
    }
  }

  lemma {:induction false} FirstRound(from: nat, k: nat, n: nat, j: nat)
    requires j < n && from + k == n
    ensures Hits(from, k, n, j) == if from <= j then 1 else 0
    decreases k
  {
    if k > 0 {
      ModUnique(from, n, 0, from);
      FirstRound(from + 1, k - 1, n, j);
    }
  }

  lemma {:induction false} FewHits(from: nat, k: nat, n: nat, j: nat)
    requires j < n && k <= n
    ensures Hits(from, k, n, j) <= 1
  {
    FullRound(from, n, j);
    HitsSplit(from, k, n - k, n, j);
  }

  /** k consecutive numbers hit each residue floor(k/n) or ceil(k/n) times. */
  lemma {:induction false} HitsAreEven(from: nat, k: nat, n: nat, j: nat)
    requires j < n
    ensures k / n <= Hits(from, k, n, j) <= (k + n - 1) / n
    decreases k
  {
    if k < n {
      ModUnique(k, n, 0, k);
      FewHits(from, k, n, j);
      if k > 0 {
        ModUnique(k + n - 1, n, 1, k - 1);
      }
    } else {
      FullRound(from, n, j);
      HitsSplit(from, n, k - n, n, j);
      HitsAreEven(from + n, k - n, n, j);
      DivModStep(k - n, n);
      DivModStep(k - 1, n);
    }
  }

  function RouteEach(g: Registry, requests: seq<Request>): seq<Routing>
    decreases |requests|
  {
    if requests == [] then []
    else var step := Route(g, requests[0]); [step.0] + RouteEach(step.1, requests[1..])
  }

  function IsMatch(r: Routing): bool {
    r.Decided? && r.decision.CapabilityMatch?
  }

  function CountMatches(rs: seq<Routing>): nat {
    if rs == [] then 0 else (if IsMatch(rs[0]) then 1 else 0) + CountMatches(rs[1..])
  }

  function CountMatchesTo(rs: seq<Routing>, id: string): nat {
    if rs == [] then 0
    else (if IsMatch(rs[0]) && rs[0].decision.target == id then 1 else 0) + CountMatchesTo(rs[1..], id)
  }

  /** Every request either goes directly to a healthy registered target or is matched against
      the same healthy list. */
  ghost predicate StableList(g: Registry, requests: seq<Request>, list: seq<string>) {
    forall i :: 0 <= i < |requests| ==>
      (Get(g.remoteAgents, requests[i].target).Some? && IsAgentHealthy(g, requests[i].target))
      || Matching(g, requests[i].capabilities) == list
  }

  ghost predicate SameAgents(g: Registry, h: Registry) {
    g.localCards == h.localCards && g.remoteAgents == h.remoteAgents && g.agentHealth == h.agentHealth
  }

  lemma {:induction false} SameAgentsSameHealthy(g: Registry, h: Registry, ids: seq<string>)
    requires SameAgents(g, h)
    ensures HealthyOf(g, ids) == HealthyOf(h, ids)
  {
    if ids != [] {
      SameAgentsSameHealthy(g, h, ids[..|ids| - 1]);
    }
  }

  lemma StableListMoves(g: Registry, h: Registry, requests: seq<Request>, list: seq<string>)
    requires SameAgents(g, h) && StableList(g, requests, list) && requests != []
    ensures StableList(h, requests[1..], list)
  {
    forall i | 0 <= i < |requests[1..]|
      ensures (Get(h.remoteAgents, requests[1..][i].target).Some? && IsAgentHealthy(h, requests[1..][i].target))
              || Matching(h, requests[1..][i].capabilities) == list
    {
      var r := requests[i + 1];
      SameAgentsSameHealthy(g, h, Offering(g.localCards, r.capabilities) + Offering(g.remoteAgents, r.capabilities));
    }
  }

  /** The capability matches walk through the list one by one, wherever the index starts and
      however direct routings are interleaved. */
  lemma {:induction false} MatchesFollowIndex(g: Registry, requests: seq<Request>, list: seq<string>, j: nat)
    requires Keyed(g.remoteAgents) && g.localCards == [] && StableList(g, requests, list)
    requires j < |list| && forall i :: 0 <= i < |list| && i != j ==> list[i] != list[j]
    ensures var rs := RouteEach(g, requests);
      CountMatchesTo(rs, list[j]) == Hits(g.roundRobinIndex, CountMatches(rs), |list|, j)
    decreases |requests|
  {
    if requests != [] {
      var r := requests[0];
      var step := Route(g, r);
      if Matching(g, r.capabilities) == list { MatchedRouting(g, r); }
      StableListMoves(g, step.1, requests, list);
      MatchesFollowIndex(step.1, requests[1..], list, j);
      var tail := RouteEach(step.1, requests[1..]);
      assert RouteEach(g, requests)[1..] == tail;
    }
  }

  lemma {:induction false} OfferingDistinct(cards: Ordered<Card>, capabilities: seq<string>)
    requires Keyed(cards)
    ensures NoDuplicates(Offering(cards, capabilities))
    ensures forall id :: id in Offering(cards, capabilities) ==> Has(cards, id)
  {
    if cards != [] {
      var front := cards[..|cards| - 1];
      OfferingDistinct(front, capabilities);
      var last := cards[|cards| - 1];
      forall id | Has(front, id) ensures Has(cards, id) {
        var i :| 0 <= i < |front| && front[i].key == id;
        assert cards[i].key == id;
      }
      assert !Has(front, last.key);
      assert Has(cards, last.key);
    }
  }

  lemma {:induction false} HealthyOfDistinct(g: Registry, ids: seq<string>)
    requires NoDuplicates(ids)
    ensures NoDuplicates(HealthyOf(g, ids))
  {
    if ids != [] {
      var front := ids[..|ids| - 1];
      HealthyOfDistinct(g, front);
      HealthyOfMember(g, front, ids[|ids| - 1]);
    }
  }

  /** `hits` is floor(k/n) or ceil(k/n). */
  predicate EvenShare(hits: nat, k: nat, n: nat) {
    n > 0 && k / n <= hits <= (k + n - 1) / n
  }

  lemma HitsAreEvenShare(from: nat, k: nat, n: nat, j: nat)
    requires j < n
    ensures EvenShare(Hits(from, k, n, j), k, n)
  {
    HitsAreEven(from, k, n, j);
  }

  lemma RemoteMatchingDistinct(g: Registry, capabilities: seq<string>)
    requires Keyed(g.remoteAgents) && g.localCards == []
    ensures NoDuplicates(Matching(g, capabilities))
  {
    OfferingDistinct(g.remoteAgents, capabilities);
    assert [] + Offering(g.remoteAgents, capabilities) == Offering(g.remoteAgents, capabilities);
    HealthyOfDistinct(g, Offering(g.remoteAgents, capabilities));
  }

  /** With remote agents only and a stable healthy matching list of n agents, k
      capability-matched routings choose each agent floor(k/n) or ceil(k/n) times. */
  lemma RoundRobinIsFair(g: Registry, requests: seq<Request>, capabilities: seq<string>, j: nat)
    requires Keyed(g.remoteAgents) && g.localCards == []
    requires StableList(g, requests, Matching(g, capabilities)) && j < |Matching(g, capabilities)|
    ensures var list, rs := Matching(g, capabilities), RouteEach(g, requests);
      EvenShare(CountMatchesTo(rs, list[j]), CountMatches(rs), |list|)
  {
    RemoteMatchingDistinct(g, capabilities);
    hide Matching, RouteEach, StableList, Keyed, EvenShare, Hits, CountMatches, CountMatchesTo;
    var list := Matching(g, capabilities);
    MatchesFollowIndex(g, requests, list, j);
    HitsAreEvenShare(g.roundRobinIndex, CountMatches(RouteEach(g, requests)), |list|, j);
  }
}
