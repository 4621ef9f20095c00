/** Which agent the gateway routes a task to, in terms of the registered cards, the health records and
    the request. */
module GatewayDecisions {
  import opened Wrappers
  import opened OrderedMap
  import opened GatewayRouting

  /** The card lists one of the capabilities. */
  ghost predicate Lists(card: Card, capabilities: seq<string>) {
    exists c: string :: c in capabilities && c in card.capabilities
  }

  /** Some card registered under the id, local or remote, lists one of the capabilities. */
  ghost predicate OfferedBy(g: Registry, id: string, capabilities: seq<string>) {
    || (exists card :: Pair(id, card) in g.localCards && Lists(card, capabilities))
    || (exists card :: Pair(id, card) in g.remoteAgents && Lists(card, capabilities))
  }

  /** The agent is remote and was healthy at its last check, or has a local card only. */
  ghost predicate Usable(g: Registry, id: string) {
    if exists card :: Pair(id, card) in g.remoteAgents then Get(g.agentHealth, id) == Some(true)
    else (exists card :: Pair(id, card) in g.localCards) || Get(g.agentHealth, id) == Some(true)
  }

  lemma HasIsPair<V>(m: Ordered<V>, key: string)
    ensures Has(m, key) <==> exists v :: Pair(key, v) in m
  {
    if i :| 0 <= i < |m| && m[i].key == key {
      assert m[i] == Pair(key, m[i].value) && m[i] in m;
    }
    if v :| Pair(key, v) in m {
      var i :| 0 <= i < |m| && m[i] == Pair(key, v);
    }
  }

  lemma UsableIsHealthy(g: Registry, id: string)
    ensures Usable(g, id) <==> IsAgentHealthy(g, id)
  {
    HasIsPair(g.remoteAgents, id);
    HasIsPair(g.localCards, id);
  }

  lemma {:induction false} OfferingExactly(cards: Ordered<Card>, capabilities: seq<string>, id: string)
    ensures id in Offering(cards, capabilities) <==> exists card :: Pair(id, card) in cards && Lists(card, capabilities)
  {
    if cards != [] {
      var front, last := cards[..|cards| - 1], cards[|cards| - 1];
      OfferingExactly(front, capabilities, id);
      assert cards == front + [last];
      assert Offers(last.value, capabilities) <==> Lists(last.value, capabilities);
      assert last == Pair(last.key, last.value);
      if card :| Pair(id, card) in cards && Lists(card, capabilities) {
        assert Pair(id, card) in front || Pair(id, card) == last;
      }
    }
  }

  /** An agent is on the list that round robin walks if and only if it is usable and offers one of the
      requested capabilities. */
  lemma MatchingExactly(g: Registry, capabilities: seq<string>, id: string)
    ensures id in Matching(g, capabilities) <==> OfferedBy(g, id, capabilities) && Usable(g, id)
  {
    var ids := Offering(g.localCards, capabilities) + Offering(g.remoteAgents, capabilities);
    HealthyOfMember(g, ids, id);
    OfferingExactly(g.localCards, capabilities, id);
    OfferingExactly(g.remoteAgents, capabilities, id);
    UsableIsHealthy(g, id);
  }

  /** `x` stands before `y`. */
  ghost predicate Before(s: seq<string>, x: string, y: string) {
    exists i, j :: 0 <= i < j < |s| && s[i] == x && s[j] == y
  }

  lemma BeforeInLonger(s: seq<string>, t: seq<string>, x: string, y: string)
    ensures Before(s, x, y) ==> Before(s + t, x, y) && Before(t + s, x, y)
    ensures x in s && y in t ==> Before(s + t, x, y)
  {
    if i, j :| 0 <= i < j < |s| && s[i] == x && s[j] == y {
      assert (s + t)[i] == x && (s + t)[j] == y;
      assert (t + s)[|t| + i] == x && (t + s)[|t| + j] == y;
    }
    if x in s && y in t {
      var i :| 0 <= i < |s| && s[i] == x;
      var j :| 0 <= j < |t| && t[j] == y;
      assert (s + t)[i] == x && (s + t)[|s| + j] == y;
    }
  }

  /** Offering agents keep the order of registration. */
  lemma {:induction false} OfferingInOrder(cards: Ordered<Card>, capabilities: seq<string>, i: nat, j: nat)
    requires i < j < |cards| && Lists(cards[i].value, capabilities) && Lists(cards[j].value, capabilities)
    ensures Before(Offering(cards, capabilities), cards[i].key, cards[j].key)
  {
    var front, last := cards[..|cards| - 1], cards[|cards| - 1];
    assert Offers(last.value, capabilities) <==> Lists(last.value, capabilities);
    var rest := if Offers(last.value, capabilities) then [last.key] else [];
    BeforeInLonger(Offering(front, capabilities), rest, cards[i].key, cards[j].key);
    if j == |cards| - 1 {
      OfferingExactly(front, capabilities, cards[i].key);
      assert front[i] == Pair(cards[i].key, cards[i].value) && front[i] in front;
    } else {
      OfferingInOrder(front, capabilities, i, j);
    }
  }

  lemma {:induction false} HealthyInOrder(g: Registry, ids: seq<string>, x: string, y: string)
    requires Before(ids, x, y) && Usable(g, x) && Usable(g, y)
    ensures Before(HealthyOf(g, ids), x, y)
  {
    var front, last := ids[..|ids| - 1], ids[|ids| - 1];
    var i, j :| 0 <= i < j < |ids| && ids[i] == x && ids[j] == y;
    UsableIsHealthy(g, x);
    UsableIsHealthy(g, y);
    var rest := if IsAgentHealthy(g, last) then [last] else [];
    BeforeInLonger(HealthyOf(g, front), rest, x, y);
    HealthyOfMember(g, front, x);
    if j == |ids| - 1 {
      assert front[i] == x;
    } else {
      assert front[i] == x && front[j] == y;
      HealthyInOrder(g, front, x, y);
    }
  }

  /** Round robin walks local agents before remote ones, each in the order of registration. */
  lemma MatchingInOrder(g: Registry, capabilities: seq<string>, x: Pair<Card>, y: Pair<Card>)
    requires Lists(x.value, capabilities) && Lists(y.value, capabilities) && Usable(g, x.key) && Usable(g, y.key)
    requires || (x in g.localCards && y in g.remoteAgents)
             || (exists i, j :: 0 <= i < j < |g.localCards| && g.localCards[i] == x && g.localCards[j] == y)
             || (exists i, j :: 0 <= i < j < |g.remoteAgents| && g.remoteAgents[i] == x && g.remoteAgents[j] == y)
    ensures Before(Matching(g, capabilities), x.key, y.key)
  {
    var local, remote := Offering(g.localCards, capabilities), Offering(g.remoteAgents, capabilities);
    BeforeInLonger(local, remote, x.key, y.key);
    BeforeInLonger(remote, local, x.key, y.key);
    if i, j :| 0 <= i < j < |g.localCards| && g.localCards[i] == x && g.localCards[j] == y {
      OfferingInOrder(g.localCards, capabilities, i, j);
    } else if i, j :| 0 <= i < j < |g.remoteAgents| && g.remoteAgents[i] == x && g.remoteAgents[j] == y {
      OfferingInOrder(g.remoteAgents, capabilities, i, j);
    } else {
      assert x == Pair(x.key, x.value) && y == Pair(y.key, y.value);
      OfferingExactly(g.localCards, capabilities, x.key);
      OfferingExactly(g.remoteAgents, capabilities, y.key);
    }
    HealthyInOrder(g, local + remote, x.key, y.key);
  }

  // ----- The three strategies ----------------------------------------------------------------------------

  /** The target itself is registered and healthy. */
  ghost predicate DirectlyServed(g: Registry, r: Request) {
    (exists card :: Pair(r.target, card) in g.remoteAgents) && Get(g.agentHealth, r.target) == Some(true)
  }

  /** Some usable agent offers a requested capability. */
  ghost predicate Matched(g: Registry, r: Request) {
    exists id :: OfferedBy(g, id, r.capabilities) && Usable(g, id)
  }

  /** The i-th health record is the first marked healthy. */
  ghost predicate MarkedFirst(health: Ordered<bool>, i: int) {
    0 <= i < |health| && health[i].value && forall j :: 0 <= j < i ==> !health[j].value
  }

  /** The i-th card is the first whose agent has no health record. */
  ghost predicate UncheckedFirst(cards: Ordered<Card>, health: Ordered<bool>, i: int) {
    && 0 <= i < |cards| && Get(health, cards[i].key) == None
    && forall j :: 0 <= j < i ==> Get(health, cards[j].key).Some?
  }

  /** The earliest agent marked healthy, or without one the earliest local agent without a record. */
  ghost predicate IsFallback(g: Registry, id: string) {
    || (exists i :: MarkedFirst(g.agentHealth, i) && g.agentHealth[i].key == id)
    || ((forall i :: 0 <= i < |g.agentHealth| ==> !g.agentHealth[i].value)
        && exists i :: UncheckedFirst(g.localCards, g.agentHealth, i) && g.localCards[i].key == id)
  }

  lemma {:induction false} FirstMarkedExactly(health: Ordered<bool>)
    ensures match FirstMarkedHealthy(health)
      case Some(id) => exists i :: MarkedFirst(health, i) && health[i].key == id
      case None => forall i :: 0 <= i < |health| ==> !health[i].value
  {
    if health != [] {
      FirstMarkedExactly(health[1..]);
      assert forall i :: 0 <= i < |health[1..]| ==> health[1..][i] == health[i + 1];
      if health[0].value {
        assert MarkedFirst(health, 0);
      } else if FirstMarkedHealthy(health).Some? {
        var i :| MarkedFirst(health[1..], i) && health[1..][i].key == FirstMarkedHealthy(health).value;
        forall j | 0 <= j < i + 1 ensures !health[j].value {
          if j > 0 { assert health[j] == health[1..][j - 1]; }
        }
        assert MarkedFirst(health, i + 1);
      } else {
        forall i | 0 <= i < |health| ensures !health[i].value {
          if i > 0 { assert health[i] == health[1..][i - 1]; }
        }
      }
    }
  }

  lemma {:induction false} FirstUncheckedExactly(cards: Ordered<Card>, health: Ordered<bool>)
    ensures match FirstUnchecked(cards, health)
      case Some(id) => exists i :: UncheckedFirst(cards, health, i) && cards[i].key == id
      case None => forall i :: 0 <= i < |cards| ==> Get(health, cards[i].key).Some?
    decreases |cards|
  {
    if cards != [] {
      FirstUncheckedExactly(cards[1..], health);
      GetIsHas(health, cards[0].key);
      if !Has(health, cards[0].key) {
        assert UncheckedFirst(cards, health, 0);
      } else if FirstUnchecked(cards, health).Some? {
        var i :| UncheckedFirst(cards[1..], health, i) && cards[1..][i].key == FirstUnchecked(cards, health).value;
        forall j | 0 <= j < i + 1 ensures Get(health, cards[j].key).Some? {
          if j > 0 { assert cards[j] == cards[1..][j - 1]; }
        }
        assert UncheckedFirst(cards, health, i + 1);
      } else {
        forall i | 0 <= i < |cards| ensures Get(health, cards[i].key).Some? {
          if i > 0 { assert cards[i] == cards[1..][i - 1]; }
        }
      }
    }
  }

  lemma FallbackExactly(g: Registry)
    ensures match Fallback(g)
      case Some(id) => IsFallback(g, id)
      case None => forall id :: !IsFallback(g, id)
  {
    FirstMarkedExactly(g.agentHealth);
    FirstUncheckedExactly(g.localCards, g.agentHealth);
  }

  /** Routing prefers the target itself, then an agent offering a requested capability, then the
      fallback, and fails only without any of them; the index moves with a match and only then.  The
      answer names the chosen agent, unless it has a local card only. */
  lemma RouteExactly(g: Registry, r: Request)
    ensures var routing, index := Route(g, r).0, Route(g, r).1.roundRobinIndex;
      && Route(g, r).1 == g.(roundRobinIndex := index)
      && if DirectlyServed(g, r) then
           routing.Decided? && routing.decision.Direct? && routing.decision.target == r.target
           && index == g.roundRobinIndex
         else if Matched(g, r) then
           && index == g.roundRobinIndex + 1
           && (routing == NoClient || (routing.Decided? && routing.decision.CapabilityMatch?))
           && (routing.Decided? ==> OfferedBy(g, routing.decision.target, r.capabilities)
                                    && Usable(g, routing.decision.target))
         else
           && index == g.roundRobinIndex
           && (routing == NoRoute <==> forall id :: !IsFallback(g, id))
           && (routing.Decided? ==> routing.decision.LeastLoad? && IsFallback(g, routing.decision.target))
  {
    GetIsHas(g.remoteAgents, r.target);
    HasIsPair(g.remoteAgents, r.target);
    UsableIsHealthy(g, r.target);
    if DirectlyServed(g, r) {
      return;
    }
    var matching := Matching(g, r.capabilities);
    forall id ensures id in matching <==> OfferedBy(g, id, r.capabilities) && Usable(g, id) {
      MatchingExactly(g, r.capabilities, id);
    }
    FallbackExactly(g);
    hide DirectlyServed, Matching, Fallback, IsFallback, OfferedBy, Usable;
    assert matching == [] || matching[0] in matching;
    if Matched(g, r) {
      var selected := matching[g.roundRobinIndex % |matching|];
      assert selected in matching;
    }
  }
}
