/** Which cards and which health are on record at any point of a run of the gateway, in terms of the
    operations alone. */
module GatewayCards {
  import opened Wrappers
  import opened OrderedMap
  import opened GatewayRouting

  /** The card of the last local registration under the id, unless it was unregistered since. */
  ghost function LocalAfter(ops: seq<Op>, id: string): Option<Card> {
    if ops == [] then None
    else
      var before := ops[..|ops| - 1];
      match ops[|ops| - 1]
      case RegisterCard(other, card) => if other == id then Some(card) else LocalAfter(before, id)
      case UnregisterCard(other) => if other == id then None else LocalAfter(before, id)
      case _ => LocalAfter(before, id)
  }

  /** The card of the last remote registration under the id, unless it was unregistered since. */
  ghost function RemoteAfter(ops: seq<Op>, id: string): Option<Card> {
    if ops == [] then None
    else
      var before := ops[..|ops| - 1];
      match ops[|ops| - 1]
      case RegisterRemote(other, card) => if other == id then Some(card) else RemoteAfter(before, id)
      case UnregisterCard(other) => if other == id then None else RemoteAfter(before, id)
      case _ => RemoteAfter(before, id)
  }

  /** The agents whose checks are awaited, in the order in which the checks began: only registered remote
      agents are checked, and each answer takes one off. */
  ghost function AwaitedAfter(ops: seq<Op>): seq<string> {
    if ops == [] then []
    else
      var before := ops[..|ops| - 1];
      var awaited := AwaitedAfter(before);
      match ops[|ops| - 1]
      case BeginCheck(id) => if RemoteAfter(before, id).Some? then awaited + [id] else awaited
      case FinishCheck(k, _) => if k < |awaited| then awaited[..k] + awaited[k + 1..] else awaited
      case _ => awaited
  }

  /** Healthy from the remote registration on, then as the last check was answered, until unregistered. */
  ghost function HealthAfter(ops: seq<Op>, id: string): Option<bool> {
    if ops == [] then None
    else
      var before := ops[..|ops| - 1];
      match ops[|ops| - 1]
      case RegisterRemote(other, _) => if other == id then Some(true) else HealthAfter(before, id)
      case UnregisterCard(other) => if other == id then None else HealthAfter(before, id)
      case FinishCheck(k, healthy) =>
        if k < |AwaitedAfter(before)| && AwaitedAfter(before)[k] == id then Some(healthy) else HealthAfter(before, id)
      case _ => HealthAfter(before, id)
  }

  lemma RunOneMore(ops: seq<Op>)
    requires ops != []
    ensures Run(EMPTY, ops) == Apply(Run(EMPTY, ops[..|ops| - 1]), ops[|ops| - 1])
  {
    var n := |ops| - 1;
    var last := [ops[n]];
    assert ops == ops[..n] + last;
    RunOps(EMPTY, ops[..n], last);
    hide Apply;
    assert Run(Run(EMPTY, ops[..n]), last) == Run(Apply(Run(EMPTY, ops[..n]), ops[n]), last[1..]);
  }

  lemma RouteKeepsRecords(g: Registry, r: Request)
    ensures var h := Route(g, r).1;
      h.localCards == g.localCards && h.remoteAgents == g.remoteAgents && h.agentHealth == g.agentHealth
      && h.checks == g.checks
  {
  }

  /** In every run of a new gateway the registered cards, the awaited checks and the health records are
      what the operations say; routing touches none of them. */
  lemma {:induction false} RecordsFollowOperations(ops: seq<Op>, id: string)
    ensures var g := Run(EMPTY, ops);
      && Get(g.localCards, id) == LocalAfter(ops, id) && Get(g.remoteAgents, id) == RemoteAfter(ops, id)
      && Get(g.agentHealth, id) == HealthAfter(ops, id) && g.checks == AwaitedAfter(ops)
  {
    if ops != [] {
      var before, op := ops[..|ops| - 1], ops[|ops| - 1];
      RecordsFollowOperations(before, id);
      RunOneMore(ops);
      var g := Run(EMPTY, before);
      if op.BeginCheck? { RecordsFollowOperations(before, op.id); }
      hide Run, Route;
      match op
      case RegisterCard(other, card) => GetPut(g.localCards, other, card, id);
      case UnregisterCard(other) =>
        GetRemove(g.localCards, other, id);
        GetRemove(g.remoteAgents, other, id);
        GetRemove(g.agentHealth, other, id);
      case RegisterRemote(other, card) =>
        GetPut(g.remoteAgents, other, card, id);
        GetPut(g.agentHealth, other, true, id);
      case BeginCheck(other) => GetIsHas(g.remoteAgents, other);
      case FinishCheck(k, healthy) =>
        if k < |g.checks| { GetPut(g.agentHealth, g.checks[k], healthy, id); }
      case RouteTask(r) => RouteKeepsRecords(g, r);
    }
  }
}
