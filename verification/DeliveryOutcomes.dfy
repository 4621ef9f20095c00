/** What a delivery comes to, in terms of the replies themselves: which are tried again, which settle
    the task, and which error is reported. */
module DeliveryOutcomes {
  import opened Wrappers
  import opened Sequences
  import opened TaskDelivery

  /** The message of an error that is worth another attempt. */
  ghost predicate Transient(message: string) {
    Includes(message, "timeout") || Includes(message, "ECONNREFUSED")
  }

  ghost function NotFound(target: string): string {
    "Remote agent " + target + " not found"
  }

  /** A remote agent is tried again after a failed answer, a request that was cancelled in flight, or a
      transient error; a missing agent only if its own name reads like one. */
  ghost predicate TriedAgain(target: string, turn: Turn) {
    match turn.place
    case LocalCard => false
    case Unregistered => Transient(NotFound(target))
    case RemoteAgent =>
      || turn.cancellation == InFlight
      || (turn.reply.Answer? && turn.reply.status == AnsweredFailed)
      || (turn.reply.Thrown? && turn.reply.isError && Transient(turn.reply.message))
  }

  /** The attempt delivers the task: a local card always, a remote agent by an answer that is not a
      failure, unless its request was cancelled. */
  ghost predicate DeliversTo(turn: Turn) {
    || turn.place == LocalCard
    || (turn.place == RemoteAgent && turn.cancellation != InFlight
        && turn.reply.Answer? && turn.reply.status != AnsweredFailed)
  }

  /** The code under which a thrown error is reported. */
  ghost predicate ReportedAs(code: ErrorCode, isError: bool, message: string) {
    && (code == Timeout <==> isError && Includes(message, "timeout"))
    && (code == AgentUnreachable <==> isError && Includes(message, "ECONNREFUSED") && !Includes(message, "timeout"))
    && (code == UnknownError <==> !(isError && Transient(message)))
  }

  /** The result, if this attempt is the last one. */
  ghost predicate Yields(timeoutMs: string, target: string, turn: Turn, r: TaskResult) {
    if turn.place == LocalCard then r == AcceptedLocally(target)
    else if turn.place == Unregistered then
      r.ErrorResult? && r.message == NotFound(target) && ReportedAs(r.code, true, r.message)
    else if turn.cancellation == InFlight then r == ErrorResult(Timeout, "Request timeout after " + timeoutMs + "ms")
    else match turn.reply
      case Answer(status, _, error) =>
        if status != AnsweredFailed then r == Delivered(turn.reply)
        else r == ErrorResult(AgentRejected, match error case Some(e) => e case None => "Agent returned failure")
      case Thrown(isError, message) =>
        r.ErrorResult? && r.message == message && ReportedAs(r.code, isError, message)
  }

  lemma JudgedByReply(timeoutMs: string, target: string, turn: Turn, r: TaskResult)
    ensures Judge(timeoutMs, target, turn).GoesOn? <==> TriedAgain(target, turn)
    ensures Judge(timeoutMs, target, turn).Settles? <==> DeliversTo(turn)
    ensures Yields(timeoutMs, target, turn, r) <==>
              match Judge(timeoutMs, target, turn)
              case Settles(result) => r == result
              case Stops(e) => r == Failure(e)
              case GoesOn(e) => r == Failure(e)
  {
    if turn.place == RemoteAgent && turn.cancellation == InFlight {
      AbortIsRetried(timeoutMs, target, turn);
    }
    hide Includes;
  }

  /** The loop ends with the i-th attempt and a result if and only if every attempt before was tried
      again, this one was not or was the last allowed one, and the result is what it yields. */
  lemma DecidedExactly(timeoutMs: string, target: string, turns: nat -> Turn, maxRetries: nat, i: nat, r: TaskResult)
    ensures DecidedAt(timeoutMs, target, turns, maxRetries, i, r) <==>
      && i < maxRetries && (forall j: nat :: j < i ==> TriedAgain(target, turns(j)))
      && (TriedAgain(target, turns(i)) ==> i == maxRetries - 1)
      && Yields(timeoutMs, target, turns(i), r)
  {
    forall j: nat ensures Judge(timeoutMs, target, turns(j)).GoesOn? <==> TriedAgain(target, turns(j)) {
      JudgedByReply(timeoutMs, target, turns(j), r);
    }
    JudgedByReply(timeoutMs, target, turns(i), r);
    hide Judge, TriedAgain, Yields;
  }

  /** The task is delivered if and only if some allowed attempt delivers it and every attempt before
      that one was tried again; otherwise it ends with an error. */
  lemma DeliveredByReplies(timeoutMs: string, target: string, turns: nat -> Turn, maxRetries: nat,
                           i: nat, r: TaskResult)
    requires DecidedAt(timeoutMs, target, turns, maxRetries, i, r)
    ensures r.AcceptedLocally? || r.Delivered? <==>
      exists k: nat :: k < maxRetries && DeliversTo(turns(k)) && forall j: nat :: j < k ==> TriedAgain(target, turns(j))
    ensures r.ErrorResult? <==> !(r.AcceptedLocally? || r.Delivered?)
  {
    DecidedExactly(timeoutMs, target, turns, maxRetries, i, r);
    if k: nat :| k < maxRetries && DeliversTo(turns(k)) && forall j: nat :: j < k ==> TriedAgain(target, turns(j)) {
      assert !TriedAgain(target, turns(k));
      assert k < i ==> TriedAgain(target, turns(k));
      assert i < k ==> TriedAgain(target, turns(i));
      assert i == k;
    }
  }
}
