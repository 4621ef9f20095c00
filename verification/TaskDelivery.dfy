/** Delivery of one task by the federation gateway: routing, the retry loop over a registry and
    an agent that may change between attempts, and the task state that the loop, the submission
    and cancellation all write to. */
module TaskDelivery {
  import opened Wrappers
  import opened Sequences

  datatype TaskStatus = Pending | Routing | Accepted | InProgress | Completed | Failed | Rejected

  datatype ErrorCode = AgentUnreachable | AgentRejected | Timeout | RoutingFailed | UnknownError

  datatype FederationError = FederationError(code: ErrorCode, message: string, retryable: bool)

  datatype AnswerStatus = AnsweredAccepted | AnsweredCompleted | AnsweredFailed

  /** What awaiting the agent's answer comes to. */
  datatype Reply =
    | Answer(status: AnswerStatus, output: string, error: Option<string>)
    | Thrown(isError: bool, message: string)

  datatype Place = LocalCard | RemoteAgent | Unregistered

  /** When `cancelTask` is called, if it is, between the start of an attempt and the next one:
      while the request is in flight, or after it. */
  datatype Cancellation = NotCancelled | InFlight | Late

  /** One attempt: where the target is registered by then, what the agent replies if the request
      is not aborted, and a cancellation. */
  datatype Turn = Turn(place: Place, reply: Reply, cancellation: Cancellation)

  /** What the client reports of an aborted request; `timeoutMs` is the configured limit. */
  function AbortReply(timeoutMs: string): Reply {
    Thrown(true, "Request timeout after " + timeoutMs + "ms")
  }

  /** The reply as the retry loop sees it: a cancellation aborts the request that is in flight. */
  function Heard(timeoutMs: string, turn: Turn): Reply {
    if turn.cancellation == InFlight then AbortReply(timeoutMs) else turn.reply
  }

  datatype TaskResult =
    | AcceptedLocally(target: string)
    | Delivered(reply: Reply)
    | ErrorResult(code: ErrorCode, message: string)
    | Cancelled

  function NormalizeError(isError: bool, message: string): FederationError {
    if isError && Includes(message, "timeout") then FederationError(Timeout, message, true)
    else if isError && Includes(message, "ECONNREFUSED") then FederationError(AgentUnreachable, message, true)
    else FederationError(UnknownError, message, false)
  }

  function Failure(e: FederationError): TaskResult {
    ErrorResult(e.code, e.message)
  }

  /** What one attempt decides: it settles the task, fails for good, or fails and lets the
      loop go on. */
  datatype Judgement = Settles(result: TaskResult) | Stops(error: FederationError) | GoesOn(error: FederationError)

  function AfterThrow(e: FederationError): Judgement {
    if e.retryable then GoesOn(e) else Stops(e)
  }

  function Judge(timeoutMs: string, target: string, turn: Turn): Judgement {
    match turn.place
    case LocalCard => Settles(AcceptedLocally(target))
    case Unregistered => AfterThrow(NormalizeError(true, "Remote agent " + target + " not found"))
    case RemoteAgent =>
      match Heard(timeoutMs, turn)
      case Thrown(isError, message) => AfterThrow(NormalizeError(isError, message))
      case Answer(AnsweredFailed, _, error) =>
        GoesOn(FederationError(AgentRejected, if error.Some? then error.value else "Agent returned failure", true))
      case Answer(_, _, _) => Settles(Delivered(Heard(timeoutMs, turn)))
  }

  /** Every attempt before the i-th lets the loop go on. */
  ghost predicate Reached(timeoutMs: string, target: string, turns: nat -> Turn, i: nat) {
    forall j: nat :: j < i ==> Judge(timeoutMs, target, turns(j)).GoesOn?
  }

  /** The first attempt that does not go on decides; without one, the last error does. */
  ghost predicate DecidedAt(timeoutMs: string, target: string, turns: nat -> Turn, maxRetries: nat, i: nat,
                            r: TaskResult)
  {
    && i < maxRetries && Reached(timeoutMs, target, turns, i)
    && match Judge(timeoutMs, target, turns(i))
       case Settles(result) => r == result
       case Stops(e) => r == Failure(e)
       case GoesOn(e) => i == maxRetries - 1 && r == Failure(e)
  }

  /** The status a task is left with by its last attempt: the attempt's own, unless it was cancelled
      while or after that ran. */
  ghost predicate StatusLeft(status: TaskStatus, cancellation: Cancellation, attempts: nat) {
    && (status == Rejected <==> cancellation == InFlight || cancellation == Late)
    && (status == Accepted <==> cancellation == NotCancelled && attempts == 1)
    && (status == InProgress <==> cancellation == NotCancelled && attempts != 1)
  }

  predicate IsFailed(r: TaskResult) {
    match r
    case AcceptedLocally(_) => false
    case Delivered(reply) => reply.Answer? && reply.status == AnsweredFailed
    case ErrorResult(_, _) => true
    case Cancelled => true
  }

  /** The loop reaches the c-th attempt, and it is cancelled while its request to the agent is in
      flight. */
  ghost predicate CancelledAt(timeoutMs: string, target: string, turns: nat -> Turn, maxRetries: nat, c: nat) {
    && c < maxRetries && Reached(timeoutMs, target, turns, c)
    && turns(c).place == RemoteAgent && turns(c).cancellation == InFlight
  }

  /** A later allowed attempt settles the task, with only retried ones in between. */
  ghost predicate SettledAfter(timeoutMs: string, target: string, turns: nat -> Turn, maxRetries: nat, c: nat) {
    exists k: nat :: c < k < maxRetries && Judge(timeoutMs, target, turns(k)).Settles?
      && forall j: nat :: c < j < k ==> Judge(timeoutMs, target, turns(j)).GoesOn?
  }

  const ALL_RETRIES_FAILED := FederationError(UnknownError, "Task failed after all retries", false)

  class TaskState {
    var status: TaskStatus
    var attempts: nat

    constructor ()
      ensures status == Pending && attempts == 0
    {
      status, attempts := Pending, 0;
    }

    /** cancelTask(): a finished task is left alone. */
    method Cancel() returns (done: bool)
      modifies this`status
      ensures done == (old(status) != Completed && old(status) != Failed)
      ensures status == if done then Rejected else old(status)
    {
      if status == Completed || status == Failed { return false; }
      status := Rejected;
      done := true;
    }

    /** The loop writes the status before it looks for a cancellation, so the branch that
        returns `Cancelled` is never taken. */
    method ExecuteTaskWithRetries(timeoutMs: string, target: string, maxRetries: nat, turns: nat -> Turn)
      returns (r: TaskResult)
      modifies this
      ensures maxRetries == 0 ==> attempts == old(attempts)
      ensures maxRetries == 0 ==> r == ErrorResult(UnknownError, "Task failed after all retries")
      ensures maxRetries > 0 ==>
        1 <= attempts <= maxRetries && DecidedAt(timeoutMs, target, turns, maxRetries, attempts - 1, r)
      ensures maxRetries > 0 ==> StatusLeft(status, turns(attempts - 1).cancellation, attempts)
    {
      hide Judge, NormalizeError, AfterThrow, Heard, AbortReply, IsFailed;
      var lastError := None;
      var attempt := 0;
      while attempt < maxRetries
        invariant 0 <= attempt <= maxRetries && Reached(timeoutMs, target, turns, attempt)
        invariant lastError == if attempt == 0 then None else Some(Judge(timeoutMs, target, turns(attempt - 1)).error)
        invariant attempts == if attempt == 0 then old(attempts) else attempt
        invariant attempt > 0 ==> StatusLeft(status, turns(attempt - 1).cancellation, attempt)
      {
        attempts := attempt + 1;
        status := if attempt == 0 then Accepted else InProgress;
        if status == Rejected {
          return Cancelled;
        }
        var judgement := Judge(timeoutMs, target, turns(attempt));
        if turns(attempt).cancellation != NotCancelled {
          var _ := Cancel();
        }
        match judgement {
          case Settles(result) => return result;
          case Stops(e) => return Failure(e);
          case GoesOn(e) => lastError := Some(e);
        }
        attempt := attempt + 1;
      }
      r := Failure(if lastError.Some? then lastError.value else ALL_RETRIES_FAILED);
    }

    /** submitTask() once the state has been stored.  A routed task ends completed or failed,
        cancelled or not; one that is not routed keeps the status it had. */
    method Submit(timeoutMs: string, routing: RoutingOutcome, maxRetries: nat, turns: nat -> Turn)
      returns (r: TaskResult)
      modifies this
      ensures !routing.Routed? ==> r.ErrorResult? && status == old(status) && attempts == old(attempts)
      ensures routing.Unrouted? ==> r.code == RoutingFailed
      ensures routing.Routed? ==> status == if r.ErrorResult? then Failed else Completed
      ensures routing.Routed? && maxRetries > 0 ==>
        1 <= attempts <= maxRetries && DecidedAt(timeoutMs, routing.target, turns, maxRetries, attempts - 1, r)
      ensures routing.Routed? && maxRetries == 0 ==> r == ErrorResult(UnknownError, "Task failed after all retries")
      ensures r != Cancelled
      ensures routing.Routed? ==> forall c: nat :: CancelledAt(timeoutMs, routing.target, turns, maxRetries, c) ==>
        (status == Completed <==> SettledAfter(timeoutMs, routing.target, turns, maxRetries, c))
    {
      match routing {
        case Unrouted(target) =>
          return Failure(FederationError(RoutingFailed, "No available agent found for target: " + target, false));
        case RoutingThrew(message) =>
          return Failure(NormalizeError(true, message));
        case Routed(target) =>
          status := Routing;
          r := ExecuteTaskWithRetries(timeoutMs, target, maxRetries, turns);
          if maxRetries > 0 {
            DecidedDelivery(timeoutMs, target, turns, maxRetries, attempts - 1, r);
          }
          status := if IsFailed(r) then Failed else Completed;
          hide Judge, Reached, DecidedAt, SettledAfter, NormalizeError;
      }
    }
  }

  datatype RoutingOutcome = Routed(target: string) | Unrouted(target: string) | RoutingThrew(message: string)

  // ----- What decides a delivery -----------------------------------------------------------------

  /** There is exactly one deciding attempt and result. */
  lemma DecisionIsUnique(timeoutMs: string, target: string, turns: nat -> Turn, maxRetries: nat,
                         i: nat, k: nat, r: TaskResult, s: TaskResult)
    requires DecidedAt(timeoutMs, target, turns, maxRetries, i, r)
    requires DecidedAt(timeoutMs, target, turns, maxRetries, k, s)
    ensures i == k && r == s
  {
    assert i < k ==> Judge(timeoutMs, target, turns(i)).GoesOn?;
    assert k < i ==> Judge(timeoutMs, target, turns(k)).GoesOn?;
  }

  lemma {:induction false} DecisionExists(timeoutMs: string, target: string, turns: nat -> Turn, maxRetries: nat,
                                          from: nat)
    returns (i: nat, r: TaskResult)
    requires from < maxRetries && Reached(timeoutMs, target, turns, from)
    ensures DecidedAt(timeoutMs, target, turns, maxRetries, i, r)
    decreases maxRetries - from
  {
    match Judge(timeoutMs, target, turns(from))
    case Settles(result) => i, r := from, result;
    case Stops(e) => i, r := from, Failure(e);
    case GoesOn(e) =>
      if from + 1 < maxRetries { i, r := DecisionExists(timeoutMs, target, turns, maxRetries, from + 1); }
      else { i, r := from, Failure(e); }
  }

  /** The task is delivered if and only if some allowed attempt settles it and every attempt
      before was a failed answer or an error that may be retried. */
  lemma DeliveredExactly(timeoutMs: string, target: string, turns: nat -> Turn, maxRetries: nat, i: nat, r: TaskResult)
    requires DecidedAt(timeoutMs, target, turns, maxRetries, i, r)
    ensures !r.ErrorResult? <==>
              exists k: nat :: k < maxRetries && Reached(timeoutMs, target, turns, k)
                && Judge(timeoutMs, target, turns(k)).Settles?
  {
    if k: nat :| k < maxRetries && Reached(timeoutMs, target, turns, k) && Judge(timeoutMs, target, turns(k)).Settles? {
      DecisionIsUnique(timeoutMs, target, turns, maxRetries, i, k, r, Judge(timeoutMs, target, turns(k)).result);
    }
  }

  /** An aborted request surfaces as a timeout, which is retried. */
  lemma AbortIsRetried(timeoutMs: string, target: string, turn: Turn)
    requires turn.place == RemoteAgent && turn.cancellation == InFlight
    ensures Judge(timeoutMs, target, turn)
         == GoesOn(FederationError(Timeout, "Request timeout after " + timeoutMs + "ms", true))
  {
    var before, message := "Request ", "Request timeout after " + timeoutMs + "ms";
    assert message[|before|..] == "timeout" + (" after " + timeoutMs + "ms");
    assert Includes(message, "timeout");
  }

  /** A task that is cancelled while its request is in flight is still delivered if and only if a
      later allowed attempt settles it with only retried attempts in between: the cancellation
      ends the attempt, not the task. */
  lemma CancelledStillDeliveredExactly(timeoutMs: string, target: string, turns: nat -> Turn, maxRetries: nat,
                                       c: nat, i: nat, r: TaskResult)
    requires CancelledAt(timeoutMs, target, turns, maxRetries, c)
    requires DecidedAt(timeoutMs, target, turns, maxRetries, i, r)
    ensures !r.ErrorResult? <==> SettledAfter(timeoutMs, target, turns, maxRetries, c)
    ensures c < i || c == i == maxRetries - 1
  {
    AbortIsRetried(timeoutMs, target, turns(c));
    if SettledAfter(timeoutMs, target, turns, maxRetries, c) {
      var k: nat :| c < k < maxRetries && Judge(timeoutMs, target, turns(k)).Settles?
        && forall j: nat :: c < j < k ==> Judge(timeoutMs, target, turns(j)).GoesOn?;
      forall j: nat | j < k ensures Judge(timeoutMs, target, turns(j)).GoesOn? {}
      DecisionIsUnique(timeoutMs, target, turns, maxRetries, i, k, r, Judge(timeoutMs, target, turns(k)).result);
    }
    if !r.ErrorResult? {
      assert c < i;
    }
  }

  /** `later` is a possible continuation: the same turns up to and including the c-th. */
  ghost predicate Continues(turns: nat -> Turn, later: nat -> Turn, c: nat) {
    forall j: nat :: j <= c ==> later(j) == turns(j)
  }

  /** However the turns after the c-th go, the task is not delivered. */
  ghost predicate NeverDelivered(timeoutMs: string, target: string, turns: nat -> Turn, maxRetries: nat, c: nat) {
    forall later: nat -> Turn, i: nat, r: TaskResult ::
      Continues(turns, later, c) && DecidedAt(timeoutMs, target, later, maxRetries, i, r) ==> r.ErrorResult?
  }

  /** The turns up to the c-th, and from then on an agent that answers. */
  function AnsweredAfter(turns: nat -> Turn, c: nat): nat -> Turn {
    (j: nat) => if j <= c then turns(j)
                else Turn(RemoteAgent, Answer(AnsweredCompleted, "done", None), NotCancelled)
  }

  /** What a caller can check at the time: a cancellation of a request in flight keeps the task from
      being delivered, whatever comes later, if and only if it hits the last allowed attempt. */
  lemma CancellationIsFinalExactly(timeoutMs: string, target: string, turns: nat -> Turn, maxRetries: nat, c: nat)
    requires CancelledAt(timeoutMs, target, turns, maxRetries, c)
    ensures NeverDelivered(timeoutMs, target, turns, maxRetries, c) <==> c == maxRetries - 1
  {
    if c == maxRetries - 1 {
      forall later: nat -> Turn, i: nat, r: TaskResult
        | Continues(turns, later, c) && DecidedAt(timeoutMs, target, later, maxRetries, i, r)
        ensures r.ErrorResult?
      {
        assert CancelledAt(timeoutMs, target, later, maxRetries, c);
        CancelledStillDeliveredExactly(timeoutMs, target, later, maxRetries, c, i, r);
      }
    } else {
      var later := AnsweredAfter(turns, c);
      AbortIsRetried(timeoutMs, target, turns(c));
      assert Continues(turns, later, c);
      assert DecidedAt(timeoutMs, target, later, maxRetries, c + 1,
                       Delivered(Answer(AnsweredCompleted, "done", None)));
    }
  }

  /** What the decision of a delivery means for the task. */
  lemma DecidedDelivery(timeoutMs: string, target: string, turns: nat -> Turn, maxRetries: nat, i: nat, r: TaskResult)
    requires DecidedAt(timeoutMs, target, turns, maxRetries, i, r)
    ensures r != Cancelled && (IsFailed(r) <==> r.ErrorResult?)
    ensures forall c: nat :: CancelledAt(timeoutMs, target, turns, maxRetries, c) ==>
              (!r.ErrorResult? <==> SettledAfter(timeoutMs, target, turns, maxRetries, c))
  {
    forall c: nat | CancelledAt(timeoutMs, target, turns, maxRetries, c)
      ensures !r.ErrorResult? <==> SettledAfter(timeoutMs, target, turns, maxRetries, c)
    {
      CancelledStillDeliveredExactly(timeoutMs, target, turns, maxRetries, c, i, r);
    }
  }

  /** The same turns, with each cancelled request replaced by one that times out and no
      cancellation at all. */
  function AsTimeouts(timeoutMs: string, turns: nat -> Turn): nat -> Turn {
    (i: nat) => Turn(turns(i).place, Heard(timeoutMs, turns(i)), NotCancelled)
  }

  /** A cancellation in flight counts as a timeout and a late one as nothing: result and attempts
      are those of a run without cancellations, and the result is never `Cancelled`. */
  lemma CancellationIsNeverSeen(timeoutMs: string, target: string, turns: nat -> Turn, maxRetries: nat,
                                i: nat, r: TaskResult)
    ensures DecidedAt(timeoutMs, target, turns, maxRetries, i, r) <==>
              DecidedAt(timeoutMs, target, AsTimeouts(timeoutMs, turns), maxRetries, i, r)
    ensures DecidedAt(timeoutMs, target, turns, maxRetries, i, r) ==> r != Cancelled
  {
    var calm := AsTimeouts(timeoutMs, turns);
    forall j: nat ensures Judge(timeoutMs, target, turns(j)) == Judge(timeoutMs, target, calm(j)) {}
  }

  // ----- A cancelled task delivered ----------------------------------------------------------------

  /** The agent would answer at once; the first request is cancelled in flight, the second is not. */
  function CancelledOnce(i: nat): Turn {
    Turn(RemoteAgent, Answer(AnsweredCompleted, "done", None), if i == 0 then InFlight else NotCancelled)
  }

  /** A new task, routed, cancelled while its first request is in flight: it is sent again and
      ends completed. */
  method CancelledTaskCompletes() returns (task: TaskState, r: TaskResult)
    ensures fresh(task) && task.status == Completed && task.attempts == 2
    ensures r == Delivered(Answer(AnsweredCompleted, "done", None))
  {
    task := new TaskState();
    r := task.Submit("30000", Routed("agent"), 3, CancelledOnce);
    AbortIsRetried("30000", "agent", CancelledOnce(0));
    assert DecidedAt("30000", "agent", CancelledOnce, 3, 1, Delivered(Answer(AnsweredCompleted, "done", None)));
    DecisionIsUnique("30000", "agent", CancelledOnce, 3, task.attempts - 1, 1, r,
                     Delivered(Answer(AnsweredCompleted, "done", None)));
  }
}
