/** The tool executor: priority of MCP tools on registration, retries, and execution traces
    that the history holds by reference. */
module ToolExecutor {
  import opened Wrappers
  import opened BrokerRegistry

  const MAX_RETRIES := 3

  /** What one call of a tool does; `retryable` is false only for an application error that
      says so. */
  datatype Attempt = Succeeds(output: string) | Fails(retryable: bool)

  datatype ExecutionError = Refused(refusal: Refusal) | ExecutionFailed

  datatype Status = Started | Completed | Failed

  class Trace {
    const runId: string
    const toolName: string
    var status: Status

    constructor (runId: string, toolName: string)
      ensures this.runId == runId && this.toolName == toolName && status == Started
    {
      this.runId, this.toolName := runId, toolName;
      status := Started;
    }
  }

  /** The recursive retry: `attempts(i)` is what the i-th call would do, counting from 1. */
  function WithRetry(attempts: nat -> Attempt, attempt: nat): Option<string>
    decreases MAX_RETRIES - attempt
  {
    match attempts(attempt)
    case Succeeds(output) => Some(output)
    case Fails(retryable) => if !retryable || attempt >= MAX_RETRIES then None else WithRetry(attempts, attempt + 1)
  }

  /** The first call that succeeds, when every call before it failed retryably. */
  ghost predicate SucceedsAt(attempts: nat -> Attempt, i: nat) {
    attempts(i).Succeeds? && forall j :: 1 <= j < i ==> attempts(j) == Fails(true)
  }

  lemma {:induction false} RetriesFrom(attempts: nat -> Attempt, attempt: nat)
    requires 1 <= attempt <= MAX_RETRIES && forall j :: 1 <= j < attempt ==> attempts(j) == Fails(true)
    ensures WithRetry(attempts, attempt).Some? <==> exists i :: attempt <= i <= MAX_RETRIES && SucceedsAt(attempts, i)
    ensures forall i :: attempt <= i <= MAX_RETRIES && SucceedsAt(attempts, i) ==>
              WithRetry(attempts, attempt) == Some(attempts(i).output)
    decreases MAX_RETRIES - attempt
  {
    if attempts(attempt).Succeeds? {
      assert SucceedsAt(attempts, attempt);
    } else if attempts(attempt).retryable && attempt < MAX_RETRIES {
      RetriesFrom(attempts, attempt + 1);
    }
  }

  /** Execution succeeds exactly when one of the first three calls does and every earlier one
      failed with an error that may be retried; it returns that call's output. */
  lemma RetryExactly(attempts: nat -> Attempt)
    ensures WithRetry(attempts, 1).Some? <==> exists i :: 1 <= i <= 3 && SucceedsAt(attempts, i)
    ensures forall i :: 1 <= i <= 3 && SucceedsAt(attempts, i) ==>
              WithRetry(attempts, 1) == Some(attempts(i).output)
  {
    RetriesFrom(attempts, 1);
  }

  class Executor {
    var tools: map<string, BrokerTool>
    var policies: map<string, Policy>
    var executionHistory: map<string, seq<Trace>>
    /** The traces of executions that wait for their tool. */
    ghost var open: set<Trace>

    constructor ()
      ensures tools == map[] && policies == map[] && executionHistory == map[]
      ensures Valid() && open == {}
    {
      tools, policies, executionHistory, open := map[], map[], map[], {};
    }

    ghost function Traces(): set<Trace>
      reads this`executionHistory
    {
      set run, t | run in executionHistory && t in executionHistory[run] :: t
    }

    /** The trace stands in its own run's history: once, as started, while the execution is open, and
        twice, as what it ended as, from then on. */
    ghost predicate Booked(runId: string, t: Trace)
      requires runId in executionHistory
      reads this`executionHistory, this`open, t
    {
      && t.runId == runId
      && (t.status == Started <==> t in open)
      && multiset(executionHistory[runId])[t] == if t in open then 1 else 2
    }

    /** Holds however executions overlap: every method keeps it. */
    ghost predicate Valid()
      reads this`executionHistory, this`open, Traces()
    {
      && (forall run, t :: run in executionHistory && t in executionHistory[run] ==> Booked(run, t))
      && (forall t :: t in open ==> t.runId in executionHistory && t in executionHistory[t.runId])
    }

    /** An MCP tool is replaced only by another MCP tool. */
    method AddTool(tool: BrokerTool)
      modifies this`tools
      ensures tools.Keys == old(tools).Keys + {tool.name}
      ensures forall n :: n in old(tools) && n != tool.name ==> tools[n] == old(tools)[n]
      ensures tools[tool.name] == tool
        || (tool.name in old(tools) && tools[tool.name] == old(tools)[tool.name]
            && old(tools)[tool.name].source == Mcp && tool.source != Mcp)
      ensures tool.source == Mcp || tool.name !in old(tools) || old(tools)[tool.name].source != Mcp ==>
        tools[tool.name] == tool
    {
      if tool.name in tools && tools[tool.name].source == Mcp && tool.source != Mcp {
        return;
      }
      tools := tools[tool.name := tool];
    }

    ghost function History(runId: string): seq<Trace>
      reads this
    {
      if runId in executionHistory then executionHistory[runId] else []
    }

    method RecordTrace(runId: string, trace: Trace)
      modifies this`executionHistory
      ensures executionHistory == old(executionHistory)[runId := old(History(runId)) + [trace]]
    {
      var history := if runId in executionHistory then executionHistory[runId] else [];
      executionHistory := executionHistory[runId := history + [trace]];
    }

    /** The checks before a tool is called. */
    method Check(c: Call) returns (refusal: Option<Refusal>)
      ensures match Authorize(Broker(tools, policies, map[], map[], map[]), c)
        case Err(e) => refusal == Some(e)
        case Ok(_) => refusal == None
    {
      if c.toolName !in tools {
        return Some(UnknownTool);
      }
      if c.toolName in policies {
        var policy := policies[c.toolName];
        if c.role !in policy.allowedRoles {
          return Some(RoleNotAllowed);
        }
        if policy.requiresApproval && c.approvalMode && !c.approved {
          return Some(ApprovalRequired);
        }
      }
      refusal := None;
    }

    /** A new trace is recorded, and the execution waits for its tool. */
    method Begin(runId: string, toolName: string) returns (trace: Trace)
      requires Valid()
      modifies this`executionHistory, this`open
      ensures Valid() && fresh(trace) && open == old(open) + {trace}
      ensures trace.runId == runId && trace.toolName == toolName && trace.status == Started
      ensures executionHistory == old(executionHistory)[runId := old(History(runId)) + [trace]]
    {
      trace := new Trace(runId, toolName);
      ghost var before := executionHistory;
      assert trace !in multiset(History(runId));
      RecordTrace(runId, trace);
      open := open + {trace};
      assert executionHistory[runId][|executionHistory[runId]| - 1] == trace;
      forall run, t | run in executionHistory && t in executionHistory[run] ensures Booked(run, t) {
        if t != trace {
          assert run in before && t in before[run];
          assert old(Booked(run, t));
        }
      }
    }

    /** The tool has succeeded or failed for good, whatever other executions have recorded in the
        meantime: the same trace is changed and recorded again. */
    method Finish(trace: Trace, success: bool)
      requires Valid() && trace in open
      modifies this`executionHistory, this`open, trace`status
      ensures Valid() && open == old(open) - {trace}
      ensures trace.status == if success then Completed else Failed
      ensures executionHistory == old(executionHistory)[trace.runId := old(History(trace.runId)) + [trace]]
    {
      ghost var before := executionHistory;
      assert Booked(trace.runId, trace);
      trace.status := if success then Completed else Failed;
      RecordTrace(trace.runId, trace);
      open := open - {trace};
      forall run, t | run in executionHistory && t in executionHistory[run] ensures Booked(run, t) {
        assert run in before && t in before[run];
        assert old(Booked(run, t));
      }
    }

    /** The trace is recorded at the start and again at the end.  Both entries are the same
        object, so no entry of a finished execution is left in state `Started`. */
    method Execute(runId: string, c: Call, attempts: nat -> Attempt) returns (r: Result<string, ExecutionError>)
      requires Valid()
      modifies this`executionHistory, this`open
      ensures Valid() && open == old(open)
      ensures match Authorize(Broker(tools, policies, map[], map[], map[]), c)
        case Err(e) => r == Err(Refused(e)) && executionHistory == old(executionHistory)
        case Ok(_) =>
          && r == (if WithRetry(attempts, 1).Some? then Ok(WithRetry(attempts, 1).value) else Err(ExecutionFailed))
          && |History(runId)| == |old(History(runId))| + 2
          && var t := History(runId)[|History(runId)| - 1];
             && fresh(t)
             && executionHistory == old(executionHistory)[runId := old(History(runId)) + [t, t]]
             && t.toolName == c.toolName
             && t.status == (if r.Ok? then Completed else Failed)
    {
      var refusal := Check(c);
      if refusal.Some? {
        return Err(Refused(refusal.value));
      }
      var trace := Begin(runId, c.toolName);
      var output := WithRetry(attempts, 1);
      Finish(trace, output.Some?);
      r := if output.Some? then Ok(output.value) else Err(ExecutionFailed);
      assert old(History(runId)) + [trace] + [trace] == old(History(runId)) + [trace, trace];
    }
  }
}
