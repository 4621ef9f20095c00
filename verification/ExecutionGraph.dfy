/** The compiled graph as a state machine: which node runs next, the interrupt for human
    approval, the bounded revision loop, and what holds in every run. */
module ExecutionGraph {
  import opened Wrappers
  import opened ModelRouting
  import opened GraphNodes

  datatype Node =
    | Intake | Profile | TemplateSelect | TeamDesign | ModelRoute | ToolsAllocate | SkillsLoad
    | ApprovalGate | HumanFeedback | Planner | Specialists | ToolExecutor | Aggregate | Verifier | Finalizer

  datatype Machine =
    | At(node: Node, state: State)
    | Waiting(state: State)             // interrupted, until the run is resumed with an answer
    | Done(state: State)
    | Thrown(node: Node, error: GraphError, state: State)   // the state before the node that threw

  /** What the outside supplies to a step: a verdict for the verifier, an answer on resume. */
  datatype Input = Input(verdict: Option<bool>, answer: Json)

  predicate Halted(m: Machine) {
    m.Done? || m.Thrown?
  }

  function Apply(env: Env, node: Node, s: State, inp: Input): Update {
    match node
    case Intake => IntakeNode(s)
    case Profile => ProfileNode(s)
    case TemplateSelect => TemplateSelectNode(s)
    case TeamDesign => TeamDesignNode(s)
    case ModelRoute => RouteNode(env, s)
    case ToolsAllocate => ToolsAllocateNode(env, s)
    case SkillsLoad => SkillsLoadNode(env, s)
    case ApprovalGate => ApprovalGateNode(s)
    case HumanFeedback => HumanFeedbackNode(s, inp.answer)
    case Planner => PlannerNode(s)
    case Specialists => SpecialistsNode(s)
    case ToolExecutor => ToolExecutorNode(env, s)
    case Aggregate => AggregateNode(s)
    case Verifier => VerifierNode(env, s, inp.verdict)
    case Finalizer => FinalizerNode(s)
  }

  function RouteAfterVerifier(env: Env, s: State): Node {
    if s.verification.Some? && s.verification.value.passed then Finalizer
    else if s.revisionCount >= env.routerBound then Finalizer
    else Planner
  }

  function NextNode(env: Env, node: Node, s: State): Node
    requires node != Finalizer
  {
    match node
    case Intake => Profile
    case Profile => TemplateSelect
    case TemplateSelect => TeamDesign
    case TeamDesign => ModelRoute
    case ModelRoute => ToolsAllocate
    case ToolsAllocate => SkillsLoad
    case SkillsLoad => ApprovalGate
    case ApprovalGate => if s.request.mode == Approval then HumanFeedback else Planner
    case HumanFeedback => if s.approvalGranted then Planner else Finalizer
    case Planner => Specialists
    case Specialists => ToolExecutor
    case ToolExecutor => Aggregate
    case Aggregate => Verifier
    case Verifier => RouteAfterVerifier(env, s)
  }

  function Advance(env: Env, node: Node, s: State, inp: Input): Machine {
    match Apply(env, node, s, inp)
    case Err(e) => Thrown(node, e, s)
    case Ok(t) => if node == Finalizer then Done(t) else At(NextNode(env, node, t), t)
  }

  /** One step.  The human-feedback node interrupts first and completes when resumed. */
  function Step(env: Env, m: Machine, inp: Input): Machine {
    match m
    case At(node, s) =>
      if node == HumanFeedback && s.request.mode == Approval then Waiting(s) else Advance(env, node, s, inp)
    case Waiting(s) => Advance(env, HumanFeedback, s, inp)
    case Done(_) => m
    case Thrown(_, _, _) => m
  }

  function Run(env: Env, m: Machine, inputs: nat -> Input, n: nat): Machine
    decreases n
  {
    if n == 0 then m else Step(env, Run(env, m, inputs, n - 1), inputs(n - 1))
  }

  function Start(request: Request, template: seq<RoleBlueprint>): Machine {
    At(Intake, Initial(request, template))
  }

  // ----- Observations on the event log ------------------------------------------------------

  predicate IsWork(e: Event) {
    e.PlannerCompleted? || e.SpecialistsCompleted? || e.ToolsSkipped? || e.ToolsNone? || e.ToolsCompleted?
    || e.AggregateEmpty? || e.AggregateCompleted?
  }

  function CountFailed(events: seq<Event>): nat {
    if events == [] then 0
    else CountFailed(events[..|events| - 1]) + (if events[|events| - 1] == VerifierFailed then 1 else 0)
  }

  function CountPlans(events: seq<Event>): nat {
    if events == [] then 0
    else CountPlans(events[..|events| - 1]) + (if events[|events| - 1].PlannerCompleted? then 1 else 0)
  }

  /** The last verdict in the log. */
  function LastVerdict(events: seq<Event>): Option<bool> {
    if events == [] then None
    else
      var last := events[|events| - 1];
      if last == VerifierPassed then Some(true)
      else if last == VerifierFailed then Some(false)
      else LastVerdict(events[..|events| - 1])
  }

  /** Every work event stands after an approved answer. */
  ghost predicate WorkAfterApproval(events: seq<Event>) {
    forall j :: 0 <= j < |events| && IsWork(events[j]) ==> ApprovalApproved in events[..j]
  }

  lemma LogOne(events: seq<Event>, e: Event)
    ensures CountFailed(events + [e]) == CountFailed(events) + (if e == VerifierFailed then 1 else 0)
    ensures CountPlans(events + [e]) == CountPlans(events) + (if e.PlannerCompleted? then 1 else 0)
    ensures LastVerdict(events + [e])
         == if e == VerifierPassed then Some(true) else if e == VerifierFailed then Some(false) else LastVerdict(events)
    ensures WorkAfterApproval(events) && (IsWork(e) ==> ApprovalApproved in events) ==> WorkAfterApproval(events + [e])
    ensures forall x :: x in events + [e] <==> x in events || x == e
  {
    var longer := events + [e];
    assert longer[..|longer| - 1] == events;
    forall j | 0 <= j < |longer|
      ensures longer[..j] == events[..j]
    {
    }
  }

  // ----- The invariant of every run -------------------------------------------------------------

  /** The bounds as the code uses them: at least one round, and the router never asks for a
      revision the verifier does not count. */
  predicate Bounds(env: Env) {
    1 <= env.routerBound <= env.verifierBound
  }

  predicate InLoop(node: Node) {
    node.Planner? || node.Specialists? || node.ToolExecutor? || node.Aggregate? || node.Verifier?
  }

  /** The number of plans made by the time `node` is about to run. */
  function PlansBefore(node: Node, revisions: nat): nat {
    if InLoop(node) && !node.Planner? then revisions + 1 else revisions
  }

  /** Before the first verdict or without any. */
  ghost predicate Fresh(s: State) {
    && s.revisionCount == 0 && s.verification == None
    && CountFailed(s.events) == 0 && CountPlans(s.events) == 0 && LastVerdict(s.events) == None
    && (forall e :: e in s.events ==> !IsWork(e))
  }

  ghost predicate LogAgrees(s: State) {
    && CountFailed(s.events) == s.revisionCount
    && LastVerdict(s.events) == (if s.verification.Some? then Some(s.verification.value.passed) else None)
    && (s.request.mode == Approval ==> WorkAfterApproval(s.events))
  }

  /** The state in front of the finalizer. */
  ghost predicate ReadyToFinish(env: Env, s: State) {
    && LogAgrees(s) && s.revisionCount <= env.routerBound
    && (if s.verification == None
        then Fresh(s) && s.request.mode == Approval && ApprovalRejected in s.events
        else if s.verification.value.passed then CountPlans(s.events) == s.revisionCount + 1
        else s.revisionCount == env.routerBound && CountPlans(s.events) == s.revisionCount)
  }

  ghost predicate Invariant(env: Env, m: Machine) {
    match m
    case Thrown(node, _, s) => LogAgrees(s) && (!InLoop(node) ==> Fresh(s))
    case Waiting(s) => Fresh(s) && s.request.mode == Approval
    case Done(s) =>
      && LogAgrees(s) && s.revisionCount <= env.routerBound
      && CountPlans(s.events) <= env.routerBound
      && CountPlans(s.events) == s.revisionCount + (if LastVerdict(s.events) == Some(true) then 1 else 0)
      && (s.status == Completed <==> LastVerdict(s.events) == Some(true))
      && (s.status == Failed <==> LastVerdict(s.events) != Some(true))
      && (LastVerdict(s.events) == None ==>
            s.request.mode == Approval && ApprovalRejected in s.events && forall e :: e in s.events ==> !IsWork(e))
      && (LastVerdict(s.events) == Some(false) ==> s.revisionCount == env.routerBound)
    case At(node, s) =>
      if node == Finalizer then
        && ReadyToFinish(env, s)
        && (s.verification.Some? && s.verification.value.passed ==> s.revisionCount < env.routerBound)
      else if InLoop(node) then
        && LogAgrees(s) && s.revisionCount < env.routerBound
        && CountPlans(s.events) == PlansBefore(node, s.revisionCount)
        && LastVerdict(s.events) != Some(true)
        && (s.request.mode == Approval ==> ApprovalApproved in s.events)
      else Fresh(s)
  }

  lemma StartIsInvariant(env: Env, request: Request, template: seq<RoleBlueprint>)
    ensures Invariant(env, Start(request, template))
  {
  }

  /** `t` is `s` with one more event, and the request and the verdict books unchanged. */
  ghost predicate LogsOne(s: State, t: State, e: Event) {
    && t.events == s.events + [e]
    && t.request == s.request && t.revisionCount == s.revisionCount && t.verification == s.verification
  }

  predicate IsVerdict(e: Event) {
    e.VerifierPassed? || e.VerifierFailed?
  }

  /** The event a node logs. */
  function Logged(t: State): Event {
    if t.events == [] then FinalizerCompleted else t.events[|t.events| - 1]
  }

  /** Nodes up to the gate log one event that is neither work nor a verdict. */
  lemma PreparationLogs(env: Env, node: Node, s: State, inp: Input)
    requires !InLoop(node) && node != Finalizer && Apply(env, node, s, inp).Ok?
    ensures var t := Apply(env, node, s, inp).value;
      LogsOne(s, t, Logged(t)) && !IsWork(Logged(t)) && !IsVerdict(Logged(t))
  {
    match node
    case Intake => case Profile => case TemplateSelect => case TeamDesign => case ModelRoute =>
    case ToolsAllocate => case SkillsLoad => case ApprovalGate => case HumanFeedback =>
  }

  lemma FreshStaysFresh(s: State, t: State, e: Event)
    requires Fresh(s) && LogsOne(s, t, e) && !IsWork(e) && !IsVerdict(e)
    ensures Fresh(t)
  {
    hide CountPlans, CountFailed, LastVerdict, WorkAfterApproval;
    LogOne(s.events, e);
  }

  /** A fresh state may stand in front of whatever node the preparation routes it to. */
  lemma FreshMovesOn(env: Env, node: Node, t: State)
    requires Bounds(env) && Fresh(t) && !InLoop(node) && node != Finalizer && node != HumanFeedback
    ensures Invariant(env, At(NextNode(env, node, t), t))
  {
    FreshEntersLoop(env, t);
    hide Fresh, LogAgrees, ReadyToFinish, CountPlans, LastVerdict;
  }

  lemma PreparationStep(env: Env, node: Node, s: State, inp: Input)
    requires Bounds(env) && Fresh(s) && !InLoop(node) && node != Finalizer && node != HumanFeedback
    ensures Invariant(env, Advance(env, node, s, inp))
  {
    if Apply(env, node, s, inp).Ok? {
      var t := Apply(env, node, s, inp).value;
      PreparationLogs(env, node, s, inp);
      FreshStaysFresh(s, t, Logged(t));
      FreshMovesOn(env, node, t);
      hide Apply, Invariant, Fresh, LogsOne, Logged, NextNode;
      assert Advance(env, node, s, inp) == At(NextNode(env, node, t), t);
    } else {
      FreshEntersLoop(env, s);
      hide Apply, Fresh, LogAgrees;
    }
  }

  lemma FreshEntersLoop(env: Env, t: State)
    requires Bounds(env) && Fresh(t)
    ensures LogAgrees(t) && t.revisionCount < env.routerBound && CountPlans(t.events) == 0
    ensures LastVerdict(t.events) == None
  {
    forall j | 0 <= j < |t.events| ensures !IsWork(t.events[j]) {
      assert t.events[j] in t.events;
    }
  }

  lemma FeedbackShape(s: State, answer: Json)
    ensures HumanFeedbackNode(s, answer).Ok?
    ensures var t := HumanFeedbackNode(s, answer).value;
      && (t.approvalGranted && t.request.mode == Approval ==> ApprovalApproved in t.events)
      && (!t.approvalGranted ==> t.request.mode == Approval && ApprovalRejected in t.events)
  {
    var t := HumanFeedbackNode(s, answer).value;
    assert t.events[|s.events|] in t.events;
  }

  lemma ApprovalStep(env: Env, s: State, inp: Input)
    requires Bounds(env) && Fresh(s)
    ensures Invariant(env, Advance(env, HumanFeedback, s, inp))
  {
    var t := HumanFeedbackNode(s, inp.answer).value;
    PreparationLogs(env, HumanFeedback, s, inp);
    FeedbackShape(s, inp.answer);
    hide HumanFeedbackNode, IsWork, IsVerdict, Fresh, LogsOne, Logged;
    FreshStaysFresh(s, t, Logged(t));
    AnsweredMovesOn(env, t);
    hide Invariant, NextNode;
    assert Advance(env, HumanFeedback, s, inp) == At(NextNode(env, HumanFeedback, t), t);
  }

  lemma AnsweredMovesOn(env: Env, t: State)
    requires Bounds(env) && Fresh(t)
    requires t.approvalGranted && t.request.mode == Approval ==> ApprovalApproved in t.events
    requires !t.approvalGranted ==> t.request.mode == Approval && ApprovalRejected in t.events
    ensures Invariant(env, At(NextNode(env, HumanFeedback, t), t))
  {
    FreshEntersLoop(env, t);
    hide LogAgrees, CountPlans, LastVerdict, IsWork;
  }

  lemma WorkLogs(env: Env, node: Node, s: State, inp: Input)
    requires InLoop(node) && node != Verifier && Apply(env, node, s, inp).Ok?
    ensures var t := Apply(env, node, s, inp).value;
      LogsOne(s, t, Logged(t)) && IsWork(Logged(t)) && (Logged(t).PlannerCompleted? <==> node == Planner)
  {
    match node
    case Planner => case Specialists => case ToolExecutor => case Aggregate =>
  }

  lemma WorkStep(env: Env, node: Node, s: State, inp: Input)
    requires Bounds(env) && Invariant(env, At(node, s)) && InLoop(node) && node != Verifier
    ensures Invariant(env, Advance(env, node, s, inp))
  {
    if Apply(env, node, s, inp).Ok? {
      var t := Apply(env, node, s, inp).value;
      WorkLogs(env, node, s, inp);
      WorkKeepsBooks(env, s, t, Logged(t));
      hide Apply, Logged, LogAgrees, IsWork, CountPlans, LastVerdict;
      assert Invariant(env, At(NextNode(env, node, t), t));
      hide Invariant, NextNode;
      assert Advance(env, node, s, inp) == At(NextNode(env, node, t), t);
    }
  }

  lemma WorkKeepsBooks(env: Env, s: State, t: State, e: Event)
    requires LogAgrees(s) && LogsOne(s, t, e) && IsWork(e)
    requires s.request.mode == Approval ==> ApprovalApproved in s.events
    ensures LogAgrees(t) && LastVerdict(t.events) == LastVerdict(s.events)
    ensures CountPlans(t.events) == CountPlans(s.events) + (if e.PlannerCompleted? then 1 else 0)
    ensures t.request.mode == Approval ==> ApprovalApproved in t.events
  {
    hide CountPlans, CountFailed, LastVerdict, WorkAfterApproval;
    LogOne(s.events, e);
  }

  lemma VerifierLogs(env: Env, s: State, inp: Input)
    ensures VerifierNode(env, s, inp.verdict).Ok?
    ensures var t := VerifierNode(env, s, inp.verdict).value;
      && t.verification.Some? && t.request == s.request
      && var revise := !t.verification.value.passed && s.revisionCount < env.verifierBound;
      && t.revisionCount == s.revisionCount + (if revise then 1 else 0)
      && t.events == s.events + [if t.verification.value.passed then VerifierPassed else VerifierFailed]
           + (if revise then [Revision(t.revisionCount)] else [])
  {
    var t := VerifierNode(env, s, inp.verdict).value;
    if t.verification.value.passed {
      assert [VerifierPassed] + [] == [VerifierPassed];
    }
  }

  lemma VerdictKeepsBooks(env: Env, s: State, t: State)
    requires LogAgrees(s) && t.verification.Some? && t.request == s.request
    requires var p := t.verification.value.passed;
      && t.revisionCount == s.revisionCount + (if p then 0 else 1)
      && t.events == s.events + [if p then VerifierPassed else VerifierFailed]
           + (if p then [] else [Revision(t.revisionCount)])
    ensures LogAgrees(t) && LastVerdict(t.events) == Some(t.verification.value.passed)
    ensures CountPlans(t.events) == CountPlans(s.events)
    ensures forall e :: e in s.events ==> e in t.events
  {
    hide CountPlans, CountFailed, LastVerdict, WorkAfterApproval;
    var p := t.verification.value.passed;
    var first := if p then VerifierPassed else VerifierFailed;
    LogOne(s.events, first);
    if p {
      assert t.events == s.events + [first];
    } else {
      LogOne(s.events + [first], Revision(t.revisionCount));
    }
  }

  /** Where the router sends a state with a new verdict; `before` is the count it had. */
  lemma VerdictMovesOn(env: Env, before: nat, t: State)
    requires Bounds(env) && LogAgrees(t) && t.verification.Some? && before < env.routerBound
    requires LastVerdict(t.events) == Some(t.verification.value.passed) && CountPlans(t.events) == before + 1
    requires t.revisionCount == before + (if t.verification.value.passed then 0 else 1)
    requires t.request.mode == Approval ==> ApprovalApproved in t.events
    ensures Invariant(env, At(RouteAfterVerifier(env, t), t))
  {
    hide LogAgrees, CountPlans, LastVerdict;
  }

  lemma VerifierStep(env: Env, s: State, inp: Input)
    requires Bounds(env) && Invariant(env, At(Verifier, s))
    ensures Invariant(env, Advance(env, Verifier, s, inp))
  {
    hide CountPlans, CountFailed, LastVerdict, WorkAfterApproval;
    var t := VerifierNode(env, s, inp.verdict).value;
    VerifierLogs(env, s, inp);
    hide VerifierNode;
    VerdictKeepsBooks(env, s, t);
    hide LogAgrees;
    VerdictMovesOn(env, s.revisionCount, t);
    hide Invariant, RouteAfterVerifier;
    assert Advance(env, Verifier, s, inp) == At(RouteAfterVerifier(env, t), t);
  }

  lemma FinalizerStep(env: Env, s: State, inp: Input)
    requires Bounds(env) && Invariant(env, At(Finalizer, s))
    ensures Invariant(env, Advance(env, Finalizer, s, inp))
  {
    LogOne(s.events, FinalizerCompleted);
  }

  lemma StepKeepsInvariant(env: Env, m: Machine, inp: Input)
    requires Bounds(env) && Invariant(env, m)
    ensures Invariant(env, Step(env, m, inp))
  {
    match m
    case At(node, s) =>
      if node == Finalizer { FinalizerStep(env, s, inp); }
      else if node == Verifier { VerifierStep(env, s, inp); }
      else if InLoop(node) { WorkStep(env, node, s, inp); }
      else if node == HumanFeedback { if s.request.mode != Approval { ApprovalStep(env, s, inp); } }
      else { PreparationStep(env, node, s, inp); }
    case Waiting(s) => ApprovalStep(env, s, inp);
    case Done(_) =>
    case Thrown(_, _, _) =>
  }

  lemma {:induction false} RunKeepsInvariant(env: Env, m: Machine, inputs: nat -> Input, n: nat)
    requires Bounds(env) && Invariant(env, m)
    ensures Invariant(env, Run(env, m, inputs, n))
    decreases n
  {
    hide Step, Invariant;
    if n > 0 {
      RunKeepsInvariant(env, m, inputs, n - 1);
      StepKeepsInvariant(env, Run(env, m, inputs, n - 1), inputs(n - 1));
    }
  }

  // ----- Safety over whole runs ------------------------------------------------------------------

  /** In every finished run: the revision count is the number of failed verdicts, at most
      `routerBound` rounds were planned, the run is completed exactly when the last verdict
      passed and failed otherwise, and a run without any verdict is a rejected one in which
      no work was done. */
  lemma FinishedRuns(env: Env, request: Request, template: seq<RoleBlueprint>, inputs: nat -> Input, n: nat)
    requires Bounds(env) && Run(env, Start(request, template), inputs, n).Done?
    ensures var s := Run(env, Start(request, template), inputs, n).state;
      && s.revisionCount == CountFailed(s.events)
      && CountPlans(s.events) == CountFailed(s.events) + (if LastVerdict(s.events) == Some(true) then 1 else 0)
      && CountPlans(s.events) <= env.routerBound
      && (s.status == Completed <==> LastVerdict(s.events) == Some(true))
      && (s.status == Failed <==> LastVerdict(s.events) != Some(true))
      && (LastVerdict(s.events) == None ==>
            ApprovalRejected in s.events && forall e :: e in s.events ==> !IsWork(e))
      && (LastVerdict(s.events) == Some(false) ==> CountFailed(s.events) == env.routerBound)
  {
    StartIsInvariant(env, request, template);
    RunKeepsInvariant(env, Start(request, template), inputs, n);
  }

  /** In approval mode no planner, specialist, tool or aggregate step is ever logged before an
      approved answer, in finished, unfinished and thrown runs alike. */
  lemma NoWorkBeforeApproval(env: Env, request: Request, template: seq<RoleBlueprint>, inputs: nat -> Input, n: nat)
    requires Bounds(env) && request.mode == Approval
    ensures WorkAfterApproval(Run(env, Start(request, template), inputs, n).state.events)
  {
    StartIsInvariant(env, request, template);
    RunKeepsInvariant(env, Start(request, template), inputs, n);
    RequestNeverChanges(env, Start(request, template), inputs, n);
  }

  lemma StepKeepsRequest(env: Env, m: Machine, inp: Input)
    ensures Step(env, m, inp).state.request == m.state.request
  {
    match m
    case At(node, s) =>
      if Apply(env, node, s, inp).Ok? {
        if node == Verifier { VerifierLogs(env, s, inp); }
        else if InLoop(node) { WorkLogs(env, node, s, inp); }
        else if node != Finalizer { PreparationLogs(env, node, s, inp); }
      }
    case Waiting(s) => PreparationLogs(env, HumanFeedback, s, inp);
    case Done(_) =>
    case Thrown(_, _, _) =>
  }

  lemma {:induction false} RequestNeverChanges(env: Env, m: Machine, inputs: nat -> Input, n: nat)
    ensures Run(env, m, inputs, n).state.request == m.state.request
    decreases n
  {
    hide Step;
    if n > 0 {
      RequestNeverChanges(env, m, inputs, n - 1);
      StepKeepsRequest(env, Run(env, m, inputs, n - 1), inputs(n - 1));
    }
  }

  // ----- Append-only channels ------------------------------------------------------------------

  ghost predicate Extends(s: State, t: State) {
    && s.events <= t.events
    && s.specialistResults <= t.specialistResults
    && s.toolExecutionResults <= t.toolExecutionResults
  }

  lemma NodeOnlyAppends(env: Env, node: Node, s: State, inp: Input)
    requires Apply(env, node, s, inp).Ok?
    ensures Extends(s, Apply(env, node, s, inp).value)
  {
    hide ModelRouteNode, Assign, DefaultPlan, RunGroups, ExtractToolCalls, VerifyBasic;
  }

  lemma StepOnlyAppends(env: Env, m: Machine, inp: Input)
    ensures Extends(m.state, Step(env, m, inp).state)
  {
    match m
    case At(node, s) => if Apply(env, node, s, inp).Ok? { NodeOnlyAppends(env, node, s, inp); }
    case Waiting(s) => NodeOnlyAppends(env, HumanFeedback, s, inp);
    case Done(_) =>
    case Thrown(_, _, _) =>
  }

  lemma {:induction false} RunOnlyAppends(env: Env, m: Machine, inputs: nat -> Input, i: nat, n: nat)
    requires i <= n
    ensures Extends(Run(env, m, inputs, i).state, Run(env, m, inputs, n).state)
    decreases n
  {
    hide Step;
    if i < n {
      RunOnlyAppends(env, m, inputs, i, n - 1);
      StepOnlyAppends(env, Run(env, m, inputs, n - 1), inputs(n - 1));
    }
  }

  // ----- Termination -----------------------------------------------------------------------------

  /** Steps still to go from the k-th node of the loop. */
  function LoopSteps(env: Env, s: State, k: nat): nat
    requires k <= 4
  {
    if s.revisionCount >= env.routerBound then 1 else 5 * (env.routerBound - s.revisionCount) + 1 - k
  }

  /** Steps still to go, at most, when the router allows `routerBound` rounds. */
  function StepsLeft(env: Env, m: Machine): nat {
    var rounds := 5 * env.routerBound;
    match m
    case Done(_) => 0
    case Thrown(_, _, _) => 0
    case Waiting(_) => rounds + 2
    case At(node, s) =>
      match node
      case Intake => rounds + 11
      case Profile => rounds + 10
      case TemplateSelect => rounds + 9
      case TeamDesign => rounds + 8
      case ModelRoute => rounds + 7
      case ToolsAllocate => rounds + 6
      case SkillsLoad => rounds + 5
      case ApprovalGate => rounds + 4
      case HumanFeedback => rounds + 3
      case Planner => LoopSteps(env, s, 0)
      case Specialists => LoopSteps(env, s, 1)
      case ToolExecutor => LoopSteps(env, s, 2)
      case Aggregate => LoopSteps(env, s, 3)
      case Verifier => LoopSteps(env, s, 4)
      case Finalizer => 1
  }

  lemma NodeTakesOne(env: Env, node: Node, s: State, inp: Input)
    requires Bounds(env) && Invariant(env, At(node, s))
    ensures StepsLeft(env, Advance(env, node, s, inp)) < StepsLeft(env, At(node, s))
  {
    hide LogAgrees, Fresh, ModelRouteNode, Assign, DefaultPlan, RunGroups, ExtractToolCalls, VerifyBasic;
  }

  lemma StepTakesOne(env: Env, m: Machine, inp: Input)
    requires Bounds(env) && Invariant(env, m) && !Halted(m)
    ensures Invariant(env, Step(env, m, inp))
    ensures StepsLeft(env, Step(env, m, inp)) < StepsLeft(env, m)
  {
    hide Invariant, Advance, StepsLeft;
    StepKeepsInvariant(env, m, inp);
    match m
    case At(node, s) =>
      if node != HumanFeedback || s.request.mode != Approval {
        NodeTakesOne(env, node, s, inp);
      } else {
        InterruptTakesOne(env, s);
      }
    case Waiting(s) => ResumeTakesOne(env, s, inp);
  }

  lemma InterruptTakesOne(env: Env, s: State)
    requires Bounds(env)
    ensures StepsLeft(env, Waiting(s)) < StepsLeft(env, At(HumanFeedback, s))
  {
  }

  lemma ResumeTakesOne(env: Env, s: State, inp: Input)
    requires Bounds(env)
    ensures StepsLeft(env, Advance(env, HumanFeedback, s, inp)) < StepsLeft(env, Waiting(s))
  {
    PreparationLogs(env, HumanFeedback, s, inp);
  }

  lemma {:induction false} RunCountsDown(env: Env, m: Machine, inputs: nat -> Input, n: nat)
    requires Bounds(env) && Invariant(env, m)
    ensures Invariant(env, Run(env, m, inputs, n))
    ensures Halted(Run(env, m, inputs, n)) || StepsLeft(env, Run(env, m, inputs, n)) + n <= StepsLeft(env, m)
    decreases n
  {
    hide Step, Invariant, StepsLeft;
    if n > 0 {
      RunCountsDown(env, m, inputs, n - 1);
      var p := Run(env, m, inputs, n - 1);
      if !Halted(p) {
        StepTakesOne(env, p, inputs(n - 1));
      } else {
        HaltedStays(env, p, inputs(n - 1));
      }
    }
  }

  lemma HaltedStays(env: Env, m: Machine, inp: Input)
    ensures Halted(m) ==> Step(env, m, inp) == m
  {
  }

  lemma RunningHasStepsLeft(env: Env, m: Machine)
    requires Invariant(env, m) && !Halted(m)
    ensures StepsLeft(env, m) >= 1
  {
  }

  lemma StepsFromStart(env: Env, request: Request, template: seq<RoleBlueprint>)
    ensures StepsLeft(env, Start(request, template)) == 5 * env.routerBound + 11
  {
  }

  /** Whatever the verdicts and answers, a run has halted after 5 * routerBound + 11 steps. */
  lemma EveryRunHalts(env: Env, request: Request, template: seq<RoleBlueprint>, inputs: nat -> Input)
    requires Bounds(env)
    ensures Halted(Run(env, Start(request, template), inputs, 5 * env.routerBound + 11))
  {
    hide Invariant, StepsLeft, Run, Start;
    var n, m := 5 * env.routerBound + 11, Start(request, template);
    StartIsInvariant(env, request, template);
    RunCountsDown(env, m, inputs, n);
    StepsFromStart(env, request, template);
    if !Halted(Run(env, m, inputs, n)) {
      RunningHasStepsLeft(env, Run(env, m, inputs, n));
    }
  }

  /** Both bounds are 2 in the source. */
  predicate AsShipped(env: Env) {
    env.verifierBound == 2 && env.routerBound == 2
  }

  /** As shipped: every run halts within 21 steps, after at most two rounds of planning. */
  lemma ShippedRuns(env: Env, request: Request, template: seq<RoleBlueprint>, inputs: nat -> Input)
    requires AsShipped(env)
    ensures var m := Run(env, Start(request, template), inputs, 21);
      && Halted(m)
      && (m.Done? ==> CountPlans(m.state.events) <= 2)
  {
    hide Run, Start;
    EveryRunHalts(env, request, template, inputs);
    if Run(env, Start(request, template), inputs, 21).Done? {
      FinishedRuns(env, request, template, inputs, 21);
    }
  }

  ghost predicate Halts(env: Env, m: Machine, inputs: nat -> Input) {
    exists n: nat :: Halted(Run(env, m, inputs, n))
  }

  lemma InvariantRunHalts(env: Env, m: Machine, inputs: nat -> Input)
    requires Bounds(env) && Invariant(env, m)
    ensures Halts(env, m, inputs)
  {
    hide Invariant, StepsLeft, Run;
    var n := StepsLeft(env, m);
    RunCountsDown(env, m, inputs, n);
    if !Halted(Run(env, m, inputs, n)) {
      RunningHasStepsLeft(env, Run(env, m, inputs, n));
    }
  }

  /** With verdicts that always fail. */
  ghost predicate AlwaysFailing(inputs: nat -> Input) {
    forall i: nat :: inputs(i).verdict == Some(false)
  }

  lemma StuckStep(env: Env, m: Machine, inp: Input)
    requires env.routerBound > env.verifierBound && inp.verdict == Some(false)
    requires m.At? && InLoop(m.node) && m.state.revisionCount <= env.verifierBound && m.state.assignments != []
    ensures var r := Step(env, m, inp);
      r.At? && InLoop(r.node) && r.state.revisionCount <= env.verifierBound && r.state.assignments != []
  {
    match m.node
    case Planner => case Specialists => case ToolExecutor => case Aggregate => case Verifier =>
  }

  /** A router bound above the verifier's: once the count is stuck the loop never ends. */
  lemma {:induction false} StuckLoopNeverHalts(env: Env, m: Machine, inputs: nat -> Input, n: nat)
    requires env.routerBound > env.verifierBound && AlwaysFailing(inputs)
    requires m.At? && InLoop(m.node) && m.state.revisionCount <= env.verifierBound && m.state.assignments != []
    ensures var r := Run(env, m, inputs, n);
      r.At? && InLoop(r.node) && r.state.revisionCount <= env.verifierBound && r.state.assignments != []
    decreases n
  {
    hide Step;
    if n > 0 {
      StuckLoopNeverHalts(env, m, inputs, n - 1);
      assert inputs(n - 1).verdict == Some(false);
      StuckStep(env, Run(env, m, inputs, n - 1), inputs(n - 1));
    }
  }

  /** From the planner, every run halts if and only if the router's bound does not exceed the
      verifier's. */
  lemma LoopHaltsExactly(env: Env, s: State)
    requires 1 <= env.routerBound && Invariant(env, At(Planner, s)) && s.revisionCount <= env.verifierBound
    requires s.assignments != []
    ensures (forall inputs: nat -> Input :: Halts(env, At(Planner, s), inputs))
       <==> env.routerBound <= env.verifierBound
  {
    var m := At(Planner, s);
    if env.routerBound <= env.verifierBound {
      forall inputs: nat -> Input ensures Halts(env, m, inputs) {
        InvariantRunHalts(env, m, inputs);
      }
    } else {
      var failing: nat -> Input := (i: nat) => Input(Some(false), JsonOther);
      forall n: nat ensures !Halted(Run(env, m, failing, n)) {
        StuckLoopNeverHalts(env, m, failing, n);
      }
      assert !Halts(env, m, failing);
    }
  }

  /** The two bounds agree at every exit exactly when they are equal: then the verifier reports
      failure if and only if the router gives up. */
  lemma BoundsAgreeExactly(env: Env)
    requires 1 <= env.routerBound && 1 <= env.verifierBound
    ensures (forall s: State, v: Option<bool> :: s.revisionCount < env.verifierBound ==> VerdictAgrees(env, s, v))
       <==> env.routerBound == env.verifierBound
  {
    if env.routerBound != env.verifierBound {
      var low := if env.routerBound < env.verifierBound then env.routerBound else env.verifierBound;
      var s := Initial(Request(true, Auto, false), []).(revisionCount := low - 1);
      assert !VerdictAgrees(env, s, Some(false));
    }
  }

  /** The verifier marks the run failed exactly when the router then gives up on a failed verdict. */
  ghost predicate VerdictAgrees(env: Env, s: State, v: Option<bool>) {
    var t := VerifierNode(env, s, v).value;
    t.status == Failed <==> RouteAfterVerifier(env, t) == Finalizer && !t.verification.value.passed
  }
}
