/** The nodes of the execution graph as pure updates of the run state, as wired without
    model clients.  The three list channels (events, specialist results, tool results) are
    appended to; every other channel is overwritten. */
module GraphNodes {
  import opened Wrappers
  import opened ModelRouting

  datatype ApprovalMode = Approval | Auto

  datatype Status = Draft | Running | WaitingApproval | Completed | Failed | Cancelled

  /** `valid` stands for the field checks of the intake node, `highComplexity` for the
      text analysis of the profile node. */
  datatype Request = Request(valid: bool, mode: ApprovalMode, highComplexity: bool)

  datatype Assignment = Assignment(roleId: string, agentId: string, model: string, tools: seq<string>,
                                   skills: seq<string>)

  datatype ExecutionStep = ExecutionStep(id: string, roleId: string, requiredTools: seq<string>,
                                         dependencies: seq<string>)

  datatype ExecutionPlan = ExecutionPlan(steps: seq<ExecutionStep>, parallelGroups: seq<seq<string>>)

  datatype SpecialistResult = SpecialistResult(roleId: string, agentId: string, toolsUsed: seq<string>)

  datatype ToolCall = ToolCall(roleId: string, toolName: string)

  datatype ToolResult = ToolResult(call: ToolCall, completed: bool)

  datatype OutputStatus = NoResults | Success | FailedOutput | ErrorOutput

  datatype Issue = NoAssignments | MissingModel | NoOutput | OutputFailed

  datatype Verification = Verification(passed: bool, issues: seq<Issue>)

  datatype Event =
    | IntakeCompleted | ProfileCompleted | TemplateSelected | TeamDesigned | ModelRouted
    | ToolsAllocated | SkillsLoaded | GateInterrupt | GateAuto
    | FeedbackSkipped | ApprovalApproved | ApprovalRejected
    | PlannerCompleted(iteration: nat) | SpecialistsCompleted
    | ToolsSkipped | ToolsNone | ToolsCompleted
    | AggregateEmpty | AggregateCompleted
    | VerifierPassed | VerifierFailed | Revision(count: nat) | FinalizerCompleted

  datatype State = State(
    request: Request, template: seq<RoleBlueprint>, roles: seq<RoleBlueprint>,
    modelDecisions: seq<ModelDecision>, assignments: seq<Assignment>, events: seq<Event>,
    revisionCount: nat, verification: Option<Verification>, status: Status, approvalGranted: bool,
    executionPlan: Option<ExecutionPlan>, specialistResults: seq<SpecialistResult>,
    toolExecutionResults: seq<ToolResult>, aggregatedOutput: Option<OutputStatus>)

  /** Both revision bounds are 2 in the source; they are written in two places. */
  datatype Env = Env(catalog: seq<ModelProfile>, skillsActivate: bool, toolsFor: RoleBlueprint -> seq<string>,
                     toolSucceeds: ToolCall -> bool, verifierBound: nat, routerBound: nat)

  datatype GraphError =
    | IntakeFailed | TemplateEmpty | InvalidRole | NoRolesAvailable | RoutingFailed(error: RoutingError)
    | NoModelDecisions | MissingDecision | SkillActivationFailed | NoAssignmentsAvailable

  type Update = Result<State, GraphError>

  function Log(s: State, e: Event): State {
    s.(events := s.events + [e])
  }

  // ----- Preparation ---------------------------------------------------------------------

  function Initial(request: Request, template: seq<RoleBlueprint>): State {
    State(request, template, [], [], [], [], 0, None, Running, request.mode == Auto, None, [], [], None)
  }

  function IntakeNode(s: State): Update {
    if !s.request.valid then Err(IntakeFailed) else Ok(Log(s.(status := Running), IntakeCompleted))
  }

  function ProfileNode(s: State): Update {
    Ok(Log(s, ProfileCompleted))
  }

  predicate ValidRole(r: RoleBlueprint) {
    r.id != "" && r.name != "" && r.objective != ""
  }

  function TemplateSelectNode(s: State): Update {
    if s.template == [] then Err(TemplateEmpty)
    else if exists i :: 0 <= i < |s.template| && !ValidRole(s.template[i]) then Err(InvalidRole)
    else Ok(Log(s.(roles := s.template), TemplateSelected))
  }

  function TeamDesignNode(s: State): Update {
    if s.roles == [] then Err(NoRolesAvailable)
    else Ok(Log(s.(assignments := seq(|s.roles|, i requires 0 <= i < |s.roles| =>
                                    Assignment(s.roles[i].id, s.roles[i].id + "-agent", "", [], []))), TeamDesigned))
  }

  function RouteNode(env: Env, s: State): Update {
    match ModelRouteNode(s.roles, s.request.highComplexity, env.catalog)
    case Err(e) => Err(RoutingFailed(e))
    case Ok(ds) => Ok(Log(s.(modelDecisions := ds), ModelRouted))
  }

  /** `state.modelDecisions.find(item => item.roleId === role.id)` */
  function DecisionFor(ds: seq<ModelDecision>, roleId: string): Option<ModelDecision> {
    if ds == [] then None else if ds[0].roleId == roleId then Some(ds[0]) else DecisionFor(ds[1..], roleId)
  }

  function Assign(env: Env, roles: seq<RoleBlueprint>, ds: seq<ModelDecision>): Result<seq<Assignment>, GraphError> {
    if roles == [] then Ok([])
    else match DecisionFor(ds, roles[0].id)
      case None => Err(MissingDecision)
      case Some(d) =>
        match Assign(env, roles[1..], ds)
        case Err(e) => Err(e)
        case Ok(rest) =>
          Ok([Assignment(roles[0].id, roles[0].id + "-agent", d.selectedModel, env.toolsFor(roles[0]), [])] + rest)
  }

  function ToolsAllocateNode(env: Env, s: State): Update {
    if s.roles == [] then Err(NoRolesAvailable)
    else if s.modelDecisions == [] then Err(NoModelDecisions)
    else match Assign(env, s.roles, s.modelDecisions)
      case Err(e) => Err(e)
      case Ok(a) => Ok(Log(s.(assignments := a), ToolsAllocated))
  }

  const CORE_SKILLS := ["orchestrator-core", "planner-core", "verifier-core", "finalizer-core"]

  function SkillsLoadNode(env: Env, s: State): Update {
    if !env.skillsActivate then Err(SkillActivationFailed)
    else Ok(Log(s.(assignments := seq(|s.assignments|, i requires 0 <= i < |s.assignments| =>
                                    s.assignments[i].(skills := CORE_SKILLS))), SkillsLoaded))
  }

  // ----- Approval --------------------------------------------------------------------------

  function ApprovalGateNode(s: State): Update {
    if s.request.mode == Approval
    then Ok(Log(s.(approvalGranted := false, status := WaitingApproval), GateInterrupt))
    else Ok(Log(s.(approvalGranted := true, status := Running), GateAuto))
  }

  /** The value a run is resumed with. */
  datatype Json = JsonBool(b: bool) | JsonObject(fields: map<string, Json>) | JsonOther

  function ParseApproval(value: Json): bool {
    match value
    case JsonBool(b) => b
    case JsonObject(fields) => "approved" in fields && fields["approved"] == JsonBool(true)
    case JsonOther => false
  }

  function HumanFeedbackNode(s: State, answer: Json): Update {
    if s.request.mode != Approval then Ok(Log(s.(approvalGranted := true), FeedbackSkipped))
    else if ParseApproval(answer) then Ok(Log(s.(approvalGranted := true, status := Running), ApprovalApproved))
    else Ok(Log(s.(approvalGranted := false, status := Failed), ApprovalRejected))
  }

  // ----- The work loop -----------------------------------------------------------------------

  function Decimal(n: nat): string {
    if n < 10 then [("0123456789")[n]] else Decimal(n / 10) + [("0123456789")[n % 10]]
  }

  /** The id of the i-th step of the default plan, counting from 1. */
  function StepId(i: nat): string {
    "step-" + Decimal(i)
  }

  function DefaultPlan(assignments: seq<Assignment>): ExecutionPlan {
    var steps := seq(|assignments|, i requires 0 <= i < |assignments| =>
      ExecutionStep(StepId(i + 1), assignments[i].roleId, assignments[i].tools, if i > 0 then [StepId(i)] else []));
    ExecutionPlan(steps, [seq(|steps|, i requires 0 <= i < |steps| => steps[i].id)])
  }

  function PlannerNode(s: State): Update {
    if s.assignments == [] then Err(NoAssignmentsAvailable)
    else Ok(Log(s.(executionPlan := Some(DefaultPlan(s.assignments))), PlannerCompleted(s.revisionCount)))
  }

  /** The results of the assignments whose role id is in the group, in order. */
  function RunGroup(assignments: seq<Assignment>, group: seq<string>): seq<SpecialistResult> {
    if assignments == [] then []
    else
      var a := assignments[0];
      (if a.roleId in group then [SpecialistResult(a.roleId, a.agentId, [])] else [])
        + RunGroup(assignments[1..], group)
  }

  function RunGroups(assignments: seq<Assignment>, groups: seq<seq<string>>): seq<SpecialistResult>
    decreases |groups|
  {
    if groups == [] then [] else RunGroup(assignments, groups[0]) + RunGroups(assignments, groups[1..])
  }

  function GroupsOf(s: State): seq<seq<string>> {
    match s.executionPlan
    case Some(p) => p.parallelGroups
    case None => [seq(|s.assignments|, i requires 0 <= i < |s.assignments| => s.assignments[i].roleId)]
  }

  function SpecialistsNode(s: State): Update {
    if s.assignments == [] then Err(NoAssignmentsAvailable)
    else
      var results := RunGroups(s.assignments, GroupsOf(s));
      Ok(Log(s.(specialistResults := s.specialistResults + results), SpecialistsCompleted))
  }

  function CallsOf(roleId: string, tools: seq<string>): seq<ToolCall> {
    seq(|tools|, i requires 0 <= i < |tools| => ToolCall(roleId, tools[i]))
  }

  function ExtractToolCalls(results: seq<SpecialistResult>): seq<ToolCall> {
    if results == [] then [] else CallsOf(results[0].roleId, results[0].toolsUsed) + ExtractToolCalls(results[1..])
  }

  function ToolExecutorNode(env: Env, s: State): Update {
    if s.specialistResults == [] then Ok(Log(s, ToolsSkipped))
    else
      var calls := ExtractToolCalls(s.specialistResults);
      if calls == [] then Ok(Log(s, ToolsNone))
      else
        var results := seq(|calls|, i requires 0 <= i < |calls| => ToolResult(calls[i], env.toolSucceeds(calls[i])));
        Ok(Log(s.(toolExecutionResults := s.toolExecutionResults + results), ToolsCompleted))
  }

  function AggregateNode(s: State): Update {
    if s.specialistResults == [] then Ok(Log(s.(aggregatedOutput := Some(NoResults)), AggregateEmpty))
    else Ok(Log(s.(aggregatedOutput := Some(Success)), AggregateCompleted))
  }

  function VerifyBasic(assignments: seq<Assignment>, output: Option<OutputStatus>): Verification {
    var issues :=
      (if assignments == [] then [NoAssignments] else [])
      + (if exists i :: 0 <= i < |assignments| && assignments[i].model == "" then [MissingModel] else [])
      + (if output == None then [NoOutput] else [])
      + (if output == Some(FailedOutput) || output == Some(ErrorOutput) then [OutputFailed] else []);
    Verification(issues == [], issues)
  }

  /** `verdict` is the answer of a verifying model; None means there is no model client, or
      its call failed, and the basic check decides. */
  function VerifierNode(env: Env, s: State, verdict: Option<bool>): Update {
    var v := match verdict
      case Some(b) => Verification(b, [])
      case None => VerifyBasic(s.assignments, s.aggregatedOutput);
    var shouldRevise := !v.passed && s.revisionCount < env.verifierBound;
    var next := if shouldRevise then s.revisionCount + 1 else s.revisionCount;
    var newStatus := if v.passed then Running else if next >= env.verifierBound then Failed else Running;
    var logged := [if v.passed then VerifierPassed else VerifierFailed]
      + (if shouldRevise then [Revision(next)] else []);
    Ok(s.(verification := Some(v), revisionCount := next, status := newStatus, events := s.events + logged))
  }

  function FinalizerNode(s: State): Update {
    var passed := s.verification.Some? && s.verification.value.passed;
    Ok(Log(s.(status := if passed then Completed else Failed), FinalizerCompleted))
  }
}
