/** What a run reports about itself at every node: its status, and whether it has been approved. */
module RunStatus {
  import opened Wrappers
  import opened ModelRouting
  import opened GraphNodes
  import opened ExecutionGraph

  ghost predicate BeforeGate(node: Node) {
    node.Intake? || node.Profile? || node.TemplateSelect? || node.TeamDesign? || node.ModelRoute?
    || node.ToolsAllocate? || node.SkillsLoad? || node.ApprovalGate?
  }

  ghost predicate Passed(s: State) {
    s.verification.Some? && s.verification.value.passed
  }

  /** What is logged on the way to the gate, one entry by each node, in this order. */
  const PREPARATION := [IntakeCompleted, ProfileCompleted, TemplateSelected, TeamDesigned, ModelRouted,
                        ToolsAllocated, SkillsLoaded]

  /** How many nodes lie before this one on the way to the gate. */
  ghost function Stage(node: Node): nat
    requires BeforeGate(node)
  {
    match node
    case Intake => 0 case Profile => 1 case TemplateSelect => 2 case TeamDesign => 3
    case ModelRoute => 4 case ToolsAllocate => 5 case SkillsLoad => 6 case ApprovalGate => 7
  }

  /** The output in front of the verifier says whether any specialist has a result. */
  ghost predicate OutputAgrees(s: State) {
    s.aggregatedOutput == Some(if |s.specialistResults| == 0 then NoResults else Success)
  }

  /** Running up to the gate, with one log entry per node, approved in advance in automatic mode only;
      waiting and not approved until an answer; running and approved in the loop, the output telling
      whether there are results; and in front of the finalizer failed, unless the verdict passed, with a
      verdict exactly if it was approved. */
  ghost predicate StandsAt(node: Node, s: State) {
    if BeforeGate(node) then
      && s.status == Running && (s.approvalGranted <==> s.request.mode == Auto) && s.verification == None
      && s.events == PREPARATION[..Stage(node)]
    else if node.HumanFeedback? then
      && s.request.mode == Approval && s.status == WaitingApproval && !s.approvalGranted && s.verification == None
      && s.events == PREPARATION + [GateInterrupt]
    else if InLoop(node) then s.status == Running && s.approvalGranted && (node.Verifier? ==> OutputAgrees(s))
    else s.status == (if Passed(s) then Running else Failed) && (s.verification.Some? <==> s.approvalGranted)
  }

  ghost predicate StatusAgrees(m: Machine) {
    match m
    case At(node, s) => StandsAt(node, s)
    case Waiting(s) => StandsAt(HumanFeedback, s)
    case Thrown(node, _, s) => StandsAt(node, s)
    case Done(s) =>
      s.status == (if Passed(s) then Completed else Failed) && (s.verification.Some? <==> s.approvalGranted)
  }

  lemma NodeKeepsStatus(env: Env, node: Node, s: State, inp: Input)
    requires env.verifierBound == env.routerBound && StandsAt(node, s)
    ensures StatusAgrees(Advance(env, node, s, inp))
  {
    hide ModelRouteNode, Assign, DefaultPlan, RunGroups, GroupsOf, ExtractToolCalls, VerifyBasic;
    hide ParseApproval, ValidRole;
    if BeforeGate(node) {
      PreparationKeepsStatus(env, node, s, inp);
    } else if node == Verifier {
      VerdictDecides(env, s, inp);
    }
  }

  lemma PreparationKeepsStatus(env: Env, node: Node, s: State, inp: Input)
    requires BeforeGate(node) && StandsAt(node, s)
    ensures StatusAgrees(Advance(env, node, s, inp))
  {
    hide ModelRouteNode, Assign, ValidRole;
    var n := Stage(node);
    assert n < 7 ==> PREPARATION[..n] + [PREPARATION[n]] == PREPARATION[..n + 1];
    assert PREPARATION[..7] == PREPARATION;
  }

  lemma VerdictDecides(env: Env, s: State, inp: Input)
    requires env.verifierBound == env.routerBound && s.approvalGranted
    ensures var t := VerifierNode(env, s, inp.verdict).value;
      && t.verification.Some? && t.approvalGranted
      && (inp.verdict.Some? ==> (Passed(t) <==> inp.verdict.value))
      && (RouteAfterVerifier(env, t) == Planner ==> t.status == Running)
      && (RouteAfterVerifier(env, t) == Finalizer ==> t.status == if Passed(t) then Running else Failed)
  {
    hide VerifyBasic;
  }

  /** With equal bounds, in every run, finished or not and whatever the verdicts and answers. */
  lemma {:induction false} StatusFollowsRun(env: Env, request: Request, template: seq<RoleBlueprint>,
                                            inputs: nat -> Input, n: nat)
    requires env.verifierBound == env.routerBound
    ensures StatusAgrees(Run(env, Start(request, template), inputs, n))
    decreases n
  {
    hide Advance, StandsAt;
    if n > 0 {
      StatusFollowsRun(env, request, template, inputs, n - 1);
      var m := Run(env, Start(request, template), inputs, n - 1);
      match m
      case At(node, s) => NodeKeepsStatus(env, node, s, inputs(n - 1));
      case Waiting(s) => NodeKeepsStatus(env, HumanFeedback, s, inputs(n - 1));
      case Done(_) =>
      case Thrown(_, _, _) =>
    } else {
      StartStands(request, template);
    }
  }

  lemma StartStands(request: Request, template: seq<RoleBlueprint>)
    ensures StandsAt(Intake, Initial(request, template))
  {
  }
}
