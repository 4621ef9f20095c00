/** What becomes of a run wired without model clients: exactly which specialists run under the
    default plan, and exactly which runs end completed. */
module WiredOutcomes {
  import opened Wrappers
  import opened ModelRouting
  import opened GraphNodes
  import opened ExecutionGraph
  import opened WiredGraph

  // ----- Which specialists run -------------------------------------------------------------------

  /** What a specialist without a model client returns. */
  function ResultOf(a: Assignment): SpecialistResult {
    SpecialistResult(a.roleId, a.agentId, [])
  }

  function ResultsOf(assignments: seq<Assignment>): seq<SpecialistResult> {
    seq(|assignments|, i requires 0 <= i < |assignments| => ResultOf(assignments[i]))
  }

  /** Every role of `assignments` is in the group. */
  ghost predicate AllIn(assignments: seq<Assignment>, group: seq<string>) {
    forall a :: a in assignments ==> a.roleId in group
  }

  /** An assignment has a result from a group if and only if its role id is in it, and there are
      no other results. */
  lemma {:induction false} RunGroupExactly(assignments: seq<Assignment>, group: seq<string>)
    ensures forall a :: a in assignments ==> (ResultOf(a) in RunGroup(assignments, group) <==> a.roleId in group)
    ensures forall r :: r in RunGroup(assignments, group) ==> exists a :: a in assignments && r == ResultOf(a)
  {
    if assignments != [] {
      var rest := assignments[1..];
      RunGroupExactly(rest, group);
      RunGroupMembers(assignments, group);
      assert forall a :: a in assignments <==> a == assignments[0] || a in rest;
      assert forall r :: r in RunGroup(rest, group) ==> r in RunGroup(assignments, group);
      forall r | r in RunGroup(assignments, group) ensures exists a :: a in assignments && r == ResultOf(a) {
        if r in RunGroup(rest, group) {
          var a :| a in rest && r == ResultOf(a);
          assert a in assignments;
        }
      }
    }
  }

  /** The whole team runs, in order, if and only if every role id is in the group. */
  lemma {:induction false} WholeGroupRuns(assignments: seq<Assignment>, group: seq<string>)
    ensures |RunGroup(assignments, group)| <= |assignments|
    ensures RunGroup(assignments, group) == ResultsOf(assignments) <==> AllIn(assignments, group)
  {
    if assignments != [] {
      var rest := assignments[1..];
      WholeGroupRuns(rest, group);
      assert AllIn(assignments, group) <==> assignments[0].roleId in group && AllIn(rest, group);
      assert ResultsOf(assignments) == [ResultOf(assignments[0])] + ResultsOf(rest);
      if RunGroup(assignments, group) == ResultsOf(assignments) {
        assert |RunGroup(assignments, group)| == |assignments|;
        assert RunGroup(rest, group) == RunGroup(assignments, group)[1..];
      }
    }
  }

  /** The results a specialists step adds. */
  function NewResults(s: State): seq<SpecialistResult>
    requires SpecialistsNode(s).Ok?
  {
    SpecialistsNode(s).value.specialistResults[|s.specialistResults|..]
  }

  lemma DefaultGroupRuns(s: State)
    requires s.assignments != [] && s.executionPlan == Some(DefaultPlan(s.assignments))
    ensures SpecialistsNode(s).Ok?
    ensures NewResults(s) == RunGroup(s.assignments, DefaultPlan(s.assignments).parallelGroups[0])
  {
    var groups := DefaultPlan(s.assignments).parallelGroups;
    assert groups == [groups[0]];
    assert RunGroups(s.assignments, groups) == RunGroup(s.assignments, groups[0]) + [];
  }

  /** The default plan groups step ids while specialists are picked by role id.  Under it an
      assignment gets a result if and only if its role id is literally "step-i" for a position i
      of the team; nothing else runs; and the whole team runs if and only if every role is named
      like that. */
  lemma DefaultPlanRunsExactly(s: State)
    requires s.assignments != [] && s.executionPlan == Some(DefaultPlan(s.assignments))
    ensures SpecialistsNode(s).Ok?
    ensures forall a :: a in s.assignments ==>
              (ResultOf(a) in NewResults(s) <==> IsStepId(|s.assignments|, a.roleId))
    ensures forall r :: r in NewResults(s) ==> exists a :: a in s.assignments && r == ResultOf(a)
    ensures NewResults(s) == ResultsOf(s.assignments) <==>
              forall a :: a in s.assignments ==> IsStepId(|s.assignments|, a.roleId)
  {
    var group := DefaultPlan(s.assignments).parallelGroups[0];
    PlanGroupIsStepIds(s.assignments);
    DefaultGroupRuns(s);
    RunGroupExactly(s.assignments, group);
    WholeGroupRuns(s.assignments, group);
  }

  // ----- The team in every run ---------------------------------------------------------------------

  /** The assignments stand for the roles, in order. */
  ghost predicate StandFor(assignments: seq<Assignment>, roles: seq<RoleBlueprint>) {
    |assignments| == |roles| && forall i :: 0 <= i < |roles| ==> assignments[i].roleId == roles[i].id
  }

  function NodeOf(m: Machine): Node {
    match m
    case At(node, _) => node
    case Waiting(_) => HumanFeedback
    case Done(_) => Finalizer
    case Thrown(node, _, _) => node
  }

  /** How far the team has got in front of a node. */
  ghost predicate Booked(template: seq<RoleBlueprint>, node: Node, s: State) {
    if node.Intake? || node.Profile? || node.TemplateSelect? then s.template == template
    else s.roles == template && (!node.TeamDesign? ==> StandFor(s.assignments, template))
  }

  lemma {:induction false} AssignStandsFor(env: Env, roles: seq<RoleBlueprint>, ds: seq<ModelDecision>)
    requires Assign(env, roles, ds).Ok?
    ensures StandFor(Assign(env, roles, ds).value, roles)
  {
    if roles != [] {
      AssignStandsFor(env, roles[1..], ds);
      var rest := Assign(env, roles[1..], ds).value;
      var all := Assign(env, roles, ds).value;
      assert forall i :: 0 < i < |all| ==> all[i] == rest[i - 1] && roles[i] == roles[1..][i - 1];
    }
  }

  lemma NodeKeepsBooked(env: Env, template: seq<RoleBlueprint>, node: Node, s: State, inp: Input)
    requires Booked(template, node, s) && Apply(env, node, s, inp).Ok?
    ensures var t := Apply(env, node, s, inp).value;
      Booked(template, if node == Finalizer then Finalizer else NextNode(env, node, t), t)
  {
    hide ModelRouteNode, Assign, DefaultPlan, RunGroups, ExtractToolCalls, VerifyBasic;
    if node == ToolsAllocate {
      AssignStandsFor(env, s.roles, s.modelDecisions);
    }
  }

  lemma StepKeepsBooked(env: Env, template: seq<RoleBlueprint>, m: Machine, inp: Input)
    requires Booked(template, NodeOf(m), m.state)
    ensures Booked(template, NodeOf(Step(env, m, inp)), Step(env, m, inp).state)
  {
    if Apply(env, NodeOf(m), m.state, inp).Ok? {
      NodeKeepsBooked(env, template, NodeOf(m), m.state, inp);
    }
    hide Apply, NextNode, Booked;
  }

  lemma {:induction false} RunKeepsBooked(env: Env, request: Request, template: seq<RoleBlueprint>,
                                          inputs: nat -> Input, n: nat)
    ensures var m := Run(env, Start(request, template), inputs, n); Booked(template, NodeOf(m), m.state)
    decreases n
  {
    if n > 0 {
      RunKeepsBooked(env, request, template, inputs, n - 1);
      StepKeepsBooked(env, template, Run(env, Start(request, template), inputs, n - 1), inputs(n - 1));
      hide Step, Booked, NodeOf, Start;
    }
  }

  // ----- Which specialists have run, in every run ---------------------------------------------------

  /** Every role named like a step has its result. */
  ghost predicate StepRolesRan(s: State) {
    forall a :: a in s.assignments && IsStepId(|s.assignments|, a.roleId) ==> ResultOf(a) in s.specialistResults
  }

  /** Every result is some assignment's. */
  ghost predicate ResultsFromTeam(s: State) {
    forall r :: r in s.specialistResults ==> exists a :: a in s.assignments && r == ResultOf(a)
  }

  ghost predicate RanIfWorked(s: State) {
    ResultsFromTeam(s) && (SpecialistsCompleted in s.events ==> StepRolesRan(s))
  }

  /** `t` has the team and results of `s`, and no specialists step more. */
  ghost predicate SameResults(s: State, t: State) {
    && t.assignments == s.assignments && t.specialistResults == s.specialistResults
    && (SpecialistsCompleted in t.events ==> SpecialistsCompleted in s.events)
  }

  lemma LoopKeepsResults(env: Env, node: Node, s: State, inp: Input)
    requires (InLoop(node) || node == Finalizer) && node != Specialists && Apply(env, node, s, inp).Ok?
    ensures SameResults(s, Apply(env, node, s, inp).value)
  {
    hide DefaultPlan, ExtractToolCalls, VerifyBasic;
    match node
    case Planner => case ToolExecutor => case Aggregate => case Finalizer =>
    case Verifier => VerifierLogs(env, s, inp);
  }

  /** Before the planner nothing has run. */
  lemma PreparationHasNoResults(env: Env, node: Node, s: State, inp: Input)
    requires !InLoop(node) && node != Finalizer && Apply(env, node, s, inp).Ok?
    requires Fresh(s) && s.specialistResults == []
    ensures var t := Apply(env, node, s, inp).value;
      t.specialistResults == [] && SpecialistsCompleted !in t.events
  {
    PreparationLogs(env, node, s, inp);
    var t := Apply(env, node, s, inp).value;
    assert IsWork(SpecialistsCompleted);
    PreparationKeepsNoResults(env, node, s, inp);
    hide Apply, CountFailed, CountPlans, LastVerdict;
  }

  lemma PreparationKeepsNoResults(env: Env, node: Node, s: State, inp: Input)
    requires !InLoop(node) && node != Finalizer && Apply(env, node, s, inp).Ok?
    ensures Apply(env, node, s, inp).value.specialistResults == s.specialistResults
  {
    hide ModelRouteNode, Assign;
  }

  /** Everything but the specialists. */
  lemma OtherNodesKeepRan(env: Env, node: Node, s: State, inp: Input)
    requires RanIfWorked(s) && Apply(env, node, s, inp).Ok? && node != Specialists
    requires !InLoop(node) && node != Finalizer ==> Fresh(s) && s.specialistResults == []
    ensures RanIfWorked(Apply(env, node, s, inp).value)
  {
    if InLoop(node) || node == Finalizer {
      LoopKeepsResults(env, node, s, inp);
    } else {
      PreparationHasNoResults(env, node, s, inp);
    }
    hide Apply, Fresh;
  }

  lemma SpecialistsRan(env: Env, s: State, inp: Input)
    requires WiredInvariant(env, At(Specialists, s)) && ResultsFromTeam(s)
    ensures SpecialistsNode(s).Ok? && StepRolesRan(SpecialistsNode(s).value)
    ensures ResultsFromTeam(SpecialistsNode(s).value)
  {
    DefaultPlanRunsExactly(s);
    var t := SpecialistsNode(s).value;
    forall a | a in t.assignments && IsStepId(|t.assignments|, a.roleId) ensures ResultOf(a) in t.specialistResults {
      assert ResultOf(a) in NewResults(s);
    }
    assert t.specialistResults == s.specialistResults + NewResults(s);
  }

  lemma NodeKeepsRan(env: Env, node: Node, s: State, inp: Input)
    requires WiredInvariant(env, At(node, s)) && Invariant(env, At(node, s)) && RanIfWorked(s)
    ensures Apply(env, node, s, inp).Ok? ==> RanIfWorked(Apply(env, node, s, inp).value)
  {
    if node == Specialists {
      SpecialistsRan(env, s, inp);
    } else if Apply(env, node, s, inp).Ok? {
      OtherNodesKeepRan(env, node, s, inp);
    }
  }

  lemma StepKeepsRan(env: Env, m: Machine, inp: Input)
    requires WiredInvariant(env, m) && Invariant(env, m) && RanIfWorked(m.state)
    ensures RanIfWorked(Step(env, m, inp).state)
  {
    match m
    case At(node, s) =>
      NodeKeepsRan(env, node, s, inp);
      hide RanIfWorked, Apply, Invariant, WiredInvariant;
    case Waiting(s) =>
      OtherNodesKeepRan(env, HumanFeedback, s, inp);
      hide RanIfWorked, HumanFeedbackNode, Invariant, WiredInvariant;
    case Done(_) =>
    case Thrown(_, _, _) =>
  }

  lemma {:induction false} RunKeepsRan(env: Env, request: Request, template: seq<RoleBlueprint>,
                                       inputs: nat -> Input, n: nat)
    requires Bounds(env) && Wired(inputs)
    ensures RanIfWorked(Run(env, Start(request, template), inputs, n).state)
    decreases n
  {
    hide Step, Invariant, WiredInvariant;
    if n > 0 {
      RunKeepsRan(env, request, template, inputs, n - 1);
      WiredFromStart(env, request, template, inputs, n - 1);
      StepKeepsRan(env, Run(env, Start(request, template), inputs, n - 1), inputs(n - 1));
    }
  }

  /** The role has a result. */
  ghost predicate HasRun(s: State, roleId: string) {
    exists r :: r in s.specialistResults && r.roleId == roleId
  }

  ghost predicate NamedLikeStep(template: seq<RoleBlueprint>, i: int) {
    0 <= i < |template| && IsStepId(|template|, template[i].id)
  }

  /** In every state of every wired run each result is that of a role of the template that is
      named like a step; and once the specialists step has been taken, exactly those roles have
      run, so that all have run if and only if all are named like steps. */
  lemma RolesRunExactly(env: Env, request: Request, template: seq<RoleBlueprint>, inputs: nat -> Input, n: nat)
    requires Bounds(env) && Wired(inputs)
    ensures var s := Run(env, Start(request, template), inputs, n).state;
      && (forall r :: r in s.specialistResults ==> exists i :: NamedLikeStep(template, i) && r.roleId == template[i].id)
      && (SpecialistsCompleted in s.events ==>
            && (forall i :: 0 <= i < |template| ==> (HasRun(s, template[i].id) <==> NamedLikeStep(template, i)))
            && ((forall i :: 0 <= i < |template| ==> HasRun(s, template[i].id)) <==>
                  forall i :: 0 <= i < |template| ==> NamedLikeStep(template, i)))
  {
    WiredFromStart(env, request, template, inputs, n);
    RunKeepsRan(env, request, template, inputs, n);
    RunKeepsBooked(env, request, template, inputs, n);
    var m := Run(env, Start(request, template), inputs, n);
    WorkedMeansBooked(env, m, template);
    hide Run, Start, Booked, WiredInvariant, Invariant, Fresh;
    var s := m.state;
    forall r | r in s.specialistResults ensures exists i :: NamedLikeStep(template, i) && r.roleId == template[i].id {
      var a :| a in s.assignments && r == ResultOf(a);
      var i :| 0 <= i < |s.assignments| && s.assignments[i] == a;
      assert NamedLikeStep(template, i);
    }
    if SpecialistsCompleted in s.events {
      forall i | NamedLikeStep(template, i) ensures HasRun(s, template[i].id) {
        assert s.assignments[i] in s.assignments;
        assert ResultOf(s.assignments[i]) in s.specialistResults;
      }
    }
  }

  /** Wherever a specialist has run, the assignments stand for the template. */
  lemma WorkedMeansBooked(env: Env, m: Machine, template: seq<RoleBlueprint>)
    requires WiredInvariant(env, m) && Invariant(env, m) && Booked(template, NodeOf(m), m.state)
    ensures m.state.specialistResults != [] || SpecialistsCompleted in m.state.events ==>
              StandFor(m.state.assignments, template) && OnlyStepRoles(m.state)
  {
    hide StandFor, OnlyStepRoles, LogAgrees, CountPlans, CountFailed, LastVerdict;
    assert IsWork(SpecialistsCompleted);
  }

  // ----- Which runs end completed -----------------------------------------------------------------------

  /** What preparation needs: a valid request, a template of valid roles, a successful routing
      and core skills that activate. */
  ghost predicate Prepared(env: Env, request: Request, template: seq<RoleBlueprint>) {
    && request.valid
    && template != []
    && (forall i :: 0 <= i < |template| ==> ValidRole(template[i]))
    && ModelRouteNode(template, request.highComplexity, env.catalog).Ok?
    && env.skillsActivate
  }

  lemma {:induction false} DecisionForFirst(ds: seq<ModelDecision>, roleId: string)
    ensures DecisionFor(ds, roleId).Some? <==> exists i :: 0 <= i < |ds| && ds[i].roleId == roleId
  {
    if ds != [] {
      DecisionForFirst(ds[1..], roleId);
      if i :| 0 <= i < |ds| && ds[i].roleId == roleId && ds[0].roleId != roleId {
        assert ds[1..][i - 1].roleId == roleId;
      }
      if i :| 0 <= i < |ds[1..]| && ds[1..][i].roleId == roleId {
        assert ds[i + 1].roleId == roleId;
      }
    }
  }

  lemma {:induction false} AssignSucceeds(env: Env, roles: seq<RoleBlueprint>, ds: seq<ModelDecision>)
    requires forall i :: 0 <= i < |roles| ==> DecisionFor(ds, roles[i].id).Some?
    ensures Assign(env, roles, ds).Ok? && |Assign(env, roles, ds).value| == |roles|
    ensures forall i :: 0 <= i < |roles| ==> Assign(env, roles, ds).value[i].roleId == roles[i].id
  {
    if roles != [] {
      assert forall i :: 0 <= i < |roles[1..]| ==> roles[1..][i] == roles[i + 1];
      AssignSucceeds(env, roles[1..], ds);
    }
  }

  /** Routing covers every role, so allocation never misses a decision. */
  lemma RoutedRolesAreAssigned(env: Env, roles: seq<RoleBlueprint>, highComplexity: bool)
    requires ModelRouteNode(roles, highComplexity, env.catalog).Ok?
    ensures var ds := ModelRouteNode(roles, highComplexity, env.catalog).value;
      && ds != [] && Assign(env, roles, ds).Ok? && |Assign(env, roles, ds).value| == |roles|
      && forall i :: 0 <= i < |roles| ==> Assign(env, roles, ds).value[i].roleId == roles[i].id
  {
    DecisionsFromCatalog(roles, highComplexity, env.catalog);
    var ds := ModelRouteNode(roles, highComplexity, env.catalog).value;
    hide ModelRouteNode;
    forall i | 0 <= i < |roles| ensures DecisionFor(ds, roles[i].id).Some? {
      DecisionForFirst(ds, roles[i].id);
    }
    AssignSucceeds(env, roles, ds);
  }

  /** The state in front of the approval gate. */
  ghost predicate AtGate(m: Machine, request: Request, template: seq<RoleBlueprint>) {
    m.At? && m.node == ApprovalGate && m.state.request == request && StandFor(m.state.assignments, template)
  }

  lemma FirstThree(env: Env, request: Request, template: seq<RoleBlueprint>, inputs: nat -> Input)
    ensures var m := Run(env, Start(request, template), inputs, 3);
      if request.valid && template != [] && (forall i :: 0 <= i < |template| ==> ValidRole(template[i]))
      then m.At? && m.node == TeamDesign && m.state.roles == template && m.state.request == request
      else m.Thrown?
  {
    var m := Start(request, template);
    assert Run(env, m, inputs, 1) == Step(env, m, inputs(0));
    assert Run(env, m, inputs, 2) == Step(env, Run(env, m, inputs, 1), inputs(1));
    assert Run(env, m, inputs, 3) == Step(env, Run(env, m, inputs, 2), inputs(2));
  }

  lemma HaltedRunStays(env: Env, m: Machine, inputs: nat -> Input, i: nat, n: nat)
    requires i <= n && Halted(Run(env, m, inputs, i))
    ensures Run(env, m, inputs, n) == Run(env, m, inputs, i)
    decreases n
  {
    if i < n {
      HaltedRunStays(env, m, inputs, i, n - 1);
      HaltedStays(env, Run(env, m, inputs, i), inputs(n - 1));
    }
    hide Step;
  }

  lemma DesignStep(env: Env, s: State, inp: Input)
    requires s.roles != []
    ensures var m := Step(env, At(TeamDesign, s), inp);
      m.At? && m.node == ModelRoute && m.state.roles == s.roles && m.state.request == s.request
  {
  }

  lemma RoutingStep(env: Env, s: State, inp: Input)
    ensures var m := Step(env, At(ModelRoute, s), inp);
      match ModelRouteNode(s.roles, s.request.highComplexity, env.catalog)
      case Ok(ds) => m.At? && m.node == ToolsAllocate && m.state.roles == s.roles
        && m.state.request == s.request && m.state.modelDecisions == ds
      case Err(_) => m.Thrown?
  {
    hide ModelRouteNode;
  }

  lemma AllocationStep(env: Env, s: State, inp: Input)
    requires s.roles != []
    requires ModelRouteNode(s.roles, s.request.highComplexity, env.catalog) == Ok(s.modelDecisions)
    ensures var m := Step(env, At(ToolsAllocate, s), inp);
      m.At? && m.node == SkillsLoad && m.state.request == s.request && StandFor(m.state.assignments, s.roles)
  {
    RoutedRolesAreAssigned(env, s.roles, s.request.highComplexity);
    hide ModelRouteNode, Assign;
  }

  lemma SkillsStep(env: Env, s: State, roles: seq<RoleBlueprint>, inp: Input)
    requires StandFor(s.assignments, roles)
    ensures var m := Step(env, At(SkillsLoad, s), inp);
      if env.skillsActivate then AtGate(m, s.request, roles) else m.Thrown?
  {
  }

  /** Of a designed team: routing, allocation and skills. */
  lemma NextFour(env: Env, s: State, a: Input, b: Input, c: Input, d: Input)
    requires s.roles != []
    ensures var m := Step(env, Step(env, Step(env, Step(env, At(TeamDesign, s), a), b), c), d);
      if ModelRouteNode(s.roles, s.request.highComplexity, env.catalog).Ok? && env.skillsActivate
      then AtGate(m, s.request, s.roles)
      else m.Thrown?
  {
    hide ModelRouteNode, Step, AtGate, StandFor;
    DesignStep(env, s, a);
    var t := Step(env, At(TeamDesign, s), a);
    RoutingStep(env, t.state, b);
    var u := Step(env, t, b);
    if u.Thrown? {
      HaltedStays(env, u, c);
      HaltedStays(env, u, d);
    } else {
      AllocationStep(env, u.state, c);
      var v := Step(env, u, c);
      SkillsStep(env, v.state, s.roles, d);
    }
  }

  /** After seven steps a run stands in front of the approval gate with one assignment per role,
      if it was prepared, and otherwise it has thrown. */
  lemma PreparationExactly(env: Env, request: Request, template: seq<RoleBlueprint>, inputs: nat -> Input)
    ensures var m := Run(env, Start(request, template), inputs, 7);
      if Prepared(env, request, template) then AtGate(m, request, template) else m.Thrown?
  {
    var start := Start(request, template);
    FirstThree(env, request, template, inputs);
    hide Start, Step, ModelRouteNode, ValidRole, AtGate;
    var m := Run(env, start, inputs, 3);
    if m.Thrown? {
      HaltedRunStays(env, start, inputs, 3, 7);
    } else {
      NextFour(env, m.state, inputs(3), inputs(4), inputs(5), inputs(6));
      assert Run(env, start, inputs, 4) == Step(env, m, inputs(3));
      assert Run(env, start, inputs, 5) == Step(env, Run(env, start, inputs, 4), inputs(4));
      assert Run(env, start, inputs, 6) == Step(env, Run(env, start, inputs, 5), inputs(5));
      assert Run(env, start, inputs, 7) == Step(env, Run(env, start, inputs, 6), inputs(6));
    }
  }

  /** The run is let through to the planner: in automatic mode by the gate, in approval mode by
      the answer it is resumed with, which is the input of its tenth step. */
  ghost predicate LetThrough(request: Request, inputs: nat -> Input) {
    request.mode == Auto || ParseApproval(inputs(9).answer)
  }

  /** From the gate to the planner, or to the finalizer after a rejection. */
  lemma ThroughTheGate(env: Env, start: Machine, request: Request, template: seq<RoleBlueprint>, inputs: nat -> Input)
    ensures var gate := Run(env, start, inputs, 7);
      AtGate(gate, request, template) && gate.state.verification == None ==>
        if LetThrough(request, inputs)
        then exists p: nat :: p <= 10 && Run(env, start, inputs, p).At? && Run(env, start, inputs, p).node == Planner
        else var m := Run(env, start, inputs, 10); m.At? && m.node == Finalizer && m.state.verification == None
  {
    var gate := Run(env, start, inputs, 7);
    if !AtGate(gate, request, template) || gate.state.verification != None {
      return;
    }
    var m := Run(env, start, inputs, 8);
    GateStep(env, Run(env, start, inputs, 7).state, inputs(7));
    if request.mode == Auto {
      assert m.At? && m.node == Planner;
    } else {
      FeedbackSteps(env, m.state, inputs(8), inputs(9));
      hide Step;
      assert Run(env, start, inputs, 9) == Step(env, m, inputs(8));
      assert Run(env, start, inputs, 10) == Step(env, Run(env, start, inputs, 9), inputs(9));
    }
  }

  lemma GateStep(env: Env, s: State, inp: Input)
    ensures var m := Step(env, At(ApprovalGate, s), inp);
      && m.At? && m.state.request == s.request && m.state.verification == s.verification
      && m.node == if s.request.mode == Approval then HumanFeedback else Planner
  {
  }

  lemma FeedbackSteps(env: Env, s: State, a: Input, b: Input)
    requires s.request.mode == Approval
    ensures var m := Step(env, Step(env, At(HumanFeedback, s), a), b);
      && m.At? && m.state.verification == s.verification
      && m.node == if ParseApproval(b.answer) then Planner else Finalizer
  {
    FeedbackShape(s, b.answer);
  }

  /** A halted run in which work was done has completed. */
  lemma WorkedRunCompleted(env: Env, m: Machine, e: Event)
    requires Invariant(env, m) && WiredInvariant(env, m) && NamedModels(env.catalog) && Halted(m)
    requires e in m.state.events && IsWork(e)
    ensures m.Done? && m.state.status == Completed
  {
    hide IsWork, CountFailed, CountPlans, LastVerdict, WorkAfterApproval, OnlyStepRoles;
  }

  /** Once the planner has been reached, the run can only finish completed. */
  lemma PlannedRunCompletes(env: Env, request: Request, template: seq<RoleBlueprint>, inputs: nat -> Input, p: nat)
    requires AsShipped(env) && Wired(inputs) && NamedModels(env.catalog) && p <= 10
    ensures var m, n := Run(env, Start(request, template), inputs, p), Run(env, Start(request, template), inputs, 21);
      m.At? && m.node == Planner ==> n.Done? && n.state.status == Completed
  {
    var start := Start(request, template);
    var m := Run(env, start, inputs, p);
    if !m.At? || m.node != Planner {
      return;
    }
    WiredFromStart(env, request, template, inputs, p);
    assert m.state.assignments != [] && IsWork(PlannerCompleted(m.state.revisionCount));
    assert Run(env, start, inputs, p + 1) == Step(env, m, inputs(p));
    hide Run, Start, Step, Invariant, WiredInvariant, IsWork;
    PlannerLogs(env, m.state, inputs(p));
    RunOnlyAppends(env, start, inputs, p + 1, 21);
    WiredFromStart(env, request, template, inputs, 21);
    ShippedRuns(env, request, template, inputs);
    WorkedRunCompleted(env, Run(env, start, inputs, 21), PlannerCompleted(m.state.revisionCount));
  }

  lemma PlannerLogs(env: Env, s: State, inp: Input)
    requires s.assignments != []
    ensures PlannerCompleted(s.revisionCount) in Step(env, At(Planner, s), inp).state.events
  {
    var t := PlannerNode(s).value;
    assert t.events[|s.events|] == PlannerCompleted(s.revisionCount);
  }

  /** End to end, as shipped and wired, over named models: a run ends completed if and only if it
      was prepared and let through.  Otherwise it throws during preparation or ends failed. */
  lemma CompletedExactly(env: Env, request: Request, template: seq<RoleBlueprint>, inputs: nat -> Input)
    requires AsShipped(env) && Wired(inputs) && NamedModels(env.catalog)
    ensures var m := Run(env, Start(request, template), inputs, 21);
      && (m.Thrown? <==> !Prepared(env, request, template))
      && (m.Done? && m.state.status == Completed <==> Prepared(env, request, template) && LetThrough(request, inputs))
      && (m.Done? && m.state.status == Failed <==> Prepared(env, request, template) && !LetThrough(request, inputs))
  {
    var start := Start(request, template);
    PreparationExactly(env, request, template, inputs);
    WiredFromStart(env, request, template, inputs, 7);
    assert AtGate(Run(env, start, inputs, 7), request, template) ==>
      Run(env, start, inputs, 7).state.verification == None;
    hide Start, Run, Step, Prepared, LetThrough, AtGate, Invariant, WiredInvariant;
    if !Prepared(env, request, template) {
      HaltedRunStays(env, start, inputs, 7, 21);
    } else {
      ThroughTheGate(env, start, request, template, inputs);
      if LetThrough(request, inputs) {
        var p: nat :| p <= 10 && Run(env, start, inputs, p).At? && Run(env, start, inputs, p).node == Planner;
        PlannedRunCompletes(env, request, template, inputs, p);
      } else {
        RejectedRunFails(env, start, inputs);
      }
    }
  }

  lemma RejectedRunFails(env: Env, start: Machine, inputs: nat -> Input)
    ensures var m, n := Run(env, start, inputs, 10), Run(env, start, inputs, 21);
      m.At? && m.node == Finalizer && m.state.verification == None ==> n.Done? && n.state.status == Failed
  {
    var m := Run(env, start, inputs, 10);
    if !m.At? || m.node != Finalizer || m.state.verification != None {
      return;
    }
    FinalStep(env, m.state, inputs(10));
    hide Step;
    assert Run(env, start, inputs, 11) == Step(env, m, inputs(10));
    HaltedRunStays(env, start, inputs, 11, 21);
  }

  lemma FinalStep(env: Env, s: State, inp: Input)
    requires s.verification == None
    ensures var m := Step(env, At(Finalizer, s), inp); m.Done? && m.state.status == Failed
  {
  }

  /** The same, in terms of the request, the template and the catalog alone, for distinct ids: the
      routing needs two roles, an eligible model for each, and two best models or a second choice. */
  lemma CompletedFromInputs(env: Env, request: Request, template: seq<RoleBlueprint>, inputs: nat -> Input)
    requires AsShipped(env) && Wired(inputs) && NamedModels(env.catalog) && DistinctModels(env.catalog)
    ensures var m := Run(env, Start(request, template), inputs, 21);
      var ready := request.valid && (forall i :: 0 <= i < |template| ==> ValidRole(template[i]))
        && Routable(template, request.highComplexity, env.catalog) && env.skillsActivate;
      && (m.Thrown? <==> !ready)
      && (m.Done? && m.state.status == Completed <==> ready && LetThrough(request, inputs))
      && (m.Done? && m.state.status == Failed <==> ready && !LetThrough(request, inputs))
  {
    CompletedExactly(env, request, template, inputs);
    RoutableExactly(template, request.highComplexity, env.catalog);
    assert Routable(template, request.highComplexity, env.catalog) ==> template != [];
    hide Run, Start, ModelRouteNode, Routable, LetThrough;
  }

  // ----- A completed run without any specialist -----------------------------------------------------------

  const TEAM := [RoleBlueprint("writer", "Writer", "write", []), RoleBlueprint("critic", "Critic", "criticize", [])]

  function SomeModel(id: string, quality: real): ModelProfile {
    ModelProfile(id, quality, 0.9, 0.9, 0.9, true, true, 32000, ["en"])
  }

  const CATALOG := [SomeModel("large", 0.9), SomeModel("small", 0.7)]

  const ENV := Env(CATALOG, true, (r: RoleBlueprint) => [], (c: ToolCall) => true, 2, 2)

  const REQUEST := Request(true, Auto, false)

  function NoVerdict(i: nat): Input {
    Input(None, JsonOther)
  }

  lemma CatalogIsEligible(role: RoleBlueprint)
    requires role.requiredCapabilities == []
    ensures Eligible(role, false, CATALOG) == CATALOG
  {
    assert CATALOG[1..] == [SomeModel("small", 0.7)] && CATALOG[1..][1..] == [];
  }

  lemma TeamIsPrepared()
    ensures Prepared(ENV, REQUEST, TEAM)
  {
    forall i | 0 <= i < |TEAM| ensures Eligible(TEAM[i], false, CATALOG) == CATALOG && ValidRole(TEAM[i]) {
      CatalogIsEligible(TEAM[i]);
    }
    assert CATALOG[0].id[0] == 'l' && CATALOG[1].id[0] == 's';
    hide Eligible;
    RoutingSucceedsExactly(TEAM, false, CATALOG);
  }

  lemma NotAStepId(n: nat, id: string)
    requires id != "" && id[0] != 's'
    ensures !IsStepId(n, id)
  {
    forall i: nat ensures StepId(i)[0] == 's' {}
  }

  lemma FirstIsMember(results: seq<SpecialistResult>)
    ensures results == [] || results[0] in results
  {
  }

  /** A team of two ends completed, verdict passed, with no result from either specialist. */
  lemma TeamCompletesWithoutResults()
    ensures var m := Run(ENV, Start(REQUEST, TEAM), NoVerdict, 21);
      m.Done? && m.state.status == Completed && m.state.specialistResults == []
  {
    TeamIsPrepared();
    forall i ensures !NamedLikeStep(TEAM, i) {
      if 0 <= i < |TEAM| { NotAStepId(|TEAM|, TEAM[i].id); }
    }
    hide Run, Start, Prepared, NamedLikeStep, IsStepId;
    CompletedExactly(ENV, REQUEST, TEAM, NoVerdict);
    RolesRunExactly(ENV, REQUEST, TEAM, NoVerdict, 21);
    var results := Run(ENV, Start(REQUEST, TEAM), NoVerdict, 21).state.specialistResults;
    FirstIsMember(results);
  }
}
