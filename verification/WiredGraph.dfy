/** Runs of the graph as the orchestrator wires it: no model client at any node, so the
    verifier decides by the basic check.  Such runs need no luck: their outcome is fixed by
    the selected models. */
module WiredGraph {
  import opened Wrappers
  import opened ModelRouting
  import opened GraphNodes
  import opened ExecutionGraph

  ghost predicate Wired(inputs: nat -> Input) {
    forall i: nat :: inputs(i).verdict == None
  }

  /** Some assignment has no model. */
  predicate MissingModels(assignments: seq<Assignment>) {
    exists i :: 0 <= i < |assignments| && assignments[i].model == ""
  }

  predicate NamedModels(catalog: seq<ModelProfile>) {
    forall i :: 0 <= i < |catalog| ==> catalog[i].id != ""
  }

  // ----- Selected models come from the catalog -----------------------------------------------

  ghost predicate IsCatalogId(catalog: seq<ModelProfile>, id: string) {
    exists i :: 0 <= i < |catalog| && catalog[i].id == id
  }

  lemma CandidatesFromCatalog(role: RoleBlueprint, highComplexity: bool, catalog: seq<ModelProfile>)
    requires RouteRoleModel(role, highComplexity, catalog).Ok?
    ensures forall k :: 0 <= k < |RouteRoleModel(role, highComplexity, catalog).value.candidates| ==>
              IsCatalogId(catalog, RouteRoleModel(role, highComplexity, catalog).value.candidates[k].model)
  {
    var eligible := Eligible(role, highComplexity, catalog);
    var scored := ScoreAll(eligible);
    var sorted := StableSort.SortDescending(scored, ScoreKey);
    var d := RouteRoleModel(role, highComplexity, catalog).value;
    forall k | 0 <= k < |d.candidates| ensures IsCatalogId(catalog, d.candidates[k].model) {
      StableSort.SortMembers(scored, ScoreKey, sorted[k]);
      var j :| 0 <= j < |scored| && scored[j] == sorted[k];
      assert eligible[j] in eligible && eligible[j] in catalog;
    }
  }

  /** What one role is routed to, and what a repair may move it to. */
  lemma BestFromCatalog(role: RoleBlueprint, highComplexity: bool, catalog: seq<ModelProfile>)
    requires RouteRoleModel(role, highComplexity, catalog).Ok?
    ensures var d := RouteRoleModel(role, highComplexity, catalog).value;
      && Routed(d) && d.roleId == role.id && Moved(d).roleId == role.id
      && IsCatalogId(catalog, d.selectedModel) && IsCatalogId(catalog, Moved(d).selectedModel)
  {
    RoutingPicksBest(role, highComplexity, catalog);
    CandidatesFromCatalog(role, highComplexity, catalog);
    hide RouteRoleModel, Eligible, EarliestBest, IsCatalogId;
  }

  /** Every decision the routing node returns names a model of the catalog, for its role. */
  lemma DecisionsFromCatalog(roles: seq<RoleBlueprint>, highComplexity: bool, catalog: seq<ModelProfile>)
    requires ModelRouteNode(roles, highComplexity, catalog).Ok?
    ensures var ds := ModelRouteNode(roles, highComplexity, catalog).value;
      |ds| == |roles|
      && forall i :: 0 <= i < |ds| ==> ds[i].roleId == roles[i].id && IsCatalogId(catalog, ds[i].selectedModel)
  {
    var best := RouteAll(roles, highComplexity, catalog).value;
    RouteAllRoutesEach(roles, highComplexity, catalog);
    hide RouteAll, RouteRoleModel, RepairFrom, Models, Moved, Routed, IsCatalogId;
    forall i | 0 <= i < |roles|
      ensures Routed(best[i]) && best[i].roleId == roles[i].id && Moved(best[i]).roleId == roles[i].id
           && IsCatalogId(catalog, best[i].selectedModel) && IsCatalogId(catalog, Moved(best[i]).selectedModel)
    {
      BestFromCatalog(roles[i], highComplexity, catalog);
    }
    RepairIsMinimal(best);
  }

  ghost predicate NamedDecisions(ds: seq<ModelDecision>) {
    forall d :: d in ds ==> d.selectedModel != ""
  }

  lemma RoutedModelsAreNamed(env: Env, s: State)
    requires RouteNode(env, s).Ok?
    ensures NamedModels(env.catalog) ==> NamedDecisions(RouteNode(env, s).value.modelDecisions)
  {
    DecisionsFromCatalog(s.roles, s.request.highComplexity, env.catalog);
  }

  lemma {:induction false} DecisionForMember(ds: seq<ModelDecision>, roleId: string)
    ensures DecisionFor(ds, roleId).Some? ==> DecisionFor(ds, roleId).value in ds
  {
    if ds != [] {
      DecisionForMember(ds[1..], roleId);
    }
  }

  lemma {:induction false} AssignKeepsModels(env: Env, roles: seq<RoleBlueprint>, ds: seq<ModelDecision>)
    requires Assign(env, roles, ds).Ok?
    ensures |Assign(env, roles, ds).value| == |roles|
    ensures NamedDecisions(ds) ==> !MissingModels(Assign(env, roles, ds).value)
  {
    if roles != [] {
      DecisionForMember(ds, roles[0].id);
      AssignKeepsModels(env, roles[1..], ds);
      var rest := Assign(env, roles[1..], ds).value;
      var all := Assign(env, roles, ds).value;
      assert forall i :: 0 < i < |all| ==> all[i] == rest[i - 1];
    }
  }

  // ----- The invariant of wired runs -----------------------------------------------------------

  ghost predicate Assigned(env: Env, s: State) {
    s.assignments != [] && (NamedModels(env.catalog) ==> !MissingModels(s.assignments))
  }

  /** The ids of the steps of the default plan. */
  ghost predicate IsStepId(n: nat, id: string) {
    exists i :: 1 <= i <= n && id == StepId(i)
  }

  /** Only roles whose id is literally a step id have run, and none used a tool. */
  ghost predicate OnlyStepRoles(s: State) {
    forall r :: r in s.specialistResults ==> r.toolsUsed == [] && IsStepId(|s.assignments|, r.roleId)
  }

  ghost predicate WiredInvariant(env: Env, m: Machine) {
    match m
    case Thrown(node, _, s) => !InLoop(node) && node != Finalizer && s.specialistResults == []
    case Waiting(s) => Assigned(env, s) && s.specialistResults == []
    case Done(s) => Settled(env, s) && OnlyStepRoles(s)
      && (s.verification.Some? ==> (s.status == Completed <==> !MissingModels(s.assignments)))
    case At(node, s) =>
      if node == Finalizer then Settled(env, s) && OnlyStepRoles(s)
      else if InLoop(node) then
        && Assigned(env, s) && OnlyStepRoles(s)
        && (s.revisionCount > 0 ==> MissingModels(s.assignments))
        && (node.Specialists? ==> s.executionPlan == Some(DefaultPlan(s.assignments)))
        && (node.Verifier? ==> s.aggregatedOutput == Some(NoResults) || s.aggregatedOutput == Some(Success))
      else
        && s.specialistResults == [] && s.revisionCount == 0 && s.verification == None
        && (node.TeamDesign? || node.ModelRoute? || node.ToolsAllocate? ==> s.roles != [])
        && (node.ToolsAllocate? && NamedModels(env.catalog) ==> NamedDecisions(s.modelDecisions))
        && (node.SkillsLoad? || node.ApprovalGate? || node.HumanFeedback? ==> Assigned(env, s))
  }

  /** A verdict, if there was one, says whether every assignment has a model. */
  ghost predicate Settled(env: Env, s: State) {
    && Assigned(env, s)
    && (s.verification.Some? ==> (s.verification.value.passed <==> !MissingModels(s.assignments)))
    && (s.revisionCount > 0 ==> MissingModels(s.assignments))
  }

  // ----- One step of a wired run -----------------------------------------------------------------

  lemma EarlyStep(env: Env, node: Node, s: State, inp: Input)
    requires WiredInvariant(env, At(node, s))
    requires node.Intake? || node.Profile? || node.TemplateSelect? || node.TeamDesign?
    ensures WiredInvariant(env, Advance(env, node, s, inp))
  {
    hide RouteNode, ToolsAllocateNode, SkillsLoadNode;
    match node
    case Intake => case Profile => case TemplateSelect => case TeamDesign =>
  }

  lemma RouteStep(env: Env, s: State, inp: Input)
    requires WiredInvariant(env, At(ModelRoute, s))
    ensures WiredInvariant(env, Advance(env, ModelRoute, s, inp))
  {
    hide ModelRouteNode;
    if RouteNode(env, s).Ok? {
      RoutedModelsAreNamed(env, s);
    }
  }

  lemma AllocateStep(env: Env, s: State, inp: Input)
    requires WiredInvariant(env, At(ToolsAllocate, s))
    ensures WiredInvariant(env, Advance(env, ToolsAllocate, s, inp))
  {
    if ToolsAllocateNode(env, s).Ok? {
      AssignKeepsModels(env, s.roles, s.modelDecisions);
    }
  }

  lemma SkillsAndGateStep(env: Env, node: Node, s: State, inp: Input)
    requires WiredInvariant(env, At(node, s)) && (node.SkillsLoad? || node.ApprovalGate?)
    ensures WiredInvariant(env, Advance(env, node, s, inp))
  {
    match node
    case SkillsLoad =>
      if SkillsLoadNode(env, s).Ok? {
        var t := SkillsLoadNode(env, s).value;
        assert forall i :: 0 <= i < |t.assignments| ==> t.assignments[i].model == s.assignments[i].model;
      }
    case ApprovalGate =>
  }

  lemma FeedbackStep(env: Env, s: State, inp: Input)
    requires Assigned(env, s) && s.specialistResults == [] && s.revisionCount == 0 && s.verification == None
    ensures WiredInvariant(env, Advance(env, HumanFeedback, s, inp))
  {
  }

  lemma {:induction false} RunGroupMembers(assignments: seq<Assignment>, group: seq<string>)
    ensures forall r :: r in RunGroup(assignments, group) ==> r.toolsUsed == [] && r.roleId in group
    ensures (exists a :: a in assignments && a.roleId in group) ==> RunGroup(assignments, group) != []
  {
    if assignments != [] {
      RunGroupMembers(assignments[1..], group);
    }
  }

  lemma PlanGroupIsStepIds(assignments: seq<Assignment>)
    ensures |DefaultPlan(assignments).parallelGroups| == 1
    ensures forall id :: id in DefaultPlan(assignments).parallelGroups[0] <==> IsStepId(|assignments|, id)
  {
    var group := DefaultPlan(assignments).parallelGroups[0];
    forall id ensures id in group <==> IsStepId(|assignments|, id) {
      if IsStepId(|assignments|, id) {
        var i :| 1 <= i <= |assignments| && id == StepId(i);
        assert group[i - 1] == id;
      }
      if id in group {
        var k :| 0 <= k < |group| && group[k] == id;
        assert id == StepId(k + 1);
      }
    }
  }

  lemma {:induction false} NoToolsNoCalls(results: seq<SpecialistResult>)
    requires forall r :: r in results ==> r.toolsUsed == []
    ensures ExtractToolCalls(results) == []
  {
    if results != [] {
      NoToolsNoCalls(results[1..]);
    }
  }

  lemma SpecialistsStep(env: Env, s: State, inp: Input)
    requires WiredInvariant(env, At(Specialists, s))
    ensures WiredInvariant(env, Advance(env, Specialists, s, inp))
  {
    var groups := DefaultPlan(s.assignments).parallelGroups;
    PlanGroupIsStepIds(s.assignments);
    RunGroupMembers(s.assignments, groups[0]);
    assert groups == [groups[0]];
    assert RunGroups(s.assignments, groups) == RunGroup(s.assignments, groups[0]) + [];
  }

  lemma OtherWorkStep(env: Env, node: Node, s: State, inp: Input)
    requires WiredInvariant(env, At(node, s)) && (node.Planner? || node.ToolExecutor? || node.Aggregate?)
    ensures WiredInvariant(env, Advance(env, node, s, inp))
  {
    if node.ToolExecutor? {
      NoToolsNoCalls(s.specialistResults);
    }
  }

  lemma BasicCheckPasses(assignments: seq<Assignment>, output: Option<OutputStatus>)
    requires assignments != [] && (output == Some(NoResults) || output == Some(Success))
    ensures VerifyBasic(assignments, output).passed <==> !MissingModels(assignments)
  {
    if MissingModels(assignments) {
      assert MissingModel in VerifyBasic(assignments, output).issues;
    }
  }

  lemma WiredVerifierStep(env: Env, s: State, inp: Input)
    requires WiredInvariant(env, At(Verifier, s)) && inp.verdict == None
    ensures WiredInvariant(env, Advance(env, Verifier, s, inp))
  {
    hide VerifyBasic;
    BasicCheckPasses(s.assignments, s.aggregatedOutput);
  }

  lemma WiredStep(env: Env, m: Machine, inp: Input)
    requires WiredInvariant(env, m) && Invariant(env, m) && inp.verdict == None
    ensures WiredInvariant(env, Step(env, m, inp))
  {
    hide Advance;
    match m
    case At(node, s) =>
      if node.Intake? || node.Profile? || node.TemplateSelect? || node.TeamDesign? { EarlyStep(env, node, s, inp); }
      else if node.ModelRoute? { RouteStep(env, s, inp); }
      else if node.ToolsAllocate? { AllocateStep(env, s, inp); }
      else if node.SkillsLoad? || node.ApprovalGate? { SkillsAndGateStep(env, node, s, inp); }
      else if node.HumanFeedback? { if s.request.mode != Approval { FeedbackStep(env, s, inp); } }
      else if node.Specialists? { SpecialistsStep(env, s, inp); }
      else if node.Verifier? { WiredVerifierStep(env, s, inp); }
      else if node.Finalizer? { WiredFinalizerStep(env, s, inp); }
      else { OtherWorkStep(env, node, s, inp); }
    case Waiting(s) => FeedbackStep(env, s, inp);
    case Done(_) =>
    case Thrown(_, _, _) =>
  }

  lemma WiredFinalizerStep(env: Env, s: State, inp: Input)
    requires WiredInvariant(env, At(Finalizer, s))
    ensures WiredInvariant(env, Advance(env, Finalizer, s, inp))
  {
  }

  lemma {:induction false} WiredRunKeeps(env: Env, m: Machine, inputs: nat -> Input, n: nat)
    requires Bounds(env) && Wired(inputs) && WiredInvariant(env, m) && Invariant(env, m)
    ensures WiredInvariant(env, Run(env, m, inputs, n)) && Invariant(env, Run(env, m, inputs, n))
    decreases n
  {
    hide Step, Invariant, WiredInvariant;
    if n > 0 {
      WiredRunKeeps(env, m, inputs, n - 1);
      assert inputs(n - 1).verdict == None;
      var p := Run(env, m, inputs, n - 1);
      StepKeepsInvariant(env, p, inputs(n - 1));
      WiredStep(env, p, inputs(n - 1));
    }
  }

  // ----- Outcomes of wired runs -------------------------------------------------------------------

  lemma WiredFromStart(env: Env, request: Request, template: seq<RoleBlueprint>, inputs: nat -> Input, n: nat)
    requires Bounds(env) && Wired(inputs)
    ensures WiredInvariant(env, Run(env, Start(request, template), inputs, n))
    ensures Invariant(env, Run(env, Start(request, template), inputs, n))
  {
    StartIsInvariant(env, request, template);
    WiredRunKeeps(env, Start(request, template), inputs, n);
  }

  /** Every wired run from non-empty catalog ids that gets past preparation finishes completed
      with zero revisions, whatever the roles and tools, unless approval was rejected; and it
      never throws from the planner on. */
  lemma WiredRunsComplete(env: Env, request: Request, template: seq<RoleBlueprint>, inputs: nat -> Input, n: nat)
    requires Bounds(env) && Wired(inputs) && NamedModels(env.catalog)
    ensures var m := Run(env, Start(request, template), inputs, n);
      && (m.Thrown? ==> !InLoop(m.node) && m.node != Finalizer)
      && (m.Done? ==> m.state.revisionCount == 0)
      && (m.Done? ==> (m.state.status == Completed <==> LastVerdict(m.state.events) == Some(true)))
      && (m.Done? && m.state.status != Completed ==>
            ApprovalRejected in m.state.events && forall e :: e in m.state.events ==> !IsWork(e))
  {
    hide Run, Start;
    WiredFromStart(env, request, template, inputs, n);
  }

  /** For any catalog: a wired run that reaches a verdict is completed if and only if every
      assignment has a model; the revisions are then none, and otherwise all that are allowed. */
  lemma WiredRunsExactly(env: Env, request: Request, template: seq<RoleBlueprint>, inputs: nat -> Input, n: nat)
    requires Bounds(env) && Wired(inputs)
    ensures var m := Run(env, Start(request, template), inputs, n);
      m.Done? && LastVerdict(m.state.events).Some? ==>
        && (m.state.status == Completed <==> !MissingModels(m.state.assignments))
        && m.state.revisionCount == (if MissingModels(m.state.assignments) then env.routerBound else 0)
  {
    hide Run, Start;
    WiredFromStart(env, request, template, inputs, n);
  }
}
