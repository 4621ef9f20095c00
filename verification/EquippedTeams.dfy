/** The team a run works with: which model, tools and skills every assignment carries, from the
    routing through the allocation to the end of the run. */
module EquippedTeams {
  import opened Wrappers
  import opened ModelRouting
  import opened GraphNodes
  import opened ExecutionGraph
  import opened WiredOutcomes

  // ----- Allocation ------------------------------------------------------------------------------

  /** The k-th decision is the first for the role. */
  ghost predicate FirstFor(ds: seq<ModelDecision>, roleId: string, k: int) {
    0 <= k < |ds| && ds[k].roleId == roleId && forall j :: 0 <= j < k ==> ds[j].roleId != roleId
  }

  /** The assignment is the role's own, with the model its first decision selected. */
  ghost predicate Carries(env: Env, role: RoleBlueprint, ds: seq<ModelDecision>, skills: seq<string>, a: Assignment) {
    && a.roleId == role.id && a.agentId == role.id + "-agent"
    && a.tools == env.toolsFor(role) && a.skills == skills
    && exists k :: FirstFor(ds, role.id, k) && a.model == ds[k].selectedModel
  }

  ghost predicate Equipped(env: Env, roles: seq<RoleBlueprint>, ds: seq<ModelDecision>, skills: seq<string>,
                           assignments: seq<Assignment>) {
    |assignments| == |roles| && forall i :: 0 <= i < |roles| ==> Carries(env, roles[i], ds, skills, assignments[i])
  }

  lemma {:induction false} DecisionForIsFirst(ds: seq<ModelDecision>, roleId: string)
    requires DecisionFor(ds, roleId).Some?
    ensures exists k :: FirstFor(ds, roleId, k) && DecisionFor(ds, roleId) == Some(ds[k])
  {
    if ds[0].roleId == roleId {
      assert FirstFor(ds, roleId, 0);
    } else {
      DecisionForIsFirst(ds[1..], roleId);
      var k :| FirstFor(ds[1..], roleId, k) && DecisionFor(ds[1..], roleId) == Some(ds[1..][k]);
      forall j | 0 <= j < k + 1 ensures ds[j].roleId != roleId {
        if j > 0 { assert ds[j] == ds[1..][j - 1]; }
      }
      assert FirstFor(ds, roleId, k + 1);
    }
  }

  lemma {:induction false} AssignEquips(env: Env, roles: seq<RoleBlueprint>, ds: seq<ModelDecision>)
    requires Assign(env, roles, ds).Ok?
    ensures Equipped(env, roles, ds, [], Assign(env, roles, ds).value)
  {
    if roles != [] {
      DecisionForIsFirst(ds, roles[0].id);
      AssignEquips(env, roles[1..], ds);
      var all, rest := Assign(env, roles, ds).value, Assign(env, roles[1..], ds).value;
      assert Carries(env, roles[0], ds, [], all[0]);
      forall i | 0 <= i < |roles| ensures Carries(env, roles[i], ds, [], all[i]) {
        if i > 0 { assert all[i] == rest[i - 1] && roles[i] == roles[1..][i - 1]; }
      }
    }
  }

  // ----- Whole runs --------------------------------------------------------------------------------

  const FOUR_SKILLS := ["orchestrator-core", "planner-core", "verifier-core", "finalizer-core"]

  /** The design: the roles' assignments, without models, tools or skills. */
  ghost predicate Drafted(roles: seq<RoleBlueprint>, assignments: seq<Assignment>) {
    && |assignments| == |roles|
    && forall i :: 0 <= i < |roles| ==> assignments[i] == Assignment(roles[i].id, roles[i].id + "-agent", "", [], [])
  }

  /** How the team stands in front of a node. */
  ghost predicate Crewed(env: Env, request: Request, template: seq<RoleBlueprint>, node: Node, s: State) {
    && s.request == request
    && if node.Intake? || node.Profile? || node.TemplateSelect? then s.template == template
       else
         && s.roles == template
         && (node.TeamDesign? || node.ModelRoute? ||
               ModelRouteNode(template, request.highComplexity, env.catalog) == Ok(s.modelDecisions))
         && (node.ModelRoute? || node.ToolsAllocate? ==> Drafted(template, s.assignments))
         && (node.TeamDesign? || node.ModelRoute? || node.ToolsAllocate? ||
               Equipped(env, template, s.modelDecisions, if node.SkillsLoad? then [] else FOUR_SKILLS, s.assignments))
  }

  lemma NodeKeepsCrew(env: Env, request: Request, template: seq<RoleBlueprint>, node: Node, s: State, inp: Input)
    requires Crewed(env, request, template, node, s) && Apply(env, node, s, inp).Ok?
    ensures var t := Apply(env, node, s, inp).value;
      Crewed(env, request, template, if node == Finalizer then Finalizer else NextNode(env, node, t), t)
  {
    hide ModelRouteNode, Assign, Drafted, Equipped, DefaultPlan, RunGroups, ExtractToolCalls, VerifyBasic;
    hide GroupsOf, ValidRole, ParseApproval;
    if node == TeamDesign {
      DesignDrafts(s);
    } else if node == ToolsAllocate {
      AssignEquips(env, s.roles, s.modelDecisions);
    } else if node == SkillsLoad {
      SkillsEquip(env, s);
    }
  }

  lemma DesignDrafts(s: State)
    requires TeamDesignNode(s).Ok?
    ensures Drafted(s.roles, TeamDesignNode(s).value.assignments)
  {
  }

  lemma SkillsEquip(env: Env, s: State)
    requires SkillsLoadNode(env, s).Ok? && Equipped(env, s.roles, s.modelDecisions, [], s.assignments)
    ensures Equipped(env, s.roles, s.modelDecisions, FOUR_SKILLS, SkillsLoadNode(env, s).value.assignments)
  {
    var after := SkillsLoadNode(env, s).value.assignments;
    forall i | 0 <= i < |s.roles| ensures Carries(env, s.roles[i], s.modelDecisions, FOUR_SKILLS, after[i]) {
      assert Carries(env, s.roles[i], s.modelDecisions, [], s.assignments[i]);
    }
  }

  lemma StepKeepsCrew(env: Env, request: Request, template: seq<RoleBlueprint>, m: Machine, inp: Input)
    requires Crewed(env, request, template, NodeOf(m), m.state)
    ensures Crewed(env, request, template, NodeOf(Step(env, m, inp)), Step(env, m, inp).state)
  {
    if Apply(env, NodeOf(m), m.state, inp).Ok? {
      NodeKeepsCrew(env, request, template, NodeOf(m), m.state, inp);
    }
    hide Apply, NextNode, Crewed;
  }

  lemma StartIsCrewed(env: Env, request: Request, template: seq<RoleBlueprint>)
    ensures Crewed(env, request, template, NodeOf(Start(request, template)), Start(request, template).state)
  {
  }

  /** In every run the request stays, routing decides for the template, and from the allocation on
      every role has its own assignment, with the model its first decision selected, its tools and
      the four core skills. */
  lemma {:induction false} EveryTeamIsEquipped(env: Env, request: Request, template: seq<RoleBlueprint>,
                                               inputs: nat -> Input, n: nat)
    ensures var m := Run(env, Start(request, template), inputs, n);
      Crewed(env, request, template, NodeOf(m), m.state)
    decreases n
  {
    hide Step, Crewed, NodeOf, Start;
    if n > 0 {
      EveryTeamIsEquipped(env, request, template, inputs, n - 1);
      StepKeepsCrew(env, request, template, Run(env, Start(request, template), inputs, n - 1), inputs(n - 1));
    } else {
      StartIsCrewed(env, request, template);
    }
  }

  // ----- Roles with distinct ids ---------------------------------------------------------------------

  ghost predicate DistinctRoles(roles: seq<RoleBlueprint>) {
    forall i, j :: 0 <= i < j < |roles| ==> roles[i].id != roles[j].id
  }

  /** The node lies behind the allocation. */
  predicate Allocated(node: Node) {
    !(node.Intake? || node.Profile? || node.TemplateSelect? || node.TeamDesign? || node.ModelRoute?
      || node.ToolsAllocate?)
  }

  /** The model is the role's earliest best eligible one. */
  ghost predicate IsBestFor(role: RoleBlueprint, highComplexity: bool, catalog: seq<ModelProfile>, id: string) {
    exists l :: EarliestBestAt(Eligible(role, highComplexity, catalog), l)
      && Eligible(role, highComplexity, catalog)[l].id == id
  }

  /** Every role but the k-th has its best model. */
  ghost predicate BestButAt(roles: seq<RoleBlueprint>, highComplexity: bool, catalog: seq<ModelProfile>,
                            models: seq<string>, k: int)
  {
    && 0 <= k < |roles| == |models|
    && forall i :: 0 <= i < |roles| && i != k ==> IsBestFor(roles[i], highComplexity, catalog, models[i])
  }

  function ModelsOf(team: seq<Assignment>): seq<string> {
    seq(|team|, i requires 0 <= i < |team| => team[i].model)
  }

  function SelectedBy(ds: seq<ModelDecision>): seq<string> {
    seq(|ds|, i requires 0 <= i < |ds| => ds[i].selectedModel)
  }

  /** With distinct role ids, in every run from the allocation on: the i-th assignment carries the
      model of the i-th decision, the team uses at least two models, and over distinct catalog ids
      every role but at most one works with its best model. */
  lemma TeamUsesRoutedModels(env: Env, request: Request, template: seq<RoleBlueprint>, inputs: nat -> Input, n: nat)
    requires DistinctRoles(template)
    ensures var m := Run(env, Start(request, template), inputs, n);
      var routed := ModelRouteNode(template, request.highComplexity, env.catalog);
      var models := ModelsOf(m.state.assignments);
      Allocated(NodeOf(m)) ==>
        && routed.Ok? && models == SelectedBy(routed.value)
        && (exists i, j :: 0 <= i < j < |models| && models[i] != models[j])
        && (DistinctModels(env.catalog) ==>
              exists k :: BestButAt(template, request.highComplexity, env.catalog, models, k))
  {
    EveryTeamIsEquipped(env, request, template, inputs, n);
    var m := Run(env, Start(request, template), inputs, n);
    hide Run, Start, ModelRouteNode, BestButAt, Carries;
    if Allocated(NodeOf(m)) {
      var skills := if NodeOf(m).SkillsLoad? then [] else FOUR_SKILLS;
      TwoModelsInUse(template, request.highComplexity, env.catalog);
      EquippedAsSelected(env, template, request.highComplexity, skills, m.state.assignments);
      if DistinctModels(env.catalog) {
        AllButOneBest(template, request.highComplexity, env.catalog);
      }
    }
  }

  /** With one decision per role, each in its place, the team has the selected models. */
  lemma EquippedAsSelected(env: Env, roles: seq<RoleBlueprint>, highComplexity: bool, skills: seq<string>,
                           team: seq<Assignment>)
    requires DistinctRoles(roles) && ModelRouteNode(roles, highComplexity, env.catalog).Ok?
    requires Equipped(env, roles, ModelRouteNode(roles, highComplexity, env.catalog).value, skills, team)
    ensures ModelsOf(team) == SelectedBy(ModelRouteNode(roles, highComplexity, env.catalog).value)
  {
    hide ModelRouteNode, Carries, WiredGraph.IsCatalogId;
    WiredGraph.DecisionsFromCatalog(roles, highComplexity, env.catalog);
    var ds := ModelRouteNode(roles, highComplexity, env.catalog).value;
    forall i | 0 <= i < |roles| ensures team[i].model == ds[i].selectedModel {
      CarriesOwn(env, roles, ds, skills, team[i], i);
    }
  }

  lemma CarriesOwn(env: Env, roles: seq<RoleBlueprint>, ds: seq<ModelDecision>, skills: seq<string>,
                   a: Assignment, i: nat)
    requires DistinctRoles(roles) && |ds| == |roles| && i < |roles|
    requires forall k :: 0 <= k < |ds| ==> ds[k].roleId == roles[k].id
    requires Carries(env, roles[i], ds, skills, a)
    ensures a.model == ds[i].selectedModel
  {
    var k :| FirstFor(ds, roles[i].id, k) && a.model == ds[k].selectedModel;
    assert k == i;
  }

  lemma TwoModelsInUse(roles: seq<RoleBlueprint>, highComplexity: bool, catalog: seq<ModelProfile>)
    requires ModelRouteNode(roles, highComplexity, catalog).Ok?
    ensures var models := SelectedBy(ModelRouteNode(roles, highComplexity, catalog).value);
      exists i, j :: 0 <= i < j < |models| && models[i] != models[j]
  {
    var ds := ModelRouteNode(roles, highComplexity, catalog).value;
    ModelsCount(ds);
    var i, j :| 0 <= i < |ds| && 0 <= j < |ds| && ds[i].selectedModel != ds[j].selectedModel;
    var models := SelectedBy(ds);
    assert models[i] != models[j] && (i < j || j < i);
  }

  /** Before the repair every role has its best model. */
  lemma RoutedApartIsBest(roles: seq<RoleBlueprint>, highComplexity: bool, catalog: seq<ModelProfile>)
    requires RouteAll(roles, highComplexity, catalog).Ok?
    ensures var best := RouteAll(roles, highComplexity, catalog).value;
      && |best| == |roles|
      && forall i :: 0 <= i < |roles| ==> IsBestFor(roles[i], highComplexity, catalog, best[i].selectedModel)
  {
    hide RouteAll, RouteRoleModel, Eligible, Routed, EarliestBestAt;
    RouteAllRoutesEach(roles, highComplexity, catalog);
    var best := RouteAll(roles, highComplexity, catalog).value;
    forall i | 0 <= i < |roles| ensures IsBestFor(roles[i], highComplexity, catalog, best[i].selectedModel) {
      RoutingPicksBest(roles[i], highComplexity, catalog);
    }
  }

  lemma AllButOneBest(roles: seq<RoleBlueprint>, highComplexity: bool, catalog: seq<ModelProfile>)
    requires DistinctModels(catalog) && ModelRouteNode(roles, highComplexity, catalog).Ok?
    ensures var models := SelectedBy(ModelRouteNode(roles, highComplexity, catalog).value);
      exists k :: BestButAt(roles, highComplexity, catalog, models, k)
  {
    hide ModelRouteNode, RouteAll, RouteRoleModel, Eligible, IsBestFor, SomeDiffer, DistinctModels;
    RoutingIsNearOptimal(roles, highComplexity, catalog);
    RoutedApartIsBest(roles, highComplexity, catalog);
    TwoModelsInUse(roles, highComplexity, catalog);
    var best := RouteAll(roles, highComplexity, catalog).value;
    var ds := ModelRouteNode(roles, highComplexity, catalog).value;
    if ds == best {
      assert BestButAt(roles, highComplexity, catalog, SelectedBy(ds), 0);
    } else {
      var k :| 0 <= k < |roles| && SecondBestAt(best, ds, k);
      assert BestButAt(roles, highComplexity, catalog, SelectedBy(ds), k);
    }
  }
}
