/** What the filters and the score of model routing mean for every decision, after sorting and
    repair: in the properties of the catalog models and the weights themselves. */
module SuitableModels {
  import opened Wrappers
  import opened StableSort
  import opened ModelRouting

  /** The model can take a role that needs tools, or not, with that many tokens of context. */
  ghost predicate Serves(m: ModelProfile, needsTools: bool, tokens: int) {
    && m.supportsStructuredOutput && "en" in m.languages
    && m.maxContextTokens >= tokens
    && (needsTools ==> m.supportsTools)
  }

  ghost predicate NeedsTools(role: RoleBlueprint) {
    exists i :: 0 <= i < |role.requiredCapabilities| && role.requiredCapabilities[i] == "tool-calling"
  }

  ghost function TokensFor(highComplexity: bool): int {
    if highComplexity then 16 * 1024 else 8 * 1024
  }

  /** The score in percent: mostly quality. */
  ghost function Percent(m: ModelProfile): real {
    65.0 * m.quality + 20.0 * m.toolReliability + 10.0 * m.capabilityFit + 5.0 * m.latencyReliability
  }

  /** Some catalog model of that id serves the role, with that score. */
  ghost predicate NamesSuitable(role: RoleBlueprint, highComplexity: bool, catalog: seq<ModelProfile>,
                                id: string, score: real)
  {
    exists m :: m in catalog && Serves(m, NeedsTools(role), TokensFor(highComplexity))
      && m.id == id && Percent(m) == 100.0 * score
  }

  /** A role's candidates are exactly the catalog models that can serve it, with their weighted
      scores, and no other. */
  lemma CandidatesExactly(role: RoleBlueprint, highComplexity: bool, catalog: seq<ModelProfile>)
    requires RouteRoleModel(role, highComplexity, catalog).Ok?
    ensures var d := RouteRoleModel(role, highComplexity, catalog).value;
      && (forall c :: c in d.candidates <==> NamesSuitable(role, highComplexity, catalog, c.model, c.score))
  {
    var scored := ScoreAll(Eligible(role, highComplexity, catalog));
    var sorted := SortDescending(scored, ScoreKey);
    var d := RouteRoleModel(role, highComplexity, catalog).value;
    forall c ensures c in d.candidates <==> NamesSuitable(role, highComplexity, catalog, c.model, c.score) {
      if c in d.candidates {
        var k :| 0 <= k < |d.candidates| && d.candidates[k] == c;
        SortMembers(scored, ScoreKey, sorted[k]);
        EligibleServes(role, highComplexity, catalog, sorted[k].model);
      }
      if NamesSuitable(role, highComplexity, catalog, c.model, c.score) {
        var m :| m in catalog && Serves(m, NeedsTools(role), TokensFor(highComplexity))
          && m.id == c.model && Percent(m) == 100.0 * c.score;
        EligibleServes(role, highComplexity, catalog, m);
        var k :| 0 <= k < |scored| && scored[k].model == m;
        assert scored[k] == Scored(m, c.score) && scored[k] in scored;
        SortMembers(scored, ScoreKey, scored[k]);
        var l :| 0 <= l < |sorted| && sorted[l] == scored[k];
        assert d.candidates[l] == c;
      }
    }
  }

  lemma EligibleServes(role: RoleBlueprint, highComplexity: bool, catalog: seq<ModelProfile>, m: ModelProfile)
    ensures m in Eligible(role, highComplexity, catalog) <==>
              m in catalog && Serves(m, NeedsTools(role), TokensFor(highComplexity))
    ensures Percent(m) == 100.0 * ScoreModel(m)
    ensures m in Eligible(role, highComplexity, catalog) ==>
              exists k :: 0 <= k < |ScoreAll(Eligible(role, highComplexity, catalog))|
                && ScoreAll(Eligible(role, highComplexity, catalog))[k] == Scored(m, ScoreModel(m))
    ensures forall x :: x in ScoreAll(Eligible(role, highComplexity, catalog)) ==>
              x.model in Eligible(role, highComplexity, catalog) && x.score == ScoreModel(x.model)
  {
    var eligible := Eligible(role, highComplexity, catalog);
    if m in eligible {
      var k :| 0 <= k < |eligible| && eligible[k] == m;
      assert ScoreAll(eligible)[k] == Scored(m, ScoreModel(m));
    }
    assert NeedsTools(role) <==> "tool-calling" in role.requiredCapabilities;
  }

  /** The decision is for the role; its model and its fallbacks are candidates, the model with its
      own score; and the candidates are the suitable models of the catalog. */
  ghost predicate Suits(role: RoleBlueprint, highComplexity: bool, catalog: seq<ModelProfile>, d: ModelDecision) {
    && d.roleId == role.id
    && Candidate(d.selectedModel, d.score) in d.candidates
    && (forall id :: id in d.fallbackChain ==> exists c :: c in d.candidates && c.model == id)
    && (forall c :: c in d.candidates <==> NamesSuitable(role, highComplexity, catalog, c.model, c.score))
  }

  /** On its own a role gets a suitable model of the highest weighted score. */
  lemma RouteSuits(role: RoleBlueprint, highComplexity: bool, catalog: seq<ModelProfile>)
    requires RouteRoleModel(role, highComplexity, catalog).Ok?
    ensures var d := RouteRoleModel(role, highComplexity, catalog).value;
      && Routed(d) && Suits(role, highComplexity, catalog, d)
      && forall m :: m in catalog && Serves(m, NeedsTools(role), TokensFor(highComplexity)) ==>
           Percent(m) <= 100.0 * d.score
  {
    var d := RouteRoleModel(role, highComplexity, catalog).value;
    CandidatesExactly(role, highComplexity, catalog);
    RoutingPicksBest(role, highComplexity, catalog);
    forall m | m in catalog && Serves(m, NeedsTools(role), TokensFor(highComplexity))
      ensures Percent(m) <= 100.0 * d.score
    {
      EligibleServes(role, highComplexity, catalog, m);
      var eligible := Eligible(role, highComplexity, catalog);
      var k :| 0 <= k < |eligible| && eligible[k] == m;
    }
    hide NamesSuitable, RouteRoleModel, Eligible;
    assert d.candidates[0] == Candidate(d.selectedModel, d.score);
    forall id | id in d.fallbackChain ensures exists c :: c in d.candidates && c.model == id {
      var k :| 0 <= k < |d.fallbackChain| && d.fallbackChain[k] == id;
      assert d.candidates[k + 1].model == id;
    }
  }

  lemma {:induction false} FoundIsCandidate(candidates: seq<Candidate>, model: string)
    ensures match FindCandidate(candidates, model)
      case Some(c) => c in candidates && c.model == model
      case None => forall c :: c in candidates ==> c.model != model
  {
    if candidates != [] {
      FoundIsCandidate(candidates[1..], model);
    }
  }

  lemma MovedSuits(role: RoleBlueprint, highComplexity: bool, catalog: seq<ModelProfile>, d: ModelDecision)
    requires Suits(role, highComplexity, catalog, d)
    ensures Suits(role, highComplexity, catalog, Moved(d))
  {
    hide NamesSuitable;
    var k := FirstOther(d, 0);
    if k < |d.fallbackChain| {
      FoundIsCandidate(d.candidates, d.fallbackChain[k]);
    }
  }

  /** After sorting and repair, for every role: the selected model and each fallback name a model of
      the catalog that can serve the role, and every such model is among the role's candidates. */
  lemma EveryDecisionSuits(roles: seq<RoleBlueprint>, highComplexity: bool, catalog: seq<ModelProfile>)
    requires ModelRouteNode(roles, highComplexity, catalog).Ok?
    ensures var ds := ModelRouteNode(roles, highComplexity, catalog).value;
      |ds| == |roles| && forall i :: 0 <= i < |ds| ==> Suits(roles[i], highComplexity, catalog, ds[i])
  {
    var best := RouteAll(roles, highComplexity, catalog).value;
    RouteAllRoutesEach(roles, highComplexity, catalog);
    hide RouteAll, RouteRoleModel, RepairFrom, Models, Moved, Routed, Suits;
    forall i | 0 <= i < |roles|
      ensures Routed(best[i]) && Suits(roles[i], highComplexity, catalog, best[i])
      ensures Suits(roles[i], highComplexity, catalog, Moved(best[i]))
    {
      RouteSuits(roles[i], highComplexity, catalog);
      MovedSuits(roles[i], highComplexity, catalog, best[i]);
    }
    RepairIsMinimal(best);
  }

  /** The catalog has a model for the role. */
  ghost predicate HasSuitable(role: RoleBlueprint, highComplexity: bool, catalog: seq<ModelProfile>) {
    exists m :: m in catalog && Serves(m, NeedsTools(role), TokensFor(highComplexity))
  }

  /** Routing one role fails exactly when no model of the catalog can serve it. */
  lemma RouteFailsExactly(role: RoleBlueprint, highComplexity: bool, catalog: seq<ModelProfile>)
    ensures RouteRoleModel(role, highComplexity, catalog) == Err(NoCandidates(role.id)) <==>
              !HasSuitable(role, highComplexity, catalog)
    ensures RouteRoleModel(role, highComplexity, catalog).Ok? <==> HasSuitable(role, highComplexity, catalog)
  {
    var eligible := Eligible(role, highComplexity, catalog);
    if eligible != [] {
      assert eligible[0] in eligible;
      EligibleServes(role, highComplexity, catalog, eligible[0]);
    }
    if m :| m in catalog && Serves(m, NeedsTools(role), TokensFor(highComplexity)) {
      EligibleServes(role, highComplexity, catalog, m);
    }
  }

  /** The first role without a model is the one reported. */
  lemma {:induction false} RouteAllFailsExactly(roles: seq<RoleBlueprint>, highComplexity: bool,
                                                catalog: seq<ModelProfile>, k: nat)
    requires k <= |roles| && forall i :: 0 <= i < k ==> HasSuitable(roles[i], highComplexity, catalog)
    requires k < |roles| ==> !HasSuitable(roles[k], highComplexity, catalog)
    ensures if k == |roles| then RouteAll(roles, highComplexity, catalog).Ok?
            else RouteAll(roles, highComplexity, catalog) == Err(NoCandidates(roles[k].id))
  {
    hide RouteRoleModel, HasSuitable;
    if roles != [] {
      RouteFailsExactly(roles[0], highComplexity, catalog);
      if k > 0 {
        assert forall i :: 0 <= i < |roles[1..]| ==> roles[1..][i] == roles[i + 1];
        RouteAllFailsExactly(roles[1..], highComplexity, catalog, k - 1);
      }
    }
  }

  /** Which error the node reports: none for no roles; the first role that no model can serve; and
      too few models only when every role has one. */
  lemma RoutingErrorsExactly(roles: seq<RoleBlueprint>, highComplexity: bool, catalog: seq<ModelProfile>)
    ensures var r := ModelRouteNode(roles, highComplexity, catalog);
      && (r == Err(NoRoles) <==> roles == [])
      && (r == Err(NotDiverse) ==> forall i :: 0 <= i < |roles| ==> HasSuitable(roles[i], highComplexity, catalog))
      && (r.Ok? ==> forall i :: 0 <= i < |roles| ==> HasSuitable(roles[i], highComplexity, catalog))
      && var k := FirstUnserved(roles, highComplexity, catalog);
         k < |roles| ==> r == Err(NoCandidates(roles[k].id))
  {
    hide RouteAll, RepairFrom, Models, HasSuitable;
    var k := FirstUnserved(roles, highComplexity, catalog);
    RouteAllFailsExactly(roles, highComplexity, catalog, k);
  }

  ghost function FirstUnserved(roles: seq<RoleBlueprint>, highComplexity: bool, catalog: seq<ModelProfile>): (k: nat)
    ensures k <= |roles| && (k < |roles| ==> !HasSuitable(roles[k], highComplexity, catalog))
    ensures forall i :: 0 <= i < k ==> HasSuitable(roles[i], highComplexity, catalog)
  {
    if roles == [] || !HasSuitable(roles[0], highComplexity, catalog) then 0
    else
      assert forall i :: 0 <= i < |roles[1..]| ==> roles[1..][i] == roles[i + 1];
      1 + FirstUnserved(roles[1..], highComplexity, catalog)
  }

  // ----- Success in plain terms ---------------------------------------------------------------------

  ghost predicate ServesRole(catalog: seq<ModelProfile>, k: int, role: RoleBlueprint, highComplexity: bool) {
    0 <= k < |catalog| && Serves(catalog[k], NeedsTools(role), TokensFor(highComplexity))
  }

  /** Two models of the catalog serve some role each, perhaps the same one. */
  ghost predicate TwoModelsServe(roles: seq<RoleBlueprint>, highComplexity: bool, catalog: seq<ModelProfile>) {
    exists i, j, k, l :: 0 <= i < |roles| && 0 <= j < |roles| && k != l
      && ServesRole(catalog, k, roles[i], highComplexity) && ServesRole(catalog, l, roles[j], highComplexity)
  }

  /** Distinct members of the filtered catalog come from distinct places. */
  lemma TwoEligibleAreTwo(role: RoleBlueprint, highComplexity: bool, catalog: seq<ModelProfile>)
    requires DistinctModels(catalog)
    ensures var eligible := Eligible(role, highComplexity, catalog);
      |eligible| >= 2 <==> exists k, l :: k != l && ServesRole(catalog, k, role, highComplexity)
                             && ServesRole(catalog, l, role, highComplexity)
  {
    var eligible := Eligible(role, highComplexity, catalog);
    FilterKeepsDistinct(catalog, (m: ModelProfile) => PassesFilters(role, highComplexity, m));
    if |eligible| >= 2 {
      assert eligible[0] in eligible && eligible[1] in eligible;
      EligibleServes(role, highComplexity, catalog, eligible[0]);
      EligibleServes(role, highComplexity, catalog, eligible[1]);
      var k :| 0 <= k < |catalog| && catalog[k] == eligible[0];
      var l :| 0 <= l < |catalog| && catalog[l] == eligible[1];
      assert ServesRole(catalog, k, role, highComplexity) && ServesRole(catalog, l, role, highComplexity);
    }
    if k, l :| k != l && ServesRole(catalog, k, role, highComplexity) && ServesRole(catalog, l, role, highComplexity) {
      EligibleServes(role, highComplexity, catalog, catalog[k]);
      EligibleServes(role, highComplexity, catalog, catalog[l]);
      var i :| 0 <= i < |eligible| && eligible[i] == catalog[k];
      var j :| 0 <= j < |eligible| && eligible[j] == catalog[l];
      assert catalog[k].id != catalog[l].id;
    }
  }

  /** Where the only eligible models of two roles differ, so do their best ones. */
  lemma OnlyModelsDiffer(roles: seq<RoleBlueprint>, highComplexity: bool, catalog: seq<ModelProfile>,
                         i: nat, j: nat, k: int, l: int)
    requires DistinctModels(catalog) && i < |roles| && j < |roles| && k != l
    requires ServesRole(catalog, k, roles[i], highComplexity) && ServesRole(catalog, l, roles[j], highComplexity)
    requires |Eligible(roles[i], highComplexity, catalog)| < 2 && |Eligible(roles[j], highComplexity, catalog)| < 2
    ensures BestDifferAt(roles, highComplexity, catalog, i, j, 0, 0)
  {
    EligibleServes(roles[i], highComplexity, catalog, catalog[k]);
    EligibleServes(roles[j], highComplexity, catalog, catalog[l]);
    assert catalog[k].id != catalog[l].id;
    var a, b := Eligible(roles[i], highComplexity, catalog), Eligible(roles[j], highComplexity, catalog);
    assert |a| == 1 && |b| == 1;
    assert a[0] == catalog[k] && b[0] == catalog[l];
  }

  /** Over distinct catalog ids routing succeeds if and only if there are two roles, each can be served,
      and two models of the catalog serve some role each. */
  lemma RoutedInPlainTerms(roles: seq<RoleBlueprint>, highComplexity: bool, catalog: seq<ModelProfile>)
    requires DistinctModels(catalog)
    ensures ModelRouteNode(roles, highComplexity, catalog).Ok? <==>
      && |roles| >= 2
      && (forall i :: 0 <= i < |roles| ==> HasSuitable(roles[i], highComplexity, catalog))
      && TwoModelsServe(roles, highComplexity, catalog)
  {
    RoutableExactly(roles, highComplexity, catalog);
    forall i | 0 <= i < |roles|
      ensures Eligible(roles[i], highComplexity, catalog) != [] <==> HasSuitable(roles[i], highComplexity, catalog)
      ensures |Eligible(roles[i], highComplexity, catalog)| >= 2 <==>
                exists k, l :: k != l && ServesRole(catalog, k, roles[i], highComplexity)
                  && ServesRole(catalog, l, roles[i], highComplexity)
    {
      RouteFailsExactly(roles[i], highComplexity, catalog);
      TwoEligibleAreTwo(roles[i], highComplexity, catalog);
    }
    hide ModelRouteNode, HasSuitable, RouteRoleModel;
    if TwoModelsServe(roles, highComplexity, catalog) {
      var i, j, k, l :| 0 <= i < |roles| && 0 <= j < |roles| && k != l
        && ServesRole(catalog, k, roles[i], highComplexity) && ServesRole(catalog, l, roles[j], highComplexity);
      if |Eligible(roles[i], highComplexity, catalog)| < 2 && |Eligible(roles[j], highComplexity, catalog)| < 2 {
        OnlyModelsDiffer(roles, highComplexity, catalog, i, j, k, l);
      }
    }
    if i, j, k, l :| BestDifferAt(roles, highComplexity, catalog, i, j, k, l) {
      BestsServe(roles, highComplexity, catalog, i, j, k, l);
    }
  }

  lemma BestsServe(roles: seq<RoleBlueprint>, highComplexity: bool, catalog: seq<ModelProfile>,
                   i: int, j: int, k: int, l: int)
    requires BestDifferAt(roles, highComplexity, catalog, i, j, k, l)
    ensures TwoModelsServe(roles, highComplexity, catalog)
  {
    var a, b := Eligible(roles[i], highComplexity, catalog)[k], Eligible(roles[j], highComplexity, catalog)[l];
    EligibleServes(roles[i], highComplexity, catalog, a);
    EligibleServes(roles[j], highComplexity, catalog, b);
    var x :| 0 <= x < |catalog| && catalog[x] == a;
    var y :| 0 <= y < |catalog| && catalog[y] == b;
    assert ServesRole(catalog, x, roles[i], highComplexity) && ServesRole(catalog, y, roles[j], highComplexity);
  }
}
