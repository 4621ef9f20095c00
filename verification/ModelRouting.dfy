/** Model routing: hard filters, weighted score, stable sort, and the diversity repair that
    moves a role to a fallback model when all roles got the same one. */
module ModelRouting {
  import opened Wrappers
  import opened StableSort

  datatype ModelProfile = ModelProfile(
    id: string, quality: real, toolReliability: real, capabilityFit: real, latencyReliability: real,
    supportsTools: bool, supportsStructuredOutput: bool, maxContextTokens: int, languages: seq<string>)

  datatype RoleBlueprint = RoleBlueprint(id: string, name: string, objective: string, requiredCapabilities: seq<string>)

  datatype Scored = Scored(model: ModelProfile, score: real)

  datatype Candidate = Candidate(model: string, score: real)

  datatype ModelDecision = ModelDecision(roleId: string, selectedModel: string, score: real,
                                         candidates: seq<Candidate>, fallbackChain: seq<string>)

  datatype RoutingError = NoRoles | NoCandidates(roleId: string) | NotDiverse

  const MINIMUM_UNIQUE := 2

  // ----- Routing one role ----------------------------------------------------------------

  function ScoreModel(m: ModelProfile): real {
    m.quality * 0.65 + m.toolReliability * 0.2 + m.capabilityFit * 0.1 + m.latencyReliability * 0.05
  }

  predicate PassesFilters(role: RoleBlueprint, highComplexity: bool, m: ModelProfile) {
    && ("tool-calling" in role.requiredCapabilities ==> m.supportsTools)
    && m.supportsStructuredOutput
    && m.maxContextTokens >= (if highComplexity then 16384 else 8192)
    && "en" in m.languages
  }

  function Eligible(role: RoleBlueprint, highComplexity: bool, catalog: seq<ModelProfile>): seq<ModelProfile> {
    Filter(catalog, (m: ModelProfile) => PassesFilters(role, highComplexity, m))
  }

  function ScoreAll(models: seq<ModelProfile>): seq<Scored> {
    seq(|models|, i requires 0 <= i < |models| => Scored(models[i], ScoreModel(models[i])))
  }

  function ScoreKey(s: Scored): real { s.score }

  function CandidatesOf(sorted: seq<Scored>): seq<Candidate> {
    seq(|sorted|, i requires 0 <= i < |sorted| => Candidate(sorted[i].model.id, sorted[i].score))
  }

  function IdsOf(sorted: seq<Scored>): seq<string> {
    seq(|sorted|, i requires 0 <= i < |sorted| => sorted[i].model.id)
  }

  function RouteRoleModel(role: RoleBlueprint, highComplexity: bool, catalog: seq<ModelProfile>)
    : Result<ModelDecision, RoutingError>
  {
    var eligible := Eligible(role, highComplexity, catalog);
    if eligible == [] then Err(NoCandidates(role.id))
    else
      var sorted := SortDescending(ScoreAll(eligible), ScoreKey);
      SortPermutes(ScoreAll(eligible), ScoreKey);
      Ok(ModelDecision(role.id, sorted[0].model.id, sorted[0].score, CandidatesOf(sorted),
                       IdsOf(sorted[1..if |sorted| < 4 then |sorted| else 4])))
  }

  /** A decision as routing leaves it: candidates in descending score, the best selected, the
      next three as fallbacks. */
  ghost predicate Routed(d: ModelDecision) {
    && |d.candidates| >= 1
    && d.selectedModel == d.candidates[0].model && d.score == d.candidates[0].score
    && (forall i, j :: 0 <= i < j < |d.candidates| ==> d.candidates[i].score >= d.candidates[j].score)
    && |d.fallbackChain| == (if |d.candidates| < 4 then |d.candidates| else 4) - 1
    && (forall i :: 0 <= i < |d.fallbackChain| ==> d.fallbackChain[i] == d.candidates[i + 1].model)
  }

  lemma SortedByScore(eligible: seq<ModelProfile>)
    ensures var sorted := SortDescending(ScoreAll(eligible), ScoreKey);
      && |sorted| == |eligible|
      && forall i, j :: 0 <= i < j < |sorted| ==> sorted[i].score >= sorted[j].score
  {
    var sorted := SortDescending(ScoreAll(eligible), ScoreKey);
    SortPermutes(ScoreAll(eligible), ScoreKey);
    SortIsDescending(ScoreAll(eligible), ScoreKey);
    assert forall i :: 0 <= i < |sorted| ==> ScoreKey(sorted[i]) == sorted[i].score;
  }

  lemma FirstIsEarliestBest(eligible: seq<ModelProfile>)
    requires eligible != []
    ensures var sorted := SortDescending(ScoreAll(eligible), ScoreKey);
      sorted != [] && EarliestBest(eligible, sorted[0].model.id, sorted[0].score)
  {
    var scored := ScoreAll(eligible);
    SortStartsWithEarliestMaximum(scored, ScoreKey);
    var i :| EarliestMaximumAt(scored, ScoreKey, i) && scored[i] == SortDescending(scored, ScoreKey)[0];
    assert forall j :: 0 <= j < |scored| ==> ScoreKey(scored[j]) == ScoreModel(eligible[j]);
    assert EarliestBestAt(eligible, i);
  }

  lemma RoutingFailsOnlyWithoutCandidates(role: RoleBlueprint, highComplexity: bool, catalog: seq<ModelProfile>)
    ensures RouteRoleModel(role, highComplexity, catalog).Err? <==>
              forall m :: m in catalog ==> !PassesFilters(role, highComplexity, m)
  {
    var eligible := Eligible(role, highComplexity, catalog);
    if eligible != [] {
      assert eligible[0] in eligible;
    }
  }

  /** The chosen model has the best score of all that pass the filters, and stands before
      every other one of that score in the catalog; and the decision is well formed. */
  lemma RoutingPicksBest(role: RoleBlueprint, highComplexity: bool, catalog: seq<ModelProfile>)
    requires RouteRoleModel(role, highComplexity, catalog).Ok?
    ensures var d := RouteRoleModel(role, highComplexity, catalog).value;
      var eligible := Eligible(role, highComplexity, catalog);
      && Routed(d) && d.roleId == role.id && |d.candidates| == |eligible|
      && EarliestBest(eligible, d.selectedModel, d.score)
  {
    var eligible := Eligible(role, highComplexity, catalog);
    SortedByScore(eligible);
    FirstIsEarliestBest(eligible);
  }

  ghost predicate EarliestBest(eligible: seq<ModelProfile>, id: string, score: real) {
    exists i :: EarliestBestAt(eligible, i) && eligible[i].id == id && ScoreModel(eligible[i]) == score
  }

  ghost predicate EarliestBestAt(eligible: seq<ModelProfile>, i: int) {
    && 0 <= i < |eligible|
    && (forall j :: 0 <= j < |eligible| ==> ScoreModel(eligible[j]) <= ScoreModel(eligible[i]))
    && (forall j :: 0 <= j < i ==> ScoreModel(eligible[j]) < ScoreModel(eligible[i]))
  }

  // ----- The diversity repair -------------------------------------------------------------

  function Models(ds: seq<ModelDecision>): set<string> {
    set d | d in ds :: d.selectedModel
  }

  /** `candidates.find(c => c.model === model)` */
  function FindCandidate(candidates: seq<Candidate>, model: string): Option<Candidate> {
    if candidates == [] then None
    else if candidates[0].model == model then Some(candidates[0])
    else FindCandidate(candidates[1..], model)
  }

  /** Moves the decision to its first fallback that is not in use and is a candidate. */
  function Repair(d: ModelDecision, chain: seq<string>, used: set<string>): ModelDecision
    decreases |chain|
  {
    if chain == [] then d
    else if chain[0] in used || FindCandidate(d.candidates, chain[0]) == None then Repair(d, chain[1..], used)
    else d.(selectedModel := chain[0], score := FindCandidate(d.candidates, chain[0]).value.score)
  }

  /** Repairs the decisions from `i` on, one after the other, until enough models are in use. */
  function RepairFrom(ds: seq<ModelDecision>, i: nat, minimumUnique: nat): seq<ModelDecision>
    requires i <= |ds|
    decreases |ds| - i
  {
    if i == |ds| || |Models(ds)| >= minimumUnique then ds
    else RepairFrom(ds[i := Repair(ds[i], ds[i].fallbackChain, Models(ds))], i + 1, minimumUnique)
  }

  method ApplyDiversityFallback(decisions: seq<ModelDecision>, minimumUnique: nat)
    returns (diversified: seq<ModelDecision>)
    ensures diversified == RepairFrom(decisions, 0, minimumUnique)
  {
    diversified := decisions;
    if |Models(diversified)| >= minimumUnique {
      return;
    }
    var i := 0;
    while i < |diversified|
      invariant 0 <= i <= |diversified|
      invariant RepairFrom(diversified, i, minimumUnique) == RepairFrom(decisions, 0, minimumUnique)
    {
      if |Models(diversified)| >= minimumUnique {
        break;
      }
      var decision := diversified[i];
      var k := 0;
      ghost var target := Repair(decision, decision.fallbackChain, Models(diversified));
      while k < |decision.fallbackChain|
        invariant 0 <= k <= |decision.fallbackChain|
        invariant target == Repair(decision, decision.fallbackChain[k..], Models(diversified))
      {
        var fallback := decision.fallbackChain[k];
        assert decision.fallbackChain[k..][0] == fallback
            && decision.fallbackChain[k..][1..] == decision.fallbackChain[k + 1..];
        if fallback !in Models(diversified) {
          var candidate := FindCandidate(decision.candidates, fallback);
          if candidate.Some? {
            decision := decision.(selectedModel := fallback, score := candidate.value.score);
            break;
          }
        }
        k := k + 1;
      }
      assert decision == target;
      diversified := diversified[i := decision];
      i := i + 1;
    }
  }

  function RouteAll(roles: seq<RoleBlueprint>, highComplexity: bool, catalog: seq<ModelProfile>)
    : Result<seq<ModelDecision>, RoutingError>
  {
    if roles == [] then Ok([])
    else match RouteRoleModel(roles[0], highComplexity, catalog)
      case Err(e) => Err(e)
      case Ok(d) =>
        match RouteAll(roles[1..], highComplexity, catalog)
        case Err(e) => Err(e)
        case Ok(ds) => Ok([d] + ds)
  }

  /** The whole node: route every role, repair, then insist on two models. */
  function ModelRouteNode(roles: seq<RoleBlueprint>, highComplexity: bool, catalog: seq<ModelProfile>)
    : Result<seq<ModelDecision>, RoutingError>
  {
    if roles == [] then Err(NoRoles)
    else match RouteAll(roles, highComplexity, catalog)
      case Err(e) => Err(e)
      case Ok(ds) =>
        var decisions := RepairFrom(ds, 0, MINIMUM_UNIQUE);
        if |Models(decisions)| < MINIMUM_UNIQUE then Err(NotDiverse) else Ok(decisions)
  }

  // ----- What the repair does -----------------------------------------------------------------

  ghost predicate AllRouted(ds: seq<ModelDecision>) {
    forall i :: 0 <= i < |ds| ==> Routed(ds[i])
  }

  /** Some fallback of the decision differs from its selected model. */
  ghost predicate HasAlternative(d: ModelDecision) {
    exists k :: 0 <= k < |d.fallbackChain| && d.fallbackChain[k] != d.selectedModel
  }

  ghost predicate SomeDiffer(ds: seq<ModelDecision>) {
    exists i, j :: 0 <= i < |ds| && 0 <= j < |ds| && ds[i].selectedModel != ds[j].selectedModel
  }

  lemma SetOfOne<T>(s: set<T>, x: T)
    requires x in s && forall y :: y in s ==> y == x
    ensures |s| == 1
  {
    assert s == {x};
  }

  lemma SetOfTwo<T>(s: set<T>, x: T, y: T)
    requires x in s && y in s && x != y
    ensures |s| >= 2
  {
    assert |s - {x}| == |s| - 1;
    assert y in s - {x};
  }

  lemma ModelsCount(ds: seq<ModelDecision>)
    ensures |Models(ds)| >= 2 <==> SomeDiffer(ds)
  {
    if SomeDiffer(ds) {
      var i, j :| 0 <= i < |ds| && 0 <= j < |ds| && ds[i].selectedModel != ds[j].selectedModel;
      assert ds[i] in ds && ds[j] in ds;
      SetOfTwo(Models(ds), ds[i].selectedModel, ds[j].selectedModel);
    } else if ds != [] {
      assert ds[0] in ds;
      SetOfOne(Models(ds), ds[0].selectedModel);
    } else {
      assert Models(ds) == {};
    }
  }

  lemma {:induction false} FindCandidateFinds(candidates: seq<Candidate>, k: nat)
    requires k < |candidates|
    ensures FindCandidate(candidates, candidates[k].model).Some?
    ensures (forall j :: 0 <= j < k ==> candidates[j].model != candidates[k].model) ==>
              FindCandidate(candidates, candidates[k].model) == Some(candidates[k])
  {
    if candidates[0].model != candidates[k].model {
      FindCandidateFinds(candidates[1..], k - 1);
    }
  }

  /** The first fallback, from `from` on, that differs from the selected model. */
  function FirstOther(d: ModelDecision, from: nat): (k: nat)
    requires from <= |d.fallbackChain|
    ensures from <= k <= |d.fallbackChain|
    ensures k < |d.fallbackChain| ==> d.fallbackChain[k] != d.selectedModel
    ensures forall j :: from <= j < k ==> d.fallbackChain[j] == d.selectedModel
    decreases |d.fallbackChain| - from
  {
    if from == |d.fallbackChain| || d.fallbackChain[from] != d.selectedModel then from
    else FirstOther(d, from + 1)
  }

  /** The decision moved to its first fallback that differs, or left alone if there is none. */
  function Moved(d: ModelDecision): ModelDecision {
    var k := FirstOther(d, 0);
    if k == |d.fallbackChain| || FindCandidate(d.candidates, d.fallbackChain[k]) == None then d
    else d.(selectedModel := d.fallbackChain[k], score := FindCandidate(d.candidates, d.fallbackChain[k]).value.score)
  }

  lemma {:induction false} RepairSkips(d: ModelDecision, from: nat)
    requires Routed(d) && from <= FirstOther(d, 0)
    ensures Repair(d, d.fallbackChain[from..], {d.selectedModel}) == Moved(d)
    decreases |d.fallbackChain| - from
  {
    var chain, k := d.fallbackChain[from..], FirstOther(d, 0);
    if from < |d.fallbackChain| {
      assert chain[0] == d.fallbackChain[from] && chain[1..] == d.fallbackChain[from + 1..];
      FindCandidateFinds(d.candidates, from + 1);
      if from < k {
        RepairSkips(d, from + 1);
      }
    }
  }

  lemma RepairIsMove(d: ModelDecision)
    requires Routed(d)
    ensures Repair(d, d.fallbackChain, {d.selectedModel}) == Moved(d)
    ensures HasAlternative(d) <==> Moved(d).selectedModel != d.selectedModel
    ensures !HasAlternative(d) ==> Moved(d) == d
  {
    RepairSkips(d, 0);
    assert d.fallbackChain[0..] == d.fallbackChain;
    var k := FirstOther(d, 0);
    if k < |d.fallbackChain| {
      FindCandidateFinds(d.candidates, k + 1);
    }
  }

  /** The first decision, from `i` on, that has an alternative. */
  ghost function FirstMovable(ds: seq<ModelDecision>, i: nat): (k: nat)
    requires i <= |ds|
    ensures i <= k <= |ds|
    ensures k < |ds| ==> HasAlternative(ds[k])
    ensures forall j :: i <= j < k ==> !HasAlternative(ds[j])
    decreases |ds| - i
  {
    if i == |ds| || HasAlternative(ds[i]) then i else FirstMovable(ds, i + 1)
  }

  /** When all decisions agree, the repair moves the first one that can move, and only it. */
  lemma {:induction false} RepairMovesOne(ds: seq<ModelDecision>, i: nat)
    requires i < |ds| && AllRouted(ds) && !SomeDiffer(ds)
    ensures var k := FirstMovable(ds, i);
      RepairFrom(ds, i, 2) == if k == |ds| then ds else ds[k := Moved(ds[k])]
    decreases |ds| - i
  {
    ModelsCount(ds);
    assert ds[i] in ds;
    forall d | d in ds ensures d.selectedModel == ds[i].selectedModel {}
    assert Models(ds) == {ds[i].selectedModel};
    RepairIsMove(ds[i]);
    var next := ds[i := Moved(ds[i])];
    if HasAlternative(ds[i]) {
      if |ds| > 1 {
        var other := if i == 0 then 1 else 0;
        assert next[other].selectedModel != next[i].selectedModel;
        ModelsCount(next);
      }
    } else {
      assert next == ds;
      if i + 1 < |ds| {
        RepairMovesOne(ds, i + 1);
      }
    }
  }

  /** At most one decision changes, only when all agreed, and then to its first alternative. */
  lemma RepairIsMinimal(ds: seq<ModelDecision>)
    requires ds != [] && AllRouted(ds)
    ensures var r := RepairFrom(ds, 0, MINIMUM_UNIQUE);
      var k := FirstMovable(ds, 0);
      r == if SomeDiffer(ds) || k == |ds| then ds else ds[k := Moved(ds[k])]
  {
    ModelsCount(ds);
    if !SomeDiffer(ds) {
      RepairMovesOne(ds, 0);
    }
  }

  /** The repaired decisions use two models if and only if there are two roles and either
      two best models differ or some role has an alternative. */
  lemma DiversityExactly(ds: seq<ModelDecision>)
    requires ds != [] && AllRouted(ds)
    ensures |Models(RepairFrom(ds, 0, MINIMUM_UNIQUE))| >= MINIMUM_UNIQUE <==>
              |ds| >= 2 && (SomeDiffer(ds) || exists i :: 0 <= i < |ds| && HasAlternative(ds[i]))
  {
    RepairIsMinimal(ds);
    DiversityOfResult(ds, RepairFrom(ds, 0, MINIMUM_UNIQUE), FirstMovable(ds, 0));
  }

  lemma DiversityOfResult(ds: seq<ModelDecision>, r: seq<ModelDecision>, k: nat)
    requires ds != [] && AllRouted(ds) && k == FirstMovable(ds, 0)
    requires r == if SomeDiffer(ds) || k == |ds| then ds else ds[k := Moved(ds[k])]
    ensures |Models(r)| >= 2 <==>
              |ds| >= 2 && (SomeDiffer(ds) || exists i :: 0 <= i < |ds| && HasAlternative(ds[i]))
  {
    hide Models, Moved, AllRouted, HasAlternative;
    if SomeDiffer(ds) || k == |ds| {
      ModelsCount(ds);
    } else {
      MovingOneMakesTwo(ds, k);
    }
  }

  lemma MovingOneMakesTwo(ds: seq<ModelDecision>, k: nat)
    requires k < |ds| && AllRouted(ds) && !SomeDiffer(ds) && HasAlternative(ds[k])
    ensures |Models(ds[k := Moved(ds[k])])| >= 2 <==> |ds| >= 2
  {
    var r := ds[k := Moved(ds[k])];
    RepairIsMove(ds[k]);
    ModelsCount(r);
    if |ds| >= 2 {
      var other := if k == 0 then 1 else 0;
      assert r[other].selectedModel != r[k].selectedModel;
    }
  }

  // ----- With distinct catalog ids ----------------------------------------------------------------

  ghost predicate DistinctModels(catalog: seq<ModelProfile>) {
    forall i, j :: 0 <= i < j < |catalog| ==> catalog[i].id != catalog[j].id
  }

  ghost predicate DistinctCandidates(d: ModelDecision) {
    forall i, j :: 0 <= i < j < |d.candidates| ==> d.candidates[i].model != d.candidates[j].model
  }

  /** With distinct candidates an alternative is a second candidate, and moving takes the
      second best with its own score. */
  lemma MoveTakesSecondBest(d: ModelDecision)
    requires Routed(d) && DistinctCandidates(d)
    ensures HasAlternative(d) <==> |d.candidates| >= 2
    ensures |d.candidates| >= 2 ==>
              Moved(d) == d.(selectedModel := d.candidates[1].model, score := d.candidates[1].score)
  {
    if |d.candidates| >= 2 {
      assert d.fallbackChain[0] == d.candidates[1].model;
      assert FirstOther(d, 0) == 0;
      FindCandidateFinds(d.candidates, 1);
    }
  }

  ghost predicate DistinctScored(s: seq<Scored>) {
    forall i, j :: 0 <= i < j < |s| ==> s[i].model.id != s[j].model.id
  }

  lemma {:induction false} FilterKeepsDistinct(catalog: seq<ModelProfile>, p: ModelProfile -> bool)
    requires DistinctModels(catalog)
    ensures DistinctModels(Filter(catalog, p))
  {
    if catalog != [] {
      var rest := catalog[1..];
      assert forall i :: 0 <= i < |rest| ==> rest[i] == catalog[i + 1];
      FilterKeepsDistinct(rest, p);
      var r := Filter(rest, p);
      forall i | 0 <= i < |r| ensures r[i].id != catalog[0].id {
        assert r[i] in r && r[i] in rest;
      }
      var all := [catalog[0]] + r;
      assert forall i :: 0 < i < |all| ==> all[i] == r[i - 1];
    }
  }

  lemma {:induction false} InsertKeepsDistinct(x: Scored, s: seq<Scored>)
    requires DistinctScored(s) && forall y :: y in s ==> y.model.id != x.model.id
    ensures DistinctScored(Insert(x, s, ScoreKey))
    ensures forall y :: y in Insert(x, s, ScoreKey) <==> y == x || y in s
  {
    var r := Insert(x, s, ScoreKey);
    if s == [] || ScoreKey(s[0]) <= ScoreKey(x) {
      assert forall i :: 0 < i < |r| ==> r[i] == s[i - 1];
    } else {
      var rest := s[1..];
      assert forall i :: 0 <= i < |rest| ==> rest[i] == s[i + 1];
      InsertKeepsDistinct(x, rest);
      var t := Insert(x, rest, ScoreKey);
      assert r == [s[0]] + t;
      forall i | 0 <= i < |t| ensures t[i].model.id != s[0].model.id {
        assert t[i] in t;
      }
      assert forall i :: 0 < i < |r| ==> r[i] == t[i - 1];
    }
  }

  lemma {:induction false} SortKeepsDistinct(s: seq<Scored>)
    requires DistinctScored(s)
    ensures DistinctScored(SortDescending(s, ScoreKey))
    ensures forall y :: y in SortDescending(s, ScoreKey) <==> y in s
  {
    if s != [] {
      assert forall i :: 0 <= i < |s[1..]| ==> s[1..][i] == s[i + 1];
      SortKeepsDistinct(s[1..]);
      InsertKeepsDistinct(s[0], SortDescending(s[1..], ScoreKey));
    }
  }

  lemma DistinctCatalogDistinctCandidates(role: RoleBlueprint, highComplexity: bool, catalog: seq<ModelProfile>)
    requires DistinctModels(catalog) && RouteRoleModel(role, highComplexity, catalog).Ok?
    ensures DistinctCandidates(RouteRoleModel(role, highComplexity, catalog).value)
  {
    FilterKeepsDistinct(catalog, (m: ModelProfile) => PassesFilters(role, highComplexity, m));
    SortKeepsDistinct(ScoreAll(Eligible(role, highComplexity, catalog)));
  }

  lemma {:induction false} RouteAllRoutesEach(roles: seq<RoleBlueprint>, highComplexity: bool,
                                              catalog: seq<ModelProfile>)
    ensures RouteAll(roles, highComplexity, catalog).Ok? <==>
              forall i :: 0 <= i < |roles| ==> RouteRoleModel(roles[i], highComplexity, catalog).Ok?
    ensures RouteAll(roles, highComplexity, catalog).Ok? ==>
      var ds := RouteAll(roles, highComplexity, catalog).value;
      |ds| == |roles| && forall i :: 0 <= i < |roles| ==> Ok(ds[i]) == RouteRoleModel(roles[i], highComplexity, catalog)
  {
    if roles != [] {
      var rest := roles[1..];
      RouteAllRoutesEach(rest, highComplexity, catalog);
      assert forall i :: 0 <= i < |rest| ==> rest[i] == roles[i + 1];
      var first, others := RouteRoleModel(roles[0], highComplexity, catalog), RouteAll(rest, highComplexity, catalog);
      if first.Ok? && others.Ok? {
        var ds := [first.value] + others.value;
        assert RouteAll(roles, highComplexity, catalog) == Ok(ds);
        forall i | 0 <= i < |roles| ensures Ok(ds[i]) == RouteRoleModel(roles[i], highComplexity, catalog) {
          if i > 0 { assert ds[i] == others.value[i - 1] && roles[i] == rest[i - 1]; }
        }
      } else if first.Ok? {
        var i :| 0 <= i < |rest| && RouteRoleModel(rest[i], highComplexity, catalog).Err?;
        assert RouteRoleModel(roles[i + 1], highComplexity, catalog).Err?;
      }
    }
  }

  /** What role i gets on its own, and how many candidates it has. */
  ghost predicate BestOf(roles: seq<RoleBlueprint>, highComplexity: bool, catalog: seq<ModelProfile>,
                         ds: seq<ModelDecision>) {
    && |ds| == |roles|
    && forall i :: 0 <= i < |roles| ==>
         && Ok(ds[i]) == RouteRoleModel(roles[i], highComplexity, catalog)
         && Routed(ds[i]) && DistinctCandidates(ds[i])
         && |ds[i].candidates| == |Eligible(roles[i], highComplexity, catalog)|
  }

  lemma BestOfAll(roles: seq<RoleBlueprint>, highComplexity: bool, catalog: seq<ModelProfile>)
    requires DistinctModels(catalog) && RouteAll(roles, highComplexity, catalog).Ok?
    ensures BestOf(roles, highComplexity, catalog, RouteAll(roles, highComplexity, catalog).value)
  {
    RouteAllRoutesEach(roles, highComplexity, catalog);
    var ds := RouteAll(roles, highComplexity, catalog).value;
    forall i | 0 <= i < |roles|
      ensures Routed(ds[i]) && DistinctCandidates(ds[i])
           && |ds[i].candidates| == |Eligible(roles[i], highComplexity, catalog)|
    {
      RoutingPicksBest(roles[i], highComplexity, catalog);
      DistinctCatalogDistinctCandidates(roles[i], highComplexity, catalog);
    }
  }

  /** With distinct catalog ids and a candidate for every role, routing succeeds if and only if
      there are two roles and either two of them have different best models or some role has
      two candidates. */
  lemma RoutingSucceedsExactly(roles: seq<RoleBlueprint>, highComplexity: bool, catalog: seq<ModelProfile>)
    requires roles != [] && DistinctModels(catalog)
    requires forall i :: 0 <= i < |roles| ==> Eligible(roles[i], highComplexity, catalog) != []
    ensures RouteAll(roles, highComplexity, catalog).Ok?
    ensures ModelRouteNode(roles, highComplexity, catalog).Ok? <==>
      && |roles| >= 2
      && (SomeDiffer(RouteAll(roles, highComplexity, catalog).value)
          || exists i :: 0 <= i < |roles| && |Eligible(roles[i], highComplexity, catalog)| >= 2)
  {
    RouteAllRoutesEach(roles, highComplexity, catalog);
    BestOfAll(roles, highComplexity, catalog);
    var ds := RouteAll(roles, highComplexity, catalog).value;
    DiversityExactly(ds);
    forall i | 0 <= i < |ds| ensures HasAlternative(ds[i]) <==> |Eligible(roles[i], highComplexity, catalog)| >= 2 {
      MoveTakesSecondBest(ds[i]);
    }
  }

  // ----- Success in terms of roles and catalog alone ----------------------------------------------

  /** The k-th eligible model of role i is its best, the l-th of role j is its best, and they differ. */
  ghost predicate BestDifferAt(roles: seq<RoleBlueprint>, highComplexity: bool, catalog: seq<ModelProfile>,
                               i: int, j: int, k: int, l: int) {
    && 0 <= i < |roles| && 0 <= j < |roles|
    && EarliestBestAt(Eligible(roles[i], highComplexity, catalog), k)
    && EarliestBestAt(Eligible(roles[j], highComplexity, catalog), l)
    && Eligible(roles[i], highComplexity, catalog)[k].id != Eligible(roles[j], highComplexity, catalog)[l].id
  }

  /** There are two roles, every role has an eligible model, and two roles have different best ones
      or some role has two. */
  ghost predicate Routable(roles: seq<RoleBlueprint>, highComplexity: bool, catalog: seq<ModelProfile>) {
    && |roles| >= 2
    && (forall i :: 0 <= i < |roles| ==> Eligible(roles[i], highComplexity, catalog) != [])
    && ((exists i, j, k, l :: BestDifferAt(roles, highComplexity, catalog, i, j, k, l))
        || exists i :: 0 <= i < |roles| && |Eligible(roles[i], highComplexity, catalog)| >= 2)
  }

  /** A role's decision is for its earliest best eligible model, whichever that is. */
  lemma DecisionIsBest(role: RoleBlueprint, highComplexity: bool, catalog: seq<ModelProfile>, k: int)
    requires RouteRoleModel(role, highComplexity, catalog).Ok?
    requires EarliestBestAt(Eligible(role, highComplexity, catalog), k)
    ensures RouteRoleModel(role, highComplexity, catalog).value.selectedModel
         == Eligible(role, highComplexity, catalog)[k].id
  {
    RoutingPicksBest(role, highComplexity, catalog);
    hide RouteRoleModel, Eligible, Routed;
    var d, eligible := RouteRoleModel(role, highComplexity, catalog).value, Eligible(role, highComplexity, catalog);
    var i :| EarliestBestAt(eligible, i) && eligible[i].id == d.selectedModel;
    assert i == k;
  }

  lemma BestDifferExactly(roles: seq<RoleBlueprint>, highComplexity: bool, catalog: seq<ModelProfile>)
    requires RouteAll(roles, highComplexity, catalog).Ok?
    ensures SomeDiffer(RouteAll(roles, highComplexity, catalog).value) <==>
              exists i, j, k, l :: BestDifferAt(roles, highComplexity, catalog, i, j, k, l)
  {
    RouteAllRoutesEach(roles, highComplexity, catalog);
    var ds := RouteAll(roles, highComplexity, catalog).value;
    hide RouteAll, RouteRoleModel, Eligible, Routed, EarliestBestAt;
    if SomeDiffer(ds) {
      var i, j :| 0 <= i < |ds| && 0 <= j < |ds| && ds[i].selectedModel != ds[j].selectedModel;
      RoutingPicksBest(roles[i], highComplexity, catalog);
      RoutingPicksBest(roles[j], highComplexity, catalog);
      var k :| EarliestBestAt(Eligible(roles[i], highComplexity, catalog), k)
        && Eligible(roles[i], highComplexity, catalog)[k].id == ds[i].selectedModel;
      var l :| EarliestBestAt(Eligible(roles[j], highComplexity, catalog), l)
        && Eligible(roles[j], highComplexity, catalog)[l].id == ds[j].selectedModel;
      assert BestDifferAt(roles, highComplexity, catalog, i, j, k, l);
    }
    if i, j, k, l :| BestDifferAt(roles, highComplexity, catalog, i, j, k, l) {
      DecisionIsBest(roles[i], highComplexity, catalog, k);
      DecisionIsBest(roles[j], highComplexity, catalog, l);
      assert ds[i].selectedModel != ds[j].selectedModel;
    }
  }

  /** With distinct catalog ids, whether routing succeeds can be read off the roles and the catalog. */
  lemma RoutableExactly(roles: seq<RoleBlueprint>, highComplexity: bool, catalog: seq<ModelProfile>)
    requires DistinctModels(catalog)
    ensures ModelRouteNode(roles, highComplexity, catalog).Ok? <==> Routable(roles, highComplexity, catalog)
  {
    if roles != [] && forall i :: 0 <= i < |roles| ==> Eligible(roles[i], highComplexity, catalog) != [] {
      RoutingSucceedsExactly(roles, highComplexity, catalog);
      BestDifferExactly(roles, highComplexity, catalog);
    } else if roles != [] {
      var i :| 0 <= i < |roles| && Eligible(roles[i], highComplexity, catalog) == [];
      RouteAllRoutesEach(roles, highComplexity, catalog);
      assert RouteRoleModel(roles[i], highComplexity, catalog).Err?;
    }
  }

  /** Near-optimality: on success every role keeps its best candidate, except that when all
      best models agree the first role with two candidates gets its second best, with the
      matching score. */
  lemma RoutingIsNearOptimal(roles: seq<RoleBlueprint>, highComplexity: bool, catalog: seq<ModelProfile>)
    requires DistinctModels(catalog) && ModelRouteNode(roles, highComplexity, catalog).Ok?
    ensures RouteAll(roles, highComplexity, catalog).Ok?
    ensures var best := RouteAll(roles, highComplexity, catalog).value;
      var got := ModelRouteNode(roles, highComplexity, catalog).value;
      && |best| == |got| == |roles|
      && if SomeDiffer(best) then got == best
         else exists k :: 0 <= k < |roles| && SecondBestAt(best, got, k)
                && |Eligible(roles[k], highComplexity, catalog)| >= 2
                && forall i :: 0 <= i < k ==> |Eligible(roles[i], highComplexity, catalog)| == 1
  {
    BestOfAll(roles, highComplexity, catalog);
    hide RouteAll, RouteRoleModel, RepairFrom, Models, Eligible, Routed, DistinctCandidates;
    var best := RouteAll(roles, highComplexity, catalog).value;
    if SomeDiffer(best) {
      RepairIsMinimal(best);
    } else {
      RepairTakesSecondBest(best);
      hide SomeDiffer;
    }
  }

  /** Of well-formed decisions that all agree, a successful repair gives the first one with two
      candidates its second best. */
  lemma RepairTakesSecondBest(best: seq<ModelDecision>)
    requires best != [] && !SomeDiffer(best)
    requires forall i :: 0 <= i < |best| ==> Routed(best[i]) && DistinctCandidates(best[i])
    requires |Models(RepairFrom(best, 0, MINIMUM_UNIQUE))| >= MINIMUM_UNIQUE
    ensures var k := FirstMovable(best, 0);
      && SecondBestAt(best, RepairFrom(best, 0, MINIMUM_UNIQUE), k)
      && forall i :: 0 <= i < k ==> |best[i].candidates| == 1
  {
    RepairIsMinimal(best);
    DiversityExactly(best);
    var k := FirstMovable(best, 0);
    forall i | 0 <= i < |best|
      ensures |best[i].candidates| >= 1 && (HasAlternative(best[i]) <==> |best[i].candidates| >= 2)
    {
      MoveTakesSecondBest(best[i]);
    }
    hide RepairFrom, Models, Routed, DistinctCandidates, HasAlternative;
    MoveTakesSecondBest(best[k]);
  }

  /** `got` is `best` but for decision k, which has its second-best candidate. */
  ghost predicate SecondBestAt(best: seq<ModelDecision>, got: seq<ModelDecision>, k: int) {
    && 0 <= k < |best| && |best[k].candidates| >= 2
    && got == best[k := best[k].(selectedModel := best[k].candidates[1].model, score := best[k].candidates[1].score)]
  }
}
