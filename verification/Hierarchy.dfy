/** The orchestrator that keeps team objects in a map and updates their links in place.
    Every method is tied to the value view (`Snapshot`) of TeamForest and TeamMoves. */
module Hierarchy {
  import opened Wrappers
  import opened Sequences
  import opened TeamForest
  import opened TeamMoves
  import opened TeamWalks
  import opened StableSort

  datatype DelegationRule = DelegationRule(id: string, condition: string, targetTeamId: string, priority: real,
                                           enabled: bool)

  datatype Complexity = Low | Medium | High

  datatype Decision =
    | Stay
    | ByRule(rule: DelegationRule)
    | ToFirstChild(target: string)

  const DEFAULT_CONFIG := Config(3, 5)

  class HierarchicalTeam {
    const id: string
    var parentTeamId: string
    var childTeamIds: seq<string>
    var level: int
    var delegationRules: seq<DelegationRule>

    constructor (id: string, parentTeamId: string, childTeamIds: seq<string>, level: int, rules: seq<DelegationRule>)
      ensures this.id == id && this.parentTeamId == parentTeamId && this.childTeamIds == childTeamIds
      ensures this.level == level && delegationRules == rules
    {
      this.id, this.parentTeamId, this.childTeamIds := id, parentTeamId, childTeamIds;
      this.level, this.delegationRules := level, rules;
    }

    /** The links of the team, as a value. */
    ghost function Links(): Team
      reads this
    {
      Team(parentTeamId, childTeamIds, level)
    }
  }

  ghost function Ids(teams: seq<HierarchicalTeam>): (ids: seq<string>)
    ensures |ids| == |teams| && forall i :: 0 <= i < |teams| ==> ids[i] == teams[i].id
  {
    seq(|teams|, i requires 0 <= i < |teams| => teams[i].id)
  }

  predicate IsEnabled(r: DelegationRule) { r.enabled }

  function Priority(r: DelegationRule): real { r.priority }

  /** The enabled rules whose condition holds of the task, in the order they were added. */
  function LiveRules(rules: seq<DelegationRule>, matches: DelegationRule -> bool): seq<DelegationRule> {
    Filter(Filter(rules, IsEnabled), matches)
  }

  /** The rule applies to the task. */
  ghost predicate IsLive(rule: DelegationRule, matches: DelegationRule -> bool) {
    rule.enabled && matches(rule)
  }

  /** The i-th rule is live, no live one has a higher priority, and none before it the same. */
  ghost predicate ChosenAt(rules: seq<DelegationRule>, matches: DelegationRule -> bool, i: int) {
    && 0 <= i < |rules| && IsLive(rules[i], matches)
    && (forall j :: 0 <= j < |rules| && IsLive(rules[j], matches) ==> rules[j].priority <= rules[i].priority)
    && (forall j :: 0 <= j < i && IsLive(rules[j], matches) ==> rules[j].priority < rules[i].priority)
  }

  /** The first match of the priority-sorted scan is the earliest live rule of highest priority. */
  lemma FirstMatchIsBest(rules: seq<DelegationRule>, matches: DelegationRule -> bool, i: nat)
    requires var sorted := SortDescending(Filter(rules, IsEnabled), Priority);
      i < |sorted| && matches(sorted[i]) && forall j :: 0 <= j < i ==> !matches(sorted[j])
    ensures var sorted := SortDescending(Filter(rules, IsEnabled), Priority);
      exists k :: ChosenAt(rules, matches, k) && rules[k] == sorted[i]
  {
    var sorted := SortDescending(Filter(rules, IsEnabled), Priority);
    var live := LiveRules(rules, matches);
    FirstOfFilter(sorted, matches, i);
    SortCommutesWithFilter(Filter(rules, IsEnabled), matches, Priority);
    assert SortDescending(live, Priority)[0] == sorted[i];
    SortStartsWithEarliestMaximum(live, Priority);
    hide SortDescending, EarliestMaximumAt;
    var l :| EarliestMaximumAt(live, Priority, l) && live[l] == sorted[i];
    LiveMaximumIsChosen(rules, matches, l);
  }

  lemma LiveMaximumIsChosen(rules: seq<DelegationRule>, matches: DelegationRule -> bool, l: int)
    requires EarliestMaximumAt(LiveRules(rules, matches), Priority, l)
    ensures exists k :: ChosenAt(rules, matches, k) && rules[k] == LiveRules(rules, matches)[l]
  {
    var both := (r: DelegationRule) => r.enabled && matches(r);
    FilterTwice(rules, IsEnabled, matches, both);
    FilterKeepsEarliest(rules, both, Priority, l);
    var k :| EarliestPassing(rules, both, Priority, k) && rules[k] == LiveRules(rules, matches)[l];
    hide Filter;
    assert forall j :: 0 <= j < |rules| ==> (both(rules[j]) <==> IsLive(rules[j], matches));
    assert forall j :: 0 <= j < |rules| ==> Priority(rules[j]) == rules[j].priority;
    assert ChosenAt(rules, matches, k);
  }

  lemma NoMatchNoLiveRule(rules: seq<DelegationRule>, matches: DelegationRule -> bool)
    requires forall r :: r in SortDescending(Filter(rules, IsEnabled), Priority) ==> !matches(r)
    ensures forall r :: r in rules ==> !IsLive(r, matches)
  {
    forall r | r in rules ensures !IsLive(r, matches) {
      SortMembers(Filter(rules, IsEnabled), Priority, r);
    }
  }

  class HierarchicalOrchestrator {
    const config: Config
    const enableDelegation: bool
    var teamHierarchy: map<string, HierarchicalTeam>

    constructor (config: Config, enableDelegation: bool)
      ensures Valid() && Snapshot() == map[] && teamHierarchy == map[]
      ensures this.config == config && this.enableDelegation == enableDelegation
    {
      this.config, this.enableDelegation := config, enableDelegation;
      teamHierarchy := map[];
    }

    /** Every team is stored under its own id, so no object is stored twice. */
    ghost predicate Valid()
      reads this
    {
      forall id :: id in teamHierarchy ==> teamHierarchy[id].id == id
    }

    ghost function Snapshot(): Forest
      reads this, teamHierarchy.Values
    {
      map id | id in teamHierarchy :: teamHierarchy[id].Links()
    }

    method RegisterTeam(team: HierarchicalTeam) returns (r: Result<(), HierarchyError>)
      requires Valid()
      modifies this, teamHierarchy.Values
      ensures Valid()
      ensures var same := team.id in old(teamHierarchy) && old(teamHierarchy)[team.id] == team;
        match Register(config, old(Snapshot()), team.id, old(team.Links()), same)
        case Ok(f) => r.Ok? && Snapshot() == f && teamHierarchy == old(teamHierarchy)[team.id := team]
        case Err(e) => r == Err(e) && Snapshot() == old(Snapshot()) && teamHierarchy == old(teamHierarchy)
      ensures forall t: HierarchicalTeam :: t in old(teamHierarchy.Values) ==>
        t.delegationRules == old(t.delegationRules)
    {
      if team.level > config.maxLevels {
        return Err(LevelTooHigh);
      }
      var parent: HierarchicalTeam? := null;
      if team.parentTeamId != "" && team.parentTeamId in teamHierarchy {
        parent := teamHierarchy[team.parentTeamId];
      }
      if team.parentTeamId != "" && parent == null {
        return Err(ParentNotFound);
      }
      if parent != null && |parent.childTeamIds| >= config.maxChildren {
        return Err(ParentFull);
      }
      teamHierarchy := teamHierarchy[team.id := team];
      if parent != null {
        parent.childTeamIds := parent.childTeamIds + [team.id];
      }
      r := Ok(());
    }

    method SetParentChildRelationship(parentId: string, childId: string) returns (r: Result<(), HierarchyError>)
      requires Valid()
      modifies teamHierarchy.Values
      ensures Valid() && teamHierarchy == old(teamHierarchy)
      ensures match Reparent(config, old(Snapshot()), parentId, childId)
        case Ok(f) => r.Ok? && Snapshot() == f
        case Err(e) => r == Err(e) && Snapshot() == old(Snapshot())
      ensures forall t: HierarchicalTeam :: t in teamHierarchy.Values ==> t.delegationRules == old(t.delegationRules)
    {
      if parentId !in teamHierarchy { return Err(ParentNotFound); }
      if childId !in teamHierarchy { return Err(ChildNotFound); }
      var parent, child := teamHierarchy[parentId], teamHierarchy[childId];
      if |parent.childTeamIds| >= config.maxChildren {
        return Err(ParentFull);
      }
      RemoveFromOldParent(child);
      AppendToNewParent(parent, child);
      r := Ok(());
    }

    /** First half of the move: the old parent, if there is one, drops the child. */
    method RemoveFromOldParent(child: HierarchicalTeam)
      requires Valid() && child in teamHierarchy.Values
      modifies teamHierarchy.Values`childTeamIds
      ensures child.id in old(Snapshot()) && Snapshot() == Detach(old(Snapshot()), child.id)
    {
      if child.parentTeamId != "" {
        if child.parentTeamId in teamHierarchy {
          var oldParent := teamHierarchy[child.parentTeamId];
          oldParent.childTeamIds := Without(oldParent.childTeamIds, child.id);
        }
      }
    }

    /** Second half of the move. */
    method AppendToNewParent(parent: HierarchicalTeam, child: HierarchicalTeam)
      requires Valid() && child in teamHierarchy.Values && parent in teamHierarchy.Values
      modifies parent`childTeamIds, child`parentTeamId, child`level
      ensures parent.id in old(Snapshot()) && child.id in old(Snapshot())
      ensures Snapshot() == Adopt(old(Snapshot()), parent.id, child.id)
    {
      child.parentTeamId := parent.id;
      child.level := parent.level + 1;
      parent.childTeamIds := parent.childTeamIds + [child.id];
    }

    /** The condition language of the rules is abstracted to `matches`. */
    method EvaluateDelegation(complexity: Complexity, teamId: string, matches: DelegationRule -> bool)
      returns (d: Decision)
      requires Valid()
      ensures !enableDelegation || teamId !in teamHierarchy || teamHierarchy[teamId].childTeamIds == [] ==> d == Stay
      ensures enableDelegation && teamId in teamHierarchy && teamHierarchy[teamId].childTeamIds != [] ==>
        var team := teamHierarchy[teamId];
        if exists r :: r in team.delegationRules && IsLive(r, matches) then
          exists k :: ChosenAt(team.delegationRules, matches, k) && d == ByRule(team.delegationRules[k])
        else d == if complexity == High then ToFirstChild(team.childTeamIds[0]) else Stay
    {
      if !enableDelegation { return Stay; }
      if teamId !in teamHierarchy { return Stay; }
      var team := teamHierarchy[teamId];
      if |team.childTeamIds| == 0 { return Stay; }
      var rules := SortDescending(Filter(team.delegationRules, IsEnabled), Priority);
      for i := 0 to |rules|
        invariant forall j :: 0 <= j < i ==> !matches(rules[j])
      {
        if matches(rules[i]) {
          FirstMatchIsBest(team.delegationRules, matches, i);
          hide SortDescending, Filter;
          return ByRule(rules[i]);
        }
      }
      NoMatchNoLiveRule(team.delegationRules, matches);
      if complexity == High {
        return ToFirstChild(team.childTeamIds[0]);
      }
      d := Stay;
    }

    /** The upward walk: from the team to the root, each team put in front of the path.  It is called
        where the walk stops; elsewhere the loop does not end. */
    method GetTeamPath(teamId: string) returns (path: seq<HierarchicalTeam>)
      requires Valid()
      requires teamId in teamHierarchy ==> WalkStops(Snapshot(), teamId)
      ensures forall t :: t in path ==> t in teamHierarchy.Values
      ensures teamId !in teamHierarchy ==> path == []
      ensures teamId in teamHierarchy ==> Ids(path) == RootPath(Snapshot(), teamId)
      ensures teamId in teamHierarchy && IsForest(Snapshot()) ==> Ids(path) == Path(Snapshot(), teamId)
    {
      ghost var f := Snapshot();
      path := [];
      var current: HierarchicalTeam? := if teamId in teamHierarchy then teamHierarchy[teamId] else null;
      assert Ids(path) == [];
      while current != null
        invariant forall t :: t in path ==> t in teamHierarchy.Values
        invariant teamId !in teamHierarchy ==> current == null && path == []
        invariant current != null ==> current in teamHierarchy.Values && current.id in f && WalkStops(f, current.id)
        invariant current != null ==> RootPath(f, teamId) == RootPath(f, current.id) + Ids(path)
        invariant teamId in teamHierarchy && current == null ==> RootPath(f, teamId) == Ids(path)
        decreases if current == null then 0 else 1 + |RootPath(f, current.id)|
      {
        RootPathUnfold(f, current.id);
        assert Ids([current] + path) == [current.id] + Ids(path);
        assert f[current.id].parent == current.parentTeamId;
        path := [current] + path;
        current := if current.parentTeamId != "" && current.parentTeamId in teamHierarchy
          then teamHierarchy[current.parentTeamId] else null;
      }
      if teamId in teamHierarchy && IsForest(f) {
        ForestWalkStops(f, teamId);
      }
    }

    /** The downward walk: breadth first through a queue of ids.  It is called where the queue runs
        empty; elsewhere the loop does not end. */
    method GetDescendants(teamId: string) returns (descendants: seq<HierarchicalTeam>)
      requires Valid()
      requires teamId in teamHierarchy ==> QueueEmpties(Snapshot(), Snapshot()[teamId].children)
      ensures forall t :: t in descendants ==> t in teamHierarchy.Values
      ensures teamId !in teamHierarchy ==> descendants == []
      ensures teamId in teamHierarchy ==> Ids(descendants) == Walked(Snapshot(), Snapshot()[teamId].children)
      ensures teamId in teamHierarchy && IsForest(Snapshot()) ==> Ids(descendants) == Descendants(Snapshot(), teamId)
    {
      if teamId !in teamHierarchy { return []; }
      var team := teamHierarchy[teamId];
      ghost var f := Snapshot();
      descendants := [];
      var queue := team.childTeamIds;
      ghost var rounds: nat :| QueueAfter(f, queue, rounds) == [];
      ghost var whole := Delivered(f, queue, rounds);
      WalkedIn(f, queue, rounds);
      ghost var left := rounds;
      while |queue| > 0
        invariant forall t :: t in descendants ==> t in teamHierarchy.Values
        invariant QueueAfter(f, queue, left) == [] && Ids(descendants) + Delivered(f, queue, left) == whole
        decreases left
      {
        ghost var before := queue;
        var childId := queue[0];
        queue := queue[1..];
        if childId in teamHierarchy {
          var child := teamHierarchy[childId];
          assert Ids(descendants + [child]) == Ids(descendants) + [childId];
          assert Ids(descendants) + ([childId] + Delivered(f, QueueNext(f, before), left - 1))
              == (Ids(descendants) + [childId]) + Delivered(f, QueueNext(f, before), left - 1);
          descendants := descendants + [child];
          queue := queue + child.childTeamIds;
        } else {
          assert queue + [] == queue;
          assert [] + Delivered(f, QueueNext(f, before), left - 1) == Delivered(f, QueueNext(f, before), left - 1);
        }
        assert queue == QueueNext(f, before);
        left := left - 1;
      }
      assert Ids(descendants) + [] == Ids(descendants);
      if IsForest(f) {
        ForestQueueEmpties(f, teamId);
      }
    }
  }

  /** With the default limits a team at level 0 has at most 5 + 25 + 125 descendants. */
  lemma DefaultLimits(f: Forest, t: string)
    requires IsForest(f) && Bounded(f, DEFAULT_CONFIG.maxChildren) && t in f && f[t].level == 0
    requires LevelsAgree(f) && LevelsWithin(f, DEFAULT_CONFIG.maxLevels)
    ensures |Descendants(f, t)| <= 155
  {
    LevelsBoundDescendants(DEFAULT_CONFIG, f, t);
    assert Power(5, 1) == 5 && Power(5, 2) == 25 && Power(5, 3) == 125;
    assert GeometricSum(5, 3) == 155;
  }
}
