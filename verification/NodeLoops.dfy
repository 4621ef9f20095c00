/** The loops inside the graph's nodes, each proved against the function the graph model uses. */
module NodeLoops {
  import opened Wrappers
  import opened Sequences
  import opened StableSort
  import opened ModelRouting
  import opened GraphNodes

  // ----- Specialists and their tool calls ------------------------------------------------------

  lemma {:induction false} RunGroupsConcat(assignments: seq<Assignment>, a: seq<seq<string>>, b: seq<seq<string>>)
    ensures RunGroups(assignments, a + b) == RunGroups(assignments, a) + RunGroups(assignments, b)
    decreases |a|
  {
    if a == [] {
      assert a + b == b;
    } else {
      assert (a + b)[1..] == a[1..] + b;
      RunGroupsConcat(assignments, a[1..], b);
    }
  }

  /** The groups one after the other; within a group the results keep the order of the
      assignments, whatever order they are computed in. */
  method ExecuteSpecialistsInParallel(s: State) returns (allResults: seq<SpecialistResult>)
    ensures allResults == RunGroups(s.assignments, GroupsOf(s))
  {
    var parallelGroups := GroupsOf(s);
    allResults := [];
    for i := 0 to |parallelGroups|
      invariant allResults == RunGroups(s.assignments, parallelGroups[..i])
    {
      assert parallelGroups[..i + 1] == parallelGroups[..i] + [parallelGroups[i]];
      RunGroupsConcat(s.assignments, parallelGroups[..i], [parallelGroups[i]]);
      var groupResults := RunGroup(s.assignments, parallelGroups[i]);
      assert RunGroups(s.assignments, [parallelGroups[i]]) == groupResults + [];
      allResults := allResults + groupResults;
    }
    assert parallelGroups[..|parallelGroups|] == parallelGroups;
  }

  lemma {:induction false} ExtractConcat(a: seq<SpecialistResult>, b: seq<SpecialistResult>)
    ensures ExtractToolCalls(a + b) == ExtractToolCalls(a) + ExtractToolCalls(b)
  {
    if a == [] {
      assert a + b == b;
    } else {
      assert (a + b)[1..] == a[1..] + b;
      ExtractConcat(a[1..], b);
    }
  }

  method CollectToolCalls(specialistResults: seq<SpecialistResult>) returns (calls: seq<ToolCall>)
    ensures calls == ExtractToolCalls(specialistResults)
  {
    calls := [];
    for i := 0 to |specialistResults|
      invariant calls == ExtractToolCalls(specialistResults[..i])
    {
      var result := specialistResults[i];
      ghost var before := calls;
      for k := 0 to |result.toolsUsed|
        invariant calls == before + CallsOf(result.roleId, result.toolsUsed[..k])
      {
        assert CallsOf(result.roleId, result.toolsUsed[..k + 1])
            == CallsOf(result.roleId, result.toolsUsed[..k]) + [ToolCall(result.roleId, result.toolsUsed[k])];
        calls := calls + [ToolCall(result.roleId, result.toolsUsed[k])];
      }
      assert result.toolsUsed[..|result.toolsUsed|] == result.toolsUsed;
      assert specialistResults[..i + 1] == specialistResults[..i] + [result];
      ExtractConcat(specialistResults[..i], [result]);
      assert ExtractToolCalls([result]) == CallsOf(result.roleId, result.toolsUsed) + [];
    }
    assert specialistResults[..|specialistResults|] == specialistResults;
  }

  /** A failing tool is recorded and does not stop the others. */
  method ExecuteTools(toolCalls: seq<ToolCall>, succeeds: ToolCall -> bool) returns (results: seq<ToolResult>)
    ensures |results| == |toolCalls|
    ensures forall i :: 0 <= i < |toolCalls| ==> results[i] == ToolResult(toolCalls[i], succeeds(toolCalls[i]))
  {
    results := [];
    for i := 0 to |toolCalls|
      invariant |results| == i
      invariant forall j :: 0 <= j < i ==> results[j] == ToolResult(toolCalls[j], succeeds(toolCalls[j]))
    {
      results := results + [ToolResult(toolCalls[i], succeeds(toolCalls[i]))];
    }
  }

  /** The tool-executor node put together from its two loops. */
  method RunToolExecutor(env: Env, s: State) returns (t: State)
    ensures ToolExecutorNode(env, s) == Ok(t)
  {
    if s.specialistResults == [] {
      return Log(s, ToolsSkipped);
    }
    var toolCalls := CollectToolCalls(s.specialistResults);
    if toolCalls == [] {
      return Log(s, ToolsNone);
    }
    var results := ExecuteTools(toolCalls, env.toolSucceeds);
    assert results == seq(|toolCalls|, i requires 0 <= i < |toolCalls| =>
      ToolResult(toolCalls[i], env.toolSucceeds(toolCalls[i])));
    t := Log(s.(toolExecutionResults := s.toolExecutionResults + results), ToolsCompleted);
  }

  // ----- The basic check ---------------------------------------------------------------------------

  method CheckOutput(assignments: seq<Assignment>, output: Option<OutputStatus>) returns (v: Verification)
    ensures v == VerifyBasic(assignments, output)
    ensures v.passed <==> (assignments != [] && (forall a :: a in assignments ==> a.model != "")
                           && output.Some? && output != Some(FailedOutput) && output != Some(ErrorOutput))
  {
    var issues := [];
    if |assignments| == 0 {
      issues := issues + [NoAssignments];
    }
    if exists i :: 0 <= i < |assignments| && assignments[i].model == "" {
      issues := issues + [MissingModel];
    }
    if output == None {
      issues := issues + [NoOutput];
    }
    if output == Some(FailedOutput) || output == Some(ErrorOutput) {
      issues := issues + [OutputFailed];
    }
    v := Verification(issues == [], issues);
  }

  // ----- Tools for a role ----------------------------------------------------------------------------

  predicate FileTool(tool: string) {
    Includes(tool, "filesystem") || Includes(tool, "file")
  }

  predicate CodeTool(role: RoleBlueprint, tool: string) {
    "code-generation" in role.requiredCapabilities && (Includes(tool, "code") || Includes(tool, "git"))
  }

  predicate DataTool(role: RoleBlueprint, tool: string) {
    "data-analysis" in role.requiredCapabilities && (Includes(tool, "database") || Includes(tool, "sql"))
  }

  predicate SearchTool(role: RoleBlueprint, tool: string) {
    "research" in role.requiredCapabilities && (Includes(tool, "search") || Includes(tool, "web"))
  }

  /** How often the loop pushes the tool for the role. */
  function Pushes(role: RoleBlueprint, tool: string): nat {
    (if FileTool(tool) then 1 else 0) + (if CodeTool(role, tool) then 1 else 0)
    + (if DataTool(role, tool) then 1 else 0) + (if SearchTool(role, tool) then 1 else 0)
  }

  /** `[...new Set(s)]`: each element at its first place. */
  function Deduplicate(s: seq<string>): (r: seq<string>)
    ensures NoDuplicates(r) && forall x :: x in r <==> x in s
  {
    if s == [] then []
    else
      var front, last := Deduplicate(s[..|s| - 1]), s[|s| - 1];
      assert s == s[..|s| - 1] + [last];
      if last in front then front
      else
        NoDuplicatesConcat(front, [last]);
        front + [last]
  }

  function Suitable(role: RoleBlueprint, tools: seq<string>): seq<string> {
    Filter(tools, (t: string) => Pushes(role, t) > 0)
  }

  lemma {:induction false} DeduplicateKnown(s: seq<string>, x: string, n: nat)
    requires x in s
    ensures Deduplicate(s + Repeat(x, n)) == Deduplicate(s)
  {
    if n > 0 {
      DeduplicateKnown(s, x, n - 1);
      assert s + Repeat(x, n) == (s + Repeat(x, n - 1)) + [x];
      assert (s + Repeat(x, n))[..|s| + n - 1] == s + Repeat(x, n - 1);
    } else {
      assert s + Repeat(x, 0) == s;
    }
  }

  function Repeat(x: string, n: nat): (r: seq<string>)
    ensures |r| == n && forall i :: 0 <= i < n ==> r[i] == x
  {
    seq(n, i => x)
  }

  lemma DeduplicatePushed(s: seq<string>, x: string, n: nat)
    requires n > 0
    ensures Deduplicate(s + Repeat(x, n)) == if x in s then Deduplicate(s) else Deduplicate(s) + [x]
  {
    assert s + Repeat(x, n) == (s + [x]) + Repeat(x, n - 1);
    DeduplicateKnown(s + [x], x, n - 1);
    assert (s + [x])[..|s|] == s;
  }

  lemma {:induction false} FilterConcat(a: seq<string>, b: seq<string>, p: string -> bool)
    ensures Filter(a + b, p) == Filter(a, p) + Filter(b, p)
  {
    if a == [] {
      assert a + b == b;
    } else {
      assert (a + b)[0] == a[0] && (a + b)[1..] == a[1..] + b;
      FilterConcat(a[1..], b, p);
      assert [a[0]] + (Filter(a[1..], p) + Filter(b, p)) == ([a[0]] + Filter(a[1..], p)) + Filter(b, p);
    }
  }

  /** The role gets the tools that suit it, each once, in catalog order; all tools if none does. */
  method AllocateToolsForRole(role: RoleBlueprint, availableTools: seq<string>) returns (tools: seq<string>)
    ensures tools == if Suitable(role, availableTools) == [] then availableTools
                     else Deduplicate(Suitable(role, availableTools))
  {
    var picked: seq<string> := [];
    for i := 0 to |availableTools|
      invariant Deduplicate(picked) == Deduplicate(Suitable(role, availableTools[..i]))
      invariant picked == [] <==> Suitable(role, availableTools[..i]) == []
    {
      var pushed := PushIfSuitable(role, availableTools[i]);
      AllocationStep(role, availableTools, i, picked);
      hide Deduplicate, Suitable, Repeat, Pushes;
      picked := picked + pushed;
    }
    assert availableTools[..|availableTools|] == availableTools;
    if |picked| == 0 {
      return availableTools;
    }
    tools := Deduplicate(picked);
  }

  /** The four tests of the loop body; a tool that passes several is pushed several times. */
  method PushIfSuitable(role: RoleBlueprint, toolName: string) returns (pushed: seq<string>)
    ensures pushed == Repeat(toolName, Pushes(role, toolName))
  {
    hide FileTool, CodeTool, DataTool, SearchTool;
    pushed := if FileTool(toolName) then [toolName] else [];
    if CodeTool(role, toolName) {
      pushed := pushed + [toolName];
    }
    if DataTool(role, toolName) {
      pushed := pushed + [toolName];
    }
    if SearchTool(role, toolName) {
      pushed := pushed + [toolName];
    }
  }

  lemma AllocationStep(role: RoleBlueprint, tools: seq<string>, i: nat, before: seq<string>)
    requires i < |tools| && Deduplicate(before) == Deduplicate(Suitable(role, tools[..i]))
    requires before == [] <==> Suitable(role, tools[..i]) == []
    ensures var after := before + Repeat(tools[i], Pushes(role, tools[i]));
      && Deduplicate(after) == Deduplicate(Suitable(role, tools[..i + 1]))
      && (after == [] <==> Suitable(role, tools[..i + 1]) == [])
  {
    hide Pushes, Deduplicate;
    var x, suits := tools[i], (t: string) => Pushes(role, t) > 0;
    assert tools[..i + 1] == tools[..i] + [x];
    FilterConcat(tools[..i], [x], suits);
    var chosen := Suitable(role, tools[..i]);
    if Pushes(role, x) > 0 {
      assert Suitable(role, tools[..i + 1]) == chosen + Repeat(x, 1);
      DeduplicatePushed(before, x, Pushes(role, x));
      DeduplicatePushed(chosen, x, 1);
      assert x in before <==> x in Deduplicate(before);
      assert x in chosen <==> x in Deduplicate(chosen);
    } else {
      assert Suitable(role, tools[..i + 1]) == chosen + [] == chosen;
      assert before + Repeat(x, 0) == before;
    }
  }

  // ----- What is allocated ----------------------------------------------------------------------------

  /** Some kind of tool that the role may use: files always; code, data and search tools if the role
      needs the capability. */
  predicate Fits(role: RoleBlueprint, tool: string) {
    var needs := (capability: string) => capability in role.requiredCapabilities;
    || Includes(tool, "file")
    || (needs("code-generation") && (Includes(tool, "code") || Includes(tool, "git")))
    || (needs("data-analysis") && (Includes(tool, "database") || Includes(tool, "sql")))
    || (needs("research") && (Includes(tool, "search") || Includes(tool, "web")))
  }

  lemma PushedIfFits(role: RoleBlueprint, tool: string)
    ensures Pushes(role, tool) > 0 <==> Fits(role, tool)
  {
    if Includes(tool, "filesystem") {
      IncludesExactly(tool, "filesystem");
      var before, after :| tool == before + "filesystem" + after;
      assert tool == before + "file" + ("system" + after);
      IncludesExactly(tool, "file");
    }
    hide Includes;
  }

  lemma {:induction false} DeduplicateDistinct(s: seq<string>)
    requires NoDuplicates(s)
    ensures Deduplicate(s) == s
  {
    if s != [] {
      DeduplicateDistinct(s[..|s| - 1]);
      assert s == s[..|s| - 1] + [s[|s| - 1]];
    }
  }

  lemma {:induction false} FilterDistinct(s: seq<string>, p: string -> bool)
    requires NoDuplicates(s)
    ensures NoDuplicates(Filter(s, p))
  {
    if s != [] {
      FilterDistinct(s[1..], p);
      var r := Filter(s[1..], p);
      forall i | 0 <= i < |r| ensures r[i] != s[0] {
        assert r[i] in s[1..];
      }
    }
  }

  lemma {:induction false} SameFilter(s: seq<string>, p: string -> bool, q: string -> bool)
    requires forall x :: x in s ==> p(x) == q(x)
    ensures Filter(s, p) == Filter(s, q)
  {
    if s != [] {
      SameFilter(s[1..], p, q);
    }
  }

  /** Of a catalog of distinct names a role gets those that fit it, in catalog order, or all if none
      does. */
  lemma AllocatedExactly(role: RoleBlueprint, tools: seq<string>)
    requires NoDuplicates(tools)
    ensures var suitable := Suitable(role, tools);
      && (suitable == [] <==> forall t :: t in tools ==> !Fits(role, t))
      && Deduplicate(suitable) == Filter(tools, (t: string) => Fits(role, t))
  {
    var pushed := (t: string) => Pushes(role, t) > 0;
    forall t ensures Pushes(role, t) > 0 <==> Fits(role, t) {
      PushedIfFits(role, t);
    }
    FilterDistinct(tools, pushed);
    DeduplicateDistinct(Suitable(role, tools));
    SameFilter(tools, pushed, (t: string) => Fits(role, t));
    hide Pushes, Fits;
    var suitable := Suitable(role, tools);
    if suitable != [] {
      assert suitable[0] in suitable;
    }
  }
}
