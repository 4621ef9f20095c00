/** The default plan, the tool calls and the basic check, in terms of what goes into them. */
module WorkPlans {
  import opened Wrappers
  import opened GraphNodes

  // ----- Step ids -------------------------------------------------------------------------------------

  /** The number a row of decimal digits stands for. */
  ghost function ValueOf(digits: string): int {
    if digits == "" then 0 else 10 * ValueOf(digits[..|digits| - 1]) + (digits[|digits| - 1] as int - '0' as int)
  }

  lemma {:induction false} DecimalValue(n: nat)
    ensures ValueOf(Decimal(n)) == n
  {
    var d := Decimal(n);
    if n < 10 {
      assert d[..0] == "";
      assert ("0123456789")[n] as int == '0' as int + n;
    } else {
      DecimalValue(n / 10);
      assert d[..|d| - 1] == Decimal(n / 10);
      assert ("0123456789")[n % 10] as int == '0' as int + n % 10;
    }
  }

  lemma StepIdsDiffer(i: nat, j: nat)
    requires StepId(i) == StepId(j)
    ensures i == j
  {
    assert StepId(i)[5..] == Decimal(i) && StepId(j)[5..] == Decimal(j);
    DecimalValue(i);
    DecimalValue(j);
  }

  // ----- The default plan ------------------------------------------------------------------------------

  /** The default plan has one step per assignment, in order, for its role and with its tools; the step
      ids are distinct, and each step depends on the one before it and on nothing else. */
  lemma PlanIsChain(assignments: seq<Assignment>)
    ensures var steps := DefaultPlan(assignments).steps;
      && |steps| == |assignments|
      && (forall i :: 0 <= i < |steps| ==>
            && steps[i].roleId == assignments[i].roleId && steps[i].requiredTools == assignments[i].tools
            && (i == 0 ==> steps[i].dependencies == [])
            && (i > 0 ==> steps[i].dependencies == [steps[i - 1].id]))
      && (forall i, j :: 0 <= i < j < |steps| ==> steps[i].id != steps[j].id)
  {
    var steps := DefaultPlan(assignments).steps;
    forall i, j | 0 <= i < j < |steps| ensures steps[i].id != steps[j].id {
      if steps[i].id == steps[j].id { StepIdsDiffer(i + 1, j + 1); }
    }
  }

  // ----- Tool calls ---------------------------------------------------------------------------------------

  lemma {:induction false} CallsConcat(a: seq<SpecialistResult>, b: seq<SpecialistResult>)
    ensures ExtractToolCalls(a + b) == ExtractToolCalls(a) + ExtractToolCalls(b)
  {
    if a == [] {
      assert a + b == b;
    } else {
      assert (a + b)[1..] == a[1..] + b;
      CallsConcat(a[1..], b);
    }
  }

  lemma CallsOfOne(r: SpecialistResult)
    ensures ExtractToolCalls([r]) == CallsOf(r.roleId, r.toolsUsed)
  {
    assert [r][1..] == [];
  }

  /** Wherever a result stands, its calls stand together, each of its tools once for each time it is
      named, in that order, between those of the results before and after it. */
  lemma CallsInPlace(before: seq<SpecialistResult>, r: SpecialistResult, after: seq<SpecialistResult>, k: nat)
    requires k < |r.toolsUsed|
    ensures var calls, n := ExtractToolCalls(before + [r] + after), |ExtractToolCalls(before)|;
      && |calls| == n + |r.toolsUsed| + |ExtractToolCalls(after)|
      && calls[n + k] == ToolCall(r.roleId, r.toolsUsed[k])
  {
    CallsConcat(before + [r], after);
    CallsConcat(before, [r]);
    CallsOfOne(r);
    hide ExtractToolCalls;
    var mine := CallsOf(r.roleId, r.toolsUsed);
    assert |mine| == |r.toolsUsed| && mine[k] == ToolCall(r.roleId, r.toolsUsed[k]);
  }

  /** The tools step adds one result for each call, in order, completed exactly if the tool succeeds. */
  lemma ToolResultsExactly(env: Env, s: State, k: nat)
    requires ToolExecutorNode(env, s).Ok?
    ensures var calls, n := ExtractToolCalls(s.specialistResults), |s.toolExecutionResults|;
      var results := ToolExecutorNode(env, s).value.toolExecutionResults;
      && |results| == n + |calls|
      && (k < |calls| ==> results[n + k].call == calls[k] && (results[n + k].completed <==> env.toolSucceeds(calls[k])))
      && (k < n ==> results[k] == s.toolExecutionResults[k])
  {
  }

  // ----- The basic check ---------------------------------------------------------------------------------

  /** Each issue is raised for its reason, and the check passes exactly without any. */
  lemma IssuesExactly(assignments: seq<Assignment>, output: Option<OutputStatus>)
    ensures var v := VerifyBasic(assignments, output);
      && (NoAssignments in v.issues <==> |assignments| == 0)
      && (MissingModel in v.issues <==> exists a :: a in assignments && a.model == "")
      && (NoOutput in v.issues <==> output.None?)
      && (OutputFailed in v.issues <==> output in {Some(FailedOutput), Some(ErrorOutput)})
      && (v.passed <==> forall issue :: issue !in v.issues)
  {
    var v := VerifyBasic(assignments, output);
    if exists i :: 0 <= i < |assignments| && assignments[i].model == "" {
      var i :| 0 <= i < |assignments| && assignments[i].model == "";
      assert assignments[i] in assignments;
    }
    if a :| a in assignments && a.model == "" {
      var i :| 0 <= i < |assignments| && assignments[i] == a;
    }
    assert v.issues == [] || v.issues[0] in v.issues;
  }
}
