/** The outcome of a run, end to end, in plain terms: the request, the roles, the properties of the
    catalog models, and the answer it is resumed with. */
module PlainOutcomes {
  import opened Wrappers
  import opened ModelRouting
  import opened SuitableModels
  import opened GraphNodes
  import opened ExecutionGraph
  import opened WiredGraph
  import opened WiredOutcomes

  /** The answer is `true`, or an object whose field `approved` is. */
  ghost predicate SaysYes(answer: Json) {
    || answer == JsonBool(true)
    || exists fields :: answer == JsonObject(fields) && ("approved", JsonBool(true)) in fields.Items
  }

  lemma OnlyYesApproves(answer: Json)
    ensures ParseApproval(answer) <==> SaysYes(answer)
  {
    match answer
    case JsonObject(fields) =>
      if "approved" in fields && fields["approved"] == JsonBool(true) {
        assert ("approved", JsonBool(true)) in fields.Items;
      }
    case JsonBool(_) =>
    case JsonOther =>
  }

  /** Two roles or more, all with an id, a name and an objective, each served by some model of the
      catalog, and two models that serve some role each. */
  ghost predicate CanWork(template: seq<RoleBlueprint>, highComplexity: bool, catalog: seq<ModelProfile>) {
    && |template| >= 2
    && (forall i :: 0 <= i < |template| ==> "" !in {template[i].id, template[i].name, template[i].objective})
    && (forall i :: 0 <= i < |template| ==> HasSuitable(template[i], highComplexity, catalog))
    && TwoModelsServe(template, highComplexity, catalog)
  }

  lemma PreparedInPlainTerms(env: Env, request: Request, template: seq<RoleBlueprint>)
    requires DistinctModels(env.catalog)
    ensures Prepared(env, request, template) <==>
              request.valid && env.skillsActivate && CanWork(template, request.highComplexity, env.catalog)
  {
    hide ModelRouteNode, HasSuitable, TwoModelsServe;
    RoutedInPlainTerms(template, request.highComplexity, env.catalog);
  }

  lemma LetThroughInPlainTerms(request: Request, inputs: nat -> Input)
    ensures LetThrough(request, inputs) <==> (request.mode == Approval ==> SaysYes(inputs(9).answer))
  {
    OnlyYesApproves(inputs(9).answer);
  }

  /** As shipped and wired, over distinct named models, a run throws, completes or fails exactly as
      these say; the answer counts in approval mode only. */
  lemma OutcomeInPlainTerms(env: Env, request: Request, template: seq<RoleBlueprint>, inputs: nat -> Input)
    requires AsShipped(env) && Wired(inputs) && NamedModels(env.catalog) && DistinctModels(env.catalog)
    ensures var m := Run(env, Start(request, template), inputs, 21);
      var ready := request.valid && env.skillsActivate && CanWork(template, request.highComplexity, env.catalog);
      var allowed := request.mode == Approval ==> SaysYes(inputs(9).answer);
      && (m.Thrown? <==> !ready)
      && (m.Done? && m.state.status == Completed <==> ready && allowed)
      && (m.Done? && m.state.status == Failed <==> ready && !allowed)
  {
    hide Run, Start, Prepared, LetThrough, CanWork;
    CompletedExactly(env, request, template, inputs);
    PreparedInPlainTerms(env, request, template);
    LetThroughInPlainTerms(request, inputs);
  }
}
