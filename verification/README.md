# Orchestration core: a verified model

A Dafny model of the stateful core of a multi-agent orchestration platform written in TypeScript, with proofs
about all inputs, all runs and all interleavings. It covers

- the **team hierarchy**: a mutable forest of teams, with links stored at both ends, reparenting in place and two walks;
- the **execution graph**: fifteen nodes, an approval interrupt, a bounded revision loop and append-only channels;
- **model routing**: hard filters, weighted score, stable sort, and the repair that makes a team use two models;
- the **MCP stdio client**: newline framing over arbitrary chunks and request correlation, as in section 5 of the
  JSON-RPC 2.0 Specification and the stdio transport of the Model Context Protocol, revision 2024-11-05;
- **fixed-window limits and alerts**: one trace lemma for the request limiter and the alert throttle, and alert objects
  shared between the active map and the history;
- **buffers, registries and caches**: audit log flushing, tool broker, tool executor, federation gateway, embedding cache.

## How it is built

Code that changes state is a class (or a method with loops) in the same form as the original; each of its methods is
tied to a function on values, and the properties are lemmas about those functions. Expression code is functions and lemmas.

| area | values and lemmas | objects and loops |
|---|---|---|
| team hierarchy | `TeamForest`, `TeamMoves`, `TeamLimits`, `TeamWalks` | `Hierarchy`, `Voting` |
| execution graph | `GraphNodes`, `ExecutionGraph`, `RunStatus`, `WorkPlans`, `WiredGraph`, `WiredOutcomes`, `EquippedTeams`, `PlainOutcomes` | `NodeLoops` |
| model routing | `StableSort`, `ModelRouting`, `SuitableModels` | the repair loop in `ModelRouting` |
| MCP stdio client | `LineFraming`, `McpSession`, `McpConnection`, `McpReconnect` | `McpClient` |
| limits and alerts | `FixedWindow`, `AlertBook`, `AlertConditions` | `RateLimiter`, `AlertManager` |
| audit log | `AuditProtocol`, `AuditRecords` | `AuditLogger` |
| tool broker and executor | `BrokerRegistry`, `BrokerAccess` | `ToolBroker`, `ToolExecutor` |
| gateway | `OrderedMap`, `GatewayRouting`, `GatewayCards`, `GatewayDecisions`, `DeliveryOutcomes` | `Gateway`, `TaskDelivery` |
| embedding cache | | `EmbeddingCache` |

`Sequences` and `Wrappers` hold small shared definitions. `dafny verify dfyconfig.toml` checks everything.

## Main results

1. *Hierarchy.* The downward walk returns exactly the teams whose root path passes through the team, each once, in
   nondecreasing depth (`DescendantsExact`, `GetDescendants`), and at most c + c^2 + ... + c^h of them
   (`DescendantBound`); on any other hierarchy the walks are described wherever they stop. Along any run from the
   empty hierarchy every state is a forest within the child limit **if and only if** every operation that did not
   throw was legal where it was made (`EveryReachableStateIsForest`), and every state stays within the maximum level
   if and only if every reparenting was under a team below it (`EveryLevelIsWithinExactly`).
2. *Graph.* Every run halts within 5K + 11 steps for a router bound K (`EveryRunHalts`), with at most K rounds of
   planning; it is completed exactly when the last verdict passed (`FinishedRuns`); in approval mode no work precedes
   an approved answer (`NoWorkBeforeApproval`). The loop halts on all inputs if and only if the router's bound does
   not exceed the verifier's (`LoopHaltsExactly`). As shipped and wired, a run ends completed if and only if request,
   roles, routing and skills were in order and the run was let through (`CompletedExactly`), which can be read off the
   roles, the catalog and the answer (`OutcomeInPlainTerms`); every specialist works with the model that was routed
   for it, and all but one with their best (`TeamUsesRoutedModels`).
3. *Routing.* Every decision, after sort and repair, names models that can serve its role (`EveryDecisionSuits`);
   success exactly when there are two roles, each can be served, and two models serve some role
   (`RoutedInPlainTerms`); and near-optimality (`RoutingIsNearOptimal`).
4. *MCP.* Outcomes do not depend on chunk boundaries (`SessionChunkingIndependence`), ids 1 to the counter are always
   partitioned into pending and settled (`EverySessionIsPartitioned`), and each call gets precisely the outcome that
   the events alone decide for it (`CallGetsItsFate`, `FirstResponseDecides`).
5. *Windows.* At most twice the cap in any closed interval of one window length (`LimiterSlidingBound`), for requests
   (`AtMostSixHundredPerMinute`) and for alerts (`AlertsPerPeriod`); and after a report an alert is active exactly as
   the operator says (`UnthrottledExactly`).
6. *Conservation.* Exactly the audit entries of the severity asked for are accepted (`AcceptedExactly`), none is lost
   or duplicated (`NothingIsLost`), and shipped, in-flight and buffered entries are the log in order throughout
   exactly when flushes complete in turn (`OrderKeptExactly`); while names stay disjoint the broker's maps are what
   direct registrations and connected servers determine (`EveryBrokerIsRebuilt`), and reconnecting equals connecting
   for the first time (`ReconnectEqualsFirstConnect`); access is decided by them (`AccessExactly`); routing prefers
   the target, then an agent that offers what is asked for (`RouteExactly`), and round robin is fair
   (`RoundRobinIsFair`); batches return the service's own vector at every index (`EmbedBatch`).

## Where the code falls short of what one would expect

Each of these is a property the code does not have on all inputs. One lemma shows it fail from the initial state, another
says exactly when it holds.

| what fails | shown by | holds exactly when |
|---|---|---|
| Reparenting keeps a forest: a parent inside the child's own subtree is not rejected, and both walks then run forever | `SelfParentRunsForever` | `ReparentKeepsForest`, `EveryReachableStateIsForest` |
| Registering keeps a forest: a known id, or a team with children of its own, is accepted | `ReregisteringDuplicates` | `RegisterKeepsForest` |
| Levels agree with parents after a move: only the moved team's level is recomputed | `LevelGoesStale` | `ReparentLevels` |
| Levels stay within `maxLevels` after a move: the maximum is not checked | `LevelExceedsMaximum` | `ReparentLevels`, over runs `EveryLevelIsWithinExactly` |
| The default plan runs every specialist: it groups step ids, and specialists are picked by role id | `TeamCompletesWithoutResults` | `DefaultPlanRunsExactly`, `RolesRunExactly` |
| A reconnected MCP client settles its requests as if its line buffer had been cleared: the buffer survives | `ResponseLostAfterReconnect` | `ReconnectIsFresh` in `McpReconnect` for any decoder; nothing but blanks was left, `TrimmedReconnectIsFresh`, for one that trims |
| Shipped, in-flight and buffered entries, in this order, are the log at every moment: flushes may overlap | `SecondShippedFirst` | `OrderKeptExactly` |
| Shutting the audit logger down stops its flush timer: initializing again loses the handle of a running one | `TimerOutlivesShutdown` | `ShutdownStopsTimersExactly` |
| Health is recorded for exactly the registered agents: a check may be answered after its agent was unregistered | `UnregisteredAgentComesBack` | `EveryRegistryIsConsistentExactly` |
| A cancelled gateway task is not delivered: the loop overwrites the status before it checks, and the aborted request is retried as a timeout | `CancelledTaskCompletes` | the cancellation hits the last allowed attempt, `CancellationIsFinalExactly`; given the later replies, `CancelledStillDeliveredExactly` |
| Disconnecting a server undoes connecting it: direct registrations of the same names are deleted too | `DirectToolIsLost` | `DisconnectUndoesConnectExactly` |

The revision bound 2 is written in two places. They agree at every exit exactly because they are equal
(`BoundsAgreeExactly`), and with a larger router bound the loop need not end (`StuckLoopNeverHalts`).

## Model

| member | source | states |
|---|---|---|
| TeamForest.PathShape | packages/agent-core/src/hierarchical/orchestrator.ts:259-269 | the path starts at a parentless team, follows parent links, ends at the team, and its prefixes are the paths of their last teams |
| TeamForest.PathHasNoRepeats | packages/agent-core/src/hierarchical/orchestrator.ts:259-269 | no team occurs twice on a path |
| TeamForest.PathUnfold | packages/agent-core/src/hierarchical/orchestrator.ts:262-266 | a team's path is its parent's path and then the team |
| TeamForest.LevelOrderMember | packages/agent-core/src/hierarchical/orchestrator.ts:281-288 | the level order below a set of teams holds exactly the teams whose root path meets that set |
| TeamForest.LevelOrderSorted | packages/agent-core/src/hierarchical/orchestrator.ts:281-288 | the level order has no repeats and never goes back to a shallower team |
| TeamForest.DescendantsExact | packages/agent-core/src/hierarchical/orchestrator.ts:274-291 | the walks are dual: the descendants of t are exactly the other teams with t on their path, each once, in nondecreasing depth |
| TeamForest.DescendantBound | packages/agent-core/src/hierarchical/orchestrator.ts:274-291 | a subtree of height h under child limit c has at most c + c^2 + ... + c^h descendants |
| TeamMoves.MoveEffect | packages/agent-core/src/hierarchical/orchestrator.ts:98-108 | the whole state after a move: the child is on its new parent's list only, its parent and level change, nothing else does |
| TeamMoves.MoveKeepsLinks | packages/agent-core/src/hierarchical/orchestrator.ts:98-108 | both ends of every link still agree after a move, legal or not |
| TeamMoves.RegraftKeepsForest | packages/agent-core/src/hierarchical/orchestrator.ts:98-108 | hanging a team outside its own subtree keeps every upward walk finite, and the new paths are the old ones with the subtree's prefix replaced |
| TeamMoves.RegraftBreaksForest | packages/agent-core/src/hierarchical/orchestrator.ts:98-108 | hanging a team inside its own subtree makes both the upward and the queue walk from it endless |
| TeamMoves.ReparentKeepsForest | packages/agent-core/src/hierarchical/orchestrator.ts:87-109 | a successful reparent keeps the forest if and only if the child is not on the path of the new parent; otherwise neither walk ends |
| TeamMoves.ReparentKeepsBound | packages/agent-core/src/hierarchical/orchestrator.ts:94-96 | reparenting keeps every child list within the limit |
| TeamMoves.ReparentLevels | packages/agent-core/src/hierarchical/orchestrator.ts:106-108 | levels still agree with parents if and only if a leaf moved or its level stayed; they stay within the maximum if and only if the new parent was below it |
| TeamMoves.LevelsBoundDescendants | packages/agent-core/src/hierarchical/orchestrator.ts:62-74 | with agreeing levels the level and child limits bound the number of descendants |
| TeamMoves.AttachKeepsForest | packages/agent-core/src/hierarchical/orchestrator.ts:76-81 | registering a fresh childless team, or replacing a root by one with the same children outside its subtree, keeps the forest and moves only that subtree |
| TeamMoves.AttachNeedsCanRegister | packages/agent-core/src/hierarchical/orchestrator.ts:76-81 | a registration that keeps the forest is of a fresh childless team, or replaces a root by one with the same children outside its subtree |
| TeamMoves.RegisterKeepsForest | packages/agent-core/src/hierarchical/orchestrator.ts:62-82 | a registration that does not throw keeps the forest if and only if the team is fresh and childless, or replaces a root with the same children and hangs outside its subtree |
| TeamMoves.RegisterKeepsBound | packages/agent-core/src/hierarchical/orchestrator.ts:72-74 | a registration that keeps the forest keeps every child list within the limit |
| TeamMoves.AttachEffect | packages/agent-core/src/hierarchical/orchestrator.ts:76-81 | the whole state after a registration: the team as given under its id, its parent's list grown by the id, nothing else; a team that is its own parent grows only if it is the stored object |
| TeamLimits.RegisterThrowsExactly | packages/agent-core/src/hierarchical/orchestrator.ts:62-74 | a registration that would keep the forest throws exactly when its parent is unknown or the resulting hierarchy would exceed a limit; which error says which, the level first |
| TeamLimits.ReparentThrowsExactly | packages/agent-core/src/hierarchical/orchestrator.ts:87-96 | reparenting throws exactly for an unknown team, for a list that would exceed the limit, or for a child already on a full list |
| TeamLimits.StepStaysWithinExactly | packages/agent-core/src/hierarchical/orchestrator.ts:62-109 | from a state within the maximum level a registration stays within it unless it throws, a reparenting if and only if the new parent lies below the maximum |
| TeamLimits.EveryLevelIsWithinExactly | packages/agent-core/src/hierarchical/orchestrator.ts:62-109 | along any run from the empty hierarchy all states keep their levels within the maximum if and only if every reparenting that did not throw was under a team below it |
| TeamMoves.StepIsExact | packages/agent-core/src/hierarchical/orchestrator.ts:62-109 | from a forest within the limit, an operation leads to one if and only if it throws or is legal |
| TeamMoves.EveryReachableStateIsForest | packages/agent-core/src/hierarchical/orchestrator.ts:62-109 | along any run from the empty hierarchy: all states are forests within the limit if and only if every operation that did not throw was legal; the condition does not mention that states are forests |
| TeamMoves.SelfParentRunsForever | packages/agent-core/src/hierarchical/orchestrator.ts:87-109 | register a team and reparent it under itself: nothing throws and neither walk from it ends |
| TeamMoves.ReregisteringDuplicates | packages/agent-core/src/hierarchical/orchestrator.ts:76-81 | registering a child again lists it twice under its parent |
| TeamMoves.LevelGoesStale | packages/agent-core/src/hierarchical/orchestrator.ts:106-107 | after three registrations, reparenting a root leaves the level of its child wrong |
| TeamMoves.LevelExceedsMaximum | packages/agent-core/src/hierarchical/orchestrator.ts:94-108 | with one level allowed, a reparent that does not throw puts a team on level 2 |
| Hierarchy.HierarchicalOrchestrator.constructor | packages/agent-core/src/hierarchical/orchestrator.ts:49-57 | an empty hierarchy under the given limits |
| Hierarchy.HierarchicalOrchestrator.RegisterTeam | packages/agent-core/src/hierarchical/orchestrator.ts:62-82 | the three errors in order with nothing changed, or exactly the registered state, on shared team objects |
| Hierarchy.HierarchicalOrchestrator.SetParentChildRelationship | packages/agent-core/src/hierarchical/orchestrator.ts:87-109 | the three errors in order with nothing changed, or exactly the moved state; delegation rules untouched |
| Hierarchy.HierarchicalOrchestrator.RemoveFromOldParent | packages/agent-core/src/hierarchical/orchestrator.ts:98-104 | the old parent, if there is one, drops the child |
| Hierarchy.HierarchicalOrchestrator.AppendToNewParent | packages/agent-core/src/hierarchical/orchestrator.ts:106-108 | the child's parent and level, and the new parent's list, even when they are one object |
| Hierarchy.HierarchicalOrchestrator.EvaluateDelegation | packages/agent-core/src/hierarchical/orchestrator.ts:114-158 | the earliest rule of highest priority among enabled matching ones; without one the first child for high complexity; otherwise no delegation |
| Hierarchy.FirstMatchIsBest | packages/agent-core/src/hierarchical/orchestrator.ts:134-143 | the first match of the sorted scan is the earliest live rule of maximal priority |
| Hierarchy.LiveMaximumIsChosen | packages/agent-core/src/hierarchical/orchestrator.ts:134-143 | the earliest maximum of the filtered rules is the earliest enabled matching rule that no other one exceeds in priority |
| Hierarchy.NoMatchNoLiveRule | packages/agent-core/src/hierarchical/orchestrator.ts:134-144 | a scan without a match means that no enabled rule matches |
| Hierarchy.HierarchicalOrchestrator.GetTeamPath | packages/agent-core/src/hierarchical/orchestrator.ts:259-269 | wherever the upward walk stops, forest or not: the teams it visits, root first; on a forest the root path; empty for unknown ids |
| TeamWalks.ForestWalkStops | packages/agent-core/src/hierarchical/orchestrator.ts:259-269 | on a forest the upward walk stops from every team, with its root path |
| TeamWalks.StopsWhenClimbEnds | packages/agent-core/src/hierarchical/orchestrator.ts:262-266 | the upward walk stops after n teams if and only if n steps up leave the hierarchy |
| Hierarchy.HierarchicalOrchestrator.GetDescendants | packages/agent-core/src/hierarchical/orchestrator.ts:274-291 | wherever the queue runs empty, forest or not: the known teams taken from it, in order; on a forest the descendants; empty for unknown ids |
| TeamWalks.ForestQueueEmpties | packages/agent-core/src/hierarchical/orchestrator.ts:279-288 | on a forest the queue runs empty below every team, and has delivered the level order |
| TeamWalks.WalkOn | packages/agent-core/src/hierarchical/orchestrator.ts:281-288 | taking the head of the queue and appending its children stays on the level order |
| Hierarchy.DefaultLimits | packages/agent-core/src/hierarchical/orchestrator.ts:50-53 | with limits 3 and 5 a team at level 0 has at most 155 descendants |
| Voting.CountVotes | packages/agent-core/src/hierarchical/orchestrator.ts:433-439 | the counts of all results, with the keys in order of first occurrence |
| Voting.AggregateByVote | packages/agent-core/src/hierarchical/orchestrator.ts:440-453 | the winner has the most votes and is the earliest of those; consensus if and only if some result has a strict majority of all sub-tasks |
| Voting.MajorityIsUnique | packages/agent-core/src/hierarchical/orchestrator.ts:448-453 | a result with a strict majority beats every other |
| ExecutionGraph.PreparationLogs | packages/agent-core/src/index.ts:191-218 | every node up to the gate logs one event that is neither work nor a verdict, and leaves the verdict books alone |
| ExecutionGraph.WorkLogs | packages/agent-core/src/nodes/planner.ts:28-47 | every work node logs one work event, and only the planner logs a plan |
| ExecutionGraph.FeedbackShape | packages/agent-core/src/nodes/human-feedback.ts:23-53 | granted approval in approval mode leaves an approved event, refused approval a rejected one |
| ExecutionGraph.VerifierLogs | packages/agent-core/src/nodes/verifier.ts:33-65 | the verdict event, and a revision counted and logged exactly for a failed verdict below the bound |
| ExecutionGraph.StepKeepsInvariant | packages/agent-core/src/index.ts:207-251 | every step keeps the invariant relating node, log, revision count, verdict and approval |
| ExecutionGraph.RunKeepsInvariant | packages/agent-core/src/index.ts:207-251 | every run keeps that invariant, whatever the verdicts and answers |
| ExecutionGraph.FinishedRuns | packages/agent-core/src/index.ts:215-251 | in every finished run: revisions = failed verdicts; at most K plans; completed iff the last verdict passed, else failed; without a verdict it was rejected and did no work; after a failed one all K rounds are used |
| ExecutionGraph.NoWorkBeforeApproval | packages/agent-core/src/index.ts:215-241 | in approval mode every planner, specialist, tool or aggregate event stands after an approved answer, in finished, unfinished and thrown runs |
| ExecutionGraph.StepOnlyAppends | packages/agent-core/src/index.ts:85-101 | events, specialist results and tool results only grow in a step |
| ExecutionGraph.RunOnlyAppends | packages/agent-core/src/index.ts:85-101 | between any two points of a run, events, specialist results and tool results only grow |
| ExecutionGraph.StepTakesOne | packages/agent-core/src/index.ts:207-251 | a measure of remaining steps strictly decreases with every step, interrupts included |
| ExecutionGraph.RunCountsDown | packages/agent-core/src/index.ts:207-251 | after n steps the measure has dropped by n or the run has halted |
| ExecutionGraph.EveryRunHalts | packages/agent-core/src/index.ts:207-251 | whatever the verdicts and answers, a run has halted after 5K + 11 steps |
| ExecutionGraph.ShippedRuns | packages/agent-core/src/index.ts:243-251 | with both bounds 2: halted within 21 steps, at most two plans |
| ExecutionGraph.StuckLoopNeverHalts | packages/agent-core/src/nodes/verifier.ts:43-44 | with a larger router bound and failing verdicts the loop never ends |
| ExecutionGraph.LoopHaltsExactly | packages/agent-core/src/index.ts:243-251 | from the planner every run halts if and only if the router's bound does not exceed the verifier's |
| ExecutionGraph.BoundsAgreeExactly | packages/agent-core/src/nodes/verifier.ts:31-51 | the verifier reports failure exactly when the router gives up, for all states, if and only if the two bounds are equal |
| WiredGraph.DecisionsFromCatalog | packages/agent-core/src/nodes/model-route.ts:29-40 | routing returns one decision per role, in order, each naming a catalog model |
| WiredGraph.AssignKeepsModels | packages/agent-core/src/nodes/tools-allocate.ts:32-47 | one assignment per role, and none without a model if no decision lacks one |
| WiredGraph.RunGroupMembers | packages/agent-core/src/nodes/specialists-parallel.ts:56-84 | a group yields results only for role ids in it, with no tools used, and some if some assignment is in it |
| WiredGraph.PlanGroupIsStepIds | packages/agent-core/src/nodes/planner.ts:134-143 | the default plan has one group, holding exactly step-1 to step-n |
| WiredGraph.NoToolsNoCalls | packages/agent-core/src/nodes/tool-executor.ts:58-75 | results without tools give no tool calls |
| WiredGraph.BasicCheckPasses | packages/agent-core/src/nodes/verifier.ts:130-164 | with assignments and an output that is no failure, the basic check passes if and only if every assignment has a model |
| WiredGraph.WiredStep | packages/agent-core/src/index.ts:181-189 | every step of a run without model clients keeps the wired invariant |
| WiredGraph.WiredFromStart | packages/agent-core/src/index.ts:124-150 | every run without model clients satisfies the wired invariant throughout |
| WiredGraph.WiredRunsComplete | packages/agent-core/src/index.ts:181-251 | with named models: no throw from the planner on, zero revisions, and completed unless approval was rejected before any work |
| WiredGraph.WiredRunsExactly | packages/agent-core/src/nodes/verifier.ts:33-51 | for any catalog: completed if and only if every assignment has a model, with revisions none or all that are allowed |
| WiredOutcomes.RunGroupExactly | packages/agent-core/src/nodes/specialists-parallel.ts:56-63 | an assignment has a result from a group if and only if its role id is in it, and there are no other results |
| WiredOutcomes.WholeGroupRuns | packages/agent-core/src/nodes/specialists-parallel.ts:56-63 | the whole team runs, in order, if and only if every role id is in the group |
| WiredOutcomes.DefaultPlanRunsExactly | packages/agent-core/src/nodes/specialists-parallel.ts:49-64 | under the default plan an assignment gets a result if and only if its role id is a step id; nothing else runs; the whole team runs if and only if all role ids are step ids |
| WiredOutcomes.RolesRunExactly | packages/agent-core/src/nodes/specialists-parallel.ts:49-64 | in every wired run results are of roles named like steps only; once the specialists step was taken exactly those roles have run, so all have if and only if all are named like steps |
| WiredOutcomes.RunKeepsBooked | packages/agent-core/src/index.ts:207-214 | in every run the assignments stand for the roles of the template, in order, from team design on |
| WiredOutcomes.PreparationExactly | packages/agent-core/src/index.ts:207-214 | after seven steps a run is at the approval gate with one assignment per role if request, roles, routing and skills are in order, and otherwise has thrown |
| WiredOutcomes.CompletedExactly | packages/agent-core/src/index.ts:124-251 | as shipped and wired over named models, a run ends completed if and only if it was prepared and, in approval mode, approved; it throws if and only if it was not prepared; it fails if and only if it was rejected |
| WiredOutcomes.CompletedFromInputs | packages/agent-core/src/index.ts:124-251 | for distinct named models, whether a run throws, completes or fails is decided by request, template, catalog, skills and answer alone |
| PlainOutcomes.OutcomeInPlainTerms | packages/agent-core/src/index.ts:124-251 | over distinct named models whether a run throws, completes or fails is decided by the request, the fields of the roles, the properties of the catalog models, skills and, in approval mode, an answer that is true or says approved |
| PlainOutcomes.OnlyYesApproves | packages/agent-core/src/nodes/human-feedback.ts:55-64 | the value a run is resumed with approves if and only if it is true or an object whose approved field is true |
| EquippedTeams.DecisionForIsFirst | packages/agent-core/src/nodes/tools-allocate.ts:33-36 | the decision found for a role is the first one with its id |
| EquippedTeams.AssignEquips | packages/agent-core/src/nodes/tools-allocate.ts:32-48 | every role gets its own assignment, with its tools and the model its first decision selected |
| EquippedTeams.EveryTeamIsEquipped | packages/agent-core/src/index.ts:207-251 | in every run routing decides for the template, and from the allocation on every assignment carries its role's model and tools, and from skill loading on the four core skills |
| EquippedTeams.TeamUsesRoutedModels | packages/agent-core/src/index.ts:207-251 | with distinct role ids, in every run from the allocation on: the i-th assignment carries the i-th decision's model, the team uses two models, and over distinct catalog ids every role but at most one works with its best model |
| RunStatus.StatusFollowsRun | packages/agent-core/src/index.ts:124-251 | with equal bounds, in every run: running up to the gate with one log entry per node in order, waiting until the answer, running and approved in the loop, and finally completed exactly after a passed verdict, else failed |
| WorkPlans.PlanIsChain | packages/agent-core/src/nodes/planner.ts:134-150 | the default plan has one step per assignment, for its role and tools, with distinct ids, each depending on the one before it and on nothing else |
| WorkPlans.StepIdsDiffer | packages/agent-core/src/nodes/planner.ts:136-136 | different positions have different step ids |
| WorkPlans.CallsInPlace | packages/agent-core/src/nodes/tool-executor.ts:58-75 | wherever a result stands, its calls stand together, one for each tool it names, in order, between those of the results around it |
| WorkPlans.ToolResultsExactly | packages/agent-core/src/nodes/tool-executor.ts:77-119 | the tools step adds one result per call, in order, completed exactly if the tool succeeds, and keeps the earlier ones |
| WorkPlans.IssuesExactly | packages/agent-core/src/nodes/verifier.ts:130-164 | the basic check raises each issue exactly for its reason, and passes exactly without any |
| WiredOutcomes.TeamCompletesWithoutResults | packages/agent-core/src/nodes/planner.ts:134-143 | a concrete team of two ends completed without a result from either specialist |
| NodeLoops.ExecuteSpecialistsInParallel | packages/agent-core/src/nodes/specialists-parallel.ts:45-67 | the loop over the groups appends each group's results in assignment order; without a plan all roles form one group |
| NodeLoops.CollectToolCalls | packages/agent-core/src/nodes/tool-executor.ts:58-75 | the nested loops list every tool each result used, in order |
| NodeLoops.ExecuteTools | packages/agent-core/src/nodes/tool-executor.ts:77-119 | one result per call, in order; a failing tool is recorded and stops nothing |
| NodeLoops.RunToolExecutor | packages/agent-core/src/nodes/tool-executor.ts:23-50 | the loops together are the node: skipped without results, none without calls, otherwise all calls executed |
| NodeLoops.CheckOutput | packages/agent-core/src/nodes/verifier.ts:130-164 | the check passes if and only if there are assignments, all with models, and an output that is no failure |
| NodeLoops.PushIfSuitable | packages/agent-core/src/nodes/tools-allocate.ts:64-78 | a tool is pushed once for each of the four tests it passes |
| NodeLoops.AllocateToolsForRole | packages/agent-core/src/nodes/tools-allocate.ts:56-86 | the role gets the suitable tools, each once, in catalog order, or all tools if none is suitable |
| NodeLoops.Deduplicate | packages/agent-core/src/nodes/tools-allocate.ts:85-85 | the same elements without repetition |
| NodeLoops.AllocatedExactly | packages/agent-core/src/nodes/tools-allocate.ts:56-86 | of a catalog of distinct names a role gets, in catalog order, those with file in them, those for code, data or search if it needs that capability, or all if none fits |
| Sequences.IncludesExactly | packages/agent-core/src/nodes/tools-allocate.ts:64-64 | a text includes a part if and only if it is something, the part, and something |
| StableSort.SortIsDescending | packages/model-router/src/index.ts:61-63 | sorting yields descending keys |
| StableSort.SortIsStable | packages/model-router/src/index.ts:61-63 | sorting keeps elements of equal key in order |
| StableSort.SortPermutes | packages/model-router/src/index.ts:61-63 | sorting keeps all elements with their multiplicities |
| StableSort.StableOrderIsUnique | packages/model-router/src/index.ts:61-63 | a descending stable rearrangement is unique, so order and stability determine the sort |
| StableSort.SortStartsWithEarliestMaximum | packages/model-router/src/index.ts:61-67 | the first element is the earliest of maximal key |
| StableSort.SortCommutesWithFilter | packages/agent-core/src/hierarchical/orchestrator.ts:134-135 | filtering a sorted list is sorting the filtered list |
| ModelRouting.RoutingFailsOnlyWithoutCandidates | packages/model-router/src/index.ts:50-59 | routing a role fails if and only if no catalog model passes the filters |
| ModelRouting.RoutingPicksBest | packages/model-router/src/index.ts:45-76 | the selected model has the best score and is the earliest such in the catalog; candidates descend; the next three are the fallbacks |
| ModelRouting.ApplyDiversityFallback | packages/agent-core/src/nodes/model-route.ts:54-87 | the loops compute the repair one decision at a time, with the set of used models taken afresh |
| ModelRouting.RepairIsMove | packages/agent-core/src/nodes/model-route.ts:67-83 | repairing a decision moves it to its first fallback that differs, and changes it if and only if there is one |
| ModelRouting.RepairMovesOne | packages/agent-core/src/nodes/model-route.ts:62-84 | when all agree, the first decision that can move does, and no other |
| ModelRouting.RepairIsMinimal | packages/agent-core/src/nodes/model-route.ts:54-87 | at most one decision changes, and none if two already differ |
| ModelRouting.DiversityExactly | packages/agent-core/src/nodes/model-route.ts:33-35 | two models are in use afterwards if and only if there are two roles and either two best models differ or some role has an alternative |
| ModelRouting.MoveTakesSecondBest | packages/agent-core/src/nodes/model-route.ts:73-82 | with distinct candidates a move takes the second best and its own score |
| ModelRouting.DistinctCatalogDistinctCandidates | packages/model-router/src/index.ts:50-63 | distinct catalog ids give distinct candidates |
| ModelRouting.RouteAllRoutesEach | packages/agent-core/src/nodes/model-route.ts:29-31 | all roles are routed if and only if each is, each as on its own |
| ModelRouting.RoutingSucceedsExactly | packages/agent-core/src/nodes/model-route.ts:22-42 | with distinct ids and a candidate per role: success if and only if there are two roles and two best models differ or some role has two candidates |
| ModelRouting.DecisionIsBest | packages/model-router/src/index.ts:45-76 | a role is routed to its earliest best eligible model, whichever that is |
| ModelRouting.RoutableExactly | packages/agent-core/src/nodes/model-route.ts:22-42 | with distinct ids, routing succeeds if and only if there are two roles, each has an eligible model, and two have different best ones or one has two; stated on roles and catalog alone |
| ModelRouting.RoutingIsNearOptimal | packages/agent-core/src/nodes/model-route.ts:22-42 | on success all keep their best, except that when all agree the first role with two candidates gets its second best and its score |
| SuitableModels.CandidatesExactly | packages/model-router/src/index.ts:28-63 | a role's candidates are exactly the catalog models with structured output, English, at least 16384 or 8192 tokens, and tools if needed, each with its weighted score in percent |
| SuitableModels.RouteSuits | packages/model-router/src/index.ts:45-76 | on its own a role gets a suitable model whose weighted score no suitable model of the catalog exceeds |
| SuitableModels.EveryDecisionSuits | packages/agent-core/src/nodes/model-route.ts:22-42 | after sorting and repair the selected model and every fallback of every role name a catalog model that can serve it, with its own score, and every such model is among its candidates |
| SuitableModels.RouteFailsExactly | packages/model-router/src/index.ts:50-59 | routing a role fails exactly when no model of the catalog can serve it |
| SuitableModels.RoutingErrorsExactly | packages/agent-core/src/nodes/model-route.ts:22-42 | no roles, the first role that no model can serve, and too few models only when every role has one, each reported as its own error |
| SuitableModels.RoutedInPlainTerms | packages/agent-core/src/nodes/model-route.ts:22-42 | over distinct catalog ids routing succeeds if and only if there are two roles, each can be served, and two models serve some role each |
| LineFraming.SplitThenJoin | packages/tool-broker/src/mcp-client.ts:268-271 | splitting gives unbroken pieces that join to the input |
| LineFraming.JoinThenSplit | packages/tool-broker/src/mcp-client.ts:268-271 | splitting a join of unbroken pieces gives the pieces back: splitting and joining are inverse |
| LineFraming.SplitConcat | packages/tool-broker/src/mcp-client.ts:268-271 | splitting a concatenation continues in the last piece of the first part |
| LineFraming.FeedTwice | packages/tool-broker/src/mcp-client.ts:151-154 | two chunks deliver what their concatenation delivers |
| LineFraming.FeedUnbroken | packages/tool-broker/src/mcp-client.ts:268-271 | neither a delivered line nor the buffer holds a newline |
| LineFraming.ChunkingIndependence | packages/tool-broker/src/mcp-client.ts:151-154 | for any chunking, lines and buffer are those of the whole stream split once |
| LineFraming.SplitAfterLeftover | packages/tool-broker/src/mcp-client.ts:268-271 | an unbroken leftover is glued to the first piece of the stream and changes no other piece |
| LineFraming.LeftoverMatters | packages/tool-broker/src/mcp-client.ts:268-271 | a leftover leaves the delivered lines of a stream as they are if and only if it is empty or the stream completes no line |
| McpSession.TwoChunksAreOne | packages/tool-broker/src/mcp-client.ts:151-154 | two data events leave the session as one with the concatenation does |
| McpSession.SessionChunkingIndependence | packages/tool-broker/src/mcp-client.ts:268-301 | pending requests, outcomes and buffer do not depend on chunk boundaries |
| McpSession.StepKeepsPartition | packages/tool-broker/src/mcp-client.ts:127-308 | every event keeps ids 1 to the counter partitioned into pending and settled, none settled twice |
| McpSession.EveryReachableSessionIsPartitioned | packages/tool-broker/src/mcp-client.ts:127-308 | every interleaving of sends, chunks, failures, exits and disconnects keeps ids 1 to the counter partitioned into pending and settled |
| McpSession.EverySessionIsPartitioned | packages/tool-broker/src/mcp-client.ts:112-308 | from a new client on, every interleaving keeps ids 1 to the counter partitioned into pending and settled, none settled twice |
| McpSession.StartIsPartitioned | packages/tool-broker/src/mcp-client.ts:112-119 | a new client has no ids, so it is partitioned |
| McpSession.StepOnlyAppends | packages/tool-broker/src/mcp-client.ts:287-308 | a step never changes what has been settled |
| McpSession.RunKeepsRecords | packages/tool-broker/src/mcp-client.ts:287-308 | a settled request keeps its outcome for good |
| McpSession.LinesDecide | packages/tool-broker/src/mcp-client.ts:273-301 | a pending request is settled by the first response with its id among the lines, and by nothing else |
| McpSession.AnsweredOnce | packages/tool-broker/src/mcp-client.ts:287-292 | duplicate, late and unknown responses change nothing |
| McpSession.OutcomeIsFate | packages/tool-broker/src/mcp-client.ts:127-308 | a pending request gets the first of matching response, failure, exit and disconnect, whatever other requests do, and stays pending if none comes |
| McpSession.CallGetsItsFate | packages/tool-broker/src/mcp-client.ts:188-217 | a call made at any point of any session gets exactly the outcome the later events decide for it, whatever else is in flight |
| McpSession.ResponseIsFate | packages/tool-broker/src/mcp-client.ts:287-301 | the fate of a request is its first response's: the rejection with its code and message if it carries an error, else its result; without a response, none or the end of the connection |
| McpSession.FirstResponseDecides | packages/tool-broker/src/mcp-client.ts:188-301 | at any point of any session: a call whose first response carries an error is rejected with that code and message, one without is resolved with the result |
| McpConnection.ConnectionFollowsEvents | packages/tool-broker/src/mcp-client.ts:127-262 | in every session the client is connected, has a process, and has used as many ids as the events say, whatever is answered |
| McpReconnect.ReconnectKeepsBuffer | packages/tool-broker/src/mcp-client.ts:219-227 | the line buffer survives disconnect and reconnect |
| McpReconnect.LeftoverChangesFate | packages/tool-broker/src/mcp-client.ts:268-301 | for every decoder: a leftover changes the outcome of no later request, whatever happens, if and only if gluing it to a line never changes which request the line answers, and how |
| McpReconnect.ReconnectState | packages/tool-broker/src/mcp-client.ts:127-227 | after disconnecting and reconnecting one new request is pending, and the buffer is as it was |
| McpReconnect.HarmlessSettlesAlike | packages/tool-broker/src/mcp-client.ts:268-301 | with a harmless leftover a session settles in every continuation as without it |
| McpReconnect.ReconnectIsFresh | packages/tool-broker/src/mcp-client.ts:127-227 | for the client's own decoder: after a reconnect everything is settled, in every continuation, as from a cleared buffer if and only if gluing the leftover to a line never changes which new request it answers, and how |
| McpReconnect.BlankIsHarmless | packages/tool-broker/src/mcp-client.ts:273-277 | a leftover of blanks is harmless to a decoder that trims, whatever the parser |
| McpReconnect.TrimmedReconnectIsFresh | packages/tool-broker/src/mcp-client.ts:268-285 | for a trimming decoder whose parser accepts some response but not with other characters in front: everything is settled as from a cleared buffer if and only if the old process left nothing but blanks |
| McpReconnect.ResponseLostAfterReconnect | packages/tool-broker/src/mcp-client.ts:219-285 | a concrete session: a partial line, disconnect, reconnect, and the first response is lost, which without the partial line resolves its request |
| McpClient.McpStdioClient.constructor | packages/tool-broker/src/mcp-client.ts:112-125 | no process, no pending request, empty buffer |
| McpClient.McpStdioClient.SendRequest | packages/tool-broker/src/mcp-client.ts:239-266 | a fresh id becomes pending, or the call fails without a process and uses no id |
| McpClient.McpStdioClient.BeginConnect | packages/tool-broker/src/mcp-client.ts:127-176 | nothing when connected, otherwise a process and one pending request |
| McpClient.McpStdioClient.FinishConnect | packages/tool-broker/src/mcp-client.ts:182-185 | only the connected flag changes |
| McpClient.McpStdioClient.Request | packages/tool-broker/src/mcp-client.ts:188-217 | one pending request, or an error and no change when not connected |
| McpClient.McpStdioClient.OnStdoutData | packages/tool-broker/src/mcp-client.ts:151-154 | buffering and line handling together are the session's data step |
| McpClient.McpStdioClient.ProcessLineBuffer | packages/tool-broker/src/mcp-client.ts:268-285 | the loop handles the complete lines in order and keeps the last piece |
| McpClient.McpStdioClient.ReceiveResponse | packages/tool-broker/src/mcp-client.ts:287-301 | a pending id is removed and settled by error or result; any other is ignored |
| McpClient.McpStdioClient.RejectAllPending | packages/tool-broker/src/mcp-client.ts:303-308 | each pending request is rejected once, in insertion order, and the map emptied |
| McpClient.McpStdioClient.OnProcessError | packages/tool-broker/src/mcp-client.ts:161-163 | all pending requests are rejected, the connected flag stays |
| McpClient.McpStdioClient.OnProcessExit | packages/tool-broker/src/mcp-client.ts:165-169 | all pending requests are rejected and the client is disconnected |
| McpClient.McpStdioClient.CloseConnection | packages/tool-broker/src/mcp-client.ts:219-227 | the process is dropped and all pending requests are rejected |
| FixedWindow.SlidingBound | packages/observability/src/alerts.ts:384-419 | any trace of windows capped at p sees at most 2p events in a closed interval of one window length |
| FixedWindow.TraceIsWindowed | packages/observability/src/alerts.ts:384-419 | what a limiter admits under a monotone clock is a trace of windows with at most max(1, cap) events each |
| FixedWindow.LimiterSlidingBound | packages/observability/src/alerts.ts:384-419 | under a monotone clock a limiter admits at most 2 * max(1, cap) in a closed interval of one window length |
| FixedWindow.FirstOfWindowAdmitted | packages/security/src/index.ts:74-87 | of the events of one window exactly the first max(1, cap) are admitted |
| RateLimiter.SecurityPlugin.constructor | packages/security/src/index.ts:66-67 | no buckets |
| RateLimiter.SecurityPlugin.OnRequest | packages/security/src/index.ts:69-88 | the hook refuses exactly when the fixed window does and updates only the key's own window |
| RateLimiter.KeysAreIndependent | packages/security/src/index.ts:69-88 | in any log a key sees what a limiter fed with its requests alone decides |
| RateLimiter.AtMostSixHundredPerMinute | packages/security/src/index.ts:63-88 | any closed minute admits at most 600 requests of a key |
| RateLimiter.FirstThreeHundredAreServed | packages/security/src/index.ts:63-88 | of one window's requests exactly the first 300 are let through, whatever other keys do |
| RateLimiter.WindowCountsAll | packages/security/src/index.ts:69-88 | a window opens with its first request, lasts sixty seconds to the millisecond, and counts every request in it, refused ones included |
| AlertBook.PutRuleAt | packages/observability/src/alerts.ts:79-82 | a known id keeps its place, a new one goes to the end |
| AlertBook.PutRuleIsMapSet | packages/observability/src/alerts.ts:79-82 | ids stay distinct, and the rules are the new one and all others with another id |
| AlertBook.EvaluateKeepsOnePerKey | packages/observability/src/alerts.ts:119-125 | an evaluation never leaves two active alerts with one key |
| AlertBook.ActiveInView | packages/observability/src/alerts.ts:123-125 | a key is active if and only if it is among its rule's own records |
| AlertBook.RuleTouchesItsView | packages/observability/src/alerts.ts:89-114 | evaluating a rule changes its own records and window as specified, and no other rule's |
| AlertBook.OtherViewsUntouched | packages/observability/src/alerts.ts:89-114 | rules that are not registered are never touched |
| AlertBook.EvaluateByRule | packages/observability/src/alerts.ts:89-114 | an evaluation changes every registered rule by exactly its own step, whatever the other rules do |
| AlertBook.AfterEvaluation | packages/observability/src/alerts.ts:89-179 | afterwards: condition false - no active alert; true - active if and only if it was or the throttle allows it; not applicable - untouched |
| AlertConditions.UnthrottledExactly | packages/observability/src/alerts.ts:89-113 | after a report to a rule that watches it, unthrottled: its alert is active if and only if the value stands to the threshold as the operator says, for each of the six; otherwise no alert of the rule is active |
| AlertConditions.OthersUntouched | packages/observability/src/alerts.ts:90-103 | a disabled rule, one for another metric, or one with a label the report lacks or has otherwise keeps its alerts and window |
| AlertConditions.OppositesNeverBoth | packages/observability/src/alerts.ts:337-355 | of two rules with opposite operators and one threshold never both have an active alert after a report they watch, and without throttles exactly one has |
| AlertConditions.RaisedExactly | packages/observability/src/alerts.ts:119-179 | a breach without an active alert raises one if and only if the throttle has room, in seconds and strictly; the record carries time, value and labels, and the throttle counts it |
| AlertConditions.KeptOrResolvedExactly | packages/observability/src/alerts.ts:108-112 | a breach while the alert is active changes nothing; without a breach every active alert of the rule is resolved, whatever its labels, at the time of the report |
| AlertBook.RunKeepsOnePerKey | packages/observability/src/alerts.ts:79-179 | in any run of registrations and reports no key has two active alerts, and rule ids stay distinct |
| AlertBook.EvaluateForId | packages/observability/src/alerts.ts:89-114 | an evaluation changes the records of an id as its registered rule says, or not at all without one |
| AlertBook.RunByRule | packages/observability/src/alerts.ts:79-179 | in any run, with rules registered and replaced along the way, the records and the window of an id evolve as if its rule were alone |
| AlertBook.AttemptsMonotone | packages/observability/src/alerts.ts:128-130 | under a monotone clock a rule asks its throttle at monotone times |
| AlertBook.RaisedAreAdmitted | packages/observability/src/alerts.ts:127-155 | the alerts raised under one throttle are exactly those its window admits among the attempts, whatever else about the rule is replaced |
| AlertBook.AlertsPerPeriod | packages/observability/src/alerts.ts:79-155 | any closed interval of one throttle period sees at most 2 * max(1, max_alerts) alerts of a rule whose throttle stays the same, in any run of registrations and reports |
| AlertManager.Manager.constructor | packages/observability/src/alerts.ts:70-74 | no rules, alerts or windows |
| AlertManager.Manager.ActiveIsUnresolved | packages/observability/src/alerts.ts:71-73 | a key is in the active map if and only if the history holds an unresolved alert with it |
| AlertManager.Manager.RegisterRules | packages/observability/src/alerts.ts:79-82 | the rules are set one after the other by id |
| AlertManager.Manager.EvaluateMetric | packages/observability/src/alerts.ts:89-114 | the loop over the rules, on shared alert objects, is the evaluation of the book |
| AlertManager.Manager.TriggerAlert | packages/observability/src/alerts.ts:119-155 | an alert is raised and counted exactly when none is active and the throttle allows it |
| AlertManager.Manager.RaiseAlert | packages/observability/src/alerts.ts:132-147 | one new object becomes the key's active alert and the last of the history |
| AlertManager.Manager.ResolveAlert | packages/observability/src/alerts.ts:163-179 | exactly the rule's unresolved alerts are resolved in place, in the history too, and leave the active map |
| AlertManager.Manager.IsThrottled | packages/observability/src/alerts.ts:384-405 | refuses exactly when the window does not admit, and drops an expired window |
| AlertManager.Manager.UpdateThrottleState | packages/observability/src/alerts.ts:410-419 | opens a window with count 1 or counts one more |
| AuditProtocol.StepConserves | packages/observability/src/audit-logger.ts:182-190 | accepted entries = buffer + in flight + shipped, as multisets, after every step |
| AuditProtocol.EveryRunConserves | packages/observability/src/audit-logger.ts:182-190 | accepted entries = buffer + in flight + shipped in every interleaving, with overlapping flushes, successes and failures |
| AuditProtocol.NothingIsLost | packages/observability/src/audit-logger.ts:182-190 | from a new logger on, accepted entries = buffer + in flight + shipped in every interleaving |
| AuditRecords.ConfigInForce | packages/observability/src/audit-logger.ts:106-107 | each setting is the last one given for it, or the default |
| AuditRecords.AcceptedExactly | packages/observability/src/audit-logger.ts:139-183 | in every run the accepted entries are exactly those logged while enabled, with at least the severity the level in force asks for, in order |
| AuditRecords.WantedIsKept | packages/observability/src/audit-logger.ts:139-196 | in every run exactly those entries are shipped, in flight or buffered |
| AuditRecords.SendsExactly | packages/observability/src/audit-logger.ts:109-196 | a step sends off all that is due if a running timer fires, the logger shuts down or an accepted entry makes a hundred, and there is a shipper and anything to ship; otherwise it keeps it |
| AuditRecords.WithoutShipperKept | packages/observability/src/audit-logger.ts:139-196 | as long as no shipper has been configured everything accepted stays in the buffer |
| AuditRecords.BatchesOfHundred | packages/observability/src/audit-logger.ts:186-190 | entries coming in one after the other go off in batches of exactly one hundred, the rest stays buffered |
| AuditProtocol.StepKeepsOrder | packages/observability/src/audit-logger.ts:315-330 | with at most one batch in flight a step keeps shipped, in flight, buffer equal to the log order |
| AuditProtocol.WithoutOverlapOrderIsKept | packages/observability/src/audit-logger.ts:315-330 | if flushes never overlap, shipped then in flight then buffer is the log order throughout |
| AuditProtocol.SuccessInOrderExactly | packages/observability/src/audit-logger.ts:320-324 | a successful flush keeps shipped, in flight, buffer in log order if and only if it is of the oldest batch |
| AuditProtocol.FailureInOrderExactly | packages/observability/src/audit-logger.ts:325-329 | a failed flush keeps the order if and only if it is of the newest batch |
| AuditProtocol.StepInOrderExactly | packages/observability/src/audit-logger.ts:315-330 | every step keeps the order if and only if it is no completion out of turn |
| AuditProtocol.OrderKeptExactly | packages/observability/src/audit-logger.ts:315-330 | in every run of distinct entries the order holds throughout if and only if always the oldest batch succeeds and the newest fails |
| AuditProtocol.OrderSafeExactly | packages/observability/src/audit-logger.ts:315-330 | every possible next completion keeps the order if and only if at most one batch is in flight |
| AuditProtocol.SecondShippedFirst | packages/observability/src/audit-logger.ts:182-190 | a concrete run: log, flush, log, flush, and the second entry is shipped before the first |
| AuditProtocol.LaterShipsFirst | packages/observability/src/audit-logger.ts:320-329 | when the second batch ships first, its entries precede older ones |
| AuditLogger.Logging.constructor | packages/observability/src/audit-logger.ts:89-101 | an empty logger, conserved and in order |
| AuditLogger.Logging.Initialize | packages/observability/src/audit-logger.ts:106-119 | the given fields of the configuration replace the old ones, and a timer is started if logging is enabled |
| AuditLogger.Logging.Tick | packages/observability/src/audit-logger.ts:111-115 | a running timer flushes |
| AuditLogger.Logging.BeginShutdown | packages/observability/src/audit-logger.ts:124-131 | the timer whose handle is held stops, and what is buffered is flushed |
| AuditProtocol.TimersLeak | packages/observability/src/audit-logger.ts:106-134 | in any run the timers beyond the one whose handle is held are those that initializations have lost |
| AuditProtocol.ShutdownStopsTimersExactly | packages/observability/src/audit-logger.ts:106-134 | after any run a shutdown stops all timers if and only if logging was never initialized, enabled, while a handle was held |
| AuditProtocol.TimerOutlivesShutdown | packages/observability/src/audit-logger.ts:106-134 | a concrete run: two initializations and a shutdown leave a timer running |
| AuditLogger.Logging.LogEvent | packages/observability/src/audit-logger.ts:139-196 | an entry is dropped, buffered, or buffered and flushed at 100, by configuration and severity |
| AuditLogger.Logging.StartFlush | packages/observability/src/audit-logger.ts:315-324 | the whole buffer becomes a batch in flight, if there is one and a shipper |
| AuditLogger.Logging.FinishFlush | packages/observability/src/audit-logger.ts:323-329 | the batch is shipped, or goes back to the front of the buffer |
| BrokerRegistry.ServerTools | packages/tool-broker/src/index.ts:180-196 | a server's registrations cover exactly the names it lists |
| BrokerRegistry.WiringDeterminesBroker | packages/tool-broker/src/index.ts:80-86 | direct registrations and connected servers determine all five maps |
| BrokerRegistry.DisconnectRebuilds | packages/tool-broker/src/index.ts:220-237 | disconnecting leaves exactly what the remaining wiring determines |
| BrokerRegistry.InstallRebuilds | packages/tool-broker/src/index.ts:174-212 | installing a server with free names leaves what the extended wiring determines |
| BrokerRegistry.ConnectRebuilds | packages/tool-broker/src/index.ts:163-215 | connecting leaves what the new wiring determines, including when it replaces a connection or fails half-way |
| BrokerRegistry.StepRebuilds | packages/tool-broker/src/index.ts:88-237 | every operation that keeps names disjoint leaves what the new wiring determines |
| BrokerRegistry.EmptyIsRebuilt | packages/tool-broker/src/index.ts:79-86 | a new broker is determined by no registrations |
| BrokerRegistry.EveryRunIsRebuilt | packages/tool-broker/src/index.ts:88-237 | while names stay disjoint the maps equal the direct entries plus those of the servers connected at that point, in every run |
| BrokerRegistry.EveryBrokerIsRebuilt | packages/tool-broker/src/index.ts:79-237 | in every run of a new broker, while names stay disjoint, the maps equal the direct entries plus those of the servers connected at that point |
| BrokerRegistry.EveryRunKeepsServers | packages/tool-broker/src/index.ts:163-237 | the three server maps always know the same ids, whether names collide or not |
| BrokerRegistry.ReconnectIsFresh | packages/tool-broker/src/index.ts:163-215 | at any point of any run reconnecting an id equals disconnecting it and connecting it afresh |
| BrokerRegistry.ForgetUnplugs | packages/tool-broker/src/index.ts:163-237 | dropping every operation on a server from a run removes its part of the wiring and nothing else, and never makes names collide |
| BrokerRegistry.ReconnectEqualsFirstConnect | packages/tool-broker/src/index.ts:163-215 | connecting a server after any run that kept names disjoint gives the broker that connecting it to a broker that never heard of its id gives |
| BrokerRegistry.DirectToolIsLost | packages/tool-broker/src/index.ts:220-237 | a concrete run: a direct tool, a server tool of the same name, a disconnect, and the direct tool is gone |
| BrokerRegistry.DisconnectUndoesConnectExactly | packages/tool-broker/src/index.ts:163-237 | disconnecting undoes connecting a new server if and only if its names were free among tools and policies |
| BrokerRegistry.ServerToolsAreGuarded | packages/tool-broker/src/index.ts:119-133 | a connected server's tool passes the checks for owners and admins with any required approval if sensitive, and for every role otherwise, exactly |
| BrokerAccess.AccessExactly | packages/tool-broker/src/index.ts:119-133 | at any point of any run with disjoint names a call is refused or passed as the direct tool and its policy say, or as the one connected server that lists it says; any other is unknown |
| BrokerAccess.ServerToolIs | packages/tool-broker/src/index.ts:177-210 | a server's tool carries the server's id, client and last description, and its id is server:name |
| BrokerAccess.ServerPolicyExactly | packages/tool-broker/src/index.ts:177-210 | in every such run a connected server's tool has a policy on record that marks it as sensitive, asks for approval, and for an owner or admin, exactly if its name is sensitive |
| ToolBroker.Registry.constructor | packages/tool-broker/src/index.ts:79-86 | five empty maps |
| ToolBroker.Registry.AddDirectTool | packages/tool-broker/src/index.ts:88-90 | one tool entry is set |
| ToolBroker.Registry.AddDirectPolicy | packages/tool-broker/src/index.ts:92-94 | one policy entry is set |
| ToolBroker.Registry.ConnectMcpServer | packages/tool-broker/src/index.ts:163-215 | the old connection is dropped first; nothing else changes if connecting or listing throws; otherwise the server is installed |
| ToolBroker.Registry.RegisterServerTools | packages/tool-broker/src/index.ts:177-210 | the loop sets a tool and a default policy per listed name and collects the names |
| ToolBroker.Registry.DisconnectMcpServer | packages/tool-broker/src/index.ts:220-237 | the server leaves all maps, and with it every tool and policy under its names |
| ToolExecutor.RetriesFrom | packages/tool-broker/src/executor.ts:267-297 | from any attempt on: success exactly at the first successful call before an unretryable failure |
| ToolExecutor.RetryExactly | packages/tool-broker/src/executor.ts:267-297 | execution succeeds exactly when one of the first three calls does and all before it failed retryably, with that call's output |
| ToolExecutor.Executor.constructor | packages/tool-broker/src/executor.ts:55-58 | three empty maps |
| ToolExecutor.Executor.AddTool | packages/tool-broker/src/executor.ts:68-76 | an MCP tool is replaced only by an MCP tool; no other name changes |
| ToolExecutor.Executor.RecordTrace | packages/tool-broker/src/executor.ts:302-306 | the run's history grows by the trace |
| ToolExecutor.Executor.Check | packages/tool-broker/src/executor.ts:125-174 | refused exactly as the broker refuses |
| ToolExecutor.Executor.Begin | packages/tool-broker/src/executor.ts:176-192 | a new started trace is recorded under its run; however executions overlap, open traces stay recorded once and as started, finished ones twice and as ended |
| ToolExecutor.Executor.Finish | packages/tool-broker/src/executor.ts:196-224 | whatever has been recorded meanwhile, the execution's own trace ends completed or failed and is recorded again, and the same invariant holds |
| ToolExecutor.Executor.Execute | packages/tool-broker/src/executor.ts:121-244 | refused calls leave no trace; others leave the same object twice, which ends completed or failed as the result says |
| GatewayRouting.FinishKeepsExactly | packages/a2a-gateway/src/index.ts:736-751 | recording the answer to a health check keeps the records exact if and only if the agent is still registered |
| GatewayRouting.StepKeepsExactly | packages/a2a-gateway/src/index.ts:299-764 | after every operation each remote agent has a health record; the records stay exact if and only if no answer arrives for an unregistered agent |
| GatewayRouting.EveryRegistryIsCovered | packages/a2a-gateway/src/index.ts:299-764 | in every run each registered remote agent has a health record, however checks overlap with other operations |
| GatewayRouting.EveryRegistryIsConsistentExactly | packages/a2a-gateway/src/index.ts:299-764 | in every run of a new gateway health is recorded for exactly the remote agents throughout if and only if no answer arrives for an agent that is no longer registered |
| GatewayRouting.RoundAnswers | packages/a2a-gateway/src/index.ts:732-764 | an uninterrupted round of checks leaves each agent with its answer, every other one and everything else as it was |
| GatewayRouting.UnregisteredAgentComesBack | packages/a2a-gateway/src/index.ts:732-764 | a concrete run: an agent unregistered during its check has a record again, and routing throws where it should find no route |
| GatewayRouting.DecisionsNameHealthyAgents | packages/a2a-gateway/src/index.ts:528-574 | every decision returned names a registered healthy remote agent and its endpoint |
| GatewayRouting.EveryDecisionNamesHealthyAgent | packages/a2a-gateway/src/index.ts:299-574 | after any operations on an empty gateway, late answers to checks included, every decision names a registered healthy remote agent and its endpoint |
| GatewayRouting.MatchedRouting | packages/a2a-gateway/src/index.ts:533-559 | with remote agents only, routing decides whenever a registered agent matches |
| GatewayRouting.RemoteOnlyRouting | packages/a2a-gateway/src/index.ts:528-574 | with remote agents only, routing never throws, and fails if and only if no agent is healthy |
| GatewayRouting.HitsAreEven | packages/a2a-gateway/src/index.ts:548-550 | k consecutive index values hit each residue floor(k/n) or ceil(k/n) times |
| GatewayRouting.MatchesFollowIndex | packages/a2a-gateway/src/index.ts:533-559 | matches walk the healthy list one by one from any index, direct routings in between |
| GatewayRouting.RoundRobinIsFair | packages/a2a-gateway/src/index.ts:528-559 | k capability matches over a stable list of n agents choose each floor(k/n) or ceil(k/n) times |
| GatewayDecisions.MatchingExactly | packages/a2a-gateway/src/index.ts:544-546 | an agent is on the list round robin walks if and only if it offers a requested capability and is usable: healthy at its last check, or local only |
| GatewayDecisions.MatchingInOrder | packages/a2a-gateway/src/index.ts:592-608 | that list has local agents before remote ones, each in the order of registration |
| GatewayDecisions.FallbackExactly | packages/a2a-gateway/src/index.ts:610-626 | the fallback is the earliest agent marked healthy, or without one the earliest local agent without a record |
| GatewayDecisions.RouteExactly | packages/a2a-gateway/src/index.ts:528-574 | the target itself if registered and healthy; else an agent offering a requested capability, if there is one; else the fallback; the index moves with a match only |
| GatewayCards.RecordsFollowOperations | packages/a2a-gateway/src/index.ts:299-764 | in every run the registered cards, awaited checks and health records are what the operations say: the last registration or answer since the last unregistration |
| Gateway.A2AGateway.constructor | packages/a2a-gateway/src/index.ts:276-283 | empty registries, index 0 |
| Gateway.A2AGateway.RegisterCard | packages/a2a-gateway/src/index.ts:299-301 | one local card is set |
| Gateway.A2AGateway.UnregisterCard | packages/a2a-gateway/src/index.ts:303-308 | the id leaves all three maps; the result speaks of the local card only |
| Gateway.A2AGateway.RegisterRemoteAgent | packages/a2a-gateway/src/index.ts:310-333 | the agent is set and marked healthy |
| Gateway.A2AGateway.BeginHealthCheck | packages/a2a-gateway/src/index.ts:733-737 | a registered agent is awaited |
| Gateway.A2AGateway.FinishHealthCheck | packages/a2a-gateway/src/index.ts:737-762 | the awaited agent's answer is recorded, registered or not, and nothing else changes |
| Gateway.A2AGateway.RunHealthChecks | packages/a2a-gateway/src/index.ts:732-764 | the loop is one check after the other for every remote agent in order, when nothing else happens while it waits |
| Gateway.A2AGateway.FindAgentsByCapabilities | packages/a2a-gateway/src/index.ts:592-608 | local then remote ids offering some capability, in order |
| Gateway.A2AGateway.DetermineRouting | packages/a2a-gateway/src/index.ts:528-574 | direct, then round robin, then fallback; the index moves only with a match |
| Gateway.A2AGateway.KeepHealthy | packages/a2a-gateway/src/index.ts:544-546 | the healthy ids, in order |
| Gateway.A2AGateway.IsHealthy | packages/a2a-gateway/src/index.ts:628-635 | local-only agents count as healthy, others by their record |
| Gateway.A2AGateway.FirstHealthy | packages/a2a-gateway/src/index.ts:610-626 | the first agent marked healthy, else the first local one without a record |
| Gateway.HandleStreamingResponse | packages/a2a-gateway/src/index.ts:211-262 | updates and final result are those of the complete lines of the whole stream, however it was chunked |
| Gateway.ReceiveLines | packages/a2a-gateway/src/index.ts:234-251 | the loop over the lines delivers updates in order and keeps the last completion |
| Gateway.ReceiveConcat | packages/a2a-gateway/src/index.ts:234-251 | handling two batches of lines one after the other is handling their concatenation |
| TaskDelivery.TaskState.constructor | packages/a2a-gateway/src/index.ts:366-372 | a pending task with no attempts |
| TaskDelivery.TaskState.Cancel | packages/a2a-gateway/src/index.ts:503-514 | finished tasks refuse; any other becomes rejected |
| TaskDelivery.TaskState.ExecuteTaskWithRetries | packages/a2a-gateway/src/index.ts:644-709 | the first attempt that settles or fails for good decides, else the last error; attempts are counted; the status is the last attempt's or a later cancellation's |
| TaskDelivery.TaskState.Submit | packages/a2a-gateway/src/index.ts:363-403 | a routed task ends completed or failed as its result says; one cancelled while its request is in flight ends completed if and only if a later allowed attempt settles it after retried ones only; an unrouted one keeps its status |
| TaskDelivery.DecisionIsUnique | packages/a2a-gateway/src/index.ts:651-698 | one attempt and one result are determined by the replies |
| TaskDelivery.DecisionExists | packages/a2a-gateway/src/index.ts:651-709 | whenever an attempt is allowed, some attempt decides |
| TaskDelivery.DeliveredExactly | packages/a2a-gateway/src/index.ts:651-709 | delivered if and only if some allowed attempt settles and all before it were failed answers or retryable errors |
| DeliveryOutcomes.DecidedExactly | packages/a2a-gateway/src/index.ts:651-709 | the loop ends with an attempt and a result if and only if all before were tried again (failed answer, cancelled in flight, transient error), it was not or was the last, and the result is what its reply yields, code and message included |
| DeliveryOutcomes.DeliveredByReplies | packages/a2a-gateway/src/index.ts:651-709 | delivered if and only if some allowed attempt has a local card or an answer that is no failure, and every one before was tried again |
| TaskDelivery.CancellationIsNeverSeen | packages/a2a-gateway/src/index.ts:652-664 | a cancellation in flight counts as a timeout and a late one as nothing; the result is never the cancelled one |
| TaskDelivery.AbortIsRetried | packages/a2a-gateway/src/index.ts:687-693 | an attempt cancelled while its request is in flight is heard as a timeout and lets the loop go on |
| TaskDelivery.CancelledStillDeliveredExactly | packages/a2a-gateway/src/index.ts:651-709 | a task cancelled while its request is in flight is delivered if and only if a later allowed attempt settles it with only retried attempts in between |
| TaskDelivery.CancellationIsFinalExactly | packages/a2a-gateway/src/index.ts:651-709 | a cancellation of a request in flight keeps the task from being delivered, however the later attempts go, if and only if it hits the last allowed attempt |
| TaskDelivery.DecidedDelivery | packages/a2a-gateway/src/index.ts:393-394 | a decided result is failed exactly when it is an error, and says of every cancelled attempt whether a later one settled |
| TaskDelivery.CancelledTaskCompletes | packages/a2a-gateway/src/index.ts:644-709 | a concrete task, cancelled while its first request is in flight, is sent again and ends completed |
| EmbeddingCache.EmbeddingService.constructor | packages/db/src/cache/embedding-service.ts:84-92 | an empty cache, right for every service |
| EmbeddingCache.EmbeddingService.Embed | packages/db/src/cache/embedding-service.ts:97-171 | the service's vector, from the cache or a request; when it succeeds; what is cached on top of what other calls cached meanwhile |
| EmbeddingCache.EmbeddingService.LookUpAll | packages/db/src/cache/embedding-service.ts:187-209 | the cached vectors, and positions and texts of the rest in order |
| EmbeddingCache.EmbeddingService.EmbedBatch | packages/db/src/cache/embedding-service.ts:176-293 | both errors; the service's vector at every index, duplicates, cache and other calls during the request included; exactly when it succeeds; what the cache holds afterwards |
| EmbeddingCache.EmbeddingService.Merge | packages/db/src/cache/embedding-service.ts:257-280 | cached and new vectors are put back in request order; a short answer fails at the first text without a vector |
| EmbeddingCache.EmbeddingService.ClearCache | packages/db/src/cache/embedding-service.ts:298-300 | an empty cache, right for every service |
| EmbeddingCache.IndexOf | packages/db/src/cache/embedding-service.ts:264-264 | the first position of an index |

## Left out

Not modelled, because another process or library decides it; the model takes its result as an input:

- HTTP, WebSocket, database and Redis calls, process spawning, writes to a process's standard input (taken never to throw), notifications and console output.
- The model-client branches of planner, specialists, aggregator and verifier, with their prompts; the verifier's verdict is an optional boolean input.
- Text analysis: intake field checks, task complexity, the delegation condition language, sensitive-name patterns and capability extraction are booleans or function parameters.
- JSON parsing and trimming of lines: a decoder parameter, for the MCP client and for the gateway's stream.
- Hashing: an embedding's cache key is treated as injective, and an alert's key is the pair of rule id and labels, not their joined string.

Not modelled, because it would only add easy members:

- `splitTask`, `executeSubTasks`, adding and removing delegation rules, team statistics, and the parallel and sequential aggregations.
- Skill activation in the registry (it succeeds or the node throws), `toRunState`, run ids, scores, timestamps and messages of events, and the graph library's own step limit.
- Tool listing by source, `unregisterTool`, `testMcpServer`, backoff delays, and usage counts of embeddings.
- The gateway's streaming submission, its task listings and `dispose`; streaming of the model client.
- Storage, severity inference and convenience methods of the audit log; alert notifications and listings.
- The web application, the HTTP service, encryption and redaction.

Simplifications a reader should know:

- Numbers: scores, thresholds and times are reals, so rounding and NaN are not modelled.
- Clocks: one metric evaluation reads the clock once, and the window bounds assume a monotone clock and a throttle period that is not negative.
- Team ids: an empty id and an absent one both mean "no parent", ids of team objects do not change, and callers do not change the arrays of a registered team.
- Atomicity: a broker connect or disconnect is a single step; flush, health check, tool execution and MCP connect are split where they wait.
- Iteration order of maps that are only deleted from or resolved while iterating (`disconnectMcpServer`, `resolveAlert`) is left open.
- MCP timeouts: a request that has timed out stays pending in the client, as in the code; the rejected waiting promise is not modelled, nor is the HTTP client.
- Gateway.A2AGateway.DetermineRouting: an agent with a local card only makes the code throw; the result `NoClient` stands for that exception.
- TaskDelivery.TaskState.Submit: one submission per request id; a second one under the same id would replace the state of the first.
- EmbeddingCache.EmbeddingService.EmbedBatch: other calls enter through the cache they leave by the time the answer arrives; the service may fail or return too few vectors but answers faithfully otherwise.
- BrokerRegistry.EveryRunIsRebuilt: says nothing once names collide; then only `EveryRunKeepsServers` and `ReconnectIsFresh` hold in general.
- ExecutionGraph.LoopHaltsExactly: speaks of runs that have entered the loop with assignments; earlier nodes may throw first.
- AlertBook.AlertsPerPeriod: speaks of a rule whose throttle stays the same; a replaced throttle goes on with the old window, and no bound is stated for it.
- TaskDelivery.TaskState.ExecuteTaskWithRetries: a cancellation takes effect on the request in flight of a remote agent; the separate cancel message to the agent can only show in its later replies.
- Hierarchy.HierarchicalOrchestrator.GetTeamPath: called where the upward walk stops; elsewhere the code's loop does not end (`RegraftBreaksForest`).
- Hierarchy.HierarchicalOrchestrator.GetDescendants: called where the queue runs empty; elsewhere the code's loop does not end.
- Gateway.A2AGateway.BeginHealthCheck: any registered agent may be awaited next; the order in which a round interrupted by other operations visits the agents is left open.
- ToolExecutor.Executor.Finish: the tool's attempts are given as a sequence of outcomes, and clearing a run's history is not modelled.
- AuditProtocol.OrderKeptExactly: speaks of shipped, in-flight and buffered entries together; once they are out of order, later failures and flushes may still bring them back into order before anything is shipped.
