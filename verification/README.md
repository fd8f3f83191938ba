# Plan lifecycle and graph runtime: verified model

The system turns a query into a numbered plan of steps with dependencies, repairs and validates it, executes it step by
step (or compiled into a graph of parallel levels), lets a critic rewrite the unfinished part, versions the agent state
after every node, and merges the states of parallel branches. This project models those pieces in Dafny and proves what
they keep over every input and every run. Components that mutate objects are classes with the same containers; each of
their methods is proved against a function on values, and the properties are lemmas about those functions.

| file | component |
|---|---|
| `Sequences.dfy`, `PlanSchema.dfy` | stable sort, filter, permutations; plans, steps, results, trace entries |
| `PlanValidator.dfy`, `PlanErrors.dfy` | the validator and its recursive cycle search; what each error says |
| `PlanRepair.dfy`, `RepairNotes.dfy` | renumbering, deduplication, normalisation; what the repair notes say |
| `PlanState.dfy` | the mutable plan state with its aliasable containers |
| `ToolExecution.dfy`, `PlanExecution.dfy` | retry and fallback loops; the plan executor |
| `Replanning.dfy`, `ReplannerNode.dfy` | critic-driven replanning with snapshots and rollback; the graph node around it |
| `ReplanLaws.dfy`, `ReplanKeeps.dfy`, `ReplanExamples.dfy` | when a replan is applied; what it keeps; inputs on which it keeps less than expected |
| `ExecutorReplan.dfy` | the same for the raw answers the plan executor applies |
| `GraphEngine.dfy` | graph builder, edge resolution, fan-out, the budgeted walk |
| `PlanCompiler.dfy`, `CompiledWalk.dfy`, `CompiledOutcome.dfy` | levels; the compiled graph and every walk of it; what a walk leaves finished |
| `PlanRun.dfy`, `CompiledMerge.dfy`, `CompiledExample.dfy` | the states and node functions of such a walk; the agent states it may run on and what a fan-out keeps of them; a plan it does not carry out |
| `Workflow.dfy` | the macro graph with its critic and replan loop |
| `StateVersioning.dfy`, `StateMerge.dfy` | version tree and lineage; branch merge |
| `JsonScan.dfy` | the JSON end scanner against the grammar of RFC 8259, sections 4, 5 and 7 |
| `WriteQueue.dfy` | the asynchronous write queue as a step system |

## What the proofs found

Where the code does less than one would expect, the project states exactly when it does what is expected.

- Two adjacent wide levels: the engine leaves a fan-out at the join's successor, past the fan-out rooted at that join. Of
  a run of wide levels every second one is fanned out; of the others only the lowest id is visited
  (`FannedParity`, `ExpectedCount`). Every step is visited, once and in order, if and only if no two adjacent levels are
  wide (`EveryStepOnceIff`). With steps 1 and 2 below 3 and 4, step 4 is never visited, whatever the nodes do
  (`TwoByTwoFails`).
- Lost branch state: branches work on copies and the merge keeps the last copy of `plan_state`
  (`DeepMergeKeepsLastCopy`). Of each level one step survives, so a run finishes at most one more step per level
  (`RunOutcome`). A compiled run completes its plan if and only if every other step was finished when it started
  (`CompletesIff`): from a fresh plan state, if and only if no level is wide (`CompletesIffSequential`); with 1 and 2
  below 3 and 4, if and only if 1 and 4 were finished (`TwoByTwoCompletesIff`).
- A failed replan is not rolled back: restoring installs the snapshot's own objects, so the first rollback is exact, but
  the fallback then works on the snapshot. What a replan leaves is valid if and only if one of the two answers applies
  (`ReplanSoundIff`), which is decided before the attempts (`AppliedIff`): every step has a task and no unknown tool,
  something is left, and the answer either fits as it stands or, laid out by repair, loses the task of no finished step.
  An answer fits when the finished ids are 1..m and its dependencies, read as ids of the plan, point back (`AtOnceIff`);
  answers listed in the order of their ids have such dependencies. When neither answer applies, what is left is never a
  valid plan (`BlankAnswersBreakThePlan`, `UsableAnswerRefused`), although the log line says the previous plan is kept
  (plan/replanning_controller.py:154-157).
- The replan prompt asks for the finished steps at the front of the answer (agents/planner_prompt.py:60). An answer
  that fits and repeats a finished step leaves it in the plan once more, pending, and it is executed again
  (`RepeatsRunAgain`, `PendingCopyIff`, `RepeatedStepRunsAgain`).
- Completed steps are put back by their old ids after repair has renumbered the plan. So a repaired replan can lose a new
  step and reopen a finished id. With m different keys among the finished steps and p new steps, any applied answer
  keeps every new step, and every finished id finished, if and only if it fits or no finished id lies in m+1..m+p
  (`ReplanKeepsWorkIff`, `CollisionLosesTheAnswer`).
- Dependencies of an answer name the answer's ids, but its steps are numbered by position after the finished ones. When
  the answer fits, all of them survive if and only if every step that names the id of a listed step also names the number
  that step gets (`EdgesSurviveIff`); for answers in id order, if and only if nothing was finished or there are none
  (`EdgesInOrderIff`, `DependencyMoves`). Listed out of order, an edge can move although nothing is finished, and all can
  survive although something is (`EdgeMovesThoughNothingFinished`, `EdgeKeptThoughOneFinished`). After repair the same
  decides between new steps that keep their places, and each must be laid out behind those it needs (`RepairedEdgesIff`,
  `RepairDropsTheEdge`).
- The executor's own replan policy applies the raw answer. It validates if and only if tasks, tools and dependencies of
  the answer are right as they stand (`RawAnswerIsValidIff`); a finished step that it copies is executed again
  (`RawRepeatRunsAgain`, `RawCopyIff`).
- A disabled replanning controller and a critic that always asks: no pass limit lets the macro graph reach `finalize`
  (`DisabledNeverFinalizes`). After `finalize` no node is run: the engine resolves and records the edge from there to
  `memory_persist`, but stops before running that node (`MacroRun`). The controller's attempt counter outlives a run;
  the bounds hold from any value of it.
- Repeated ids survive renumbering as repeated ids (`RenumberPassesIffDistinct`); the tool reorder never reaches the
  returned steps (`ReorderHasNoEffect`); one normalisation pass is not always a fixed point, two are
  (`OnePassNotEnough`, `OnePassIsFixedPointIff`, `NormalizeTwiceIsFixedPoint`).
- Remapping results: a step without a result inherits the result of a dropped duplicate exactly when its new id was that
  duplicate's (`RemapMovesResults`, `InheritedResult`). In a replan the dropped duplicate is a finished step whose
  snapshot is put back at that id, so what shows is the collision of `ReplanKeepsWorkIff`. After a repaired replan a
  finished step ends with the result of the step laid out at its id, its own only if it did not move
  (`FinishedResultAfterRepair`).
- The two dictionaries of a merge, observations and memory, are the same for every branch order if and only if the
  branches agree on every shared key of each (`MergeOrderIrrelevantIff`, `OrderMatters`); an unchanged copy of a base key
  counts as a write. Lists and scalars follow the branch order in any case. The list-merging strategy is the deep one
  if and only if live and dumped items print alike up to equality (`ListMergeIsDeepMergeIff`).
- Stopping a write queue, with the time to drain it, leaves no accepted write in the queue if and only if a worker is
  present or nothing is queued, and has executed all of them if moreover no write was abandoned to an earlier cancel
  (`StopExecutesAllIff`); within a given patience, if and only if that is enough (`StopDeliversIff`). A write accepted
  before the worker was started is kept unexecuted (`StopWithoutWorkerKeepsWrites`).
- The branch table of a version store records where a branch was forked from, not where it is: commits do not move its
  entry (`CommitAfterFork`). The strict merge strategy never reports a conflict over the plan state (`StrictMergeIff`).
- Rolling a state back does not roll back its live plan state, and drops the compiled graph from the memory
  (`RollbackSnapshot`).

## Model

| member | source | states |
|---|---|---|
| PlanValidation.CycleSearch.Dfs | plan/validator.py:117-129 | the recursive search terminates on any graph; it answers yes only if there is a cycle, and otherwise leaves every node it saw in a topological order of existing ids |
| PlanValidation.OrderedIsAcyclic | plan/validator.py:114-135 | a graph all of whose nodes were finished by the search has no cycle |
| PlanValidation.PlanValidator.ValidateDependencyCycles | plan/validator.py:114-135 | an error is reported if and only if the dependency graph on existing ids has a directed cycle, for self-loops, dangling ids, repeated ids and shared sub-graphs alike |
| PlanValidation.PlanValidator.ValidateDuplicateStepIds | plan/validator.py:84-91 | no error if and only if ids are pairwise distinct |
| PlanValidation.PlanValidator.ValidateDependenciesExist | plan/validator.py:94-111 | no error if and only if every dependency names an existing, smaller id |
| PlanValidation.PlanValidator.ValidateStructure | plan/validator.py:59-68 | no error if and only if the goal and every task are non-blank and there is a step |
| PlanValidation.PlanValidator.ValidateToolHints | plan/validator.py:137-149 | no error if and only if every hint is a registered tool |
| PlanValidation.ContinuityIff | plan/validator.py:71-81 | comparing sorted ids with 1..n decides exactly: ids are distinct and lie between 1 and n |
| PlanValidation.PriorDependenciesAcyclic | plan/validator.py:94-135 | plans that pass the id and dependency checks never fail the cycle check |
| PlanValidation.SuccessIffWellFormed | plan/validator.py:20-33 | the six checks together pass if and only if the plan has a goal, contiguous ids, only prior dependencies, non-blank tasks and registered tools |
| PlanValidation.PlanValidator.Validate | plan/validator.py:20-33 | the report lists exactly the errors of all checks in order and succeeds if and only if the plan is well formed |
| PlanErrorLaws.ErrorsAreFaults | plan/validator.py:20-149 | the report contains an error if and only if what the error says, with its ids, dependency or tool, is true of the plan, except that faults of goal and tasks are reported alone |
| PlanRepair.RenumberSteps | plan/repair.py:29-62 | the in-place loops compute the renumbering whose laws are the next rows, with its id map and notes |
| PlanRepair.RenumberDistinct | plan/repair.py:29-62 | for distinct ids: output ids are 1..n in the original id order, task and hint are untouched, and an edge survives if and only if both ends survive and it pointed to a smaller id |
| PlanRepair.RenumberIds | plan/repair.py:34-49 | for distinct ids the output is numbered exactly 1..n and has only prior dependencies |
| PlanRepair.RenumberOrderIndependent | plan/repair.py:34-35 | steps, id map and notes depend on the multiset of steps only, not on list order |
| PlanRepair.RenumberPassesIffDistinct | plan/repair.py:34-49 | for any input at all the output passes the validator's id and dependency checks if and only if the input ids were distinct |
| PlanRepair.RepeatedIdsStayRepeated | plan/repair.py:35-43 | a repeated id gives both copies the same number |
| PlanRepair.RemoveDuplicateSteps | plan/repair.py:65-77 | the loop with its seen set keeps the first step of every key; see the next row for what that means |
| PlanRepair.DedupedKeys | plan/repair.py:65-77 | deduplication keeps exactly one step of every (stripped task, hint) key and loses no key |
| PlanRepair.DedupedPositions | plan/repair.py:65-77 | for any list, repeated ids included: a step stays if and only if no earlier one has its key, in list order |
| PlanRepair.DedupedOrder | plan/repair.py:65-77 | distinct ids stay distinct and a list sorted by id stays sorted |
| PlanRepair.DeduplicateBudgetSteps | plan/repair.py:135-153 | the two loops compute the list the next two rows characterise, with one note per removed step |
| PlanRepair.BudgetKept | plan/repair.py:135-153 | for any list: exactly the non-budget steps and the first budget step of maximal task length stay, in list order |
| PlanRepair.BudgetDedupedFacts | plan/repair.py:135-153 | at most one budget step remains, distinct ids stay distinct, and a list with at most one budget step is untouched |
| PlanRepair.NormalizeSynthesisSteps | plan/repair.py:156-175 | hints of synthesis steps are cleared, nothing else changes, one note per cleared hint names the task and the tool, and no note means no change |
| PlanRepair.ReorderHasNoEffect | plan/repair.py:106-113 | for distinct ids the tool reorder never affects the renumbered steps |
| PlanRepair.NormalizePlan | plan/repair.py:92-117 | the chained passes return the normalised plan, the id map, the notes of every pass in order, and flag a repair exactly when a note was made |
| PlanRepair.NormalizedWithoutReorder | plan/repair.py:92-117 | one pass over distinct ids yields 1..n, prior dependencies, at most one budget step and no hinted synthesis step |
| PlanRepair.NormalizeTwiceIsFixedPoint | plan/repair.py:92-117 | for distinct ids a third pass changes no step, matching the two passes of agents/planner.py:67 and graph/runtime/nodes.py:15 |
| PlanRepair.OnePassIsFixedPointIff | plan/repair.py:92-117 | one pass suffices if and only if, among the steps surviving deduplication, no two differ only in hints about to be cleared |
| PlanRepair.OnePassNotEnough | plan/repair.py:156-175 | for every task that the synthesis pattern matches and the budget pattern does not: a two-step plan on which one pass is not a fixed point |
| PlanRepair.RepairPlan | plan/repair.py:120-132 | deduplication then renumbering, with the map and notes of both |
| PlanRepair.RepairSteps | plan/repair.py:80-89 | the same repair for a bare step list |
| RepairNoteLaws.ReorderGroups | plan/repair.py:178-192 | the reorder puts all weather steps before all map steps before all budget steps before the rest, each group in list order, and makes its note if and only if that changes the list |
| RepairNoteLaws.DroppedIff | plan/repair.py:45-57 | for distinct ids: a dependency is noted as unknown if and only if some step names an id that is not in the list, and as not prior if and only if some step names an id of the list that is not smaller than its own |
| RepairNoteLaws.RenumberNotesIff | plan/repair.py:29-62 | renumbering makes no note if and only if the ids are 1..n, in any list order, and every dependency points back |
| RepairNoteLaws.RepairedIff | plan/repair.py:120-132 | the light repair flags nothing if and only if no two steps share a key, the ids are 1..n and every dependency points back |
| RepairNoteLaws.NormalizedIff | plan/repair.py:92-117 | the planner-path pass flags nothing if and only if, moreover, at most one step is a budget step, no synthesis step has a tool and the tools are in the preferred order |
| PlanStateModel.PlanState.SetStepStatus | plan/state.py:32-35 | one status changes; completed_steps grows only by a new completed id |
| PlanStateModel.PlanState.RecordStepResult | plan/state.py:37-39 | the result and its status are stored under the step id |
| PlanStateModel.PlanState.ResetStepForRetry | plan/state.py:44-48 | the step is pending again, without a result and once less in completed_steps |
| PlanStateModel.PlanState.ApplyReplannedSteps | plan/state.py:68-94 | in place: finished steps stay, the new ones are numbered by position after the largest finished id, dropped ids lose status and result |
| PlanStateModel.PlanState.RestoreCompletedStepSnapshots | plan/state.py:96-115 | for every snapshotted id the first step with that id that differs is replaced, all others stay, and nothing is reported if and only if nothing changed |
| PlanStateModel.PlanState.RemapStepStatus | plan/state.py:117-152 | fresh containers receive the result of the sequential pop/assign renaming |
| PlanStateModel.RenumberCompresses | plan/repair.py:34-35 | the id map of renumbering distinct positive ids is order-preserving and never maps upwards |
| PlanStateModel.RenameMoves | plan/state.py:121-137 | under such a map the sequential loop equals a simultaneous renaming: no entry is overwritten before it has moved |
| PlanStateModel.RemapKeepsStatuses | plan/state.py:117-152 | every surviving step keeps its status, the status domain becomes exactly the plan's ids, and completed_steps is exactly the completed ids |
| PlanStateModel.RemapMovesResults | plan/state.py:117-152 | every result moves with its step; a step without one ends with a stale one exactly when its new id is the id of a dropped step that left a result, and then with that result |
| PlanStateModel.InheritedResult | plan/state.py:117-152 | ids 1, 4, 5 become 1, 2, 3 after duplicate 3 was dropped: step 5, which had no result, ends with that of 3 |
| PlanStateModel.PlanState.SnapshotForReplan | plan/state.py:154-162 | the snapshot's objects are all fresh and hold the current state |
| PlanStateModel.PlanState.RestoreSnapshot | plan/state.py:164-169 | the snapshot's own objects are installed, not copies |
| PlanStateModel.PlanState.NextExecutableStep | plan/state.py:178-184 | the search loop computes the choice that NextIsLeastReady and HeadNext characterise |
| PlanExecution.HeadNext | plan/state.py:171-184 | on a validated plan with finished prefix 1..m and m below n the next executable step is m+1 |
| PlanStateModel.NextIsLeastReady | plan/state.py:171-184 | the chosen id is the smallest one that is pending with its dependencies finished; none is chosen if and only if no step is ready |
| PlanExecution.FinishAdvances | plan/executor.py:132-144 | completing or skipping step m+1 turns a finished prefix m into m+1 on a still valid plan |
| PlanExecution.ReplanKeepsHead | plan/state.py:68-94 | replanning after step m+1 failed keeps the finished prefix m for any planner answer that validates; nothing is left failed or running |
| ExecutorReplan.RawAnswerIsValidIff | plan/executor.py:198-216 | after step m+1 failed a raw answer validates if and only if every step has a task and no unknown tool, something is left, and every dependency of its i-th step, counted from 0, lies in 1..m+i |
| ExecutorReplan.RawRepeatRunsAgain | plan/state.py:75-89 | the i-th step of a raw answer, when it repeats a finished step, becomes pending step m+i+1 beside the finished one |
| ExecutorReplan.RawCopyIff | plan/state.py:68-94 | the plan after a raw answer holds a pending copy of a finished step if and only if the answer repeats one |
| ExecutorReplan.RawEdgesIff | plan/state.py:75-85 | every dependency between two steps of a raw answer survives if and only if every step names the numbers, after m, of the steps it needs |
| PlanExecution.PlanExecutor.TryPolicyFallback | plan/executor.py:302-360 | the hit is the first registered candidate that succeeds on the tool runs numbered on from there, every registered one before it was called in vain, and it becomes the hint of the step; a miss means that all of them failed, and changes no step; the runs spent are bounded by the registered candidates |
| PlanExecution.PlanExecutor.ExecuteStep | plan/executor.py:218-294 | completed without a call if the step has no tool, skipped if no arguments are resolved; otherwise completed, with the output of the run that returned, if and only if its own call succeeds on the tool runs that come next, or that fails, a search is allowed and finds a tool, which is then the tool of the result, with the recovery action that the two providers determine; failed, with the error of its own call, in the remaining case |
| PlanExecution.PlanExecutor.RunStepWithRecovery | plan/executor.py:116-174 | a visit makes attempts until one does not fail or no retry is left, each with the answer and the records that the resolver and the tool runs give it; what it leaves is determined in every field by these results, the policy and the planner's answer; it raises exactly when the last attempt failed and the policy does not make up for it; the runs are bounded by VisitCost |
| PlanExecution.PlanExecutor.Attempts | plan/executor.py:116-151 | the attempt loop: attempts are numbered from 1, all but the last failed, the last failed only if no retry was left; their answers and records follow from the resolver and the tool runs, numbered on, and the state is the one they leave |
| PlanExecution.PlanExecutor.VisitedFields | plan/executor.py:116-174 | after a visit the trace has grown by one entry per attempt and the entry of the recovery; unless the plan was replaced, plan, statuses and results changed at the visited step only, to its last result or the skipped form of it; a replan leaves what applying the answer to the failed state leaves |
| PlanExecution.PlanExecutor.VisitReads | plan/executor.py:363-383 | the entries of a visit, field by field: attempts 1..k, success only for the last and only if it completed, then the skip or replan entry if the step failed; the step ends as its last attempt did, or skipped by the policy; a completed one joins the completed steps, and only a visit that raises leaves its step current |
| PlanExecution.VisitCost | plan/executor.py:116-123 | that bound is at most (1+step retries)·(1+F)·2·(1+tool retries), F the registered fallbacks |
| PlanExecution.PlanExecutor.HandleReplan | plan/executor.py:176-216 | the planner is asked about the traced failure, exactly its steps are applied after the finished ones and, with a validator, a normal return means the plan is valid |
| PlanExecution.PlanExecutor.Visit | plan/executor.py:98-110 | one loop iteration: it raises the deadlock error if and only if no step is executable; otherwise the step that is next was run, with its attempts, answers, records and recorded results; it keeps the loop-head invariant, and lowers (replan budget, open steps) lexicographically for any planner |
| PlanExecution.PlanExecutor.Execute | plan/executor.py:88-114 | from any covered state: the run terminates and is a list of visits, each to the step that was then next; trace and tool records are the old ones followed by those of all visits in order; every step finished meanwhile has the result of a visit to it recorded, with its status. From a validated plan with a finished prefix, moreover: steps start in id order with dependencies finished, the deadlock error is never raised, and normal return means a valid plan all of whose steps are completed or skipped |
| PlanExecution.PlanExecutor.RunEffect | plan/executor.py:88-174 | these two laws for any list of visits: the trace grows by all their entries in order, and a step that became finished was visited, with its last result and status recorded |
| ToolExecution.ToolExecutor.TryWithRetries | tools/executor.py:144-203 | success if and only if the tool is registered and one of the next (1+retries) runs returns; then the attempts end with the first such run and the observation holds its output; otherwise all attempts are used and the error is the last one raised; one record per attempt, numbered from 1, naming the original tool for a fallback, with at most the last one successful |
| ToolExecution.ToolExecutor.ExecuteWithReliability | tools/executor.py:104-142 | one retry loop, and a second one on the configured fallback exactly when the first failed and a fallback is configured; each is decided by the tool runs, the second loop's numbered on from the first's; the answer names the requested tool |
| ToolExecution.ToolExecutor.ExecuteLlmCall | tools/executor.py:83-102 | the observation is the one the tool runs determine; a call makes at most 2·(1+retries) runs and as many records |
| ToolExecution.CallSucceedsIff | tools/executor.py:104-203 | a call succeeds if and only if one of the tool's runs returns, or, with a fallback configured, one of the fallback's runs after them |
| ToolExecution.ReliableCallCost | tools/executor.py:104-203 | a call leaves one to 2·(1+retries) records, all failed but the last, whose success is the call's |
| Replanning.ReplanningController.ValidateOrRepairPlan | plan/replanning_controller.py:240-269 | validate, repair at most once, validate again; the installed containers are fresh, and untouched when the first validation passes |
| Replanning.ReplanningController.AssertCompletedStepsPreserved | plan/replanning_controller.py:351-367 | no error if and only if every completed step is unchanged at its id, or its id is gone and some step carries its task |
| Replanning.ReplanningController.TryApplyReplanSteps | plan/replanning_controller.py:210-238 | one attempt computes TryApply; when the applied plan does not validate, the containers it found are left holding that plan |
| Replanning.RestoreKeepsWellFormed | plan/replanning_controller.py:225-228 | putting steps of the earlier valid plan back after the last validation keeps the plan valid |
| Replanning.SuccessfulReplan | plan/replanning_controller.py:210-269 | from a valid plan with one status per step, an applied attempt ends in one again; each completed step is unchanged at its id, or that id is gone and its task still occurs |
| Replanning.ValidatedApplySucceeds | plan/replanning_controller.py:221-238 | an attempt whose first validation passes always succeeds and needs no restoring |
| Replanning.FailureMeansInvalid | plan/replanning_controller.py:221-269 | an attempt fails only if the plan it applied was invalid |
| Replanning.ReplanningController.PlannerAttempt | plan/replanning_controller.py:112-139 | after a failed first attempt the state equals, field by field, the state captured before it, and holds no container the attempt worked on |
| Replanning.ReplanningController.FallbackAttempt | plan/replanning_controller.py:135-178 | the fallback works on the restored state; when it fails too, the second restore leaves its applied plan, statuses and results, and each ending adds its trace entry |
| ReplanLaws.ReplanSoundIff | plan/replanning_controller.py:100-208 | from any sound state: the state a replan leaves is sound if and only if the planner's or the fallback's answer meets the condition of AppliedIff; otherwise the plan is not the previous one either |
| ReplanLaws.AppliedIff | plan/replanning_controller.py:210-238 | from any sound state and for any answer: an attempt is applied if and only if the answer is usable and either fits at once or every finished id beyond the end of the layout leaves its task at some place, where a place whose number is a finished id holds that finished step |
| ReplanLaws.AtOnceIff | plan/replanning_controller.py:240-269 | the applied plan validates as it stands if and only if the answer is usable, the finished ids are 1..m and the dependencies of every new step are smaller than its id |
| ReplanLaws.ListedInOrderFits | plan/state.py:75-85 | dependencies of answers listed in the order of their ids, and of repaired ones, always are |
| ReplanLaws.PrefixAppliedIff | plan/replanning_controller.py:210-238 | with finished ids 1..m, and finished steps with distinct keys or an answer listed in the order of its ids: applied if and only if every step has a task and no unknown tool and something is left |
| ReplanLaws.UnusableFails | plan/replanning_controller.py:210-269 | an unusable answer is never applied, whatever is finished |
| ReplanLaws.RepairedIsValid | plan/replanning_controller.py:240-269 | the one repair makes the applied plan valid if and only if the answer was usable: ids, dependencies and duplicates are always put right, tasks and tools never |
| ReplanLaws.DistinctTasksAppliedIff | plan/state.py:96-115 | for finished steps with distinct tasks and any answer: applied if and only if the answer is usable and no finished step beyond the end is overwritten at the place it moves to without a new step of its task keeping a place |
| ReplanExamples.BlankAnswersBreakThePlan | plan/replanning_controller.py:135-178 | planner and fallback both answer a step without a task: the plan left is neither the previous one nor valid |
| ReplanExamples.UsableAnswerRefused | plan/state.py:96-115 | steps 2 and 4 of four are finished, one step with a task is to follow: the attempt is refused, and twice refused it leaves an invalid state |
| ReplanKeeps.ReplanKeepsWorkIff | plan/state.py:68-115 | from any sound state and for any answer that is applied: every step that repeats no finished one is in the plan, and every finished id still there is finished, if and only if the answer fits at once or no finished id lies in m+1..m+p, with m keys among the finished steps and p new steps |
| ReplanKeeps.FittingNeverCollides | plan/state.py:68-94 | for finished ids 1..m of steps with distinct keys no finished id lies there, so the second alternative decides alone |
| ReplanKeeps.PendingCopyIff | plan/state.py:68-94 | an applied plan holds a pending step with the key of a finished one if and only if, for an answer that fits, some step of it repeats a finished one, and, for a repaired one, a finished id collides |
| ReplanKeeps.RepeatsRunAgain | plan/state.py:75-89 | in an answer that fits, the i-th step when it repeats a finished one becomes a pending step beside the finished one |
| ReplanExamples.RepeatedStepRunsAgain | plan/state.py:75-89 | step 1 is finished and the answer is it and a new step: the plan becomes [1 a, 2 a, 3 c] with 2 pending |
| ReplanKeeps.EdgesSurviveIff | plan/state.py:75-85 | when the answer fits, every dependency between two of its steps, by the ids the answer gave, holds between the steps they become if and only if every step that names the id of the k-th listed step names max+k+1, too |
| ReplanKeeps.EdgesInOrderIff | plan/state.py:75-85 | for answers with distinct ids that are listed in id order or were repaired, that is: nothing was finished, or there are no dependencies |
| ReplanExamples.EdgeMovesThoughNothingFinished | plan/state.py:75-85 | nothing is finished and the answer is 2 b, 1 a, 3 c after a: it fits, and in the plan c depends on b |
| ReplanExamples.EdgeKeptThoughOneFinished | plan/state.py:75-85 | step 1 is finished and the answer is 2 x, 1 y, 3 z after x: it fits, and every dependency survives |
| ReplanKeeps.RepairedEdge | plan/repair.py:43-52 | in the repaired plan, before finished steps are put back, a step depends on an earlier one if and only if its dependencies named the id the earlier one had before |
| ReplanKeeps.RepairedEdgesIff | plan/replanning_controller.py:221-238 | in the plan a repaired attempt ends with, every dependency between two new steps that keep their places holds if and only if each of them is laid out behind those it needs and names their numbers |
| ReplanExamples.RepairDropsTheEdge | plan/repair.py:43-52 | nothing is finished and the answer is 2 b after a, 1 a: it does not fit, and the only dependency is lost |
| ReplanExamples.DependencyMoves | plan/state.py:75-85 | step 1 is finished and the answer is b, and c depending on b: in the plan c depends on the finished step |
| ReplanKeeps.RepairedResults | plan/state.py:117-152 | repair moves every result with its step to its place; a place whose step had none ends with one exactly when a dropped step with that id had one |
| ReplanKeeps.FinishedResultAfterRepair | plan/state.py:96-152 | with a result for every finished step: a finished step put back at id x ends with the result of the step laid out at x, for x up to m; beyond, with its own if it was dropped as a duplicate, else with none |
| ReplanExamples.CollisionLosesTheAnswer | plan/state.py:96-115 | step 2 of two is finished, one new step is to follow: the attempt is applied, the new step is nowhere in the plan and id 2 is pending |
| Replanning.ReplanningController.Replan | plan/replanning_controller.py:100-208 | from any state: the two-attempt protocol on the heap ends in ReplanOutcome, with exactly the trace entries of its steps |
| Replanning.ReplanningController.Handle | plan/replanning_controller.py:77-98 | an attempt is used up if and only if the critic asks, the controller is enabled and the limit is not reached; then the result and the state are those of the two-attempt protocol; otherwise nothing changes; a reported replan from a sound state leaves a sound state where each completed step is unchanged at its id, or that id is gone and its task still occurs |
| ReplannerNode.HandledIff | plan/replanning_controller.py:100-208 | from a sound state the plan is replaced if and only if the planner's answer applies or the fallback's does, and the state is that attempt's up to the trace; otherwise the plan left is not the previous one and not sound |
| ReplannerNode.ReplanNotes | plan/replanning_controller.py:303-339 | the trace entries of such a replan, in order: asked for; fallback used, or nothing applied; repaired, if and only if the answer that applied had to be repaired or did not fit as it was |
| ReplannerNode.AnswerInstalled | plan/replanning_controller.py:100-208 | nothing finished and a planner that answers good steps, listed once each in id order: the plan is replaced by that answer numbered from 1, with its tasks, tools and backward dependencies, exactly that answer if it was so numbered, and every step is pending |
| ReplannerNode.RunReplanner | graph/runtime/nodes.py:138-160 | without plan state or critique the node changes nothing; otherwise it records the outcome of Handle, copies its counter, plan and trace, and withdraws the wish for a replan if and only if it was granted |
| GraphEngine.Graph.AddParallelFanout | graph/runtime/core/graph.py:113-124 | the fan-out is appended, with a parallel edge out and a join edge back per branch, in order |
| GraphEngine.Graph.AddJoinNode | graph/runtime/core/graph.py:126-149 | join spec, node and, unless it leads to the end, a direct edge |
| GraphEngine.Graph.FindFanOut | graph/runtime/core/graph.py:151-155 | the loop returns the first fan-out of the node |
| GraphEngine.Graph.ResolveNext | graph/runtime/core/graph.py:514-524 | the loop returns the first matching edge that is not parallel, else the end |
| GraphEngine.ParallelResolve | graph/runtime/core/graph.py:514-524 | a node with parallel edges only leads to the end |
| GraphEngine.FanOutEdgesAt | graph/runtime/core/graph.py:113-124 | what a fan-out adds at every node, for distinct branches |
| GraphEngine.Graph.RunParallelFanout | graph/runtime/core/graph.py:312-441 | every branch runs once on its own copy, the merge gets the state and all branch states in branch order, then the join node runs |
| GraphEngine.FanOutPass | graph/runtime/core/graph.py:204-257 | a pass at a fan-out, for any node functions: it ends in the join's function at the merge of the source's state with all branch states in branch order, goes on at the join's successor, and visits source, branches and join |
| GraphEngine.Graph.Astream | graph/runtime/core/graph.py:193-310 | the loop follows the walk specification: visits, final state, passes and ending |
| GraphEngine.WalkBounded | graph/runtime/core/graph.py:193 | no walk of any graph takes more passes than its budget |
| GraphEngine.WalkKeeps | graph/runtime/core/graph.py:193-307 | what every pass keeps holds wherever a walk ends, and at the end node if it got there |
| PlanCompiler.TopologicalLevels | graph/runtime/compiler/plan_compiler.py:84-102 | the loop terminates on any plan and computes the levels the next rows are about |
| PlanCompiler.DictIsGraph | graph/runtime/compiler/plan_compiler.py:86 | the compiler's dictionary has the ids and dependencies of the validator's graph, the last copy of a repeated id included |
| PlanCompiler.LevelsDisjoint | graph/runtime/compiler/plan_compiler.py:90-102 | an id is placed at one level only |
| PlanCompiler.LevelsExact | graph/runtime/compiler/plan_compiler.py:84-102 | a step sits at level k if and only if its transitive dependencies all exist and are cycle-free and its longest dependency chain has k edges |
| PlanCompiler.UnplacedIsUngrounded | graph/runtime/compiler/plan_compiler.py:95-96 | a step that is never placed has a missing or cyclic transitive dependency |
| PlanCompiler.ValidPlanIsPlaced | graph/runtime/compiler/plan_compiler.py:84-102 | of a validated plan nothing is dropped, and every step is above all its dependencies |
| CompiledWalk.Compile | graph/runtime/compiler/plan_compiler.py:26-81 | the builder calls produce the graph value all walk results are about |
| CompiledWalk.AddLevel | graph/runtime/compiler/plan_compiler.py:56-78 | one round adds the edges or fan-out of a level and its join |
| CompiledWalk.SourceEdges | graph/runtime/compiler/plan_compiler.py:56-78 | at a join the edge to the next level's first step comes before the edges into that level |
| CompiledWalk.CompiledRun | graph/runtime/core/graph.py:193-307 | for every plan, node behaviour, merge and stop test: the run visits exactly the expected walk, or a prefix of it up to the stop, within 2m+2 passes for m levels, so the budget max(4n,10) is never exhausted and no node is unknown |
| CompiledWalk.ExpectedCount | graph/runtime/core/graph.py:244-249 | a placed step is visited once if its level is narrow or fanned out or it is the lowest id there, else never |
| CompiledWalk.FannedParity | graph/runtime/core/graph.py:244-249 | of a run of wide levels exactly every second one, from the first, is fanned out |
| CompiledWalk.AllVisitedIff | graph/runtime/core/graph.py:244-249 | all placed steps are visited if and only if no two adjacent levels are wide |
| CompiledWalk.LevelOrder | graph/runtime/compiler/plan_compiler.py:55-78 | visited steps of lower levels come before visited steps of higher levels |
| CompiledWalk.ValidPlanRun | graph/runtime/core/graph.py:193-307 | a validated plan under a stop test that stays false: the run ends at the end node within 2n+2 passes, each step is visited as its level says, and after each visited dependency |
| CompiledWalk.EveryStepOnceIff | graph/runtime/core/graph.py:193-307 | every step of a validated plan is visited exactly once and after all its dependencies if and only if no two adjacent levels are wide |
| CompiledOutcome.RunOutcome | graph/runtime/compiler/plan_compiler.py:110-134 | over any state that carries a plan state, whatever is finished at the start, with step guards, copies and a merge that keeps the last copy: of each level one step survives, and is finished if it was or if its dependencies are by then; nothing finished is lost and at most one step per level is added |
| CompiledOutcome.CompletesIff | graph/runtime/compiler/plan_compiler.py:110-134 | a compiled run whose steps all succeed leaves the plan finished if and only if every step that is not its level's survivor was finished when it started |
| CompiledOutcome.CompletesIffSequential | graph/runtime/state_merge.py:146-148 | from a fresh plan state that is the case if and only if every level holds a single step |
| CompiledMerge.DeepMergeKeepsLastCopy | graph/runtime/state_merge.py:146-148 | the deep merge of branches that carry a plan state is such a merge |
| CompiledMerge.FannedLevelMerges | graph/runtime/core/graph.py:312-441 | under the deep merge the state after a fanned level of a compiled plan shows, in every list field, every printed form of the source's and of every step's list, none twice, what a step adds after all that comes before it in step order |
| CompiledMerge.ShownStays | graph/runtime/state_merge.py:140-144 | in any graph whose nodes only add to the lists, no fan-out on any walk loses what a list showed |
| CompiledMerge.FannedLevelReported | graph/runtime/state_merge.py:140-144 | so the final state of a compiled run still shows what any step of a fanned level listed on its own copy |
| CompiledExample.TwoByTwoFails | graph/runtime/core/graph.py:244-249 | steps 1 and 2 below 3 and 4, any nodes: step 4 is never visited |
| CompiledExample.TwoByTwoCompletesIff | graph/runtime/compiler/plan_compiler.py:110-134 | and the plan is completed, if every step succeeds, if and only if 1 and 4 were finished before |
| Workflow.Build | graph/runtime/workflow.py:29-88 | the builder calls produce the macro graph all run results are about |
| Workflow.EdgesLead | graph/runtime/workflow.py:46-87 | where each macro node leads, conditions evaluated in order |
| Workflow.MacroRun | graph/runtime/workflow.py:29-88 | every run, for any pass limit, is the six opening nodes, as many replan rounds as were asked for, critic and finalize, after which nothing runs and should_stop is set; or the limit cut it short, exactly when 8+5r passes do not fit |
| Workflow.FinalizedIff | graph/runtime/workflow.py:62-80 | a run reaches finalize if and only if the critic stops asking after a number of replans that fits the limit |
| Workflow.AsksIff | graph/runtime/workflow.py:66-80 | after r replans, each asked for, the critic asks again if and only if it is enabled, answers so on the data that the nodes' work up to and including its own has left, and the counter is below the limit |
| Workflow.RunFollowsCritic | graph/runtime/nodes.py:126-135 | a run is replanned exactly as often as visits of the critic in a row call for it, then finalized, in 8+5r passes |
| Workflow.ReplannedIff | graph/runtime/workflow.py:66-80 | in a run with passes enough the replanner is visited more than r times if and only if the critic's first r+1 visits all call for it |
| Workflow.NeverAsking | graph/runtime/nodes.py:126-135 | a critic that is disabled or does not ask on its first visit: the six opening nodes, critic, finalize, in 8 passes |
| Workflow.AsksExactly | graph/runtime/workflow.py:66-80 | a critic that asks k times and then no more, within limit and passes: exactly k replans, each followed by another execution |
| Workflow.ReplansBounded | plan/replanning_controller.py:77-105 | with an enabled controller at most max(M,0) replans are asked for, from any counter value and for any critic |
| Workflow.MacroLiveness | graph/runtime/nodes.py:126-167 | enabled controller: at most M replanner visits; with at least 8+5M passes the run ends in finalize with should_stop set |
| Workflow.DisabledNeverFinalizes | plan/replanning_controller.py:85-86 | disabled controller and a critic that always asks: finalize is never visited and the run uses up any pass limit |
| StateVersioning.DiffRoundTrip | graph/runtime/state_versioning.py:14-22 | applying a diff to the snapshot it was taken from rebuilds the other snapshot |
| StateVersioning.LineageUnfolds | schemas/state_versioning.py:36-48 | a lineage is the parent's lineage plus the version, and the parent sits earlier in the store |
| StateVersioning.LineageStartsAtRoot | schemas/state_versioning.py:36-48 | a lineage is not empty, its head has no parent, and it ends at the version |
| StateVersioning.StateVersionStore.LineageOf | schemas/state_versioning.py:36-48 | the cursor loop terminates on every store that keeps the invariant and returns that lineage, root first |
| StateVersioning.ReplayRebuilds | graph/runtime/state_versioning.py:39-64 | folding the stored diffs along a lineage onto the root snapshot rebuilds the version's snapshot |
| StateVersioning.LineagesPreserved | schemas/state_versioning.py:36-48 | a store that keeps all versions of another keeps all their lineages |
| StateVersioning.CommitKeepsInv | graph/runtime/state_versioning.py:39-64 | a commit keeps the invariant and its lineage is the current one extended by the new version |
| StateVersioning.CommitRecords | graph/runtime/state_versioning.py:52-64 | a commit is found under its id with the store's branch, its node, the version it was made on and the snapshot; all other versions and the branch table are untouched |
| StateVersioning.CommitAfterFork | graph/runtime/state_versioning.py:94-117 | a fork puts the store on the new branch at the base version and moves no other branch; the first commit after it carries the new branch's name and extends the base's lineage, while the branch table keeps pointing to the base |
| StateVersioning.CommitAfterReturn | graph/runtime/state_versioning.py:66-78 | after a rollback commits go on from the version, on the branch it was made on |
| StateVersioning.GraphState.CommitVersion | graph/runtime/state_versioning.py:39-64 | commit on the heap: store, state id and returned version |
| StateVersioning.MergeKeepsInv | graph/runtime/state_merge.py:109-130 | merging stores that agree on shared ids keeps the invariant and every lineage of both |
| StateVersioning.ReachableStoresInv | graph/runtime/state_versioning.py:39-117 | under any interleaving of commits, rollbacks, forks, branch copies and merges every store has unique ids, parents before children, exact diffs and an existing current version, and stores agree on shared ids |
| StateVersioning.StepKeepsLineages | graph/runtime/state_versioning.py:39-117 | a commit, rollback, fork, branch copy or merge leaves every lineage of every store as it was |
| StateVersioning.RunKeepsLineages | graph/runtime/state_versioning.py:39-117 | in any run an existing lineage never changes, whatever operations follow, and it starts at a version without parent |
| StateVersioning.RollbackSnapshot | graph/runtime/agent_state.py:72-80 | a rolled-back state shows the version's snapshot in every field except the version id and the live plan state; its memory is the snapshot's, without a compiled graph |
| StateVersioning.CommitAfterRollback | graph/runtime/state_versioning.py:66-78 | committing right after a rollback records a diff in those two fields at most |
| StateVersioning.GraphState.RollbackTo | graph/runtime/state_versioning.py:66-78 | an unknown id fails without effect; otherwise a new state object shares the store and the store's current version is set |
| StateVersioning.GraphState.ForkBranch | graph/runtime/state_versioning.py:94-117 | forking fails without effect exactly when there is no base version; otherwise branch tables and fields are updated under the given or generated name and the invariant kept |
| StateMerge.DedupeKeys | graph/runtime/state_merge.py:167-176 | deduplication keeps one item per printed form and loses no form |
| StateMerge.DedupePositions | graph/runtime/state_merge.py:167-176 | the kept items are the first ones of their printed form, in list order |
| StateMerge.DedupeList | graph/runtime/state_merge.py:167-176 | the loop with its seen set computes that order-preserving deduplication |
| StateMerge.DedupeTwice | graph/runtime/state_merge.py:167-176 | deduplicating a prefix first makes no difference |
| StateMerge.MergeStates | graph/runtime/state_merge.py:25-39 | the loop folds the pairwise merges, or fails as soon as a pair conflicts |
| StateMerge.DeepFoldIsFold | graph/runtime/state_merge.py:25-60 | with the deep strategy, and with the list strategy under alike printed forms, that fold never fails and is the deep merge the next rows are about |
| StateMerge.LastWinsIsLast | graph/runtime/state_merge.py:48-49 | with the last-wins strategy nothing of the base or of earlier branches is left |
| StateMerge.StrictMergeIff | graph/runtime/state_merge.py:51-77 | the strict strategy fails if and only if base and branches do not all agree on stop flag and query and on every plan, step, result or critique that more than one of them has; otherwise it is the deep merge |
| StateMerge.ListMergeIsDeepMerge | graph/runtime/state_merge.py:159-164 | the list strategy gives the deep merge whenever live and dumped items print alike up to equality |
| StateMerge.ListMergeIsDeepMergeIff | graph/runtime/state_merge.py:159-164 | and it does so for all states only then |
| StateMerge.ListsClosedForm | graph/runtime/state_merge.py:140-144 | for n≥1 branches each list field is one deduplication of base followed by all branches |
| StateMerge.MergeHoldsAll | graph/runtime/state_merge.py:140-144 | so each list field shows every printed form of base and branches, once, and what a branch adds after all that base and earlier branches show |
| StateMerge.LastBranchWins | graph/runtime/state_merge.py:137-138 | a key of the last branch ends with the last branch's value |
| StateMerge.OrderIrrelevantIff | graph/runtime/state_merge.py:137-138 | the merged map is the same for every branch order if and only if branches agree on shared keys |
| StateMerge.OrderMatters | graph/runtime/state_merge.py:137-138 | two branches that give one key different values merge differently in the two orders |
| StateMerge.MergeOrderIrrelevantIff | graph/runtime/state_merge.py:137-138 | observations and memory of the merge of any branches are the same for every branch order if and only if the branches agree on the shared keys of both |
| StateMerge.DisjointWritesAgree | graph/runtime/state_merge.py:137-138 | branches that keep all base entries and write disjoint new keys meet that condition |
| StateMerge.DisjointBranchesMergeAlike | graph/runtime/state_merge.py:137-138 | branches that keep the base entries and write disjoint new keys merge to the same observations and memory in every order |
| StateMerge.ScalarsClosedForm | graph/runtime/state_merge.py:146-148 | plan, current step, result, critique and plan state come from the last branch that has one |
| StateMerge.UnsetScalars | graph/runtime/state_merge.py:146-148 | and from the base when no branch has one |
| StateMerge.ControlClosedForm | graph/runtime/state_merge.py:150-151 | should_stop is the disjunction and replan_attempts the maximum over base and branches; the query stays the base's |
| StateMerge.VersionIdClosedForm | graph/runtime/state_merge.py:154-154 | the state id is that of the last branch that has one, else the base's |
| StateMerge.StoresClosedForm | graph/runtime/state_merge.py:109-130 | for stores that agree on shared ids: the merged store holds exactly the versions of all stores and keeps every lineage of each |
| StateMerge.StoreHeads | graph/runtime/state_merge.py:124-129 | its current version, branch name and every branch table entry come from the last branch whose store has one |
| JsonScan.FindJsonEnd | core/llm/json_utils.py:41-66 | the one-pass loop computes the scanner automaton; its result lies behind the start |
| JsonScan.ValueIsNeutral | core/llm/json_utils.py:41-66 | scanning any JSON value, whatever its strings contain, leaves depth and string state unchanged and never stops |
| JsonScan.FindsMatchingEnd | core/llm/json_utils.py:41-66 | started on the opening bracket of any object or array text, with any text around it, the scanner returns exactly the index behind the matching bracket |
| JsonScan.SliceIsValue | core/llm/json_utils.py:26-35 | after bracket-free prose the slice is exactly the value |
| JsonScan.OutermostJson | core/llm/json_utils.py:26-38 | prose, value, anything gives the value; text that starts with a bracket or has none is kept whole; either is returned if and only if the JSON parser accepts it |
| WriteQueue.NextKeepsInv | persistence/async_writer.py:16-80 | every step keeps: settled ++ in-flight ++ queued equals the accepted writes in order, the queue is within its size, the unfinished count is queued plus in-flight |
| WriteQueue.ReachableInv | persistence/async_writer.py:16-80 | that invariant holds in every reachable state |
| WriteQueue.AcceptedIff | persistence/async_writer.py:48-67 | a write is accepted if and only if the queue is open and unbounded or holds fewer than maxsize writes; a refused write leaves no trace |
| WriteQueue.BurstAccepted | persistence/async_writer.py:48-67 | of a burst the worker does not interrupt, exactly the first writes that there is room for are accepted, in order |
| WriteQueue.JoinMeansAllExecuted | persistence/async_writer.py:27-41 | without a cancel, executed writes are a prefix of the accepted ones, and a join completes if and only if all were executed, once each and in order |
| WriteQueue.LossBoundedByCancels | persistence/async_writer.py:42-46 | with cancels, at most one accepted write is lost per cancel while being written |
| WriteQueue.ClosedAcceptsNothing | persistence/async_writer.py:48-56 | after close no run of steps accepts anything |
| WriteQueue.WorkerDrains | persistence/async_writer.py:69-80 | the worker alone empties the queue in a known number of steps |
| WriteQueue.StopDeliversIff | persistence/async_writer.py:33-46 | stop executes everything pending, in order, if and only if a live worker has the time to drain the queue, or without one nothing is queued |
| WriteQueue.StopExecutesAllIff | persistence/async_writer.py:33-46 | given that time, stop leaves no accepted write in the queue if and only if a worker is present or nothing is queued; it has executed all of them, once and in order, if and only if moreover none was abandoned before |
| WriteQueue.AsyncWriteQueue.SubmitWrite | persistence/async_writer.py:48-67 | submit on the object is the Submit step |
| WriteQueue.AsyncWriteQueue.WorkerTurn | persistence/async_writer.py:69-80 | one turn of the worker loop on the object, queue open or closed, is the worker step |
| WriteQueue.AsyncWriteQueue.RunWorker | persistence/async_writer.py:69-80 | run until it returns, on a closed queue, or waits on an empty open one, the worker loop has executed everything queued in order |
| WriteQueue.AsyncWriteQueue.StopQueue | persistence/async_writer.py:33-46 | stop on the object is that step |
| WriteQueue.StopWithoutWorkerKeepsWrites | persistence/async_writer.py:33-36 | any write accepted before the worker was started stays queued after stop, for any patience |

## Left out

- Language-model clients, prompts, the tool protocol transport, HTTP routes, event streams, SQLite stores, logging, metrics, memory stores: input and output; planner, critic, resolver and tool answers are arbitrary inputs of the model.
- The budget and synthesis regular expressions: two arbitrary predicates on the task (`Patterns`).
- JSON dumping, hashing and uuid generation: snapshots are maps over the fixed key set, ids are numbers not used before, a printed form is an arbitrary function.
- Message texts of errors, notes and trace entries: kept as constructors with their arguments.
- PlanStateModel.PlanState.RemapStepStatus: `completed_steps` is filled in ascending order here, where the code iterates over a dictionary; its contents are the same.
- Dictionary order of the replan anchor for failed ids outside the plan.
- `global_context`, context compression, the execution-graph view and its snapshots: written during a run, never read back by the parts modelled.
- `PlanValidator.validate_raw` and `assert_valid`: thin wrappers around `validate`.
- Code-fence removal and stripping in `extract_json_text`: library string calls before the part modelled by `OutermostJson`.
- Execution-graph records, event sequence numbers and replay mode of the graph engine: they do not influence the walk.
- Node functions that raise inside the graph engine: an exception ends the run and leaves nothing to state.
- Interleaving inside a fan-out: branches work on deep copies, so they are independent functions followed by the merge.
- CompiledOutcome.RunOutcome: step nodes that fail, skip or replan, and steps that already failed, are not modelled there, because each then follows the executor's recovery; the walk results of CompiledWalk hold for any node behaviour.
- CompiledOutcome.CompletesIff: the conflict-raising merge strategy is not covered, since differing current steps make it raise before the join.
- CompiledMerge.FannedLevelReported: assumes that node functions only add to the list fields, for the part of the run after the fan-out; the merge itself (`FannedLevelMerges`) is stated for any node functions.
- ReplannerNode.RunReplanner: the compiled graph that the node stores after a replan is not one of the modelled fields; compilation is `CompiledWalk.Compile`.
- ToolExecution.ToolExecutor.TryWithRetries: the error of an attempt on an unknown tool is left open, apart from being set.
- Workflow.MacroLiveness: node calls are assumed not to raise.
- WriteQueue.LossBoundedByCancels: a write fetched by a read that is cancelled before it is handed to the loop is not modelled, nor are the timeouts of the join; a timed-out join is followed by the cancel step.
- WriteQueue.AsyncWriteQueue.RunWorker: on an empty open queue the loop polls until something is submitted; the method ends there, and what follows is another run.
- PlanExecution.PlanExecutor.Execute: the ordering and deadlock results need a validator over the executor's own tool registry; without one a planner may install an invalid plan.
- PlanExecution.VisitCost: an upper bound, since the policies skip and replan make one attempt only.
- Batch tool execution, per-call timeouts and latency measurement: wrappers around the modelled call.
- Tool policy scoring, critic scoring, evaluation metrics, agent loop, orchestrator and short-term memory: finite case splits or views beside the modelled pieces.
- Hierarchical graphs: the state mapping between the macro graph and the compiled plan graph is not modelled; both graphs are.
