/** Plan execution with retry, skip and replan recovery (plan/executor.py). */
module PlanExecution {
  import opened Sequences
  import opened PlanSchema
  import opened PlanValidation
  import opened PlanRepair
  import opened PlanStateModel
  import opened ToolExecution

  datatype FailurePolicy = Retry | Skip | Replan

  datatype FailureConfig = FailureConfig(policy: FailurePolicy, stepMaxRetries: nat, maxReplanAttempts: nat)

  /** How a call ended: normally, or with the error that was raised. */
  datatype Outcome = Done | StepFailed | ReplanLimit | NoPlanner | InvalidPlan | Deadlock

  /** A step start: which step, what it depends on, and what was finished at that moment. */
  datatype StepStart = StepStart(stepId: int, deps: seq<int>, finished: set<int>)

  /** One visit of a run: the step and its position, the results of its attempts, the planner's answer if it was asked,
      how it ended, and the tool records it added. */
  datatype VisitLog = VisitLog(
    index: nat, step: PlanStep, results: seq<StepResult>, newSteps: seq<PlanStep>, out: Outcome,
    recs: seq<TraceRecord>)

  function AllRecords(visits: seq<VisitLog>): seq<TraceRecord> {
    if visits == [] then [] else AllRecords(visits[..|visits| - 1]) + visits[|visits| - 1].recs
  }

  /** Everything outside the executor, as answers to numbered questions. */
  datatype World = World(
    resolve: (nat, PlanStep) -> Option<string>,
    replan: (nat, View) -> seq<PlanStep>,
    candidates: int -> seq<string>,
    provider: string -> Provider)

  datatype Provider = Builtin | Mcp | UnknownProvider

  /** `recovery_action_for_fallback` */
  function RecoveryAction(failed: Provider, fallback: Provider): string {
    if failed == Mcp && fallback == Builtin then "mcp_to_builtin_fallback"
    else if failed == Builtin && fallback == Mcp then "builtin_to_mcp_fallback"
    else "tool_policy_fallback"
  }

  // --------------------------------------------------------------- invariant

  /** The loop-head invariant: a validated plan, exactly the ids 1..m finished, and everything else pending. */
  ghost predicate HeadAt(v: View, registry: set<string>, m: nat) {
    && WellFormed(v.plan, registry)
    && Consistent(v)
    && m <= |v.plan.steps|
    && PrefixStatus(v.status, m)
  }

  /** The plan is still valid and every one of its steps is completed or skipped. */
  ghost predicate AllDone(v: View, registry: set<string>) {
    WellFormed(v.plan, registry) && Consistent(v) && forall id :: id in v.status ==> Finished(v.status[id])
  }

  /** Ids up to m are finished, the others pending. */
  ghost predicate PrefixStatus(status: map<int, StepStatus>, m: int) {
    forall id :: id in status ==> if id <= m then Finished(status[id]) else status[id] == Pending
  }

  lemma HeadDependenciesMet(v: View, registry: set<string>, m: nat)
    requires HeadAt(v, registry, m) && m < |v.plan.steps|
    ensures DependenciesMet(v, m + 1)
    ensures FinishedIds(v) == set id | id in v.status && id <= m
  {
    ContiguousCovers(v.plan.steps);
    assert m + 1 in IdSet(v.plan.steps);
    var step := FindStep(v.plan.steps, m + 1).value;
    assert PriorStep(step);
  }

  /** At a loop head the next step is always m+1, so the deadlock branch is dead. */
  lemma HeadNext(v: View, registry: set<string>, m: nat)
    requires HeadAt(v, registry, m) && m < |v.plan.steps|
    ensures NextExecutable(v) == Some(m + 1)
  {
    HeadDependenciesMet(v, registry, m);
    SortedByIdFacts(v.plan.steps);
    SkipFinished(v, registry, m, 0);
  }

  lemma {:induction false} SkipFinished(v: View, registry: set<string>, m: nat, i: nat)
    requires HeadAt(v, registry, m) && i <= m < |v.plan.steps|
    requires DependenciesMet(v, m + 1) && |SortById(v.plan.steps)| == |v.plan.steps|
    ensures NextAmong(v, SortById(v.plan.steps)[i..]) == Some(m + 1)
    decreases m - i
  {
    var sorted := SortById(v.plan.steps);
    SortedContiguous(v.plan.steps, i);
    assert sorted[i..][0] == sorted[i] && sorted[i..][1..] == sorted[i + 1..];
    assert sorted[i].id in v.status;
    if i < m {
      SkipFinished(v, registry, m, i + 1);
    }
  }

  /** What running one step to success or skip does to the view. */
  ghost predicate StepFinished(v: View, w: View, id: int, registry: set<string>) {
    && w.plan.goal == v.plan.goal
    && HintOnly(v.plan.steps, w.plan.steps, registry)
    && id in w.status && Finished(w.status[id]) && w.status == v.status[id := w.status[id]]
  }

  /** What a replan after the failure of step id does to the plan and the statuses. */
  ghost predicate ReplannedAfter(v: View, w: View, id: int, newSteps: seq<PlanStep>) {
    var r := ApplyReplanned(v.(status := v.status[id := Failed]), newSteps);
    w.plan == r.plan && w.status == r.status
  }

  /** The same steps, except that hints may have become registered tools. */
  ghost predicate HintOnly(steps: seq<PlanStep>, steps': seq<PlanStep>, registry: set<string>) {
    && |steps| == |steps'|
    && forall i :: 0 <= i < |steps| ==> HintOnlyStep(steps[i], steps'[i], registry)
  }

  ghost predicate HintOnlyStep(s: PlanStep, s': PlanStep, registry: set<string>) {
    s' == s || (s'.toolHint.Some? && s'.toolHint.value in registry && s' == s.(toolHint := s'.toolHint))
  }

  lemma HintOnlyAt(steps: seq<PlanStep>, steps': seq<PlanStep>, registry: set<string>, i: nat)
    requires HintOnly(steps, steps', registry) && i < |steps|
    ensures var s, t := steps[i], steps'[i];
            && s in steps && t in steps' && t.id == s.id && t.task == s.task && t.Deps() == s.Deps()
            && (t.toolHint == s.toolHint || (t.toolHint.Some? && t.toolHint.value in registry))
  {
    assert HintOnlyStep(steps[i], steps'[i], registry);
  }

  lemma HintOnlyIds(steps: seq<PlanStep>, steps': seq<PlanStep>, registry: set<string>)
    requires HintOnly(steps, steps', registry)
    ensures DistinctIds(steps) ==> DistinctIds(steps')
    ensures IdSet(steps') == IdSet(steps)
  {
    if DistinctIds(steps) {
      forall i, j | 0 <= i < j < |steps'| ensures IdOf(steps'[i]) != IdOf(steps'[j]) {
        HintOnlyAt(steps, steps', registry, i);
        HintOnlyAt(steps, steps', registry, j);
        assert IdOf(steps[i]) != IdOf(steps[j]);
      }
    }
    forall s | s in steps' ensures s.id in IdSet(steps) {
      var i :| 0 <= i < |steps'| && steps'[i] == s;
      HintOnlyAt(steps, steps', registry, i);
    }
    forall s | s in steps ensures s.id in IdSet(steps') {
      var i :| 0 <= i < |steps| && steps[i] == s;
      HintOnlyAt(steps, steps', registry, i);
    }
  }

  lemma HintOnlyKeepsWellFormed(plan: Plan, plan': Plan, registry: set<string>)
    requires WellFormed(plan, registry) && plan'.goal == plan.goal && HintOnly(plan.steps, plan'.steps, registry)
    ensures WellFormed(plan', registry) && IdSet(plan'.steps) == IdSet(plan.steps)
  {
    HintOnlyIds(plan.steps, plan'.steps, registry);
    forall s | s in plan'.steps
      ensures !IsBlank(s.task) && 1 <= s.id <= |plan'.steps| && PriorStep(s)
      ensures s.toolHint.Some? ==> s.toolHint.value in registry
    {
      var i :| 0 <= i < |plan'.steps| && plan'.steps[i] == s;
      HintOnlyAt(plan.steps, plan'.steps, registry, i);
      assert PriorStep(plan.steps[i]);
    }
  }

  lemma FinishAdvances(v: View, w: View, registry: set<string>, m: nat)
    requires HeadAt(v, registry, m) && m < |v.plan.steps| && StepFinished(v, w, m + 1, registry)
    ensures HeadAt(w, registry, m + 1)
  {
    HintOnlyKeepsWellFormed(v.plan, w.plan, registry);
    HeadIds(v, registry, m);
    PrefixAdvances(v.status, m, w.status[m + 1]);
    assert w.status.Keys == v.status.Keys;
  }

  lemma HeadIds(v: View, registry: set<string>, m: nat)
    requires HeadAt(v, registry, m)
    ensures forall id :: id in v.status <==> 1 <= id <= |v.plan.steps|
  {
    ContiguousCovers(v.plan.steps);
    assert forall id :: id in v.status.Keys <==> id in IdSet(v.plan.steps);
  }

  lemma PrefixAdvances(status: map<int, StepStatus>, m: int, st: StepStatus)
    requires PrefixStatus(status, m) && Finished(st)
    ensures PrefixStatus(status[m + 1 := st], m + 1)
  {
  }

  /** The steps of a replanned list: old ones up to m, new ones beyond. */
  lemma KeptHas(steps: seq<PlanStep>, finished: set<int>, id: int)
    requires id in IdSet(steps) && id in finished
    ensures id in IdSet(KeptSteps(steps, finished))
  {
    var s :| s in steps && s.id == id;
    assert s in KeptSteps(steps, finished);
  }

  lemma IdSetConcat(a: seq<PlanStep>, b: seq<PlanStep>)
    ensures IdSet(a + b) == IdSet(a) + IdSet(b)
  {
    assert forall s :: s in a + b <==> s in a || s in b;
  }

  lemma FailedStillPrefix(v: View, registry: set<string>, m: nat)
    requires HeadAt(v, registry, m) && m < |v.plan.steps|
    ensures var finished := FinishedIds(v.(status := v.status[m + 1 := Failed]));
            (forall id :: id in finished <==> 1 <= id <= m) && MaxOrZero(finished) == m
    ensures m + 1 in v.status
  {
    HeadIds(v, registry, m);
    PrefixFinished(v.(status := v.status[m + 1 := Failed]), m);
  }

  lemma PrefixFinished(v: View, m: nat)
    requires forall id :: 1 <= id <= m ==> id in v.status && Finished(v.status[id])
    requires forall id :: id in v.status && !(1 <= id <= m) ==> !Finished(v.status[id])
    ensures forall id :: id in FinishedIds(v) <==> 1 <= id <= m
    ensures MaxOrZero(FinishedIds(v)) == m
  {
    assert m > 0 ==> m in FinishedIds(v);
  }

  lemma KeptIds(steps: seq<PlanStep>, finished: set<int>, id: int)
    ensures id in IdSet(KeptSteps(steps, finished)) <==> id in IdSet(steps) && id in finished
  {
    if id in IdSet(steps) && id in finished {
      KeptHas(steps, finished, id);
    }
  }

  lemma NumberedIds(newSteps: seq<PlanStep>, m: int)
    ensures forall id :: id in IdSet(NumberAfter(newSteps, m)) ==> id > m
  {
    forall s | s in NumberAfter(newSteps, m) ensures s.id > m {
      var i :| 0 <= i < |newSteps| && NumberAfter(newSteps, m)[i] == s;
    }
  }

  lemma RemovedBeyond(steps: seq<PlanStep>, finished: set<int>, m: nat)
    requires (forall id :: id in finished <==> 1 <= id <= m) && forall id :: id in IdSet(steps) ==> id >= 1
    ensures forall id :: id in RemovedIds(steps, finished) <==> id in IdSet(steps) && id > m
  {
    assert forall s :: s in steps ==> s.id in IdSet(steps);
  }

  lemma ReplannedPrefix(status: map<int, StepStatus>, m: nat, removed: set<int>, added: set<int>)
    requires PrefixStatus(status, m)
    requires forall id :: id in removed <==> id in status && id > m
    requires m + 1 in status && forall id :: id in added ==> id > m
    ensures var after := (status[m + 1 := Failed] - removed) + AllPending(added);
            PrefixStatus(after, m) && forall id :: id in after <==> (id in status && id <= m) || id in added
  {
  }

  /** Replanning after m+1 failed: finished ids stay exactly 1..m, the rest of the plan is pending. */
  lemma ReplanStatuses(v: View, registry: set<string>, m: nat, newSteps: seq<PlanStep>)
    requires HeadAt(v, registry, m) && m < |v.plan.steps|
    ensures var w := ApplyReplanned(v.(status := v.status[m + 1 := Failed]), newSteps);
            Consistent(w) && PrefixStatus(w.status, m) && forall id :: 1 <= id <= m ==> id in IdSet(w.plan.steps)
  {
    var failed, steps := v.(status := v.status[m + 1 := Failed]), v.plan.steps;
    var finished := FinishedIds(failed);
    FailedStillPrefix(v, registry, m);
    assert IdSet(steps) == v.status.Keys;
    var kept, remapped := KeptSteps(steps, finished), NumberAfter(newSteps, m);
    NumberedIds(newSteps, m);
    var removed := RemovedIds(steps, finished);
    HeadIds(v, registry, m);
    RemovedBeyond(steps, finished, m);
    ReplannedPrefix(v.status, m, removed, IdSet(remapped));
    IdSetConcat(kept, remapped);
    forall id ensures id in IdSet(kept) <==> id in v.status && id <= m {
      KeptIds(steps, finished, id);
    }
  }

  /** Replanning a failed step m+1 keeps the finished prefix, whatever the planner returned, once it validates. */
  lemma ReplanKeepsHead(v: View, registry: set<string>, m: nat, newSteps: seq<PlanStep>, w: View)
    requires HeadAt(v, registry, m) && m < |v.plan.steps|
    requires ReplannedAfter(v, w, m + 1, newSteps)
    requires WellFormed(w.plan, registry)
    ensures HeadAt(w, registry, m)
  {
    ReplanStatuses(v, registry, m, newSteps);
    ContiguousCovers(w.plan.steps);
    assert m > 0 ==> m in IdSet(w.plan.steps);
  }

  // ------------------------------------------------------------ termination

  predicate Open(status: map<int, StepStatus>, s: PlanStep) {
    s.id in status && !Finished(status[s.id])
  }

  function OpenCount(steps: seq<PlanStep>, status: map<int, StepStatus>): nat {
    if steps == [] then 0 else (if Open(status, steps[0]) then 1 else 0) + OpenCount(steps[1..], status)
  }

  /** Finishing a step that was open strictly reduces the number of open steps, even when ids repeat. */
  lemma {:induction false} FinishReduces(
    steps: seq<PlanStep>, steps': seq<PlanStep>, status: map<int, StepStatus>, id: int, st: StepStatus)
    requires |steps| == |steps'| && forall i :: 0 <= i < |steps| ==> steps[i].id == steps'[i].id
    requires Finished(st)
    ensures OpenCount(steps', status[id := st]) <= OpenCount(steps, status)
    ensures (exists i :: 0 <= i < |steps| && steps[i].id == id && Open(status, steps[i])) ==>
              OpenCount(steps', status[id := st]) < OpenCount(steps, status)
  {
    if steps != [] {
      assert forall i :: 0 <= i < |steps[1..]| ==> steps[1..][i] == steps[i + 1] && steps'[1..][i] == steps'[i + 1];
      FinishReduces(steps[1..], steps'[1..], status, id, st);
      if i :| 0 < i < |steps| && steps[i].id == id && Open(status, steps[i]) {
        assert steps[1..][i - 1] == steps[i];
      }
    }
  }

  // --------------------------------------------------------------- executor

  /** The registered tools in a candidate list, with repetitions. */
  function RegisteredCandidates(tools: seq<string>, registry: set<string>): nat {
    if tools == [] then 0
    else RegisteredCandidates(tools[..|tools| - 1], registry) + (if tools[|tools| - 1] in registry then 1 else 0)
  }

  /** c added n times. */
  function Times(n: nat, c: nat): nat {
    if n == 0 then 0 else Times(n - 1, c) + c
  }

  lemma {:induction false} TimesIsProduct(n: nat, c: nat)
    ensures Times(n, c) == n * c
  {
    if n > 0 { TimesIsProduct(n - 1, c); }
  }

  lemma {:induction false} TimesMonotone(a: nat, b: nat, c: nat)
    requires a <= b
    ensures Times(a, c) <= Times(b, c)
  {
    if a < b { TimesMonotone(a, b - 1, c); }
  }

  lemma {:induction false} RegisteredPrefix(tools: seq<string>, registry: set<string>, i: nat)
    requires i <= |tools|
    ensures RegisteredCandidates(tools[..i], registry) <= RegisteredCandidates(tools, registry)
  {
    if i == |tools| {
      assert tools[..i] == tools;
    } else {
      RegisteredPrefix(tools[..|tools| - 1], registry, i);
      assert tools[..|tools| - 1][..i] == tools[..i];
    }
  }

  lemma CandidateCost(tools: seq<string>, registry: set<string>, i: nat, c: nat)
    requires i < |tools|
    ensures Times(RegisteredCandidates(tools[..i + 1], registry), c) ==
            Times(RegisteredCandidates(tools[..i], registry), c) + (if tools[i] in registry then c else 0)
    ensures Times(RegisteredCandidates(tools[..i + 1], registry), c) <= Times(RegisteredCandidates(tools, registry), c)
  {
    assert tools[..i + 1][..i] == tools[..i];
    RegisteredPrefix(tools, registry, i + 1);
    TimesMonotone(RegisteredCandidates(tools[..i + 1], registry), RegisteredCandidates(tools, registry), c);
  }

  // ------------------------------------------------------- what a step ran

  /** The records of one call that follow the given ones: how many attempts, and what they observed, is fixed by the
      tool
      runs, which are numbered through all records on registered tools. */
  ghost predicate Called(
    before: seq<TraceRecord>, recs: seq<TraceRecord>, tool: string, tools: ToolExecutor, obs: Observation)
  {
    && IsReliableCall(recs, tool, tools.fallbackTools, tools.MaxAttempts(), obs.success)
    && CallRuns(tools.outcome, tools.registry, tool, tools.fallbackTools,
                RegisteredCount(before, tools.registry), |recs|,
                tools.MaxAttempts(), obs)
  }

  ghost predicate CalledInVain(before: seq<TraceRecord>, recs: seq<TraceRecord>, tool: string, tools: ToolExecutor) {
    exists obs :: Called(before, recs, tool, tools, obs) && !obs.success
  }

  /** The records of calls to the registered tools of the list, in order, all of them failed. */
  ghost predicate AllFailed(
    before: seq<TraceRecord>, recs: seq<TraceRecord>, candidates: seq<string>, tools: ToolExecutor)
    decreases |candidates|
  {
    if candidates == [] then recs == []
    else
      var front, last := candidates[..|candidates| - 1], candidates[|candidates| - 1];
      if last !in tools.registry then AllFailed(before, recs, front, tools)
      else exists n :: 0 <= n <= |recs| && AllFailed(before, recs[..n], front, tools)
                       && CalledInVain(before + recs[..n], recs[n..], last, tools)
  }

  /** The records of a fallback search: the hit is the first registered candidate that succeeds, with what it observed,
      and every registered one before it was called and failed; without a hit all of them failed. */
  ghost predicate FallbackSearch(
    before: seq<TraceRecord>, recs: seq<TraceRecord>, candidates: seq<string>, tools: ToolExecutor,
    hit: Option<string>, obs: Observation)
  {
    match hit
    case None => AllFailed(before, recs, candidates, tools)
    case Some(tool) =>
      exists i, n :: 0 <= i < |candidates| && 0 <= n <= |recs| && candidates[i] == tool && tool in tools.registry
                     && AllFailed(before, recs[..n], candidates[..i], tools)
                     && Called(before + recs[..n], recs[n..], tool, tools, obs) && obs.success
  }

  lemma NothingTried(before: seq<TraceRecord>, tools: ToolExecutor, obs: Observation)
    ensures AllFailed(before, [], [], tools) && FallbackSearch(before, [], [], tools, None, obs)
  {
  }

  lemma SearchFailed(
    before: seq<TraceRecord>, recs: seq<TraceRecord>, candidates: seq<string>, tools: ToolExecutor, obs: Observation)
    requires AllFailed(before, recs, candidates, tools)
    ensures FallbackSearch(before, recs, candidates, tools, None, obs)
  {
  }

  /** Without a hit the last observation plays no part. */
  lemma NoHit(
    before: seq<TraceRecord>, recs: seq<TraceRecord>, candidates: seq<string>, tools: ToolExecutor, a: Observation,
    b: Observation)
    requires FallbackSearch(before, recs, candidates, tools, None, a)
    ensures FallbackSearch(before, recs, candidates, tools, None, b)
  {
  }

  lemma OneMoreFailed(
    before: seq<TraceRecord>, recs: seq<TraceRecord>, call: seq<TraceRecord>, candidates: seq<string>, i: nat,
    tools: ToolExecutor)
    requires i < |candidates| && AllFailed(before, recs, candidates[..i], tools)
    requires if candidates[i] in tools.registry then CalledInVain(before + recs, call, candidates[i], tools)
             else call == []
    ensures AllFailed(before, recs + call, candidates[..i + 1], tools)
  {
    hide CalledInVain;
    var front := candidates[..i + 1];
    assert front[..i] == candidates[..i] && front[i] == candidates[i];
    assert (recs + call)[..|recs|] == recs && (recs + call)[|recs|..] == call;
    assert recs + [] == recs;
  }

  lemma LaterRecords(start: seq<TraceRecord>, tried: seq<TraceRecord>, now: seq<TraceRecord>)
    requires start <= tried <= now
    ensures now[|start|..] == tried[|start|..] + now[|tried|..]
  {
  }

  lemma HitAfterFailures(
    before: seq<TraceRecord>, recs: seq<TraceRecord>, call: seq<TraceRecord>, candidates: seq<string>, i: nat,
    tools: ToolExecutor, obs: Observation)
    requires i < |candidates| && AllFailed(before, recs, candidates[..i], tools)
    requires candidates[i] in tools.registry && Called(before + recs, call, candidates[i], tools, obs) && obs.success
    ensures FallbackSearch(before, recs + call, candidates, tools, Some(candidates[i]), obs)
  {
    hide Called, AllFailed;
    assert (recs + call)[..|recs|] == recs && (recs + call)[|recs|..] == call;
  }

  class PlanExecutor {
    const tools: ToolExecutor
    const config: FailureConfig
    const validator: PlanValidator?
    const hasPlanner: bool
    /** Both policy settings on, and whether a policy engine is present. */
    const policyFallbackEnabled: bool
    const hasPolicyEngine: bool
    const world: World

    var replanAttempts: nat
    /** Numbers the questions put to the resolver and the planner. */
    var tick: nat
    ghost var starts: seq<StepStart>

    constructor (
      t: ToolExecutor, c: FailureConfig, v: PlanValidator?, planner: bool, fallback: bool, engine: bool, w: World)
      ensures tools == t && config == c && validator == v && world == w && replanAttempts == 0 && starts == []
      ensures hasPlanner == planner && policyFallbackEnabled == fallback && hasPolicyEngine == engine
    {
      tools, config, validator, hasPlanner, policyFallbackEnabled, hasPolicyEngine, world :=
        t, c, v, planner, fallback, engine, w;
      replanAttempts, tick, starts := 0, 0, [];
    }

    function PerCall(): nat {
      2 * tools.MaxAttempts()
    }

    function FallbackCost(id: int): nat {
      Times(RegisteredCandidates(world.candidates(id), tools.registry), PerCall())
    }

    /** The most tool runs one attempt of a step can make: its own call and one per registered fallback. */
    function PerAttempt(id: int): nat {
      PerCall() + FallbackCost(id)
    }

    function MaxStepAttempts(): nat {
      if config.policy == Retry then 1 + config.stepMaxRetries else 1
    }

    function ReplanBudget(): nat
      reads this
    {
      if replanAttempts < config.maxReplanAttempts then config.maxReplanAttempts - replanAttempts else 0
    }

    /** A tool call, seen from the records. */
    method CallTool(tool: string) returns (obs: Observation)
      requires tools.Valid()
      modifies tools
      ensures tools.Valid() && old(tools.records) <= tools.records
      ensures tools.runs <= old(tools.runs) + PerCall()
      ensures Called(old(tools.records), tools.records[|old(tools.records)|..], tool, tools, obs)
    {
      hide IsReliableCall, CallRuns;
      obs := tools.ExecuteLlmCall(tool);
    }

    method TryPolicyFallback(state: PlanState, index: nat) returns (hit: Option<string>, obs: Observation)
      requires tools.Valid() && index < |state.plan.steps|
      modifies tools, state.plan
      ensures tools.Valid() && old(tools.records) <= tools.records
      ensures tools.runs <= old(tools.runs) + FallbackCost(old(state.plan.steps)[index].id)
      ensures state.plan.goal == old(state.plan.goal)
      ensures hit.None? ==> state.plan.steps == old(state.plan.steps)
      ensures FallbackSearch(old(tools.records), tools.records[|old(tools.records)|..],
                             Candidates(old(state.plan.steps)[index].id), tools, hit, obs)
      ensures hit.Some? ==>
                && obs.success && hit.value in tools.registry
                && state.plan.steps == old(state.plan.steps)[index := old(state.plan.steps)[index].(toolHint := hit)]
    {
      hide AllFailed, FallbackSearch, IsReliableCall, CallRuns, Called;
      hit, obs := None, Observation("", None, false, None);
      ghost var start := tools.records;
      assert start[|start|..] == [];
      NothingTried(start, tools, obs);
      if !hasPolicyEngine {
        return;
      }
      var candidates := world.candidates(state.plan.steps[index].id);
      assert candidates[..0] == [];
      for i := 0 to |candidates|
        invariant tools.Valid() && start <= tools.records
        invariant tools.runs <=
                  old(tools.runs) + Times(RegisteredCandidates(candidates[..i], tools.registry), PerCall())
        invariant state.plan.goal == old(state.plan.goal) && state.plan.steps == old(state.plan.steps)
        invariant AllFailed(start, tools.records[|start|..], candidates[..i], tools)
      {
        CandidateCost(candidates, tools.registry, i, PerCall());
        ghost var tried := tools.records;
        if candidates[i] !in tools.registry {
          OneMoreFailed(start, tried[|start|..], [], candidates, i, tools);
          assert tried[|start|..] + [] == tried[|start|..];
          continue;
        }
        obs := CallTool(candidates[i]);
        assert start + tried[|start|..] == tried;
        LaterRecords(start, tried, tools.records);
        if obs.success {
          state.plan.steps := state.plan.steps[index := state.plan.steps[index].(toolHint := Some(candidates[i]))];
          HitAfterFailures(start, tried[|start|..], tools.records[|tried|..], candidates, i, tools, obs);
          return Some(candidates[i]), obs;
        }
        OneMoreFailed(start, tried[|start|..], tools.records[|tried|..], candidates, i, tools);
      }
      assert candidates[..|candidates|] == candidates;
      SearchFailed(start, tools.records[|start|..], candidates, tools, obs);
    }

    /** The candidates a fallback search goes through: none without a policy engine. */
    function Candidates(id: int): seq<string> {
      if hasPolicyEngine then world.candidates(id) else []
    }

    /** A fallback search happens only when the settings allow it and the decision lists candidates. */
    predicate MaySearch(id: int) {
      policyFallbackEnabled && world.candidates(id) != []
    }

    /** What one execution of a step answers, given what the resolver said, and the records it adds to those before. */
    ghost predicate StepAnswer(
      step: PlanStep, args: Option<string>, before: seq<TraceRecord>, recs: seq<TraceRecord>, attempt: nat,
      r: StepResult)
    {
      && r.stepId == step.id && r.task == step.task && r.attempt == attempt
      && (if !step.HasTool() then
            && recs == [] && r.status == Completed && r.toolName == None && r.error == None && r.recoveryAction == None
            && r.observation == Some("Completed without tool: " + step.task)
          else if args.None? then
            && recs == [] && r.status == Skipped && r.toolName == step.toolHint && r.observation == None
            && r.error == Some("No arguments resolved") && r.recoveryAction == None
          else exists n, obs :: 0 <= n <= |recs| && CallAnswer(step, before, recs[..n], recs[n..], obs, r))
    }

    static predicate CompletedWith(r: StepResult, tool: Option<string>, obs: Observation, recovery: Option<string>) {
      && r.status == Completed && r.toolName == tool && r.observation == obs.output && r.error == None
      && r.recoveryAction == recovery
    }

    static predicate FailedWith(r: StepResult, tool: Option<string>, obs: Observation) {
      && r.status == Failed && r.toolName == tool && r.observation == None && r.error == obs.error
      && r.recoveryAction == None
    }

    /** The answer after the step's own call, and after the fallback search when that call failed and a
        search is allowed. */
    ghost predicate CallAnswer(
      step: PlanStep, before: seq<TraceRecord>, own: seq<TraceRecord>, rest: seq<TraceRecord>, obs: Observation,
      r: StepResult)
      requires step.HasTool()
    {
      Called(before, own, step.toolHint.value, tools, obs) &&
      if obs.success then rest == [] && CompletedWith(r, step.toolHint, obs, None)
      else if !MaySearch(step.id) then rest == [] && FailedWith(r, step.toolHint, obs)
      else SearchAnswer(step, before + own, rest, obs, r)
    }

    function RecoveryFor(failed: string, fallback: string): string {
      RecoveryAction(world.provider(failed), world.provider(fallback))
    }

    ghost predicate SearchAnswer(
      step: PlanStep, before: seq<TraceRecord>, rest: seq<TraceRecord>, obs: Observation, r: StepResult)
      requires step.HasTool()
    {
      || (FallbackSearch(before, rest, Candidates(step.id), tools, None, obs) && FailedWith(r, step.toolHint, obs))
      || (exists tool, hitObs ::
            && FallbackSearch(before, rest, Candidates(step.id), tools, Some(tool), hitObs)
            && CompletedWith(r, Some(tool), hitObs, Some(RecoveryFor(step.toolHint.value, tool))))
    }

    lemma AnswerAtOnce(
      step: PlanStep, args: Option<string>, before: seq<TraceRecord>, own: seq<TraceRecord>, attempt: nat,
      obs: Observation, r: StepResult)
      requires r.stepId == step.id && r.task == step.task && r.attempt == attempt
      requires step.HasTool() && args.Some? && Called(before, own, step.toolHint.value, tools, obs)
      requires if obs.success then CompletedWith(r, step.toolHint, obs, None)
               else !MaySearch(step.id) && FailedWith(r, step.toolHint, obs)
      ensures StepAnswer(step, args, before, own, attempt, r)
    {
      hide Called;
      assert own[..|own|] == own && own[|own|..] == [];
      assert CallAnswer(step, before, own[..|own|], own[|own|..], obs, r);
    }

    lemma AnswerAfterSearch(
      step: PlanStep, args: Option<string>, before: seq<TraceRecord>, own: seq<TraceRecord>, rest: seq<TraceRecord>,
      attempt: nat, obs: Observation, hit: Option<string>, hitObs: Observation, r: StepResult)
      requires r.stepId == step.id && r.task == step.task && r.attempt == attempt
      requires step.HasTool() && args.Some? && Called(before, own, step.toolHint.value, tools, obs)
      requires !obs.success && MaySearch(step.id)
      requires FallbackSearch(before + own, rest, Candidates(step.id), tools, hit, hitObs)
      requires if hit.None? then FailedWith(r, step.toolHint, obs)
               else CompletedWith(r, hit, hitObs, Some(RecoveryFor(step.toolHint.value, hit.value)))
      ensures StepAnswer(step, args, before, own + rest, attempt, r)
    {
      hide Called, FallbackSearch;
      if hit.None? {
        NoHit(before + own, rest, Candidates(step.id), tools, hitObs, obs);
      } else {
        assert hit == Some(hit.value);
      }
      assert (own + rest)[..|own|] == own && (own + rest)[|own|..] == rest;
      assert CallAnswer(step, before, (own + rest)[..|own|], (own + rest)[|own|..], obs, r);
    }

    /** The plan after a step was executed: a tool found by the fallback search becomes the step's hint. */
    static function Rehinted(steps: seq<PlanStep>, index: nat, r: StepResult): seq<PlanStep>
      requires index < |steps|
    {
      if r.status == Completed && r.recoveryAction.Some? then steps[index := steps[index].(toolHint := r.toolName)]
      else steps
    }

    method ExecuteStep(state: PlanState, index: nat, attempt: nat) returns (result: StepResult)
      requires tools.Valid() && index < |state.plan.steps|
      modifies this`tick, tools, state.plan
      ensures tools.Valid() && old(tools.records) <= tools.records
      ensures tools.runs <= old(tools.runs) + PerAttempt(old(state.plan.steps)[index].id)
      ensures var step := old(state.plan.steps)[index];
              && result.stepId == step.id && result.attempt == attempt
              && StepAnswer(step, world.resolve(old(tick), step), old(tools.records),
                            tools.records[|old(tools.records)|..], attempt, result)
              && tick == old(tick) + (if step.HasTool() then 1 else 0)
      ensures Finished(result.status) || result.status == Failed
      ensures state.plan.goal == old(state.plan.goal)
      ensures state.plan.steps == Rehinted(old(state.plan.steps), index, result)
      ensures result.status != Completed ==> state.plan.steps == old(state.plan.steps)
      ensures HintOnly(old(state.plan.steps), state.plan.steps, tools.registry)
    {
      hide FallbackSearch, Called, CallAnswer;
      var step := state.plan.steps[index];
      if !step.HasTool() {
        result := StepResult(step.id, step.task, Completed, None, Some("Completed without tool: " + step.task),
                             None, attempt, None);
        return;
      }
      var args := world.resolve(tick, step);
      tick := tick + 1;
      if args.None? {
        result := StepResult(step.id, step.task, Skipped, step.toolHint, None, Some("No arguments resolved"),
                             attempt, None);
        return;
      }
      result := CallStep(state, index, attempt, args);
    }

    /** The part of `_execute_step` once arguments are resolved: the call, the fallback search, the result. */
    method CallStep(state: PlanState, index: nat, attempt: nat, ghost args: Option<string>) returns (result: StepResult)
      requires tools.Valid() && index < |state.plan.steps| && state.plan.steps[index].HasTool() && args.Some?
      modifies tools, state.plan
      ensures tools.Valid() && old(tools.records) <= tools.records
      ensures tools.runs <= old(tools.runs) + PerAttempt(old(state.plan.steps)[index].id)
      ensures var step := old(state.plan.steps)[index];
              && result.stepId == step.id && result.attempt == attempt
              && StepAnswer(step, args, old(tools.records), tools.records[|old(tools.records)|..], attempt, result)
      ensures result.status == Completed || result.status == Failed
      ensures state.plan.goal == old(state.plan.goal)
      ensures state.plan.steps == Rehinted(old(state.plan.steps), index, result)
      ensures HintOnly(old(state.plan.steps), state.plan.steps, tools.registry)
    {
      hide FallbackSearch, Called, CallAnswer, StepAnswer;
      var step := state.plan.steps[index];
      ghost var start := tools.records;
      var observation := CallTool(step.toolHint.value);
      ghost var own, called := tools.records[|start|..], tools.records;
      if observation.success {
        result := StepResult(step.id, step.task, Completed, step.toolHint, observation.output, None, attempt, None);
        AnswerAtOnce(step, args, start, own, attempt, observation, result);
        return;
      }
      if !policyFallbackEnabled || world.candidates(step.id) == [] {
        result := StepResult(step.id, step.task, Failed, step.toolHint, None, observation.error, attempt, None);
        AnswerAtOnce(step, args, start, own, attempt, observation, result);
        return;
      }
      assert start + own == called;
      var hit, found := TryPolicyFallback(state, index);
      LaterRecords(start, called, tools.records);
      if hit.Some? {
        assert HintOnlyStep(step, state.plan.steps[index], tools.registry);
        result := StepResult(step.id, step.task, Completed, hit, found.output, None, attempt,
                             Some(RecoveryFor(step.toolHint.value, hit.value)));
      } else {
        result := StepResult(step.id, step.task, Failed, step.toolHint, None, observation.error, attempt, None);
      }
      AnswerAfterSearch(step, args, start, own, tools.records[|called|..], attempt, observation, hit, found, result);
    }

    static function TraceOf(step: PlanStep, r: StepResult, recovery: Option<string>, status: StepStatus): TraceEntry {
      TraceEntry(step.id, step.task, status, if r.toolName.Some? then r.toolName else step.toolHint,
                 Some(r.status == Completed), r.error, r.attempt, if recovery.Some? then recovery else r.recoveryAction)
    }

    static function TracesOf(step: PlanStep, results: seq<StepResult>): seq<TraceEntry> {
      seq(|results|, i requires 0 <= i < |results| => TraceOf(step, results[i], None, results[i].status))
    }

    static function SkippedResult(r: StepResult): StepResult {
      r.(status := Skipped, recoveryAction := Some("skip"))
    }

    static function ReplannedResult(r: StepResult): StepResult {
      r.(recoveryAction := Some("replan"))
    }

    /** The replan policy, after its planner has answered. */
    predicate Replans(last: StepResult, out: Outcome) {
      last.status == Failed && config.policy == Replan && (out == Done || out == InvalidPlan)
    }

    /** The entry that recovering from a final failure adds, depending on the policy and on how it ends. */
    function RecoveryTrace(step: PlanStep, last: StepResult, out: Outcome): seq<TraceEntry> {
      if last.status == Failed && config.policy == Skip then [TraceOf(step, SkippedResult(last), Some("skip"), Skipped)]
      else if Replans(last, out) then [TraceOf(step, ReplannedResult(last), Some("replan"), Failed)]
      else []
    }

    /** Failed attempts of one step, numbered from 1. */
    static ghost predicate FailedTries(id: int, results: seq<StepResult>) {
      forall i :: 0 <= i < |results| ==>
        results[i].stepId == id && results[i].attempt == i + 1 && results[i].status == Failed
    }

    /** The attempts of one visit: all but the last failed, and the last only if no retry was left. */
    ghost predicate Tries(id: int, results: seq<StepResult>) {
      1 <= |results| <= MaxStepAttempts() &&
      var last := results[|results| - 1];
      && FailedTries(id, results[..|results| - 1])
      && last.stepId == id && last.attempt == |results| && (Finished(last.status) || last.status == Failed)
      && (last.status == Failed ==> |results| == MaxStepAttempts())
    }

    /** Attempt by attempt, what the resolver and the tool runs made of the step: the records follow those before, the
        questions are numbered from t. */
    ghost predicate Answers(
      step: PlanStep, results: seq<StepResult>, before: seq<TraceRecord>, recs: seq<TraceRecord>, t: nat)
      decreases |results|
    {
      if results == [] then recs == []
      else
        var n := |results| - 1;
        exists k :: 0 <= k <= |recs| && Answers(step, results[..n], before, recs[..k], t)
                    && StepAnswer(step, world.resolve(t + Questions(step, n), step), before + recs[..k], recs[k..],
                                  n + 1, results[n])
    }

    /** The resolver is asked once per attempt, if the step has a tool. */
    static function Questions(step: PlanStep, attempts: nat): nat {
      if step.HasTool() then attempts else 0
    }

    lemma AnswersSnoc(
      step: PlanStep, results: seq<StepResult>, before: seq<TraceRecord>, recs: seq<TraceRecord>, t: nat,
      last: StepResult, more: seq<TraceRecord>)
      requires Answers(step, results, before, recs, t)
      requires StepAnswer(step, world.resolve(t + Questions(step, |results|), step), before + recs, more,
                          |results| + 1, last)
      ensures Answers(step, results + [last], before, recs + more, t)
    {
      hide StepAnswer;
      assert (results + [last])[..|results|] == results;
      assert (recs + more)[..|recs|] == recs && (recs + more)[|recs|..] == more;
    }

    /** The view after one attempt. */
    static function Attempted(v: View, index: nat, r: StepResult): (w: View)
      requires index < |v.plan.steps|
      ensures |w.plan.steps| == |v.plan.steps|
    {
      var step := v.plan.steps[index];
      var running := WithStatus(v.(current := Some(step.id)), step.id, Running);
      WithResult(running.(plan := Plan(v.plan.goal, Rehinted(v.plan.steps, index, r))), r).(
        trace := v.trace + [TraceOf(step, r, None, r.status)])
    }

    /** The view after attempts that failed and were reset. */
    static function Retried(v: View, index: nat, failed: seq<StepResult>): (w: View)
      requires index < |v.plan.steps|
      ensures |w.plan.steps| == |v.plan.steps|
      decreases |failed|
    {
      if failed == [] then v
      else
        var n := |failed| - 1;
        ResetForRetry(Attempted(Retried(v, index, failed[..n]), index, failed[n]), v.plan.steps[index].id)
    }

    /** The view after the last attempt of a visit. */
    static function Tried(v: View, index: nat, results: seq<StepResult>): View
      requires index < |v.plan.steps| && results != []
    {
      var n := |results| - 1;
      Attempted(Retried(v, index, results[..n]), index, results[n])
    }

    /** The view a final failure is recovered into: skipped, replanned, or left as it is for the error to be raised. */
    function Recovered(v: View, step: PlanStep, last: StepResult, newSteps: seq<PlanStep>, out: Outcome): View {
      var traced := v.(trace := v.trace + RecoveryTrace(step, last, out));
      if last.status == Failed && config.policy == Skip then WithResult(traced, SkippedResult(last))
      else if Replans(last, out) then ApplyReplanned(traced, newSteps)
      else traced
    }

    /** The view after a visit; only a visit that raises leaves the current step set. */
    function Visited(v: View, index: nat, results: seq<StepResult>, newSteps: seq<PlanStep>, out: Outcome): View
      requires index < |v.plan.steps| && results != []
    {
      var w := Recovered(Tried(v, index, results), v.plan.steps[index], results[|results| - 1], newSteps, out);
      if out == Done then w.(current := None) else w
    }

    /** What a visit did: the attempts and what they ran, the planner's answer if it was asked, and the view left. */
    ghost predicate VisitRecorded(
      v: View, w: View, index: nat, results: seq<StepResult>, newSteps: seq<PlanStep>, out: Outcome,
      before: seq<TraceRecord>, recs: seq<TraceRecord>, t: nat)
      requires index < |v.plan.steps|
    {
      var step := v.plan.steps[index];
      && Tries(step.id, results) && Answers(step, results, before, recs, t)
      && (Replans(results[|results| - 1], out) ==>
            newSteps == world.replan(t + Questions(step, |results|), Marked(Tried(v, index, results), step)))
      && w == Visited(v, index, results, newSteps, out)
    }

    // ------------------------------------------------------- what the views say

    static lemma OneFailed(v: View, index: nat, r: StepResult)
      requires index < |v.plan.steps| && r.stepId == v.plan.steps[index].id && r.status == Failed
      ensures var step := v.plan.steps[index];
              var w := ResetForRetry(Attempted(v, index, r), step.id);
              && w.plan == v.plan && w.trace == v.trace + [TraceOf(step, r, None, r.status)]
              && w.status == v.status[step.id := Pending] && w.results == v.results - {step.id}
    {
      hide TraceOf;
      var id := v.plan.steps[index].id;
      LastWriteWins(v.status[id := Running], id, Pending, Failed);
      LastWriteWins(v.status, id, Pending, Running);
      LastWriteWins(v.results, id, r, r);
    }

    /** After failed attempts that were reset: their trace entries, a pending step without a result, nothing else. */
    static ghost predicate OnlyTried(v: View, w: View, step: PlanStep, failed: seq<StepResult>) {
      && w.plan == v.plan && w.trace == v.trace + TracesOf(step, failed)
      && w.status == (if failed == [] then v.status else v.status[step.id := Pending])
      && w.results == (if failed == [] then v.results else v.results - {step.id})
    }

    static lemma OneMoreTry(v: View, u: View, w: View, step: PlanStep, failed: seq<StepResult>, r: StepResult)
      requires OnlyTried(v, u, step, failed)
      requires w.plan == u.plan && w.trace == u.trace + [TraceOf(step, r, None, r.status)]
      requires w.status == u.status[step.id := Pending] && w.results == u.results - {step.id}
      ensures OnlyTried(v, w, step, failed + [r])
    {
      hide TraceOf, TracesOf;
      TracesSnoc(step, failed, r);
      LastWriteWins(v.status, step.id, Pending, Pending);
      RemoveTwice(v.results, step.id);
    }

    static lemma RetriedFields(v: View, index: nat, failed: seq<StepResult>)
      requires index < |v.plan.steps| && FailedTries(v.plan.steps[index].id, failed)
      ensures OnlyTried(v, Retried(v, index, failed), v.plan.steps[index], failed)
      decreases |failed|
    {
      hide TraceOf, TracesOf, Attempted, ResetForRetry, Retried, FailedTries, OnlyTried;
      var step := v.plan.steps[index];
      RetriedUnfolds(v, index, failed);
      if failed == [] {
        NoTraces(v, step);
      } else {
        var n := |failed| - 1;
        FirstTries(step.id, failed, n);
        var u := Retried(v, index, failed[..n]);
        RetriedFields(v, index, failed[..n]);
        SamePlan(v, u, step, failed[..n]);
        OneFailed(u, index, failed[n]);
        OneMoreTry(v, u, Retried(v, index, failed), step, failed[..n], failed[n]);
        assert failed[..n] + [failed[n]] == failed;
      }
    }

    static lemma RetriedUnfolds(v: View, index: nat, failed: seq<StepResult>)
      requires index < |v.plan.steps|
      ensures failed == [] ==> Retried(v, index, failed) == v
      ensures failed != [] ==>
                var n := |failed| - 1;
                Retried(v, index, failed) ==
                ResetForRetry(Attempted(Retried(v, index, failed[..n]), index, failed[n]), v.plan.steps[index].id)
    {
      hide Attempted, ResetForRetry;
    }

    static lemma RemoveTwice<T>(m: map<int, T>, id: int)
      ensures (m - {id}) - {id} == m - {id}
    {
    }

    static lemma NoTraces(v: View, step: PlanStep)
      ensures OnlyTried(v, v, step, [])
    {
      assert v.trace + TracesOf(step, []) == v.trace;
    }

    static lemma SamePlan(v: View, w: View, step: PlanStep, failed: seq<StepResult>)
      requires OnlyTried(v, w, step, failed)
      ensures w.plan == v.plan
    {
    }

    static lemma FirstTries(id: int, results: seq<StepResult>, n: nat)
      requires FailedTries(id, results) && n == |results| - 1
      ensures FailedTries(id, results[..n])
      ensures results[n].stepId == id && results[n].status == Failed
    {
    }

    lemma TriedFields(v: View, index: nat, results: seq<StepResult>)
      requires index < |v.plan.steps| && Tries(v.plan.steps[index].id, results)
      ensures var w, step, last := Tried(v, index, results), v.plan.steps[index], results[|results| - 1];
              && w.plan == Plan(v.plan.goal, Rehinted(v.plan.steps, index, last))
              && w.trace == v.trace + TracesOf(step, results)
              && w.status == v.status[step.id := last.status] && w.results == v.results[step.id := last]
    {
      hide TraceOf;
      var step, n := v.plan.steps[index], |results| - 1;
      RetriedFields(v, index, results[..n]);
      TracesSnoc(step, results[..n], results[n]);
      assert results[..n] + [results[n]] == results;
      LastWriteWins(v.status, step.id, results[n].status, Running);
      LastWriteWins(v.status, step.id, results[n].status, Pending);
      LastWriteWins(v.results, step.id, results[n], results[n]);
    }

    /** The status and result a visit leaves for its step, unless it is replanned. */
    function FinalResult(last: StepResult): StepResult {
      if last.status == Failed && config.policy == Skip then SkippedResult(last) else last
    }

    /** A visit's trace entries, and, unless it ends in a replan, plan, statuses and results. */
    lemma VisitedFields(
      v: View, index: nat, results: seq<StepResult>, newSteps: seq<PlanStep>, out: Outcome)
      requires index < |v.plan.steps| && Tries(v.plan.steps[index].id, results)
      ensures var step, last := v.plan.steps[index], results[|results| - 1];
              var w := Visited(v, index, results, newSteps, out);
              && w.trace == v.trace + TracesOf(step, results) + RecoveryTrace(step, last, out)
              && (!Replans(last, out) ==>
                    && w.plan == Plan(v.plan.goal, Rehinted(v.plan.steps, index, last))
                    && w.status == v.status[step.id := FinalResult(last).status]
                    && w.results == v.results[step.id := FinalResult(last)])
              && (Replans(last, out) ==>
                    var u := ApplyReplanned(v.(status := v.status[step.id := Failed]), newSteps);
                    && w.plan == u.plan && w.status == u.status && w.results == v.results[step.id := last]
                         - RemovedIds(v.plan.steps, FinishedIds(v.(status := v.status[step.id := Failed]))))
    {
      hide TraceOf, Tried, ApplyReplanned;
      var step, last := v.plan.steps[index], results[|results| - 1];
      TriedFields(v, index, results);
      LastWriteWins(v.status, step.id, Skipped, last.status);
      LastWriteWins(v.results, step.id, SkippedResult(last), last);
      if Replans(last, out) {
        var tried := Tried(v, index, results);
        var traced := tried.(trace := tried.trace + RecoveryTrace(step, last, out));
        ApplyKeepsTrace(traced, newSteps);
        ReplanReadsPlanAndStatus(traced, v.(status := v.status[step.id := Failed]), newSteps);
        FinishedByStatuses(traced, v.(status := v.status[step.id := Failed]));
      }
    }

    static lemma {:induction false} RemoveAbsent(xs: seq<int>, x: int)
      requires x !in xs
      ensures RemoveFirst(xs, x) == xs
    {
      if xs != [] { RemoveAbsent(xs[1..], x); }
    }

    static lemma {:induction false} RetriedCompletesNothing(v: View, index: nat, failed: seq<StepResult>)
      requires index < |v.plan.steps| && FailedTries(v.plan.steps[index].id, failed)
      requires v.plan.steps[index].id !in v.completed
      ensures Retried(v, index, failed).completed == v.completed
      decreases |failed|
    {
      hide TraceOf, Rehinted;
      if failed != [] {
        var n := |failed| - 1;
        RetriedCompletesNothing(v, index, failed[..n]);
        RemoveAbsent(v.completed, v.plan.steps[index].id);
      }
    }

    static lemma TriedLists(v: View, index: nat, failed: seq<StepResult>, last: StepResult)
      requires index < |v.plan.steps| && FailedTries(v.plan.steps[index].id, failed)
      requires last.stepId == v.plan.steps[index].id
      ensures var w, id := Tried(v, index, failed + [last]), v.plan.steps[index].id;
              && w.current == Some(id)
              && (id !in v.completed ==>
                    w.completed == v.completed + (if last.status == Completed then [id] else []))
    {
      hide TraceOf, Rehinted, Retried, FailedTries;
      assert (failed + [last])[..|failed|] == failed;
      RetriedUnfolds(v, index, failed);
      RetriedSteps(v, index, failed);
      if v.plan.steps[index].id !in v.completed { RetriedCompletesNothing(v, index, failed); }
    }

    static lemma RetriedSteps(v: View, index: nat, failed: seq<StepResult>)
      requires index < |v.plan.steps| && FailedTries(v.plan.steps[index].id, failed)
      ensures Retried(v, index, failed).plan == v.plan
    {
      RetriedFields(v, index, failed);
    }

    /** Only a visit that raises leaves its step current, and only one that completes it adds it to the completed. */
    lemma VisitedLists(v: View, index: nat, results: seq<StepResult>, newSteps: seq<PlanStep>, out: Outcome)
      requires index < |v.plan.steps| && Tries(v.plan.steps[index].id, results)
      ensures var w, id := Visited(v, index, results, newSteps, out), v.plan.steps[index].id;
              && w.current == (if out == Done then None else Some(id))
              && (id !in v.completed ==>
                    w.completed == v.completed + (if results[|results| - 1].status == Completed then [id] else []))
    {
      hide TraceOf, Tried, FinishedIds, FailedTries;
      var n := |results| - 1;
      assert results[..n] + [results[n]] == results;
      TriedLists(v, index, results[..n], results[n]);
    }

    /** How a visit that does not raise ends. */
    ghost predicate VisitEnds(v: View, w: View, id: int, newSteps: seq<PlanStep>, before: nat, after: nat) {
      || (after == before && StepFinished(v, w, id, tools.registry))
      || (&& config.policy == Replan && before < config.maxReplanAttempts && after == before + 1
          && ReplannedAfter(v, w, id, newSteps)
          && (validator != null ==> WellFormed(w.plan, validator.registry)))
    }

    /** Why a visit may raise. */
    ghost predicate Raises(out: Outcome, w: View, attemptsBefore: nat) {
      && (out == StepFailed ==> config.policy != Skip && config.policy != Replan)
      && (out == ReplanLimit ==> config.policy == Replan && attemptsBefore >= config.maxReplanAttempts)
      && (out == NoPlanner ==> config.policy == Replan && !hasPlanner)
      && (out == InvalidPlan ==>
            config.policy == Replan && validator != null && !WellFormed(w.plan, validator.registry))
      && out != Deadlock
    }

    /** A visit raises exactly when its last attempt failed and the policy does not make up for it. */
    ghost predicate EndsAs(last: StepResult, out: Outcome, attemptsBefore: nat, attemptsAfter: nat, w: View) {
      if last.status != Failed || config.policy == Skip then out == Done && attemptsAfter == attemptsBefore
      else if config.policy != Replan then out == StepFailed && attemptsAfter == attemptsBefore
      else if attemptsBefore >= config.maxReplanAttempts then out == ReplanLimit && attemptsAfter == attemptsBefore
      else
        && attemptsAfter == attemptsBefore + 1
        && out == if !hasPlanner then NoPlanner
                  else if validator == null || WellFormed(w.plan, validator.registry) then Done
                  else InvalidPlan
    }

    lemma EndOfVisit(
      v: View, w: View, index: nat, results: seq<StepResult>, newSteps: seq<PlanStep>, out: Outcome, before: nat,
      after: nat)
      requires index < |v.plan.steps| && Tries(v.plan.steps[index].id, results)
      requires w == Visited(v, index, results, newSteps, out)
      requires HintOnly(v.plan.steps, Rehinted(v.plan.steps, index, results[|results| - 1]), tools.registry)
      requires EndsAs(results[|results| - 1], out, before, after, w)
      ensures Raises(out, w, before)
      ensures out == Done ==> VisitEnds(v, w, v.plan.steps[index].id, newSteps, before, after)
      ensures out == Done && after == before ==>
                var id := v.plan.steps[index].id; id in w.results && Finished(w.results[id].status)
    {
      hide Visited, WellFormed, HintOnly, ApplyReplanned, FinishedIds, RemovedIds, Rehinted, TracesOf, FailedTries;
      VisitedFields(v, index, results, newSteps, out);
    }

    // ------------------------------------------------------------------ methods

    /** The body of the attempt loop up to the recorded result. */
    method AttemptStep(state: PlanState, index: nat, attempt: nat) returns (result: StepResult)
      requires tools.Valid() && index < |state.plan.steps|
      modifies this`tick, tools, state`currentStep, state.plan, state.stepStatus, state.stepResults,
               state.completedSteps
      modifies state.executionTrace
      ensures tools.Valid() && old(tools.records) <= tools.records
      ensures var step := old(state.plan.steps)[index];
              && tools.runs <= old(tools.runs) + PerAttempt(step.id)
              && StepAnswer(step, world.resolve(old(tick), step), old(tools.records),
                            tools.records[|old(tools.records)|..], attempt, result)
              && tick == old(tick) + Questions(step, 1)
              && result.stepId == step.id && result.attempt == attempt
              && (Finished(result.status) || result.status == Failed)
      ensures state.Value() == Attempted(old(state.Value()), index, result)
      ensures HintOnly(old(state.plan.steps), Rehinted(old(state.plan.steps), index, result), tools.registry)
    {
      hide StepAnswer, HintOnly, WithStatus, WithResult, TraceOf;
      var step := state.plan.steps[index];
      state.currentStep := Some(step.id);
      state.SetStepStatus(step.id, Running);
      result := ExecuteStep(state, index, attempt);
      state.RecordStepResult(result);
      state.AppendTrace(TraceOf(step, result, None, result.status));
      StatusReadsNoPlan(old(state.Value()).(current := Some(step.id)), step.id, state.plan.Value());
    }

    static lemma StatusReadsNoPlan(v: View, id: int, plan: Plan)
      ensures WithStatus(v, id, Running).(plan := plan) == WithStatus(v.(plan := plan), id, Running)
    {
    }

    /** One visit to a step. It ends with the step completed or skipped, or with the rest of the plan replaced by the
        planner's steps (validated when there is a validator), or by raising. */
    method RunStepWithRecovery(state: PlanState, id: int)
      returns (out: Outcome, ghost newSteps: seq<PlanStep>, ghost results: seq<StepResult>)
      requires tools.Valid() && id in IdSet(state.plan.steps)
      modifies this`tick, this`replanAttempts, tools, state`currentStep
      modifies state.plan, state.stepStatus, state.stepResults, state.completedSteps, state.executionTrace
      ensures tools.Valid() && old(tools.records) <= tools.records
      ensures tools.runs <= old(tools.runs) + Times(MaxStepAttempts(), PerAttempt(id))
      ensures VisitRecorded(old(state.Value()), state.Value(), IndexOf(old(state.plan.steps), id), results, newSteps,
                            out, old(tools.records), tools.records[|old(tools.records)|..], old(tick))
      ensures EndsAs(results[|results| - 1], out, old(replanAttempts), replanAttempts, state.Value())
      ensures var step := old(state.plan.steps)[IndexOf(old(state.plan.steps), id)];
              tick == old(tick) + VisitQuestions(step, results, out)
      ensures Raises(out, state.Value(), old(replanAttempts))
      ensures out == Done ==>
                VisitEnds(old(state.Value()), state.Value(), id, newSteps, old(replanAttempts), replanAttempts)
      ensures out == Done && replanAttempts == old(replanAttempts) ==>
                id in state.stepResults.entries && Finished(state.stepResults.entries[id].status)
    {
      hide WellFormed, HintOnly, Tried, Answers, Raises, VisitEnds, ApplyReplanned, WithResult, TraceOf, EndsAs, Marked;
      newSteps := [];
      var index := IndexOf(state.plan.steps, id);
      ghost var v := state.Value();
      var step := state.plan.steps[index];
      var result;
      result, results := Attempts(state, index, v);
      TriedFields(v, index, results);
      out, newSteps := Finish(state, step, result);
      EndOfVisit(v, state.Value(), index, results, newSteps, out, old(replanAttempts), replanAttempts);
    }

    /** How many questions a visit puts to the resolver and the planner. */
    function VisitQuestions(step: PlanStep, results: seq<StepResult>, out: Outcome): nat
      requires results != []
    {
      Questions(step, |results|) + (if Replans(results[|results| - 1], out) then 1 else 0)
    }

    /** The attempt loop: attempts until one does not fail, or no retry is left. */
    method Attempts(state: PlanState, index: nat, ghost v: View)
      returns (result: StepResult, ghost results: seq<StepResult>)
      requires tools.Valid() && index < |state.plan.steps| && state.Value() == v
      modifies this`tick, tools, state`currentStep, state.plan, state.stepStatus, state.stepResults,
               state.completedSteps
      modifies state.executionTrace
      ensures tools.Valid() && old(tools.records) <= tools.records
      ensures var step := v.plan.steps[index];
              && tools.runs <= old(tools.runs) + Times(MaxStepAttempts(), PerAttempt(step.id))
              && Tries(step.id, results) && result == results[|results| - 1]
              && Answers(step, results, old(tools.records), tools.records[|old(tools.records)|..], old(tick))
              && tick == old(tick) + Questions(step, |results|)
              && state.Value() == Tried(v, index, results)
              && HintOnly(v.plan.steps, Rehinted(v.plan.steps, index, result), tools.registry)
    {
      hide StepAnswer, Answers, HintOnly, Attempted, Rehinted, ResetForRetry, Failing, Tries, Tried, PerAttempt;
      ghost var step, start := state.plan.steps[index], tools.records;
      var id := state.plan.steps[index].id;
      result := StepResult(id, "", Failed, None, None, None, 0, None);
      results := [];
      NothingTriedYet(v, index, start, tick);
      for attempt := 1 to MaxStepAttempts() + 1
        invariant tools.Valid() && start <= tools.records
        invariant tools.runs <= old(tools.runs) + Times(attempt - 1, PerAttempt(step.id))
        invariant attempt <= MaxStepAttempts() && |results| == attempt - 1
        invariant Failing(v, state.Value(), index, results, start, tools.records[|start|..], old(tick))
        invariant state.plan.Value() == v.plan && tick == old(tick) + Questions(step, attempt - 1)
      {
        TimesMonotone(attempt, MaxStepAttempts(), PerAttempt(step.id));
        ghost var failed, u, recs := results, state.Value(), tools.records[|start|..];
        ghost var more;
        result, more := NextTry(state, index, attempt, v, failed, start, old(tick));
        results := failed + [result];
        if result.status != Failed || config.policy != Retry || attempt == MaxStepAttempts() {
          LastTry(v, u, index, failed, result, start, recs, more, old(tick));
          return;
        }
        state.ResetStepForRetry(id);
        OneMoreFailure(v, u, index, failed, result, start, recs, more, old(tick));
      }
      assert false;
    }

    /** One attempt after the given ones: its answer, and the records it adds. */
    method NextTry(
      state: PlanState, index: nat, attempt: nat, ghost v: View, ghost failed: seq<StepResult>,
      ghost start: seq<TraceRecord>, ghost t: nat)
      returns (result: StepResult, ghost more: seq<TraceRecord>)
      requires tools.Valid() && index < |state.plan.steps| && state.plan.Value() == v.plan && start <= tools.records
      requires attempt == |failed| + 1 && tick == t + Questions(v.plan.steps[index], |failed|)
      modifies this`tick, tools, state`currentStep, state.plan, state.stepStatus, state.stepResults,
               state.completedSteps
      modifies state.executionTrace
      ensures tools.Valid() && start <= old(tools.records) <= tools.records
      ensures tools.records[|start|..] == old(tools.records)[|start|..] + more
      ensures tools.runs <= old(tools.runs) + PerAttempt(v.plan.steps[index].id)
      ensures NextAttempt(v, index, failed, result, start, old(tools.records)[|start|..], more, t)
      ensures tick == t + Questions(v.plan.steps[index], |failed| + 1)
      ensures Finished(result.status) || result.status == Failed
      ensures state.Value() == Attempted(old(state.Value()), index, result)
      ensures HintOnly(v.plan.steps, Rehinted(v.plan.steps, index, result), tools.registry)
    {
      hide StepAnswer, HintOnly, Attempted, Rehinted, PerAttempt;
      ghost var earlier := tools.records;
      result := AttemptStep(state, index, attempt);
      more := tools.records[|earlier|..];
      assert start + earlier[|start|..] == earlier;
      LaterRecords(start, earlier, tools.records);
    }

    /** The loop of attempts so far: all failed, and the view is the one they leave. */
    ghost predicate Failing(
      v: View, u: View, index: nat, failed: seq<StepResult>, start: seq<TraceRecord>, recs: seq<TraceRecord>, t: nat)
      requires index < |v.plan.steps|
    {
      && FailedTries(v.plan.steps[index].id, failed) && u == Retried(v, index, failed)
      && Answers(v.plan.steps[index], failed, start, recs, t)
    }

    lemma NothingTriedYet(v: View, index: nat, start: seq<TraceRecord>, t: nat)
      requires index < |v.plan.steps|
      ensures Failing(v, v, index, [], start, start[|start|..], t)
    {
    }

    /** The answer to one more attempt, after those that failed. */
    ghost predicate NextAttempt(
      v: View, index: nat, failed: seq<StepResult>, r: StepResult, start: seq<TraceRecord>, recs: seq<TraceRecord>,
      more: seq<TraceRecord>, t: nat)
      requires index < |v.plan.steps|
    {
      var step := v.plan.steps[index];
      && StepAnswer(step, world.resolve(t + Questions(step, |failed|), step), start + recs, more, |failed| + 1, r)
      && r.stepId == step.id && r.attempt == |failed| + 1
    }

    lemma OneMoreFailure(
      v: View, u: View, index: nat, failed: seq<StepResult>, r: StepResult, start: seq<TraceRecord>,
      recs: seq<TraceRecord>, more: seq<TraceRecord>, t: nat)
      requires index < |v.plan.steps| && Failing(v, u, index, failed, start, recs, t)
      requires NextAttempt(v, index, failed, r, start, recs, more, t) && r.status == Failed
      ensures var w := ResetForRetry(Attempted(u, index, r), v.plan.steps[index].id);
              Failing(v, w, index, failed + [r], start, recs + more, t) && w.plan == v.plan
    {
      hide StepAnswer, Answers, Attempted, ResetForRetry, Retried, FailedTries;
      AnswersSnoc(v.plan.steps[index], failed, start, recs, t, r, more);
      TriesSnoc(v.plan.steps[index].id, failed, r);
      RetriedSnoc(v, index, failed, r);
    }

    lemma LastTry(
      v: View, u: View, index: nat, failed: seq<StepResult>, r: StepResult, start: seq<TraceRecord>,
      recs: seq<TraceRecord>, more: seq<TraceRecord>, t: nat)
      requires index < |v.plan.steps| && Failing(v, u, index, failed, start, recs, t)
      requires NextAttempt(v, index, failed, r, start, recs, more, t)
      requires |failed| < MaxStepAttempts() && (Finished(r.status) || r.status == Failed)
      requires r.status == Failed ==> |failed| + 1 == MaxStepAttempts()
      ensures var results := failed + [r];
              && Tries(v.plan.steps[index].id, results) && Tried(v, index, results) == Attempted(u, index, r)
              && Answers(v.plan.steps[index], results, start, recs + more, t)
    {
      hide StepAnswer, Answers, Attempted, Retried, FailedTries;
      AnswersSnoc(v.plan.steps[index], failed, start, recs, t, r, more);
      assert (failed + [r])[..|failed|] == failed;
    }

    static lemma RetriedSnoc(v: View, index: nat, failed: seq<StepResult>, r: StepResult)
      requires index < |v.plan.steps| && FailedTries(v.plan.steps[index].id, failed + [r])
      ensures Retried(v, index, failed + [r]) ==
              ResetForRetry(Attempted(Retried(v, index, failed), index, r), v.plan.steps[index].id)
      ensures Retried(v, index, failed + [r]).plan == v.plan
    {
      hide Attempted, ResetForRetry;
      assert (failed + [r])[..|failed|] == failed;
      RetriedFields(v, index, failed + [r]);
    }

    static lemma TriesSnoc(id: int, results: seq<StepResult>, last: StepResult)
      requires FailedTries(id, results) && last.stepId == id && last.attempt == |results| + 1 && last.status == Failed
      ensures FailedTries(id, results + [last])
    {
    }

    static lemma TracesSnoc(step: PlanStep, results: seq<StepResult>, last: StepResult)
      ensures TracesOf(step, results + [last]) == TracesOf(step, results) + [TraceOf(step, last, None, last.status)]
    {
      hide TraceOf;
    }

    static lemma LastWriteWins<T>(m: map<int, T>, id: int, x: T, y: T)
      ensures (m - {id})[id := x] == m[id := x] && m[id := x] - {id} == m - {id}
      ensures m[id := y][id := x] == m[id := x]
    {
    }

    /** What a visit does after its last attempt: nothing more after a success; after a failure what the policy says. */
    method Finish(state: PlanState, step: PlanStep, result: StepResult)
      returns (out: Outcome, ghost newSteps: seq<PlanStep>)
      requires result.stepId == step.id && (Finished(result.status) || result.status == Failed)
      requires step.id in state.stepResults.entries && state.stepResults.entries[step.id] == result
      modifies this`tick, this`replanAttempts, state`currentStep
      modifies state.plan, state.stepStatus, state.stepResults, state.completedSteps, state.executionTrace
      ensures EndsAs(result, out, old(replanAttempts), replanAttempts, state.Value())
      ensures state.Value() ==
              var w := Recovered(old(state.Value()), step, result, newSteps, out);
              if out == Done then w.(current := None) else w
      ensures Replans(result, out) ==> newSteps == world.replan(old(tick), Marked(old(state.Value()), step))
      ensures tick == old(tick) + (if Replans(result, out) then 1 else 0)
    {
      hide WellFormed, ApplyReplanned, TraceOf, Marked;
      newSteps := [];
      ghost var v := state.Value();
      assert v.trace + [] == v.trace;
      if result.status != Failed {
        state.currentStep := None;
        return Done, [];
      }
      if config.policy == Skip {
        SkipStep(state, step, result);
        return Done, [];
      }
      if config.policy == Replan {
        out, newSteps := ReplanStep(state, step, result);
        return;
      }
      return StepFailed, [];
    }

    /** The skip policy overwrites the failed result. */
    method SkipStep(state: PlanState, step: PlanStep, result: StepResult)
      modifies state`currentStep, state.stepStatus, state.stepResults, state.completedSteps, state.executionTrace
      ensures var v, skipped := old(state.Value()), SkippedResult(result);
              var traced := v.(trace := v.trace + [TraceOf(step, skipped, Some("skip"), Skipped)]);
              state.Value() == WithResult(traced, skipped).(current := None)
    {
      hide TraceOf;
      var skipped := SkippedResult(result);
      state.RecordStepResult(skipped);
      state.AppendTrace(TraceOf(step, skipped, Some("skip"), Skipped));
      state.currentStep := None;
    }

    /** The replan policy: spend one attempt, if any is left. */
    method ReplanStep(state: PlanState, failed: PlanStep, result: StepResult)
      returns (out: Outcome, ghost newSteps: seq<PlanStep>)
      requires config.policy == Replan && result.status == Failed
      requires failed.id in state.stepResults.entries && state.stepResults.entries[failed.id] == result
      modifies this`tick, this`replanAttempts, state`currentStep
      modifies state.plan, state.stepStatus, state.stepResults, state.executionTrace
      ensures EndsAs(result, out, old(replanAttempts), replanAttempts, state.Value())
      ensures state.Value() ==
              var w := Recovered(old(state.Value()), failed, result, newSteps, out);
              if out == Done then w.(current := None) else w
      ensures Replans(result, out) ==> newSteps == world.replan(old(tick), Marked(old(state.Value()), failed))
      ensures tick == old(tick) + (if Replans(result, out) then 1 else 0)
    {
      hide WellFormed, ApplyReplanned, TraceOf;
      newSteps := [];
      ghost var v := state.Value();
      assert v.trace + [] == v.trace;
      if replanAttempts >= config.maxReplanAttempts {
        return ReplanLimit, [];
      }
      replanAttempts := replanAttempts + 1;
      out, newSteps := HandleReplan(state, failed);
      if out == Done {
        state.currentStep := None;
      }
    }

    /** The trace with the failed result of the step, if it has one, recorded again as the reason of the replan. */
    static function Marked(v: View, failed: PlanStep): View {
      if failed.id in v.results
      then v.(trace := v.trace + [TraceOf(failed, ReplannedResult(v.results[failed.id]), Some("replan"), Failed)])
      else v
    }

    /** The planner is asked once, shown the failed state, and its answer is applied as it is. */
    method HandleReplan(state: PlanState, failed: PlanStep) returns (out: Outcome, ghost newSteps: seq<PlanStep>)
      modifies this`tick, state.plan, state.stepStatus, state.stepResults, state.executionTrace
      ensures out == if !hasPlanner then NoPlanner
                     else if validator == null || WellFormed(state.Value().plan, validator.registry) then Done
                     else InvalidPlan
      ensures out == NoPlanner ==> state.Value() == old(state.Value()) && tick == old(tick)
      ensures out != NoPlanner ==>
                && newSteps == world.replan(old(tick), Marked(old(state.Value()), failed))
                && state.Value() == ApplyReplanned(Marked(old(state.Value()), failed), newSteps)
                && tick == old(tick) + 1
    {
      hide WellFormed, ApplyReplanned, AllErrors, TraceOf;
      newSteps := [];
      if !hasPlanner {
        return NoPlanner, [];
      }
      if failed.id in state.stepResults.entries {
        var marker := ReplannedResult(state.stepResults.entries[failed.id]);
        state.AppendTrace(TraceOf(failed, marker, Some("replan"), Failed));
      }
      var steps := world.replan(tick, state.Value());
      tick := tick + 1;
      newSteps := steps;
      state.ApplyReplannedSteps(steps);
      if validator != null {
        var report := validator.Validate(state.plan.Value());
        if !report.success {
          return InvalidPlan, newSteps;
        }
      }
      out := Done;
    }

    /** Whether the run starts in the loop-head invariant with replans validated against the executor's own registry. */
    ghost predicate SafeStart(v: View) {
      && (exists m :: HeadAt(v, tools.registry, m))
      && Validated()
    }

    /** Replans, if any can happen, are validated against the registry the executor runs tools from. */
    ghost predicate Validated() {
      config.policy == Replan ==> validator != null && validator.registry == tools.registry
    }

    /** From position `from` on, every step start saw exactly the smaller ids finished, hence all its dependencies. */
    static ghost predicate OrderedStarts(starts: seq<StepStart>, from: nat) {
      forall i :: from <= i < |starts| ==> OrderedStart(starts[i])
    }

    static lemma OrderedExtend(before: seq<StepStart>, after: seq<StepStart>, from: nat)
      requires from <= |before| && before <= after && |after| <= |before| + 1
      requires OrderedStarts(before, from) && (|after| > |before| ==> OrderedStart(after[|before|]))
      ensures OrderedStarts(after, from)
    {
      assert forall i :: 0 <= i < |before| ==> after[i] == before[i];
    }

    static function StartOf(v: View, step: PlanStep): StepStart {
      StepStart(step.id, step.Deps(), FinishedIds(v))
    }

    static ghost predicate OrderedStart(start: StepStart) {
      && (forall d :: d in start.deps ==> d in start.finished)
      && (forall x :: x in start.finished <==> 1 <= x < start.stepId)
    }

    /** A visit of a run: to the next executable step, from view v to view w. */
    ghost predicate OneVisit(v: View, w: View, visit: VisitLog, before: seq<TraceRecord>, t: nat) {
      && NextExecutable(v) == Some(visit.step.id) && visit.index < |v.plan.steps|
      && v.plan.steps[visit.index] == visit.step && FirstWithId(v.plan.steps, visit.index)
      && VisitRecorded(v, w, visit.index, visit.results, visit.newSteps, visit.out, before, visit.recs, t)
    }

    /** The questions a list of visits puts to the resolver and the planner. */
    function AllQuestions(visits: seq<VisitLog>): nat {
      if visits == [] then 0
      else
        var last := visits[|visits| - 1];
        AllQuestions(visits[..|visits| - 1]) +
        (if last.results == [] then 0 else VisitQuestions(last.step, last.results, last.out))
    }

    /** A run: visit after visit, each to the step that is then next, with records and questions numbered on. */
    ghost predicate Run(v: View, w: View, visits: seq<VisitLog>, before: seq<TraceRecord>, t: nat)
      decreases |visits|
    {
      if visits == [] then w == v
      else
        var front := visits[..|visits| - 1];
        exists u ::
          && Run(v, u, front, before, t)
          && OneVisit(u, w, visits[|visits| - 1], before + AllRecords(front), t + AllQuestions(front))
    }

    lemma RunSnoc(
      v: View, u: View, w: View, visits: seq<VisitLog>, visit: VisitLog, before: seq<TraceRecord>, t: nat)
      requires Run(v, u, visits, before, t)
      requires OneVisit(u, w, visit, before + AllRecords(visits), t + AllQuestions(visits))
      ensures Run(v, w, visits + [visit], before, t)
      ensures AllRecords(visits + [visit]) == AllRecords(visits) + visit.recs
      ensures visit.results != [] &&
              AllQuestions(visits + [visit]) ==
              AllQuestions(visits) + VisitQuestions(visit.step, visit.results, visit.out)
    {
      hide VisitRecorded, NextExecutable;
      assert (visits + [visit])[..|visits|] == visits;
      VisitHasResults(u, w, visit, before + AllRecords(visits), t + AllQuestions(visits));
    }

    lemma VisitHasResults(v: View, w: View, visit: VisitLog, before: seq<TraceRecord>, t: nat)
      requires OneVisit(v, w, visit, before, t)
      ensures Tries(visit.step.id, visit.results) && visit.results != []
    {
    }

    /** The trace entries of a visit. */
    function Entries(visit: VisitLog): seq<TraceEntry> {
      TracesOf(visit.step, visit.results) +
      (if visit.results == [] then []
       else RecoveryTrace(visit.step, visit.results[|visit.results| - 1], visit.out))
    }

    /** What a visit leaves to be read: one entry per attempt, only the last of which may be a success, one more for a
        recovery, and a step that is completed or skipped as the last attempt was, or skipped by the policy. A completed
        step joins the completed ones, and only a visit that raises leaves its step current. */
    lemma VisitReads(v: View, w: View, visit: VisitLog, before: seq<TraceRecord>, t: nat)
      requires OneVisit(v, w, visit, before, t)
      ensures var k, entries := |visit.results|, Entries(visit);
              var last := visit.results[k - 1];
              && (forall i :: 0 <= i < k ==>
                    && entries[i].stepId == visit.step.id && entries[i].task == visit.step.task
                    && entries[i].attempt == i + 1 && entries[i].recoveryAction == visit.results[i].recoveryAction
                    && entries[i].toolName == (if visit.results[i].toolName.Some? then visit.results[i].toolName
                                               else visit.step.toolHint)
                    && entries[i].success == Some(i == k - 1 && last.status == Completed)
                    && entries[i].status == visit.results[i].status && entries[i].error == visit.results[i].error)
              && |entries| ==
                 k + (if last.status == Failed && (config.policy == Skip || Replans(last, visit.out)) then 1 else 0)
              && (|entries| > k ==>
                    && entries[k].stepId == visit.step.id && entries[k].error == last.error
                    && entries[k].status == (if config.policy == Skip then Skipped else Failed)
                    && entries[k].recoveryAction == Some(if config.policy == Skip then "skip" else "replan"))
      ensures var id, last := visit.step.id, visit.results[|visit.results| - 1];
              !Replans(last, visit.out) ==>
                && id in w.status && id in w.results && w.results[id].status == w.status[id]
                && w.status[id] == if last.status == Failed && config.policy == Skip then Skipped else last.status
      ensures var id, last := visit.step.id, visit.results[|visit.results| - 1];
              && w.current == (if visit.out == Done then None else Some(id))
              && (id !in v.completed ==> w.completed == v.completed + (if last.status == Completed then [id] else []))
    {
      hide Visited, Answers, NextExecutable, Rehinted;
      VisitedFields(v, visit.index, visit.results, visit.newSteps, visit.out);
      VisitedLists(v, visit.index, visit.results, visit.newSteps, visit.out);
      forall i | 0 <= i < |visit.results| - 1
        ensures visit.results[i].attempt == i + 1 && visit.results[i].status == Failed
      {
        assert visit.results[..|visit.results| - 1][i] == visit.results[i];
      }
    }

    function AllEntries(visits: seq<VisitLog>): seq<TraceEntry> {
      if visits == [] then [] else AllEntries(visits[..|visits| - 1]) + Entries(visits[|visits| - 1])
    }

    /** Some visit was to this step and ended with this result. */
    ghost predicate VisitGave(visits: seq<VisitLog>, id: int, r: StepResult) {
      exists i :: 0 <= i < |visits| && visits[i].step.id == id && visits[i].results != []
                  && FinalResult(visits[i].results[|visits[i].results| - 1]) == r
    }

    /** Every step finished during the run has the result of a visit to it recorded, with the status of the step. */
    ghost predicate ResultsRecorded(v: View, w: View, visits: seq<VisitLog>) {
      forall id :: id in FinishedIds(w) && id !in FinishedIds(v) ==>
        id in w.results && w.results[id].status == w.status[id] && VisitGave(visits, id, w.results[id])
    }

    lemma OneVisitEffect(u: View, w: View, visit: VisitLog, before: seq<TraceRecord>, t: nat)
      requires OneVisit(u, w, visit, before, t)
      ensures w.trace == u.trace + Entries(visit)
      ensures forall id :: id in FinishedIds(w) && id != visit.step.id ==>
                id in FinishedIds(u) && w.status[id] == u.status[id]
                && (id in u.results ==> id in w.results && w.results[id] == u.results[id])
      ensures visit.step.id in FinishedIds(w) ==>
                var id, last := visit.step.id, visit.results[|visit.results| - 1];
                id in w.results && w.results[id] == FinalResult(last) && w.status[id] == FinalResult(last).status
    {
      hide Visited, TracesOf, RecoveryTrace, Answers, NextExecutable;
      VisitedFields(u, visit.index, visit.results, visit.newSteps, visit.out);
      var step, last := visit.step, visit.results[|visit.results| - 1];
      assert u.trace + TracesOf(step, visit.results) + RecoveryTrace(step, last, visit.out) == u.trace + Entries(visit);
      if Replans(last, visit.out) {
        ReplanKeepsFinished(u.(status := u.status[step.id := Failed]), visit.newSteps);
      }
    }

    /** The laws of a run: the trace grows by the entries of all visits, and what was finished has its result. */
    lemma {:induction false} RunEffect(v: View, w: View, visits: seq<VisitLog>, before: seq<TraceRecord>, t: nat)
      requires Run(v, w, visits, before, t)
      ensures w.trace == v.trace + AllEntries(visits)
      ensures ResultsRecorded(v, w, visits)
      decreases |visits|
    {
      hide OneVisit, Entries, FinalResult;
      if visits == [] {
        assert v.trace + [] == v.trace;
      } else {
        var front, last := visits[..|visits| - 1], visits[|visits| - 1];
        var u :| Run(v, u, front, before, t)
                 && OneVisit(u, w, last, before + AllRecords(front), t + AllQuestions(front));
        RunEffect(v, u, front, before, t);
        OneVisitEffect(u, w, last, before + AllRecords(front), t + AllQuestions(front));
        VisitHasResults(u, w, last, before + AllRecords(front), t + AllQuestions(front));
        RecordedSnoc(v, u, w, front, last);
        assert front + [last] == visits;
      }
    }

    lemma RecordedSnoc(v: View, u: View, w: View, front: seq<VisitLog>, last: VisitLog)
      requires ResultsRecorded(v, u, front) && last.results != []
      requires forall id :: id in FinishedIds(w) && id != last.step.id ==>
                 id in FinishedIds(u) && w.status[id] == u.status[id]
                 && (id in u.results ==> id in w.results && w.results[id] == u.results[id])
      requires last.step.id in FinishedIds(w) ==>
                 var id, r := last.step.id, FinalResult(last.results[|last.results| - 1]);
                 id in w.results && w.results[id] == r && w.status[id] == r.status
      ensures ResultsRecorded(v, w, front + [last])
    {
      hide FinalResult;
      var visits := front + [last];
      forall id | id in FinishedIds(w) && id !in FinishedIds(v)
        ensures id in w.results && w.results[id].status == w.status[id] && VisitGave(visits, id, w.results[id])
      {
        if id == last.step.id {
          assert visits[|front|] == last;
        } else {
          assert id in FinishedIds(u) && id in u.results && VisitGave(front, id, u.results[id]);
          var r := u.results[id];
          var i :| 0 <= i < |front| && front[i].step.id == id && front[i].results != []
                   && FinalResult(front[i].results[|front[i].results| - 1]) == r;
          assert visits[i] == front[i];
        }
      }
    }

    /** One iteration of the execution loop: the next executable step is visited; without one the run is stuck. */
    method Visit(state: PlanState, ghost safe: bool, ghost m: nat)
      returns (out: Outcome, ghost m': nat, ghost visit: VisitLog)
      requires tools.Valid() && Covered(state.Value()) && !AllStepsFinished(state.Value())
      requires safe ==> HeadAt(state.Value(), tools.registry, m) && Validated()
      modifies this, tools, state`currentStep
      modifies state.plan, state.stepStatus, state.stepResults, state.completedSteps, state.executionTrace
      ensures tools.Valid() && old(tools.records) <= tools.records
      ensures safe ==> out != Deadlock
      ensures out == Deadlock <==> NextExecutable(old(state.Value())) == None
      ensures out == Deadlock ==>
                && state.Value() == old(state.Value()) && tools.records == old(tools.records) && tick == old(tick)
                && starts == old(starts)
      ensures out != Deadlock ==>
                && OneVisit(old(state.Value()), state.Value(), visit, old(tools.records), old(tick))
                && tools.records == old(tools.records) + visit.recs && visit.out == out && visit.results != []
                && tick == old(tick) + VisitQuestions(visit.step, visit.results, out)
                && starts == old(starts) + [StartOf(old(state.Value()), visit.step)]
      ensures safe && out != Deadlock ==> OrderedStart(starts[|old(starts)|])
      ensures out == Done ==> Covered(state.Value()) && (safe ==> HeadAt(state.Value(), tools.registry, m'))
      ensures out == Done ==>
                || ReplanBudget() < old(ReplanBudget())
                || (&& ReplanBudget() == old(ReplanBudget())
                    && OpenCount(state.plan.steps, state.stepStatus.entries)
                       < old(OpenCount(state.plan.steps, state.stepStatus.entries)))
    {
      hide VisitRecorded, VisitEnds, Validated, HeadAt, Covered, OpenCount, NextAmong, EndsAs, VisitQuestions;
      hide WellFormed, NextExecutable, IdSet, OrderedStart, AllStepsFinished;
      m' := m;
      ghost var v := state.Value();
      visit := VisitLog(0, PlanStep(0, "", None, None), [], [], Deadlock, []);
      if safe { HeadStart(v, tools.registry, m); }
      var next := state.NextExecutableStep();
      if next.None? {
        OpenStepUnfinished(v);
        return Deadlock, m, visit;
      }
      NextIsThere(v);
      ghost var index := IndexOf(v.plan.steps, next.value);
      starts := starts + [StartOf(v, v.plan.steps[index])];
      ghost var newSteps, results;
      out, newSteps, results := RunStepWithRecovery(state, next.value);
      visit := VisitLog(index, v.plan.steps[index], results, newSteps, out, tools.records[|old(tools.records)|..]);
      VisitHasResults(v, state.Value(), visit, old(tools.records), old(tick));
      if out == Done {
        m' := AfterVisit(v, state.Value(), next.value, newSteps, old(replanAttempts), replanAttempts, safe, m);
      }
    }

    static lemma HeadStart(v: View, registry: set<string>, m: nat)
      requires HeadAt(v, registry, m) && !AllStepsFinished(v)
      ensures m < |v.plan.steps| && NextExecutable(v) == Some(m + 1) && m + 1 in IdSet(v.plan.steps)
      ensures OrderedStart(StartOf(v, v.plan.steps[IndexOf(v.plan.steps, m + 1)]))
    {
      HeadStep(v, registry, m);
    }

    lemma AfterVisit(
      v: View, w: View, id: int, newSteps: seq<PlanStep>, before: nat, after: nat, safe: bool, m: nat)
      returns (m': nat)
      requires Covered(v) && id in IdSet(v.plan.steps) && id in v.status && v.status[id] == Pending
      requires VisitEnds(v, w, id, newSteps, before, after)
      requires safe ==> HeadAt(v, tools.registry, m) && Validated() && m < |v.plan.steps| && id == m + 1
      ensures Covered(w) && (safe ==> HeadAt(w, tools.registry, m'))
      ensures || (before < config.maxReplanAttempts && after == before + 1)
              || (after == before && OpenCount(w.plan.steps, w.status) < OpenCount(v.plan.steps, v.status))
    {
      hide StepFinished, ReplannedAfter, WellFormed, HeadAt, Covered, OpenCount;
      m' := VisitKeepsHead(v, w, id, newSteps, tools.registry, safe, m);
    }

    lemma NoVisitYet(v: View, before: seq<TraceRecord>, t: nat)
      ensures Run(v, v, [], before, t) && AllRecords([]) == [] && AllQuestions([]) == 0 && before + [] == before
    {
    }

    /** Terminates for every planner, tool and resolver. The run consists of visits, each to the step that is then next
        executable: the trace and the tool records grow by theirs, in order, and every step finished meanwhile has the
        result of a visit to it recorded. From a safe start the deadlock error is never raised, steps start in id order
        with their dependencies finished, and a normal return means every step is completed or skipped. */
    method Execute(state: PlanState) returns (out: Outcome, ghost visits: seq<VisitLog>)
      requires tools.Valid() && Covered(state.Value())
      modifies this, tools, state, state.Repr()
      ensures tools.Valid() && tools.records == old(tools.records) + AllRecords(visits)
      ensures tick == old(tick) + AllQuestions(visits)
      ensures exists w :: Run(old(state.Value()), w, visits, old(tools.records), old(tick))
                          && state.Value() == if out == Done then w.(current := None) else w
      ensures state.executionTrace.items == old(state.executionTrace.items) + AllEntries(visits)
      ensures ResultsRecorded(old(state.Value()), state.Value(), visits)
      ensures StartedBy(starts, old(starts), visits)
      ensures out == Done ==> AllStepsFinished(state.Value())
      ensures out == Deadlock ==> NextExecutable(state.Value()) == None && !AllStepsFinished(state.Value())
      ensures old(SafeStart(state.Value())) ==> out != Deadlock && OrderedStarts(starts, |old(starts)|)
      ensures old(SafeStart(state.Value())) && out == Done ==> AllDone(state.Value(), tools.registry)
    {
      hide OneVisit, NextExecutable, HeadAt, OpenCount, Covered, ResultsRecorded, SafeStart, Validated, Run;
      hide AllRecords, AllQuestions, AllEntries, VisitQuestions, OrderedStarts, OrderedStart, AllDone, StartedBy;
      ghost var safe, v, before, t := SafeStart(state.Value()), state.Value(), tools.records, tick;
      ghost var m := StartingPoint(v, safe);
      visits := [];
      NoVisitYet(v, before, t);
      NoStartYet(starts);
      while !AllStepsFinished(state.Value())
        invariant tools.Valid() && Covered(state.Value())
        invariant state.Containers() == old(state.Containers())
        invariant tools.records == before + AllRecords(visits) && tick == t + AllQuestions(visits)
        invariant Run(v, state.Value(), visits, before, t)
        invariant safe ==> HeadAt(state.Value(), tools.registry, m) && Validated()
        invariant StartedBy(starts, old(starts), visits) && (safe ==> OrderedStarts(starts, |old(starts)|))
        decreases ReplanBudget(), OpenCount(state.plan.steps, state.stepStatus.entries)
      {
        ghost var earlier, u := starts, state.Value();
        ghost var visit;
        out, m, visit := Visit(state, safe, m);
        if out == Deadlock {
          RunEffect(v, state.Value(), visits, before, t);
          return;
        }
        RunSnoc(v, u, state.Value(), visits, visit, before, t);
        StartedSnoc(earlier, old(starts), visits, starts, visit);
        visits := visits + [visit];
        if safe { OrderedExtend(earlier, starts, |old(starts)|); }
        if out != Done {
          RunEffect(v, state.Value(), visits, before, t);
          return;
        }
      }
      RunEffect(v, state.Value(), visits, before, t);
      ghost var w := state.Value();
      if safe { HeadDone(w, tools.registry, m); }
      state.currentStep := None;
      CurrentIsMoot(v, w, visits);
      out := Done;
    }

    /** One step start is noted per visit, in order. */
    static ghost predicate StartedBy(starts: seq<StepStart>, earlier: seq<StepStart>, visits: seq<VisitLog>) {
      && |starts| == |earlier| + |visits| && earlier <= starts
      && forall i :: 0 <= i < |visits| ==> starts[|earlier| + i].stepId == visits[i].step.id
    }

    static lemma NoStartYet(starts: seq<StepStart>)
      ensures StartedBy(starts, starts, []) && OrderedStarts(starts, |starts|)
    {
    }

    static lemma StartedSnoc(
      starts: seq<StepStart>, earlier: seq<StepStart>, visits: seq<VisitLog>, more: seq<StepStart>, visit: VisitLog)
      requires StartedBy(starts, earlier, visits)
      requires |more| == |starts| + 1 && starts <= more && more[|starts|].stepId == visit.step.id
      ensures StartedBy(more, earlier, visits + [visit]) && |earlier| <= |starts|
    {
    }

    ghost method StartingPoint(v: View, safe: bool) returns (m: nat)
      requires safe == SafeStart(v)
      ensures safe ==> HeadAt(v, tools.registry, m) && Validated()
    {
      m := 0;
      if safe {
        m :| HeadAt(v, tools.registry, m);
      }
    }

    lemma CurrentIsMoot(v: View, w: View, visits: seq<VisitLog>)
      ensures ResultsRecorded(v, w, visits) <==> ResultsRecorded(v, w.(current := None), visits)
      ensures AllStepsFinished(w) <==> AllStepsFinished(w.(current := None))
      ensures AllDone(w, tools.registry) <==> AllDone(w.(current := None), tools.registry)
    {
      assert FinishedIds(w) == FinishedIds(w.(current := None));
    }
  }

  lemma NextIsThere(v: View)
    ensures match NextExecutable(v)
            case None => true
            case Some(id) =>
              && id in IdSet(v.plan.steps) && id in v.status && v.status[id] == Pending
              && FirstWithId(v.plan.steps, IndexOf(v.plan.steps, id))
  {
    NextIsLeastReady(v);
  }

  /** A replan leaves the statuses of finished steps, and finishes nothing. */
  lemma ReplanKeepsFinished(v: View, newSteps: seq<PlanStep>)
    ensures var w := ApplyReplanned(v, newSteps);
            forall id :: id in FinishedIds(w) ==>
                id in FinishedIds(v) && w.status[id] == v.status[id] && id !in RemovedIds(v.plan.steps, FinishedIds(v))
  {
  }

  /** After a visit the run is again at a loop head, one step further or with a new tail. */
  lemma VisitKeepsHead(v: View, w: View, id: int, newSteps: seq<PlanStep>, registry: set<string>, safe: bool, m: nat)
    returns (m': nat)
    requires Covered(v) && id in IdSet(v.plan.steps) && id in v.status && v.status[id] == Pending
    requires StepFinished(v, w, id, registry) || ReplannedAfter(v, w, id, newSteps)
    requires safe ==> HeadAt(v, registry, m) && m < |v.plan.steps| && id == m + 1
    requires safe && !StepFinished(v, w, id, registry) ==> WellFormed(w.plan, registry)
    ensures Covered(w)
    ensures StepFinished(v, w, id, registry) ==> OpenCount(w.plan.steps, w.status) < OpenCount(v.plan.steps, v.status)
    ensures safe ==> HeadAt(w, registry, m')
  {
    m' := m;
    if StepFinished(v, w, id, registry) {
      StepFinishReduces(v, w, id, registry);
      if safe {
        FinishAdvances(v, w, registry, m);
        m' := m + 1;
      }
    } else {
      ReplanCovered(v.(status := v.status[id := Failed]), newSteps);
      if safe {
        ReplanKeepsHead(v, registry, m, newSteps, w);
      }
    }
  }

  /** What a visit may cost: (1 + step retries) attempts of (1 + F) calls of two retry loops of (1 + tool retries) runs,
      F the registered fallbacks of the step. */
  lemma VisitCost(e: PlanExecutor, id: int)
    ensures var f := RegisteredCandidates(e.world.candidates(id), e.tools.registry);
            Times(e.MaxStepAttempts(), e.PerAttempt(id)) <=
              (1 + e.config.stepMaxRetries) * ((1 + f) * (2 * (1 + e.tools.maxRetries)))
  {
    var f := RegisteredCandidates(e.world.candidates(id), e.tools.registry);
    var c := e.PerCall();
    TimesIsProduct(f, c);
    TimesIsProduct(e.MaxStepAttempts(), e.PerAttempt(id));
    assert (1 + f) * c == c + f * c;
    ProductMonotone(e.MaxStepAttempts(), 1 + e.config.stepMaxRetries, e.PerAttempt(id));
  }

  lemma ProductMonotone(a: nat, b: nat, c: nat)
    requires a <= b
    ensures a * c <= b * c
  {
  }

  lemma ApplyKeepsTrace(v: View, newSteps: seq<PlanStep>)
    ensures ApplyReplanned(v, newSteps).trace == v.trace
    ensures ApplyReplanned(v, newSteps).results == v.results - RemovedIds(v.plan.steps, FinishedIds(v))
  {
  }

  lemma FinishedByStatuses(v: View, w: View)
    requires v.status == w.status
    ensures FinishedIds(v) == FinishedIds(w)
  {
  }

  lemma ReplanReadsPlanAndStatus(v: View, w: View, newSteps: seq<PlanStep>)
    requires v.plan == w.plan && v.status == w.status
    ensures ApplyReplanned(v, newSteps).plan == ApplyReplanned(w, newSteps).plan
    ensures ApplyReplanned(v, newSteps).status == ApplyReplanned(w, newSteps).status
  {
    assert FinishedIds(v) == FinishedIds(w);
  }

  function IndexOf(steps: seq<PlanStep>, id: int): (i: nat)
    requires id in IdSet(steps)
    ensures i < |steps| && steps[i].id == id && forall j :: 0 <= j < i ==> steps[j].id != id
  {
    if steps[0].id == id then 0
    else
      assert id in IdSet(steps[1..]) by {
        var s :| s in steps && s.id == id;
        assert s in steps[1..];
      }
      1 + IndexOf(steps[1..], id)
  }

  /** What the loop-head invariant says about the next step: it is m+1 and sees exactly the smaller ids finished. */
  lemma HeadStep(v: View, registry: set<string>, m: nat)
    requires HeadAt(v, registry, m) && !AllStepsFinished(v)
    ensures m < |v.plan.steps| && NextExecutable(v) == Some(m + 1)
    ensures m + 1 in IdSet(v.plan.steps)
    ensures forall d :: d in v.plan.steps[IndexOf(v.plan.steps, m + 1)].Deps() ==> d in FinishedIds(v)
    ensures forall x :: x in FinishedIds(v) <==> 1 <= x < m + 1
  {
    HeadOpen(v, registry, m);
    HeadNext(v, registry, m);
    HeadDependenciesMet(v, registry, m);
    HeadIds(v, registry, m);
    NextIsLeastReady(v);
    FindIsAtIndex(v.plan.steps, m + 1);
  }

  lemma FindIsAtIndex(steps: seq<PlanStep>, id: int)
    requires id in IdSet(steps)
    ensures FindStep(steps, id) == Some(steps[IndexOf(steps, id)])
  {
    if steps[0].id != id {
      var s :| s in steps && s.id == id;
      assert s in steps[1..];
      FindIsAtIndex(steps[1..], id);
    }
  }

  /** With an open step left, no executable step means some step is unfinished, and the run raises. */
  lemma OpenStepUnfinished(v: View)
    requires Covered(v) && !AllStepsFinished(v)
    ensures UnfinishedIds(v) != []
  {
    var s :| s in v.plan.steps && !(s.id in v.status && (Finished(v.status[s.id]) || v.status[s.id] == Failed));
    assert s in Filter((s: PlanStep) => s.id in v.status && !Finished(v.status[s.id]), v.plan.steps);
  }

  lemma HeadOpen(v: View, registry: set<string>, m: nat)
    requires HeadAt(v, registry, m) && !AllStepsFinished(v)
    ensures m < |v.plan.steps|
  {
    var s :| s in v.plan.steps && !(s.id in v.status && (Finished(v.status[s.id]) || v.status[s.id] == Failed));
    assert s.id in IdSet(v.plan.steps) && s.id > m;
  }

  /** A loop head whose steps are all finished has no failed step: every status is completed or skipped. */
  lemma HeadDone(v: View, registry: set<string>, m: nat)
    requires HeadAt(v, registry, m) && AllStepsFinished(v)
    ensures AllDone(v, registry)
  {
    forall id | id in v.status ensures Finished(v.status[id]) {
      assert id in IdSet(v.plan.steps);
      var s :| s in v.plan.steps && s.id == id;
    }
  }

  lemma StepFinishReduces(v: View, w: View, id: int, registry: set<string>)
    requires StepFinished(v, w, id, registry) && Covered(v)
    requires id in IdSet(v.plan.steps) && v.status[id] == Pending
    ensures OpenCount(w.plan.steps, w.status) < OpenCount(v.plan.steps, v.status)
    ensures Covered(w)
  {
    forall i | 0 <= i < |v.plan.steps| ensures v.plan.steps[i].id == w.plan.steps[i].id {
      HintOnlyAt(v.plan.steps, w.plan.steps, registry, i);
    }
    FinishReduces(v.plan.steps, w.plan.steps, v.status, id, w.status[id]);
    assert v.plan.steps[IndexOf(v.plan.steps, id)].id == id;
    forall s | s in w.plan.steps ensures s.id in w.status {
      var i :| 0 <= i < |w.plan.steps| && w.plan.steps[i] == s;
      assert v.plan.steps[i] in v.plan.steps;
    }
  }

  lemma ReplanCovered(v: View, newSteps: seq<PlanStep>)
    requires Covered(v)
    ensures Covered(ApplyReplanned(v, newSteps))
  {
    var finished := FinishedIds(v);
    var kept, remapped := KeptSteps(v.plan.steps, finished), NumberAfter(newSteps, MaxOrZero(finished));
    forall s: PlanStep | s in kept + remapped ensures s.id in ApplyReplanned(v, newSteps).status {
      if s in remapped { assert s.id in IdSet(remapped); }
    }
  }
}
