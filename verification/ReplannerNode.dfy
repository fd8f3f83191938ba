/** The replanner node of the agent graph and the critic's replan as the node sees it (graph/runtime/nodes.py). */
module ReplannerNode {
  import opened Sequences
  import opened PlanSchema
  import opened PlanValidation
  import opened PlanRepair
  import opened PlanStateModel
  import opened Replanning
  import opened ReplanLaws

  // ------------------------------------------------- when the critic is obeyed

  /** From a sound state the plan is replaced if and only if the planner's answer applies or the fallback's does, and
      the view, up to the trace, is the one the first of them that applies leaves. */
  lemma HandledIff(c: ReplanningController, u: View, w: View, replanned: bool)
    requires SoundPrior(u, c.validator.registry) && c.ReplannedFrom(u, w, replanned)
    ensures var v, registry := ReplanningController.Noted(u), c.validator.registry;
            var first, second := Applies(v, c.plan(v), registry), Applies(v, c.fallbackPlan(v), registry);
            && (replanned <==> first || second)
            && (first ==> SameButTrace(w, TryApply(v, c.plan(v), CompletedSnapshot(v), registry).view))
            && (!first && second ==>
                  SameButTrace(w, TryApply(v, c.fallbackPlan(v), CompletedSnapshot(v), registry).view))
            && (!replanned ==> w.plan != u.plan && !SoundPrior(w, registry))
            && v.trace <= w.trace
  {
    hide TryApply, Applies, CompletedSnapshot, LeftBehind, SoundPrior, ReplanTrace;
    var v, registry := ReplanningController.Noted(u), c.validator.registry;
    TraceIsIrrelevant(u, v, registry);
    AppliedIff(v, c.plan(v), registry);
    AppliedIff(v, c.fallbackPlan(v), registry);
    ReplanSoundIff(v, c.plan(v), c.fallbackPlan(v), registry);
    TraceIsIrrelevant(ReplanOutcome(v, c.plan(v), c.fallbackPlan(v), registry).view, w, registry);
  }

  predicate SameButTrace(v: View, w: View) {
    v == w.(trace := v.trace)
  }

  /** An applied attempt repaired something if and only if the answer had to be repaired or did not fit as it was. */
  lemma RepairUsedIff(v: View, answer: seq<PlanStep>, registry: set<string>)
    requires SoundPrior(v, registry) && Applies(v, answer, registry)
    ensures RepairUsed(v, answer, CompletedSnapshot(v), registry) <==>
            RepairNotes(answer) != [] || !FitsAtOnce(v, answer)
  {
    hide SoundPrior, AllErrors, Usable, Applied, FitsAtOnce, FarTasksSurvive, RepairNotes, Repaired, FinishedIds,
         ApplyReplanned, CompletedSnapshot, RestoredSteps, Prepared;
    var before, w := CompletedSnapshot(v), ApplyReplanned(v, Prepared(answer));
    AtOnceIff(v, answer, registry);
    AppliedPlan(v, answer);
    if AllErrors(w.plan, registry) == [] {
      NothingPutBack(v, answer, registry);
    } else {
      InvalidIsRepaired(v, answer, registry);
    }
  }

  lemma NothingPutBack(v: View, answer: seq<PlanStep>, registry: set<string>)
    requires SoundPrior(v, registry)
    ensures var steps := ApplyReplanned(v, Prepared(answer)).plan.steps;
            RestoredSteps(steps, CompletedSnapshot(v)) == steps
  {
    var before, w := CompletedSnapshot(v), ApplyReplanned(v, Prepared(answer));
    AppliedIds(v, registry, Prepared(answer));
    forall id | id in before ensures FindStep(w.plan.steps, id) == Some(before[id]) {
      CompletedStillThere(v, registry, Prepared(answer), id);
    }
    NothingToRestore(w.plan.steps, before);
  }

  /** The trace entries of a replan from a sound state: that it was asked for, that the fallback was used or nothing
      applied, and that something was repaired. */
  lemma ReplanNotes(c: ReplanningController, u: View, w: View, replanned: bool)
    requires SoundPrior(u, c.validator.registry) && c.ReplannedFrom(u, w, replanned)
    ensures var v, registry := ReplanningController.Noted(u), c.validator.registry;
            var first, second := Applies(v, c.plan(v), registry), Applies(v, c.fallbackPlan(v), registry);
            var answer, at := if first then c.plan(v) else c.fallbackPlan(v), ReplanningController.AnchorStepId(u);
            var repaired := replanned && (RepairNotes(answer) != [] || !FitsAtOnce(v, answer));
            w.trace ==
              u.trace + [TraceNote(at, "critic_replan", None)] +
              (if first then [] else if second then [TraceNote(at, "replan_fallback", Some(true))]
               else [TraceNote(at, "replan_failed", Some(false))]) +
              (if repaired then [TraceNote(at, "replan_repair", Some(true))] else [])
  {
    hide TryApply, CompletedSnapshot, LeftBehind, SoundPrior, RepairUsed, RepairNotes, FitsAtOnce, TraceNote, Applies;
    var v, registry := ReplanningController.Noted(u), c.validator.registry;
    TraceIsIrrelevant(u, v, registry);
    AppliedIff(v, c.plan(v), registry);
    AppliedIff(v, c.fallbackPlan(v), registry);
    if Applies(v, c.plan(v), registry) {
      RepairUsedIff(v, c.plan(v), registry);
    } else if Applies(v, c.fallbackPlan(v), registry) {
      RepairUsedIff(v, c.fallbackPlan(v), registry);
    }
  }

  /** The steps stand for the answer's, in order and numbered from 1: same task and tool, and step k+1 depends on an
      earlier step exactly if the answer's k-th step names it. */
  ghost predicate Numbered(answer: seq<PlanStep>, steps: seq<PlanStep>) {
    && |steps| == |answer|
    && forall k :: 0 <= k < |answer| ==>
         && steps[k].id == k + 1 && steps[k].task == answer[k].task && steps[k].toolHint == answer[k].toolHint
         && forall d :: d in steps[k].Deps() <==> 1 <= d <= k && answer[d - 1].id in answer[k].Deps()
  }

  /** Distinct ids in ascending order, and no task listed twice with the same tool. */
  ghost predicate Listed(answer: seq<PlanStep>) {
    DistinctIds(answer) && SortedBy(answer, IdOf) && DistinctStepKeys(answer)
  }

  lemma PreparedIsNumbered(answer: seq<PlanStep>)
    requires Listed(answer)
    ensures Numbered(answer, Prepared(answer))
  {
    hide RepairNotes, RenumberedSteps, Numbered, Listed;
    ListedFacts(answer);
    if RepairNotes(answer) != [] {
      RepairedIsNumbered(answer);
    } else {
      UnrepairedIsNumbered(answer);
    }
  }

  lemma ListedFacts(answer: seq<PlanStep>)
    requires Listed(answer)
    ensures DistinctIds(answer) && SortedBy(answer, IdOf) && Deduped(answer) == answer && DedupNotes(answer) == []
  {
    DedupedIdentity(answer);
  }

  lemma UnrepairedIsNumbered(answer: seq<PlanStep>)
    requires Listed(answer) && RepairNotes(answer) == []
    ensures Numbered(answer, answer)
  {
    hide RepairNotes, Listed, DistinctIds, ContiguousIds, SortedBy, PriorDependencies, Numbered;
    ListedFacts(answer);
    NothingToRepair(answer);
    forall k | 0 <= k < |answer| ensures answer[k].id == k + 1 { ContiguousInOrder(answer, k); }
    forall i, d | 0 <= i < |answer| && d in answer[i].Deps() ensures 1 <= d <= i { PriorDependency(answer, i, d); }
    NumberedSelf(answer);
  }

  lemma NumberedSelf(answer: seq<PlanStep>)
    requires forall k :: 0 <= k < |answer| ==> answer[k].id == k + 1
    requires forall i, d :: 0 <= i < |answer| && d in answer[i].Deps() ==> 1 <= d <= i
    ensures Numbered(answer, answer)
  {
  }

  lemma PriorDependency(steps: seq<PlanStep>, i: nat, d: int)
    requires PriorDependencies(steps) && i < |steps| && steps[i].id == i + 1 && d in steps[i].Deps()
    ensures 1 <= d <= i
  {
    assert PriorStep(steps[i]);
  }

  /** Numbering anew what is numbered from 1 changes at most how an empty dependency list is written. */
  lemma NumberedAgain(answer: seq<PlanStep>, steps: seq<PlanStep>)
    requires Numbered(answer, steps)
    ensures Numbered(answer, NumberAfter(steps, 0))
  {
    var r := NumberAfter(steps, 0);
    forall k | 0 <= k < |r| ensures r[k].Deps() == steps[k].Deps() {}
  }

  lemma CanonicalStays(answer: seq<PlanStep>)
    requires Listed(answer) && Canonical(answer)
    ensures NumberAfter(Prepared(answer), 0) == answer
  {
    hide RenumberNotes, RenumberedSteps, Listed, Canonical, NumberAfter, SortedBy, DistinctIds;
    ListedFacts(answer);
    CanonicalHasNoNotes(answer);
    CanonicalNumbers(answer);
  }

  lemma CanonicalNumbers(answer: seq<PlanStep>)
    requires Canonical(answer)
    ensures NumberAfter(answer, 0) == answer
  {
    hide PriorStep;
    var r := NumberAfter(answer, 0);
    forall k | 0 <= k < |answer| ensures r[k] == answer[k] {}
  }

  lemma RepairedIsNumbered(answer: seq<PlanStep>)
    requires Listed(answer)
    ensures Numbered(answer, RenumberedSteps(answer))
  {
    hide RenumberedSteps, SortById, DistinctIds, DistinctStepKeys;
    SortedUnchanged(answer, answer);
    RenumberedLength(answer);
    forall k | 0 <= k < |answer|
      ensures var s, r := answer[k], RenumberedSteps(answer)[k];
              r.id == k + 1 && r.task == s.task && r.toolHint == s.toolHint
              && forall d :: d in r.Deps() <==> 1 <= d <= k && answer[d - 1].id in s.Deps()
    {
      RenumberDistinct(answer, k);
    }
  }

  /** The plain case: nothing is finished and the planner answers good steps, listed once each in id order. Then the
      replan happens, its plan is that answer numbered from 1, and every step is pending. */
  lemma AnswerInstalled(c: ReplanningController, u: View, w: View, replanned: bool)
    requires SoundPrior(u, c.validator.registry) && c.ReplannedFrom(u, w, replanned) && FinishedIds(u) == {}
    requires var answer := c.plan(ReplanningController.Noted(u));
             answer != [] && GoodSteps(answer, c.validator.registry) && Listed(answer)
    ensures var answer := c.plan(ReplanningController.Noted(u));
            && replanned && w.plan.goal == u.plan.goal && Numbered(answer, w.plan.steps)
            && (Canonical(answer) ==> w.plan.steps == answer)
            && (forall id :: id in w.status <==> 1 <= id <= |answer|)
            && (forall id :: id in w.status ==> w.status[id] == Pending)
  {
    hide TryApply, SoundPrior, GoodSteps, Listed, Canonical, Prepared, DependenciesFit;
    var v, registry := ReplanningController.Noted(u), c.validator.registry;
    var answer := c.plan(v);
    HandledIff(c, u, w, replanned);
    TraceIsIrrelevant(u, v, registry);
    assert FinishedIds(v) == {};
    ListedFacts(answer);
    ListedInOrderFits(v, answer, registry);
    AtOnceIff(v, answer, registry);
    AppliedPlan(v, answer);
    ValidatedApplySucceeds(v, answer, registry);
    PreparedIsNumbered(answer);
    NumberedAgain(answer, Prepared(answer));
    if Canonical(answer) { CanonicalStays(answer); }
    AnswerStatuses(v, Prepared(answer), registry);
  }

  lemma AnswerStatuses(v: View, steps: seq<PlanStep>, registry: set<string>)
    requires SoundPrior(v, registry) && FinishedIds(v) == {}
    ensures var w := ApplyReplanned(v, steps);
            && w.plan.steps == NumberAfter(steps, 0)
            && (forall id :: id in w.status <==> 1 <= id <= |steps|)
            && (forall id :: id in w.status ==> w.status[id] == Pending)
  {
    hide WellFormed, FinishedIds;
    NothingKept(v.plan.steps);
    NumberedIds(steps);
  }

  lemma {:induction false} NothingKept(steps: seq<PlanStep>)
    ensures KeptSteps(steps, {}) == []
  {
    if steps != [] { NothingKept(steps[1..]); }
  }

  lemma NumberedIds(steps: seq<PlanStep>)
    ensures forall id :: id in IdSet(NumberAfter(steps, 0)) <==> 1 <= id <= |steps|
  {
    var r := NumberAfter(steps, 0);
    forall id | 1 <= id <= |steps| ensures id in IdSet(r) {
      assert r[id - 1].id == id;
    }
  }

  // ------------------------------------------------------------------ the node

  /** The fields of the agent state that the node reads and writes. */
  class AgentState {
    var planState: PlanState?
    /** What the critic said last: whether a replan is needed. */
    var critique: Option<bool>
    var replanHistory: seq<ReplanResult>
    var replanAttempts: nat
    var executionTrace: seq<TraceEntry>
    var plan: PlanObject?
    var needReplan: bool
  }

  method RunReplanner(state: AgentState, c: ReplanningController)
    modifies state, c`attempts, if state.planState == null then {} else state.planState.Repr()
    ensures state.planState == old(state.planState) && state.critique == old(state.critique)
    ensures state.planState == null || state.critique == None ==> unchanged(state) && unchanged(c)
    ensures state.planState != null && state.critique != None ==>
              var acts := state.critique.value && c.enabled && old(c.attempts) < c.maxReplanAttempts;
              var u, w := old(state.planState.Value()), state.planState.Value();
              var replanned := |state.replanHistory| > 0 && state.replanHistory[|state.replanHistory| - 1].replanned;
              && |state.replanHistory| == |old(state.replanHistory)| + 1
              && old(state.replanHistory) < state.replanHistory
              && state.replanAttempts == c.attempts == old(c.attempts) + (if acts then 1 else 0)
              && state.plan == state.planState.plan && state.executionTrace == w.trace
              && state.needReplan == (old(state.needReplan) && !replanned)
              && (if acts then c.ReplannedFrom(u, w, replanned) else !replanned && w == u)
  {
    hide TryApply, SoundPrior, CompletedPreserved, WellFormed, ReplanOutcome, CompletedSnapshot, ReplanTrace;
    if state.planState == null || state.critique == None {
      return;
    }
    var result := c.Handle(state.critique.value, state.planState);
    state.replanHistory := state.replanHistory + [result];
    state.plan := state.planState.plan;
    state.replanAttempts := c.attempts;
    state.executionTrace := state.planState.executionTrace.items;
    if result.replanned {
      state.needReplan := false;
    }
  }
}
