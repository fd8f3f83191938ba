/** Critic-driven replanning with rollback (plan/replanning_controller.py). */
module Replanning {
  import opened Sequences
  import opened PlanSchema
  import opened PlanValidation
  import opened PlanRepair
  import opened PlanStateModel

  // ------------------------------------------------- one attempt, on values

  /** The finished steps before a replan, by id. */
  function CompletedSnapshot(v: View): map<int, PlanStep> {
    StepsById(v.plan.steps, FinishedIds(v))
  }

  function StepsById(steps: seq<PlanStep>, ids: set<int>): (m: map<int, PlanStep>)
    ensures forall id :: id in m ==> id in ids && m[id] in steps && m[id].id == id
    ensures forall s :: s in steps && s.id in ids ==> s.id in m
  {
    if steps == [] then map[]
    else
      var last := steps[|steps| - 1];
      var m := StepsById(steps[..|steps| - 1], ids);
      assert steps == steps[..|steps| - 1] + [last];
      if last.id in ids then m[last.id := last] else m
  }

  /** New steps are lightly repaired first, when that changes anything. */
  function Prepared(newSteps: seq<PlanStep>): seq<PlanStep> {
    if RepairOf(Plan("(replan)", newSteps)).repaired then RepairedSteps(newSteps) else newSteps
  }

  /** A completed step is still there unchanged under its id, or its id is gone and some step carries its task. */
  ghost predicate StepPreserved(steps: seq<PlanStep>, original: PlanStep) {
    var found := FindStep(steps, original.id);
    if found.Some? then SameStep(found.value, original) else exists s :: s in steps && s.task == original.task
  }

  ghost predicate CompletedPreserved(steps: seq<PlanStep>, before: map<int, PlanStep>) {
    forall id :: id in before ==> StepPreserved(steps, before[id])
  }

  datatype Attempt = Attempt(applied: bool, view: View)

  function Repaired(v: View, preStatus: map<int, StepStatus>): View {
    var r := RepairOf(v.plan);
    if r.idMap != map[] then RemapStatus(v.(plan := r.plan), r.idMap) else v.(plan := r.plan, status := preStatus)
  }

  ghost function ValidateOrRepaired(v: View, preStatus: map<int, StepStatus>, registry: set<string>): Attempt {
    if AllErrors(v.plan, registry) == [] then Attempt(true, v)
    else if !RepairOf(v.plan).repaired then Attempt(false, v)
    else Attempt(AllErrors(Repaired(v, preStatus).plan, registry) == [], Repaired(v, preStatus))
  }

  function WithRestored(v: View, before: map<int, PlanStep>): View {
    v.(plan := Plan(v.plan.goal, RestoredSteps(v.plan.steps, before)))
  }

  ghost function TryApply(
    v: View, newSteps: seq<PlanStep>, before: map<int, PlanStep>, registry: set<string>): Attempt
  {
    CheckApplied(ApplyReplanned(v, Prepared(newSteps)), v.status, before, registry)
  }

  /** The part of an attempt after the application. */
  ghost function CheckApplied(
    w: View, preStatus: map<int, StepStatus>, before: map<int, PlanStep>, registry: set<string>): Attempt
  {
    var checked := ValidateOrRepaired(w, preStatus, registry);
    if !checked.applied then checked
    else Attempt(CompletedPreserved(WithRestored(checked.view, before).plan.steps, before),
                 WithRestored(checked.view, before))
  }

  // --------------------------------------------------- what success guarantees

  /** The state a replan starts from: a valid plan with one status per step. */
  ghost predicate SoundPrior(v: View, registry: set<string>) {
    WellFormed(v.plan, registry) && Consistent(v)
  }

  lemma RestoredAt(steps: seq<PlanStep>, before: map<int, PlanStep>, i: nat)
    requires i < |steps| && forall id :: id in before ==> before[id].id == id
    ensures RestoredSteps(steps, before)[i].id == steps[i].id
    ensures RestoredSteps(steps, before)[i] == steps[i] ||
            (steps[i].id in before && RestoredSteps(steps, before)[i] == before[steps[i].id])
  {
  }

  lemma RestoredIds(steps: seq<PlanStep>, before: map<int, PlanStep>)
    requires ContiguousIds(steps) && forall id :: id in before ==> before[id].id == id
    ensures ContiguousIds(RestoredSteps(steps, before))
    ensures IdSet(RestoredSteps(steps, before)) == IdSet(steps)
  {
    var r := RestoredSteps(steps, before);
    forall i, j | 0 <= i < j < |r| ensures IdOf(r[i]) != IdOf(r[j]) {
      assert IdOf(steps[i]) != IdOf(steps[j]);
    }
    forall s | s in r ensures s.id in IdSet(steps) && 1 <= s.id <= |r| {
      var i :| 0 <= i < |r| && r[i] == s;
      assert steps[i] in steps;
    }
    forall s | s in steps ensures s.id in IdSet(r) {
      var i :| 0 <= i < |steps| && steps[i] == s;
      assert r[i] in r;
    }
  }

  /** Restoring steps of an earlier valid plan after the last validation keeps the plan valid. */
  lemma RestoreKeepsWellFormed(plan: Plan, prior: Plan, before: map<int, PlanStep>, registry: set<string>)
    requires WellFormed(plan, registry) && WellFormed(prior, registry)
    requires forall id :: id in before ==> before[id].id == id && before[id] in prior.steps
    ensures WellFormed(Plan(plan.goal, RestoredSteps(plan.steps, before)), registry)
  {
    var r := RestoredSteps(plan.steps, before);
    RestoredIds(plan.steps, before);
    forall s | s in r
      ensures !IsBlank(s.task) && PriorStep(s) && (s.toolHint.Some? ==> s.toolHint.value in registry)
    {
      var i :| 0 <= i < |r| && r[i] == s;
      RestoredAt(plan.steps, before, i);
      assert plan.steps[i] in plan.steps;
    }
  }

  lemma AppliedIds(v: View, registry: set<string>, newSteps: seq<PlanStep>)
    requires SoundPrior(v, registry)
    ensures var w := ApplyReplanned(v, newSteps);
            Consistent(w) && DistinctIds(w.plan.steps) && forall s :: s in w.plan.steps ==> s.id >= 1
  {
    var finished, steps := FinishedIds(v), v.plan.steps;
    var max := MaxOrZero(finished);
    var kept, remapped := KeptSteps(steps, finished), NumberAfter(newSteps, max);
    assert max >= 0 by { assert finished <= IdSet(steps); }
    FilterDistinctIds((s: PlanStep) => s.id in finished, steps);
    assert forall i :: 0 <= i < |kept| ==> kept[i] in kept;
    AppendNumbered(kept, newSteps, max);
    AppliedStatuses(v, newSteps);
  }

  lemma AppendNumbered(kept: seq<PlanStep>, newSteps: seq<PlanStep>, max: int)
    requires DistinctIds(kept) && max >= 0 && forall s :: s in kept ==> 1 <= s.id <= max
    ensures DistinctIds(kept + NumberAfter(newSteps, max))
    ensures forall s :: s in kept + NumberAfter(newSteps, max) ==> s.id >= 1
  {
    var all := kept + NumberAfter(newSteps, max);
    forall i, j | 0 <= i < j < |all| ensures IdOf(all[i]) != IdOf(all[j]) {
      if i < |kept| { assert kept[i] in kept; }
      if j < |kept| { assert IdOf(kept[i]) != IdOf(kept[j]); }
    }
    forall s | s in all ensures s.id >= 1 {
      var i :| 0 <= i < |all| && all[i] == s;
      if i < |kept| { assert kept[i] in kept; }
    }
  }

  lemma AppliedStatuses(v: View, newSteps: seq<PlanStep>)
    requires Consistent(v)
    ensures Consistent(ApplyReplanned(v, newSteps))
  {
    var finished, steps := FinishedIds(v), v.plan.steps;
    var kept, remapped := KeptSteps(steps, finished), NumberAfter(newSteps, MaxOrZero(finished));
    assert ApplyReplanned(v, newSteps).plan.steps == kept + remapped;
    assert IdSet(kept + remapped) == IdSet(kept) + IdSet(remapped) by {
      assert forall s :: s in kept + remapped <==> s in kept || s in remapped;
    }
    forall id ensures id in IdSet(kept) <==> id in v.status && id !in RemovedIds(steps, finished) {
      if id in v.status && id !in RemovedIds(steps, finished) {
        assert id in IdSet(steps);
        var s :| s in steps && s.id == id;
        assert s in kept;
      }
      if id in IdSet(kept) {
        assert id in IdSet(steps);
      }
    }
  }

  lemma RenumberDomain(steps: seq<PlanStep>)
    ensures RenumberMap(steps).Keys == IdSet(steps)
  {
    SortedByIdFacts(steps);
    var sorted, m := SortById(steps), RenumberMap(steps);
    forall id | id in m ensures id in IdSet(steps) {
      IdMapValue(sorted, id);
      var s := sorted[m[id] - 1];
      assert s in sorted && s in steps;
    }
    forall s | s in steps ensures s.id in m {
      assert s in sorted;
    }
  }

  lemma RenumberImage(steps: seq<PlanStep>)
    requires DistinctIds(steps)
    ensures IdSet(RenumberedSteps(steps)) == ImageIds(RenumberMap(steps))
  {
    var sorted, r, m := SortById(steps), RenumberedSteps(steps), RenumberMap(steps);
    SortedByIdFacts(steps);
    forall id | id in m ensures m[id] in IdSet(r) {
      IdMapValue(sorted, id);
      RenumberDistinct(steps, m[id] - 1);
      assert r[m[id] - 1] in r;
    }
    forall s | s in r ensures s.id in ImageIds(m) {
      var k :| 0 <= k < |r| && r[k] == s;
      RenumberDistinct(steps, k);
      assert sorted[k] in sorted;
    }
  }

  /** Repair after a failed validation keeps one status per step. */
  lemma RepairedConsistent(v: View, preStatus: map<int, StepStatus>)
    requires Consistent(v) && DistinctIds(v.plan.steps) && v.plan.steps != []
    requires forall s :: s in v.plan.steps ==> s.id >= 1
    ensures Consistent(Repaired(v, preStatus))
  {
    var d := Deduped(v.plan.steps);
    DedupedKeys(v.plan.steps);
    DedupedOrder(v.plan.steps);
    DedupedNonEmpty(v.plan.steps);
    RenumberImage(d);
    RenumberDomain(d);
    RenumberCompresses(d);
    assert d[0] in d && d[0].id in IdSet(d);
    var idMap := RenumberMap(d);
    forall id | id in idMap ensures id in v.status {
      assert id in IdSet(d);
      var s :| s in d && s.id == id;
      assert id in IdSet(v.plan.steps);
    }
    RemapKeepsStatuses(v.(plan := RepairOf(v.plan).plan), idMap);
  }

  /** A plan that passes validation, possibly after repair, comes with one status per step. */
  lemma CheckedIsSound(v: View, preStatus: map<int, StepStatus>, registry: set<string>)
    requires Consistent(v) && DistinctIds(v.plan.steps) && forall s :: s in v.plan.steps ==> s.id >= 1
    ensures ValidateOrRepaired(v, preStatus, registry).applied ==>
            SoundPrior(ValidateOrRepaired(v, preStatus, registry).view, registry)
  {
    SuccessIffWellFormed(v.plan, registry);
    if AllErrors(v.plan, registry) != [] && ValidateOrRepaired(v, preStatus, registry).applied {
      SuccessIffWellFormed(Repaired(v, preStatus).plan, registry);
      if v.plan.steps == [] { RepairedEmpty(v.plan.steps); }
      RepairedConsistent(v, preStatus);
    }
  }

  lemma RestoreKeepsSound(v: View, prior: Plan, before: map<int, PlanStep>, registry: set<string>)
    requires SoundPrior(v, registry) && WellFormed(prior, registry)
    requires forall id :: id in before ==> before[id].id == id && before[id] in prior.steps
    ensures SoundPrior(WithRestored(v, before), registry)
  {
    RestoreKeepsWellFormed(v.plan, prior, before, registry);
    RestoredIds(v.plan.steps, before);
  }

  /** On success: the plan is valid (contiguous ids, only prior dependencies) although completed steps were restored
      after the last validation, and every completed step is preserved. */
  lemma SuccessfulReplan(v: View, newSteps: seq<PlanStep>, registry: set<string>)
    requires SoundPrior(v, registry)
    ensures var a := TryApply(v, newSteps, CompletedSnapshot(v), registry);
            a.applied ==> SoundPrior(a.view, registry) && CompletedPreserved(a.view.plan.steps, CompletedSnapshot(v))
  {
    if TryApply(v, newSteps, CompletedSnapshot(v), registry).applied {
      AppliedIds(v, registry, Prepared(newSteps));
      CheckedIsSound(ApplyReplanned(v, Prepared(newSteps)), v.status, registry);
      RestoreKeepsSound(ValidateOrRepaired(ApplyReplanned(v, Prepared(newSteps)), v.status, registry).view,
                        v.plan, CompletedSnapshot(v), registry);
    }
  }

  lemma RepairedEmpty(steps: seq<PlanStep>)
    requires steps == []
    ensures RepairedSteps(steps) == []
  {
    assert Deduped(steps) == [];
    SortedByIdFacts(Deduped(steps));
  }

  // ------------------------------------------------------- what failure means

  lemma FindDistinct(steps: seq<PlanStep>, s: PlanStep)
    requires DistinctIds(steps) && s in steps
    ensures FindStep(steps, s.id) == Some(s)
  {
    var t := FindStep(steps, s.id).value;
    var i :| 0 <= i < |steps| && steps[i] == s;
    var j :| 0 <= j < |steps| && steps[j] == t;
    assert i < j ==> IdOf(steps[i]) != IdOf(steps[j]);
    assert j < i ==> IdOf(steps[j]) != IdOf(steps[i]);
  }

  lemma CompletedStillThere(v: View, registry: set<string>, newSteps: seq<PlanStep>, id: int)
    requires SoundPrior(v, registry)
    ensures id in CompletedSnapshot(v) ==>
            FindStep(ApplyReplanned(v, newSteps).plan.steps, id) == Some(CompletedSnapshot(v)[id])
  {
    if id in CompletedSnapshot(v) {
      var s, steps := CompletedSnapshot(v)[id], ApplyReplanned(v, newSteps).plan.steps;
      AppliedIds(v, registry, newSteps);
      assert s in KeptSteps(v.plan.steps, FinishedIds(v));
      assert s in steps;
      FindDistinct(steps, s);
    }
  }

  lemma NothingToRestore(steps: seq<PlanStep>, before: map<int, PlanStep>)
    requires DistinctIds(steps)
    requires forall id :: id in before ==> FindStep(steps, id) == Some(before[id])
    ensures RestoredSteps(steps, before) == steps && CompletedPreserved(steps, before)
  {
    forall i | 0 <= i < |steps| ensures RestoredSteps(steps, before)[i] == steps[i] {
      if steps[i].id in before {
        assert steps[i] in steps;
        FindDistinct(steps, steps[i]);
      }
    }
    assert RestoredSteps(steps, before) == steps;
  }

  /** A replan whose first validation passes always succeeds: the kept steps are still the completed ones. */
  lemma ValidatedApplySucceeds(v: View, newSteps: seq<PlanStep>, registry: set<string>)
    requires SoundPrior(v, registry)
    ensures AllErrors(ApplyReplanned(v, Prepared(newSteps)).plan, registry) == [] ==>
              TryApply(v, newSteps, CompletedSnapshot(v), registry) ==
                Attempt(true, ApplyReplanned(v, Prepared(newSteps)))
  {
    var before, w := CompletedSnapshot(v), ApplyReplanned(v, Prepared(newSteps));
    AppliedIds(v, registry, Prepared(newSteps));
    forall id | id in before ensures FindStep(w.plan.steps, id) == Some(before[id]) {
      CompletedStillThere(v, registry, Prepared(newSteps), id);
    }
    NothingToRestore(w.plan.steps, before);
  }

  /** So an attempt fails only when the applied plan was invalid. */
  lemma FailureMeansInvalid(v: View, newSteps: seq<PlanStep>, registry: set<string>)
    requires SoundPrior(v, registry)
    ensures !TryApply(v, newSteps, CompletedSnapshot(v), registry).applied ==>
              !WellFormed(ApplyReplanned(v, Prepared(newSteps)).plan, registry)
  {
    SuccessIffWellFormed(ApplyReplanned(v, Prepared(newSteps)).plan, registry);
    ValidatedApplySucceeds(v, newSteps, registry);
  }

  /** What a failed attempt leaves in the containers it found: the plan as applied, with completed steps put back in
      place when it validated at once. */
  ghost function LeftBehind(v: View, newSteps: seq<PlanStep>, before: map<int, PlanStep>, registry: set<string>): View {
    var a := ApplyReplanned(v, Prepared(newSteps));
    if AllErrors(a.plan, registry) == [] then WithRestored(a, before) else a
  }

  /** Whether an attempt repaired anything: the answer, the applied plan, or a completed step. */
  ghost predicate RepairUsed(v: View, newSteps: seq<PlanStep>, before: map<int, PlanStep>, registry: set<string>) {
    || RepairOf(Plan("(replan)", newSteps)).repaired
    || CheckRepairs(ApplyReplanned(v, Prepared(newSteps)), v.status, before, registry)
  }

  ghost predicate CheckRepairs(
    w: View, preStatus: map<int, StepStatus>, before: map<int, PlanStep>, registry: set<string>)
  {
    var checked := ValidateOrRepaired(w, preStatus, registry);
    || (AllErrors(w.plan, registry) != [] && RepairOf(w.plan).repaired)
    || (checked.applied && RestoredSteps(checked.view.plan.steps, before) != checked.view.plan.steps)
  }

  /** The outcome of `_replan` on values: the first attempt, else the fallback from the same view, else what the second
      restore really leaves: the containers the failed fallback worked on. */
  ghost function ReplanOutcome(
    v: View, planned: seq<PlanStep>, fallback: seq<PlanStep>, registry: set<string>): Attempt
  {
    var before := CompletedSnapshot(v);
    if TryApply(v, planned, before, registry).applied then TryApply(v, planned, before, registry)
    else if TryApply(v, fallback, before, registry).applied then TryApply(v, fallback, before, registry)
    else Attempt(false, LeftBehind(v, fallback, before, registry))
  }

  function TraceNote(anchor: int, action: string, success: Option<bool>): TraceEntry {
    TraceEntry(anchor, "[replan] " + action, Pending, None, success, None, 1, Some(action))
  }

  ghost function RepairNote(anchor: int, used: bool): seq<TraceEntry> {
    if used then [TraceNote(anchor, "replan_repair", Some(true))] else []
  }

  ghost function FallbackNote(
    v: View, anchor: int, planned: seq<PlanStep>, fallback: seq<PlanStep>, registry: set<string>): seq<TraceEntry>
  {
    var before := CompletedSnapshot(v);
    if TryApply(v, planned, before, registry).applied then []
    else if TryApply(v, fallback, before, registry).applied then [TraceNote(anchor, "replan_fallback", Some(true))]
    else [TraceNote(anchor, "replan_failed", Some(false))]
  }

  /** The answer tried last. */
  ghost function LastAnswer(
    v: View, planned: seq<PlanStep>, fallback: seq<PlanStep>, registry: set<string>): seq<PlanStep>
  {
    if TryApply(v, planned, CompletedSnapshot(v), registry).applied then planned else fallback
  }

  /** The trace entries a replan adds after announcing itself. */
  ghost function ReplanTrace(
    v: View, anchor: int, planned: seq<PlanStep>, fallback: seq<PlanStep>, registry: set<string>): seq<TraceEntry>
  {
    FallbackNote(v, anchor, planned, fallback, registry) +
    (if ReplanOutcome(v, planned, fallback, registry).applied
     then RepairNote(anchor,
                     RepairUsed(v, LastAnswer(v, planned, fallback, registry), CompletedSnapshot(v), registry))
     else [])
  }

  lemma OutcomeCases(v: View, anchor: int, planned: seq<PlanStep>, fallback: seq<PlanStep>, registry: set<string>)
    ensures var before := CompletedSnapshot(v);
            var first, second := TryApply(v, planned, before, registry), TryApply(v, fallback, before, registry);
            var r := ReplanOutcome(v, planned, fallback, registry);
            if first.applied
            then r == first && LastAnswer(v, planned, fallback, registry) == planned
                 && v.trace + FallbackNote(v, anchor, planned, fallback, registry) == v.trace
            else r == Attempt(second.applied, if second.applied then second.view
                                              else LeftBehind(v, fallback, before, registry))
                 && LastAnswer(v, planned, fallback, registry) == fallback
                 && FallbackNote(v, anchor, planned, fallback, registry) ==
                      [TraceNote(anchor, if second.applied then "replan_fallback" else "replan_failed",
                                 Some(second.applied))]
  {
    hide TryApply, CompletedSnapshot, LeftBehind, TraceNote;
    assert v.trace + [] == v.trace;
  }

  /** Replanning from a sound state ends in a sound state exactly when it reports success: after two failed attempts
      the plan left in place is never the previous one, nor any valid plan. */
  lemma ReplanSoundIffApplied(v: View, planned: seq<PlanStep>, fallback: seq<PlanStep>, registry: set<string>)
    requires SoundPrior(v, registry)
    ensures var r := ReplanOutcome(v, planned, fallback, registry);
            && (SoundPrior(r.view, registry) <==> r.applied)
            && (r.applied ==> CompletedPreserved(r.view.plan.steps, CompletedSnapshot(v)))
            && (!r.applied ==> r.view.plan != v.plan)
  {
    var before := CompletedSnapshot(v);
    if TryApply(v, planned, before, registry).applied {
      SuccessfulReplan(v, planned, registry);
    } else if TryApply(v, fallback, before, registry).applied {
      SuccessfulReplan(v, fallback, registry);
    } else {
      FailureMeansInvalid(v, fallback, registry);
      SuccessIffWellFormed(ApplyReplanned(v, Prepared(fallback)).plan, registry);
    }
  }

  /** The trace plays no part in what a replan reads. */
  lemma TraceIsIrrelevant(u: View, v: View, registry: set<string>)
    requires v == u.(trace := v.trace)
    ensures CompletedSnapshot(v) == CompletedSnapshot(u) && (SoundPrior(v, registry) <==> SoundPrior(u, registry))
  {
    assert FinishedIds(u) == FinishedIds(v);
  }

  lemma ApplyFrame(v: View, newSteps: seq<PlanStep>)
    ensures var a := ApplyReplanned(v, newSteps);
            a.completed == v.completed && a.current == v.current && a.trace == v.trace
  {
  }

  lemma CleanIsChecked(w: View, preStatus: map<int, StepStatus>, registry: set<string>)
    ensures AllErrors(w.plan, registry) == [] ==> ValidateOrRepaired(w, preStatus, registry) == Attempt(true, w)
  {
  }

  lemma NoteTrace(a: seq<TraceEntry>, b: seq<TraceEntry>, c: seq<TraceEntry>)
    ensures (a + b) + c == a + (b + c) && b + [] == b
  {
  }

  lemma LeftFrame(v: View, newSteps: seq<PlanStep>, before: map<int, PlanStep>, registry: set<string>)
    ensures var a := LeftBehind(v, newSteps, before, registry);
            a.completed == v.completed && a.current == v.current && a.trace == v.trace
  {
    ApplyFrame(v, Prepared(newSteps));
  }

  lemma TryApplyKeepsTrace(v: View, newSteps: seq<PlanStep>, before: map<int, PlanStep>, registry: set<string>)
    ensures TryApply(v, newSteps, before, registry).view.trace == v.trace
  {
    hide AllErrors, CompletedPreserved, RestoredSteps, RepairOf;
    ApplyFrame(v, Prepared(newSteps));
  }

  lemma SnapshotIds(v: View)
    ensures forall id :: id in CompletedSnapshot(v) ==> CompletedSnapshot(v)[id].id == id
  {
  }

  // --------------------------------------------------------------- controller

  datatype ReplanError = Invalid(error: PlanError) | CompletedLost(stepId: int) | CompletedChanged(stepId: int)

  datatype Meta = Meta(
    repairApplied: bool, fallbackUsed: bool, notes: seq<Note>, errors: seq<ReplanError>, overrides: set<int>)

  datatype SkipReason = NotNeeded | Disabled | AttemptsUsed | ValidationFailed

  datatype ReplanResult = ReplanResult(replanned: bool, attempt: nat, skipped: Option<SkipReason>, meta: Meta)

  const NO_META := Meta(false, false, [], [], {})

  function ToReplanErrors(errors: seq<PlanError>): (r: seq<ReplanError>)
    ensures |r| == |errors|
  {
    seq(|errors|, i requires 0 <= i < |errors| => Invalid(errors[i]))
  }

  class ReplanningController {
    const validator: PlanValidator
    const enabled: bool
    const maxReplanAttempts: nat
    /** What the planner and its rule-based fallback answer when shown a state. */
    const plan: View -> seq<PlanStep>
    const fallbackPlan: View -> seq<PlanStep>

    var attempts: nat

    constructor (v: PlanValidator, on: bool, max: nat, p: View -> seq<PlanStep>, f: View -> seq<PlanStep>)
      ensures validator == v && enabled == on && maxReplanAttempts == max && plan == p
              && fallbackPlan == f && attempts == 0
    {
      validator, enabled, maxReplanAttempts, plan, fallbackPlan := v, on, max, p, f;
      attempts := 0;
    }

    /** Either nothing is touched, or the state gets fresh containers holding the repaired plan. */
    method ValidateOrRepairPlan(state: PlanState, preStatus: map<int, StepStatus>, meta: Meta)
      returns (ok: bool, meta': Meta)
      modifies state
      ensures Attempt(ok, state.Value()) == ValidateOrRepaired(old(state.Value()), preStatus, validator.registry)
      ensures fresh(state.Repr() - old(state.Repr())) && state.executionTrace == old(state.executionTrace)
      ensures state.currentStep == old(state.currentStep)
      ensures state.plan == old(state.plan) || fresh(state.plan)
      ensures state.plan == old(state.plan) <== AllErrors(old(state.plan.Value()), validator.registry) == []
      ensures state.plan == old(state.plan) && ok ==> AllErrors(old(state.plan.Value()), validator.registry) == []
      ensures meta'.fallbackUsed == meta.fallbackUsed && (!ok ==> meta'.errors != [])
      ensures meta'.repairApplied <==>
                || meta.repairApplied
                || (AllErrors(old(state.plan.Value()), validator.registry) != []
                    && RepairOf(old(state.plan.Value())).repaired)
    {
      hide AllErrors, WellFormed, RepairOf, Repaired;
      meta' := meta;
      var report := validator.Validate(state.plan.Value());
      if report.success {
        return true, meta;
      }
      meta' := meta'.(errors := ToReplanErrors(report.errors));
      var repair := RepairPlan(state.plan.Value());
      if !repair.repaired {
        return false, meta';
      }
      meta' := meta'.(repairApplied := true, notes := meta.notes + repair.notes);
      InstallRepair(state, repair, preStatus);
      report := validator.Validate(state.plan.Value());
      if report.success {
        return true, meta'.(errors := []);
      }
      return false, meta'.(errors := ToReplanErrors(report.errors));
    }

    method InstallRepair(state: PlanState, repair: RepairResult, preStatus: map<int, StepStatus>)
      requires repair == RepairOf(state.plan.Value())
      modifies state
      ensures state.Value() == Repaired(old(state.Value()), preStatus)
      ensures fresh(state.plan) && fresh(state.Repr() - old(state.Repr()))
              && state.executionTrace == old(state.executionTrace)
      ensures state.currentStep == old(state.currentStep)
    {
      hide RemapStatus, RepairedSteps, RepairNotes, RenumberMap;
      var p := new PlanObject(repair.plan);
      state.plan := p;
      assert state.Value() == old(state.Value()).(plan := repair.plan);
      if repair.idMap != map[] {
        state.RemapStepStatus(repair.idMap);
      } else {
        var st := new StatusDict(preStatus);
        state.stepStatus := st;
      }
    }

    /** Looks for a completed step that a replan lost or changed. */
    static method AssertCompletedStepsPreserved(steps: seq<PlanStep>, before: map<int, PlanStep>)
      returns (err: Option<ReplanError>)
      requires forall id :: id in before ==> before[id].id == id
      ensures err.None? <==> CompletedPreserved(steps, before)
    {
      var todo := before.Keys;
      while todo != {}
        invariant todo <= before.Keys
        invariant forall id :: id in before.Keys - todo ==> StepPreserved(steps, before[id])
        decreases todo
      {
        NonEmpty(todo);
        var id :| id in todo;
        var found := FindStep(steps, id);
        if found.None? {
          var index := 0;
          while index < |steps| && steps[index].task != before[id].task
            invariant 0 <= index <= |steps|
            invariant forall j :: 0 <= j < index ==> steps[j].task != before[id].task
          {
            index := index + 1;
          }
          if index == |steps| {
            assert !StepPreserved(steps, before[id]);
            return Some(CompletedLost(id));
          }
          assert steps[index] in steps;
        } else if !SameStep(found.value, before[id]) {
          assert !StepPreserved(steps, before[id]);
          return Some(CompletedChanged(id));
        }
        todo := todo - {id};
      }
      err := None;
    }

    /** One attempt. It works in place on the containers it finds; when the applied plan does not validate, those
        containers are left exactly as the application made them. */
    method TryApplyReplanSteps(state: PlanState, newSteps: seq<PlanStep>, before: map<int, PlanStep>, meta: Meta)
      returns (applied: bool, meta': Meta)
      requires forall id :: id in before ==> before[id].id == id
      modifies state, state.plan, state.stepStatus, state.stepResults
      ensures Attempt(applied, state.Value()) == TryApply(old(state.Value()), newSteps, before, validator.registry)
      ensures fresh(state.Repr() - old(state.Repr())) && state.executionTrace == old(state.executionTrace)
      ensures state.currentStep == old(state.currentStep)
      ensures var left := LeftBehind(old(state.Value()), newSteps, before, validator.registry);
              && old(state.plan).Value() == left.plan && old(state.stepStatus).entries == left.status
              && old(state.stepResults).entries == left.results
      ensures meta'.fallbackUsed == meta.fallbackUsed && (!applied ==> meta'.errors != [])
      ensures applied ==> (meta'.repairApplied <==>
                meta.repairApplied || RepairUsed(old(state.Value()), newSteps, before, validator.registry))
    {
      hide ApplyReplanned, CheckApplied, CheckRepairs, AllErrors, Prepared, RepairOf;
      var steps;
      steps, meta' := PrepareSteps(newSteps, meta);
      var preStatus := state.stepStatus.entries;
      state.ApplyReplannedSteps(steps);
      applied, meta' := Check(state, preStatus, before, meta');
    }

    /** Validates the applied plan, repairing it if need be, and puts completed steps back. */
    method Check(state: PlanState, preStatus: map<int, StepStatus>, before: map<int, PlanStep>, meta: Meta)
      returns (applied: bool, meta': Meta)
      requires forall id :: id in before ==> before[id].id == id
      modifies state, state.plan
      ensures Attempt(applied, state.Value()) == CheckApplied(old(state.Value()), preStatus, before, validator.registry)
      ensures fresh(state.Repr() - old(state.Repr())) && state.executionTrace == old(state.executionTrace)
      ensures state.currentStep == old(state.currentStep)
      ensures old(state.plan).Value() == if AllErrors(old(state.plan.Value()), validator.registry) == []
                                         then WithRestored(old(state.Value()), before).plan else old(state.plan.Value())
      ensures meta'.fallbackUsed == meta.fallbackUsed && (!applied ==> meta'.errors != [])
      ensures applied ==> (meta'.repairApplied <==>
                meta.repairApplied || CheckRepairs(old(state.Value()), preStatus, before, validator.registry))
    {
      hide ValidateOrRepaired, CompletedPreserved, AllErrors, RepairOf, RestoredSteps;
      CleanIsChecked(state.Value(), preStatus, validator.registry);
      applied, meta' := ValidateOrRepairPlan(state, preStatus, meta);
      if applied {
        applied, meta' := RestoreAndCheck(state, before, meta');
      }
    }

    static method PrepareSteps(newSteps: seq<PlanStep>, meta: Meta) returns (steps: seq<PlanStep>, meta': Meta)
      ensures steps == Prepared(newSteps) && meta'.fallbackUsed == meta.fallbackUsed
      ensures meta'.repairApplied <==> meta.repairApplied || RepairOf(Plan("(replan)", newSteps)).repaired
    {
      steps, meta' := newSteps, meta;
      var repair := RepairSteps(newSteps);
      if repair.repaired {
        meta' := meta'.(repairApplied := true, notes := meta.notes + repair.notes);
        steps := repair.plan.steps;
      }
    }

    /** Puts completed steps back and checks that none was lost. */
    method RestoreAndCheck(state: PlanState, before: map<int, PlanStep>, meta: Meta) returns (ok: bool, meta': Meta)
      requires forall id :: id in before ==> before[id].id == id
      modifies state.plan
      ensures state.Value() == WithRestored(old(state.Value()), before)
      ensures ok <==> CompletedPreserved(state.plan.steps, before)
      ensures meta'.fallbackUsed == meta.fallbackUsed && (!ok ==> meta'.errors != [])
      ensures meta'.repairApplied <==> meta.repairApplied || state.plan.steps != old(state.plan.steps)
    {
      hide CompletedPreserved, RestoredSteps;
      meta' := meta;
      var overrides := state.RestoreCompletedStepSnapshots(before);
      if overrides != {} {
        meta' := meta'.(overrides := meta'.overrides + overrides, repairApplied := true);
      }
      var err := AssertCompletedStepsPreserved(state.plan.steps, before);
      ok := err.None?;
      if err.Some? {
        meta' := meta'.(errors := [err.value]);
      }
    }

    /** The planner's attempt and, when it fails, the rollback: the state then equals, field by field, the state
        captured before the attempt, and holds none of the containers the attempt worked on. */
    method PlannerAttempt(state: PlanState, before: map<int, PlanStep>, snapshot: Snapshot, ghost v: View)
      returns (applied: bool, meta: Meta, ghost worked: set<object>)
      requires v == state.Value() && forall id :: id in before ==> before[id].id == id
      requires snapshot.Objects() !! state.Repr() && SnapshotValue(snapshot, state.currentStep) == v
      modifies state, state.plan, state.stepStatus, state.stepResults
      ensures applied == TryApply(v, plan(v), before, validator.registry).applied
      ensures applied ==> state.Value() == TryApply(v, plan(v), before, validator.registry).view
      ensures applied ==> fresh(state.Repr() - old(state.Repr())) && state.executionTrace == old(state.executionTrace)
      ensures applied ==> (meta.repairApplied <==> RepairUsed(v, plan(v), before, validator.registry))
      ensures state.currentStep == old(state.currentStep)
      ensures !applied ==> state.Value() == v && state.Containers() == snapshot
      ensures !applied ==> old(state.Containers()).Objects() <= worked && state.Containers().Objects() !! worked
    {
      hide TryApply, ApplyReplanned, Prepared, AllErrors, RepairUsed, LeftBehind, CheckApplied;
      var newSteps := plan(state.Value());
      worked := state.Containers().Objects();
      applied, meta := TryApplyReplanSteps(state, newSteps, before, NO_META);
      worked := worked + state.Containers().Objects();
      if !applied {
        state.RestoreSnapshot(snapshot);
      }
    }

    static function AnchorStepId(v: View): int {
      if UnfinishedIds(v) != [] then UnfinishedIds(v)[0]
      else if v.completed != [] then v.completed[|v.completed| - 1] else 0
    }

    /** The state the planner is shown: the replan has been noted in the trace. */
    static function Noted(u: View): View {
      u.(trace := u.trace + [TraceNote(AnchorStepId(u), "critic_replan", None)])
    }

    /** What a replan from u ends in: its result, and the view with the trace entries of its steps. */
    ghost predicate ReplannedFrom(u: View, w: View, replanned: bool) {
      var v := Noted(u);
      var r := ReplanOutcome(v, plan(v), fallbackPlan(v), validator.registry);
      && replanned == r.applied
      && w == r.view.(
                trace := v.trace + ReplanTrace(v, AnchorStepId(u), plan(v), fallbackPlan(v), validator.registry))
    }

    /** The whole protocol: at most two attempts from the same state, with the trace entries each outcome adds. */
    method Replan(state: PlanState) returns (result: ReplanResult)
      modifies this`attempts, state, state.plan, state.stepStatus, state.stepResults, state.executionTrace
      ensures attempts == old(attempts) + 1 && result.attempt == attempts
      ensures ReplannedFrom(old(state.Value()), state.Value(), result.replanned)
    {
      hide TryApply, CompletedSnapshot, UnfinishedIds, RepairUsed, LeftBehind, AnchorStepId, SoundPrior, TraceNote;
      attempts := attempts + 1;
      var before := CompletedSnapshot(state.Value());
      var anchor := AnchorStepId(state.Value());
      state.AppendTrace(TraceNote(anchor, "critic_replan", None));
      ghost var v := state.Value();
      TraceIsIrrelevant(old(state.Value()), v, validator.registry);
      var applied, meta := TwoAttempts(state, before, anchor, v);
      if !applied {
        return ReplanResult(false, attempts, Some(ValidationFailed), meta);
      }
      if meta.repairApplied {
        state.AppendTrace(TraceNote(anchor, "replan_repair", Some(true)));
      }
      NoteTrace(v.trace, FallbackNote(v, anchor, plan(v), fallbackPlan(v), validator.registry),
                RepairNote(anchor, meta.repairApplied));
      result := ReplanResult(true, attempts, None, meta);
    }

    /** The planner's attempt, and the fallback's when it fails. */
    method TwoAttempts(state: PlanState, before: map<int, PlanStep>, anchor: int, ghost v: View)
      returns (applied: bool, meta: Meta)
      requires state.Value() == v && before == CompletedSnapshot(v)
      modifies state, state.plan, state.stepStatus, state.stepResults, state.executionTrace
      ensures applied == ReplanOutcome(v, plan(v), fallbackPlan(v), validator.registry).applied
      ensures state.Value() == ReplanOutcome(v, plan(v), fallbackPlan(v), validator.registry).view.(
                trace := v.trace + FallbackNote(v, anchor, plan(v), fallbackPlan(v), validator.registry))
      ensures applied ==>
                (meta.repairApplied <==>
                    RepairUsed(v, LastAnswer(v, plan(v), fallbackPlan(v), validator.registry),
                               before, validator.registry))
      ensures fresh(state.Repr() - old(state.Repr()))
    {
      hide TryApply, CompletedSnapshot, RepairUsed, LeftBehind, TraceNote, ReplanOutcome, FallbackNote, LastAnswer;
      SnapshotIds(v);
      TryApplyKeepsTrace(v, plan(v), before, validator.registry);
      OutcomeCases(v, anchor, plan(v), fallbackPlan(v), validator.registry);
      var snapshot := state.SnapshotForReplan();
      ghost var worked;
      applied, meta, worked := PlannerAttempt(state, before, snapshot, v);
      if !applied {
        applied, meta := FallbackAttempt(state, before, snapshot, anchor, v);
      }
    }

    /** The rule-based fallback on the restored state. When it fails too, restoring the same snapshot again installs the
        very objects the fallback has just modified. */
    method FallbackAttempt(state: PlanState, before: map<int, PlanStep>, snapshot: Snapshot, anchor: int, ghost v: View)
      returns (applied: bool, meta: Meta)
      requires state.Value() == v && state.Containers() == snapshot && before == CompletedSnapshot(v)
      modifies state, state.plan, state.stepStatus, state.stepResults, state.executionTrace
      ensures applied == TryApply(v, fallbackPlan(v), before, validator.registry).applied
      ensures applied ==> (meta.repairApplied <==> RepairUsed(v, fallbackPlan(v), before, validator.registry))
      ensures var view := if applied then TryApply(v, fallbackPlan(v), before, validator.registry).view
                          else LeftBehind(v, fallbackPlan(v), before, validator.registry);
              state.Value() == view.(
                trace := v.trace +
                          [TraceNote(anchor, if applied then "replan_fallback" else "replan_failed", Some(applied))])
      ensures fresh(state.Repr() - old(state.Repr()))
    {
      hide TryApply, ApplyReplanned, Prepared, WellFormed, AllErrors, CompletedSnapshot, RepairUsed, LeftBehind;
      var fallbackSteps := fallbackPlan(state.Value());
      SnapshotIds(v);
      LeftFrame(v, fallbackSteps, before, validator.registry);
      TryApplyKeepsTrace(v, fallbackSteps, before, validator.registry);
      applied, meta := TryApplyReplanSteps(state, fallbackSteps, before, NO_META.(fallbackUsed := true));
      if applied {
        state.AppendTrace(TraceNote(anchor, "replan_fallback", Some(true)));
        return;
      }
      state.RestoreSnapshot(snapshot);
      state.AppendTrace(TraceNote(anchor, "replan_failed", Some(false)));
    }

    /** A replan happens exactly when the critic asks for one, the controller is enabled and an attempt is left. */
    method Handle(needReplan: bool, state: PlanState) returns (result: ReplanResult)
      modifies this`attempts, state, state.plan, state.stepStatus, state.stepResults, state.executionTrace
      ensures var acts := needReplan && enabled && old(attempts) < maxReplanAttempts;
              && attempts == old(attempts) + (if acts then 1 else 0)
              && (!acts ==>
                    && !result.replanned
                    && state.Value() == old(state.Value()) && state.Containers() == old(state.Containers()))
              && (acts ==> ReplannedFrom(old(state.Value()), state.Value(), result.replanned))
      ensures old(SoundPrior(state.Value(), validator.registry)) && result.replanned ==>
                && SoundPrior(state.Value(), validator.registry)
                && CompletedPreserved(state.plan.steps, CompletedSnapshot(old(state.Value())))
    {
      hide TryApply, ReplanOutcome, CompletedPreserved, WellFormed, FinishedIds, Filter;
      if !needReplan {
        return ReplanResult(false, attempts, Some(NotNeeded), NO_META);
      }
      if !enabled {
        return ReplanResult(false, attempts, Some(Disabled), NO_META);
      }
      if attempts >= maxReplanAttempts {
        return ReplanResult(false, attempts, Some(AttemptsUsed), NO_META);
      }
      ghost var u := state.Value();
      ghost var v := Noted(u);
      result := Replan(state);
      if SoundPrior(u, validator.registry) {
        TraceIsIrrelevant(u, v, validator.registry);
        ReplanSoundIffApplied(v, plan(v), fallbackPlan(v), validator.registry);
      }
    }
  }
}
