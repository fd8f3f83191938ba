/** The replan policy of the executor, which applies the planner's answer as it is, without preparing or repairing it
    (plan/executor.py, plan/state.py). */
module ExecutorReplan {
  import opened Sequences
  import opened PlanSchema
  import opened PlanValidation
  import opened PlanRepair
  import opened PlanStateModel
  import opened Replanning
  import opened PlanExecution
  import opened ReplanLaws
  import opened ReplanKeeps

  /** The state the planner is asked in: step m + 1 of a loop head has failed. */
  function AfterFailure(v: View, m: nat): View {
    v.(status := v.status[m + 1 := Failed])
  }

  lemma FailureFacts(v: View, registry: set<string>, m: nat)
    requires HeadAt(v, registry, m) && m < |v.plan.steps|
    ensures var u := AfterFailure(v, m);
            && SoundPrior(u, registry) && FinishedIds(u) == FinishedIds(v) && FinishedPrefix(u)
            && |FinishedIds(u)| == m && MaxOrZero(FinishedIds(u)) == m
  {
    hide WellFormed;
    PlanIds(v, registry);
    var u := AfterFailure(v, m);
    assert forall id :: id in v.status <==> 1 <= id <= |v.plan.steps|;
    assert m + 1 in v.status;
    assert forall id :: id in FinishedIds(u) <==> 1 <= id <= m;
    PrefixCount(FinishedIds(u), m);
    if m > 0 { assert m in FinishedIds(u); }
  }

  lemma PlanIds(v: View, registry: set<string>)
    requires WellFormed(v.plan, registry)
    ensures forall id :: id in IdSet(v.plan.steps) <==> 1 <= id <= |v.plan.steps|
  {
    ContiguousCovers(v.plan.steps);
  }

  lemma PrefixCount(ids: set<int>, m: nat)
    requires forall id :: id in ids <==> 1 <= id <= m
    ensures |ids| == m
  {
    var range := Range(1, m + 1);
    assert ids == SetOf(range) by {
      forall id | id in ids ensures id in SetOf(range) { assert range[id - 1] == id; }
    }
    SetOfRange(m);
  }

  /** A raw answer validates if and only if every step has a task and no unknown tool, something is left, and every
      dependency, read as an id of the plan, names an id before the one its step gets. */
  lemma RawAnswerIsValidIff(v: View, registry: set<string>, m: nat, newSteps: seq<PlanStep>, w: View)
    requires HeadAt(v, registry, m) && m < |v.plan.steps| && ReplannedAfter(v, w, m + 1, newSteps)
    ensures WellFormed(w.plan, registry) <==>
            && GoodSteps(newSteps, registry) && (newSteps != [] || m > 0)
            && forall i, d :: 0 <= i < |newSteps| && d in newSteps[i].Deps() ==> 1 <= d <= m + i
  {
    hide HeadAt, WellFormed, GoodSteps, FinishedIds, MaxOrZero, FinishedPrefix, ApplyReplanned, Appended, SoundPrior;
    var u := AfterFailure(v, m);
    FailureFacts(v, registry, m);
    AppendedPlan(u, newSteps);
    AppendedIsValid(u, newSteps, registry);
  }

  /** A raw answer that copies a finished step has it executed again: its i-th step is pending step m + i + 1 beside the
      finished one. */
  lemma RawRepeatRunsAgain(v: View, registry: set<string>, m: nat, newSteps: seq<PlanStep>, w: View, i: nat)
    returns (s: PlanStep, t: PlanStep)
    requires HeadAt(v, registry, m) && m < |v.plan.steps| && ReplannedAfter(v, w, m + 1, newSteps)
    requires i < |newSteps| && KeyOf(newSteps[i]) in Keys(Kept(v))
    ensures s in w.plan.steps && t in w.plan.steps && KeyOf(s) == KeyOf(t) && s.task == newSteps[i].task
    ensures s.id == m + i + 1 && s.id in w.status && w.status[s.id] == Pending && t.id in FinishedIds(v)
  {
    hide HeadAt, FinishedIds, MaxOrZero, ApplyReplanned, SoundPrior, KeyOf, KeptSteps, FinishedPrefix;
    FailureFacts(v, registry, m);
    s, t := AppendedRepeat(AfterFailure(v, m), newSteps, registry, i);
  }

  /** The plan after a raw answer holds a pending copy of a finished step exactly when the answer repeats one. */
  lemma RawCopyIff(v: View, registry: set<string>, m: nat, newSteps: seq<PlanStep>, w: View)
    requires HeadAt(v, registry, m) && m < |v.plan.steps| && ReplannedAfter(v, w, m + 1, newSteps)
    ensures PendingCopy(v, w) <==> Repeats(v, newSteps)
  {
    hide HeadAt, FinishedIds, MaxOrZero, ApplyReplanned, SoundPrior, KeyOf, KeptSteps, FinishedPrefix;
    FailureFacts(v, registry, m);
    AppendedCopies(AfterFailure(v, m), newSteps, registry);
  }

  /** All dependencies between the steps of a raw answer survive exactly when every step names the numbers, after m, of
      the steps it needs. */
  lemma RawEdgesIff(v: View, registry: set<string>, m: nat, newSteps: seq<PlanStep>, w: View)
    requires HeadAt(v, registry, m) && m < |v.plan.steps| && ReplannedAfter(v, w, m + 1, newSteps)
    ensures |w.plan.steps| == m + |newSteps|
    ensures EdgesSurvive(newSteps, m, w.plan.steps) <==> NumbersNamed(newSteps, m)
  {
    hide HeadAt, FinishedIds, MaxOrZero, ApplyReplanned, SoundPrior, FinishedPrefix, Appended, KeptSteps, EdgesSurvive,
         NumbersNamed;
    var u := AfterFailure(v, m);
    FailureFacts(v, registry, m);
    KeptFacts(u, registry);
    AppendedPlan(u, newSteps);
    AppendedEdges(u, newSteps, registry);
  }
}
