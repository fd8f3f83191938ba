/** Inputs on which a replan does less than one would expect (plan/replanning_controller.py, plan/state.py). */
module ReplanExamples {
  import opened Sequences
  import opened PlanSchema
  import opened PlanRepair
  import opened PlanStateModel
  import opened Replanning
  import opened ReplanLaws
  import opened ReplanKeeps

  const BLANK_STEP := PlanStep(1, " ", None, None)

  function ViewOf(steps: seq<PlanStep>, status: map<int, StepStatus>): View {
    View(Plan("g", steps), status, map[], [], [], None)
  }

  function Step(id: int, task: string): PlanStep {
    PlanStep(id, task, None, None)
  }

  /** Planner and fallback both answer a step without a task: the replan is refused, and the plan it leaves is neither
      the one before nor a valid one. */
  lemma BlankAnswersBreakThePlan()
    ensures var v := ViewOf([PlanStep(1, "a", None, None)], map[1 := Pending]);
            var r := ReplanOutcome(v, [BLANK_STEP], [BLANK_STEP], {});
            SoundPrior(v, {}) && !r.applied && !SoundPrior(r.view, {}) && r.view.plan != v.plan
  {
    var s := PlanStep(1, "a", None, None);
    var v := ViewOf([s], map[1 := Pending]);
    assert s in [s];
    assert !IsBlank("a") && !IsBlank("g") && IsBlank(" ");
    assert SoundPrior(v, {});
    assert BLANK_STEP in [BLANK_STEP] && !GoodStep(BLANK_STEP, {});
    UnusableFails(v, [BLANK_STEP], {});
    ReplanSoundIffApplied(v, [BLANK_STEP], [BLANK_STEP], {});
  }

  // ------------------------------------------------------------- short lists

  lemma OneStepPrepared(c: string)
    ensures Prepared([Step(1, c)]) == [Step(1, c)]
  {
    hide Strip, RepairNotes, RenumberedSteps;
    DedupedIdentity([Step(1, c)]);
    RenumberCanonical([Step(1, c)]);
  }

  lemma TwoStepsPrepared(s: PlanStep, t: PlanStep)
    requires s.id == 1 && t.id == 2 && s.dependency.None? && (t.dependency.None? || t.dependency == Some([1]))
    requires Strip(s.task) != Strip(t.task)
    ensures Prepared([s, t]) == [s, t]
  {
    hide Strip, RepairNotes, RenumberedSteps;
    DedupedIdentity([s, t]);
    RenumberCanonical([s, t]);
  }

  lemma OneKept(v: View, s: PlanStep)
    requires SoundPrior(v, {}) && FinishedIds(v) == {s.id} && s in v.plan.steps
    ensures Kept(v) == [s] && Settled(v) == [s]
  {
    hide KeptSteps, FinishedIds, SoundPrior, Settled, StepsById;
    KeptFacts(v, {});
    var t := Kept(v)[0];
    assert t in Kept(v) && t.id in IdSet(Kept(v));
    SameStepInPlan(v, s, t);
    assert Kept(v) == [s];
    OneSettled(v, s);
  }

  lemma OneSettled(v: View, s: PlanStep)
    requires Kept(v) == [s]
    ensures Settled(v) == [s]
  {
    hide Kept, Strip, SortBy;
    DedupedIdentity([s]);
    SortByIdentity([s], IdOf);
  }

  lemma SameStepInPlan(v: View, s: PlanStep, t: PlanStep)
    requires SoundPrior(v, {}) && s in v.plan.steps && t in v.plan.steps && s.id == t.id
    ensures s == t
  {
    SameStepById(v.plan.steps, s, t);
  }

  lemma TwoStepsSound(a: string, b: string, first: StepStatus, second: StepStatus)
    requires !IsBlank(a) && !IsBlank(b)
    ensures SoundPrior(ViewOf([Step(1, a), Step(2, b)], map[1 := first, 2 := second]), {})
  {
    assert !IsBlank("g");
    hide IsBlank;
    var steps := [Step(1, a), Step(2, b)];
    assert forall s :: s in steps <==> s == steps[0] || s == steps[1];
  }

  // ------------------------------------------------------- a finished id collides

  /** For any tasks with b and c different: step 2 of two is finished, as a two-step fan-out leaves it, and the answer
      is one new step. It is applied, yet the new step is nowhere in the plan and the finished id 2 is pending. */
  lemma CollisionLosesTheAnswer(a: string, b: string, c: string)
    requires !IsBlank(a) && !IsBlank(b) && !IsBlank(c) && Strip(b) != Strip(c)
    ensures var v := ViewOf([Step(1, a), Step(2, b)], map[1 := Pending, 2 := Completed]);
            var r := TryApply(v, [Step(1, c)], CompletedSnapshot(v), {});
            && SoundPrior(v, {}) && r.applied && SoundPrior(r.view, {})
            && !AnswerSurvives(r.view, [Step(1, c)]) && !StaysFinished(v, r.view)
  {
    hide SoundPrior, FinishedIds, Prepared, AnswerSurvives, StaysFinished, TryApply, Usable, IdsCollide, StepsById,
         FitsAtOnce, FarTasksSurvive, Fresh, Strip;
    var v := ViewOf([Step(1, a), Step(2, b)], map[1 := Pending, 2 := Completed]);
    TwoStepsSound(a, b, Pending, Completed);
    CollisionFacts(a, b, c);
    AppliedIff(v, [Step(1, c)], {});
    ReplanKeepsWorkIff(v, [Step(1, c)], {});
    SuccessfulReplan(v, [Step(1, c)], {});
  }

  lemma SecondFinished(a: string, b: string)
    ensures FinishedIds(ViewOf([Step(1, a), Step(2, b)], map[1 := Pending, 2 := Completed])) == {2}
  {
  }

  lemma OneFresh(v: View, s: PlanStep, p: PlanStep, answer: seq<PlanStep>)
    requires Kept(v) == [s] && Prepared(answer) == [p] && Strip(s.task) != Strip(p.task)
    ensures Fresh(v, answer) == [p]
  {
    hide Kept, Prepared, Strip, Others;
    assert Keys([s]) == {KeyOf(s)};
    NoOthers(Keys([s]));
    OthersSnoc(Keys([s]), [], p);
    assert [] + [p] == [p];
  }

  lemma CollisionFacts(a: string, b: string, c: string)
    requires !IsBlank(a) && !IsBlank(b) && !IsBlank(c) && Strip(b) != Strip(c)
    ensures var v := ViewOf([Step(1, a), Step(2, b)], map[1 := Pending, 2 := Completed]);
            && Fresh(v, [Step(1, c)]) == [Step(1, c)] && IdsCollide(v, [Step(1, c)])
            && Usable(v, [Step(1, c)], {}) && !FitsAtOnce(v, [Step(1, c)]) && FarTasksSurvive(v, [Step(1, c)])
  {
    hide SoundPrior, Prepared, FinishedIds, StepsById, Strip, IsBlank, KeptSteps, DependenciesFit, Settled, Holder;
    var v := ViewOf([Step(1, a), Step(2, b)], map[1 := Pending, 2 := Completed]);
    TwoStepsSound(a, b, Pending, Completed);
    SecondFinished(a, b);
    assert Step(2, b) == v.plan.steps[1];
    OneKept(v, Step(2, b));
    OneStepPrepared(c);
    assert 2 in FinishedIds(v) && |FinishedIds(v)| == 1;
    OneFresh(v, Step(2, b), Step(1, c), [Step(1, c)]);
    FreshFacts(v, [Step(1, c)]);
    SnapshotKeys(v, {});
  }

  // -------------------------------------------------------- a finished step repeated

  /** Applying an answer that fits after one finished step. */
  lemma AfterOne(v: View, s: PlanStep, answer: seq<PlanStep>)
    requires SoundPrior(v, {}) && FinishedIds(v) == {1} && s in v.plan.steps && s.id == 1
    requires answer != [] && GoodSteps(answer, {}) && Prepared(answer) == answer
    requires forall i, d :: 0 <= i < |answer| && d in answer[i].Deps() ==> d <= i + 1
    ensures Usable(v, answer, {}) && FitsAtOnce(v, answer) && Kept(v) == [s]
    ensures var r := TryApply(v, answer, CompletedSnapshot(v), {});
            r.applied && r.view.plan.steps == [s] + NumberAfter(answer, 1)
  {
    hide SoundPrior, FinishedIds, Prepared, TryApply, ApplyReplanned, StepsById, GoodSteps, Kept, NumberAfter;
    OneKept(v, s);
    AttemptOutcome(v, answer, {});
    AppliedPlan(v, answer);
    assert |FinishedIds(v)| == 1 && MaxOrZero(FinishedIds(v)) == 1;
  }

  lemma FirstFinished(a: string, b: string)
    ensures FinishedIds(ViewOf([Step(1, a), Step(2, b)], map[1 := Completed, 2 := Pending])) == {1}
  {
  }

  /** Step 1 of two is finished and the answer is a complete plan with it at the front, followed by a new step: the
      finished task is in the plan twice, the second time pending. */
  lemma RepeatedStepRunsAgain(a: string, b: string, c: string)
    requires !IsBlank(a) && !IsBlank(b) && !IsBlank(c) && Strip(a) != Strip(c)
    ensures var v := ViewOf([Step(1, a), Step(2, b)], map[1 := Completed, 2 := Pending]);
            var r := TryApply(v, [Step(1, a), Step(2, c)], CompletedSnapshot(v), {});
            && SoundPrior(v, {}) && r.applied && r.view.plan.steps == [Step(1, a), Step(2, a), Step(3, c)]
            && 2 in r.view.status && r.view.status[2] == Pending && PendingCopy(v, r.view)
  {
    hide SoundPrior, FinishedIds, Prepared, TryApply, StepsById, Usable, FitsAtOnce, PendingCopy, Strip, IsBlank,
         KeptSteps;
    var v, answer := ViewOf([Step(1, a), Step(2, b)], map[1 := Completed, 2 := Pending]), [Step(1, a), Step(2, c)];
    TwoStepsSound(a, b, Completed, Pending);
    FirstFinished(a, b);
    assert Step(1, a) == v.plan.steps[0];
    TwoStepsPrepared(answer[0], answer[1]);
    AfterOne(v, Step(1, a), answer);
    assert answer[0] in Kept(v) && KeyOf(answer[0]) in Keys(Kept(v));
    var s, t := RepeatsRunAgain(v, answer, {}, 0);
    PendingCopyIff(v, answer, {});
    assert answer[0] in answer && Repeats(v, answer);
    assert MaxOrZero(FinishedIds(v)) == 1;
  }

  // ---------------------------------------------------------- a dependency moves

  /** Step 1 is finished; the answer is b, and c depending on b. In the plan c depends on the finished step instead. */
  lemma DependencyMoves(a: string, b: string, c: string)
    requires !IsBlank(a) && !IsBlank(b) && !IsBlank(c) && Strip(b) != Strip(c)
    ensures var v := ViewOf([Step(1, a), Step(2, b)], map[1 := Completed, 2 := Pending]);
            var answer := [Step(1, b), PlanStep(2, c, None, Some([1]))];
            var r := TryApply(v, answer, CompletedSnapshot(v), {});
            && SoundPrior(v, {}) && r.applied
            && r.view.plan.steps == [Step(1, a), Step(2, b), PlanStep(3, c, None, Some([1]))]
  {
    hide SoundPrior, FinishedIds, Prepared, TryApply, StepsById, Usable, FitsAtOnce, Strip, IsBlank, KeptSteps;
    var v := ViewOf([Step(1, a), Step(2, b)], map[1 := Completed, 2 := Pending]);
    var answer := [Step(1, b), PlanStep(2, c, None, Some([1]))];
    TwoStepsSound(a, b, Completed, Pending);
    FirstFinished(a, b);
    assert Step(1, a) == v.plan.steps[0];
    TwoStepsPrepared(answer[0], answer[1]);
    AfterOne(v, Step(1, a), answer);
  }

  // --------------------------------------------------- answers listed out of id order

  /** A list of distinct ids and tasks that sorts into canonical steps is prepared as it stands. */
  lemma UnsortedPrepared(answer: seq<PlanStep>, sorted: seq<PlanStep>)
    requires multiset(answer) == multiset(sorted) && DistinctIds(answer) && DistinctStepKeys(answer)
    requires Canonical(sorted)
    ensures Prepared(answer) == answer
  {
    hide RenumberNotes, RenumberedSteps, Canonical;
    DedupedIdentity(answer);
    RenumberOrderIndependent(answer, sorted);
    CanonicalHasNoNotes(sorted);
  }

  lemma OneStepSound(o: string, status: StepStatus)
    requires !IsBlank(o)
    ensures SoundPrior(ViewOf([Step(1, o)], map[1 := status]), {})
  {
    assert !IsBlank("g");
    hide IsBlank;
  }

  lemma NoneFinished(v: View)
    requires SoundPrior(v, {}) && FinishedIds(v) == {}
    ensures Kept(v) == [] && Settled(v) == [] && MaxOrZero(FinishedIds(v)) == 0 && FinishedPrefix(v)
  {
    hide SoundPrior, KeptSteps;
    KeptFacts(v, {});
    SettledFacts(v, {});
  }

  lemma NoneOfOne(o: string)
    ensures FinishedIds(ViewOf([Step(1, o)], map[1 := Pending])) == {}
  {
  }

  lemma OneOfOne(o: string)
    ensures FinishedIds(ViewOf([Step(1, o)], map[1 := Completed])) == {1}
  {
  }

  lemma ThreeStepsPrepared(answer: seq<PlanStep>, s: PlanStep, t: PlanStep, u: PlanStep)
    requires answer == [s, t, u] && s.id == 2 && t.id == 1 && u.id == 3
    requires s.dependency.None? && t.dependency.None? && (u.dependency == Some([1]) || u.dependency == Some([2]))
    requires Strip(s.task) != Strip(t.task) && Strip(s.task) != Strip(u.task) && Strip(t.task) != Strip(u.task)
    ensures Prepared(answer) == answer
  {
    hide Strip;
    assert multiset(answer) == multiset([t, s, u]);
    UnsortedPrepared(answer, [t, s, u]);
  }

  /** Nothing is finished; the answer lists b before a, and c depends on a. It fits, and c ends depending on b. */
  lemma EdgeMovesThoughNothingFinished(o: string, a: string, b: string, c: string)
    requires !IsBlank(o) && !IsBlank(a) && !IsBlank(b) && !IsBlank(c)
    requires Strip(a) != Strip(b) && Strip(a) != Strip(c) && Strip(b) != Strip(c)
    ensures var v := ViewOf([Step(1, o)], map[1 := Pending]);
            var answer := [Step(2, b), Step(1, a), PlanStep(3, c, None, Some([1]))];
            var r := TryApply(v, answer, CompletedSnapshot(v), {});
            && SoundPrior(v, {}) && r.applied
            && r.view.plan.steps == [Step(1, b), Step(2, a), PlanStep(3, c, None, Some([1]))]
            && !EdgesSurvive(answer, 0, r.view.plan.steps)
  {
    hide SoundPrior, FinishedIds, Prepared, TryApply, StepsById, Strip, IsBlank, KeptSteps, ApplyReplanned,
         EdgesSurvive;
    var v := ViewOf([Step(1, o)], map[1 := Pending]);
    var answer := [Step(2, b), Step(1, a), PlanStep(3, c, None, Some([1]))];
    OneStepSound(o, Pending);
    NoneOfOne(o);
    NoneFinished(v);
    ThreeStepsPrepared(answer, answer[0], answer[1], answer[2]);
    AttemptOutcome(v, answer, {});
    AppliedPlan(v, answer);
    EdgesSurviveIff(v, answer, {});
    assert Needs(answer, 2, 1);
  }

  /** Step 1 is finished; the answer lists x before y, and z depends on x. It fits, and every dependency survives. */
  lemma EdgeKeptThoughOneFinished(o: string, x: string, y: string, z: string)
    requires !IsBlank(o) && !IsBlank(x) && !IsBlank(y) && !IsBlank(z)
    requires Strip(x) != Strip(y) && Strip(x) != Strip(z) && Strip(y) != Strip(z)
    ensures var v := ViewOf([Step(1, o)], map[1 := Completed]);
            var answer := [Step(2, x), Step(1, y), PlanStep(3, z, None, Some([2]))];
            var r := TryApply(v, answer, CompletedSnapshot(v), {});
            && SoundPrior(v, {}) && r.applied
            && r.view.plan.steps == [Step(1, o), Step(2, x), Step(3, y), PlanStep(4, z, None, Some([2]))]
            && EdgesSurvive(answer, 1, r.view.plan.steps)
  {
    hide SoundPrior, FinishedIds, Prepared, TryApply, StepsById, Strip, IsBlank, KeptSteps, ApplyReplanned;
    var v := ViewOf([Step(1, o)], map[1 := Completed]);
    var answer := [Step(2, x), Step(1, y), PlanStep(3, z, None, Some([2]))];
    OneStepSound(o, Completed);
    OneOfOne(o);
    ThreeStepsPrepared(answer, answer[0], answer[1], answer[2]);
    assert Step(1, o) == v.plan.steps[0];
    AfterOne(v, Step(1, o), answer);
  }

  /** Nothing is finished; the answer lists b, which depends on a, before a. It does not fit, and repair drops the only
      dependency. */
  lemma RepairDropsTheEdge(o: string, a: string, b: string)
    requires !IsBlank(o) && !IsBlank(a) && !IsBlank(b) && Strip(a) != Strip(b)
    ensures var v := ViewOf([Step(1, o)], map[1 := Pending]);
            var answer := [PlanStep(2, b, None, Some([1])), Step(1, a)];
            var r := TryApply(v, answer, CompletedSnapshot(v), {});
            && SoundPrior(v, {}) && r.applied && !FitsAtOnce(v, answer) && |r.view.plan.steps| == 2
            && r.view.plan.steps[0].task == b && r.view.plan.steps[0].Deps() == []
            && r.view.plan.steps[1].task == a && r.view.plan.steps[1].Deps() == []
  {
    hide SoundPrior, FinishedIds, Prepared, TryApply, StepsById, Strip, IsBlank, KeptSteps, ApplyReplanned, Settled,
         Applied, RepairedSteps, Holder, Repaired;
    var v := ViewOf([Step(1, o)], map[1 := Pending]);
    var answer := [PlanStep(2, b, None, Some([1])), Step(1, a)];
    OneStepSound(o, Pending);
    NoneOfOne(o);
    NoneFinished(v);
    assert multiset(answer) == multiset([answer[1], answer[0]]);
    UnsortedPrepared(answer, [answer[1], answer[0]]);
    assert 1 in answer[0].Deps();
    TwoFresh(v, answer);
    SnapshotKeys(v, {});
    AppliedIff(v, answer, {});
    AttemptOutcome(v, answer, {});
    RestoredPlan(v, answer, {}, TryApply(v, answer, CompletedSnapshot(v), {}).view);
    LosesDeps(v, answer, 0);
    LosesDeps(v, answer, 1);
  }

  lemma TwoFresh(v: View, answer: seq<PlanStep>)
    requires Kept(v) == [] && Settled(v) == [] && MaxOrZero(FinishedIds(v)) == 0
    requires |answer| == 2 && Prepared(answer) == answer
    ensures Layout(v, answer) == NumberAfter(answer, 0)
  {
    hide Kept, Settled, FinishedIds, Prepared;
    assert Keys([]) == {};
    AllOthers(NumberAfter(answer, 0));
  }

  lemma {:induction false} AllOthers(steps: seq<PlanStep>)
    ensures Others({}, steps) == steps
  {
    if steps != [] { AllOthers(steps[1..]); }
  }

  lemma LosesDeps(v: View, answer: seq<PlanStep>, k: nat)
    requires SoundPrior(v, {}) && FinishedIds(v) == {} && Settled(v) == []
    requires k < |Layout(v, answer)| == 2 && Layout(v, answer)[0].id == 1
    requires Layout(v, answer)[1].Deps() == [] && forall d :: d in Layout(v, answer)[0].Deps() ==> d == 1
    ensures var r := RestoredSteps(RepairedSteps(Applied(v, answer)), CompletedSnapshot(v));
            |r| == 2 && r[k].task == Layout(v, answer)[k].task && r[k].Deps() == []
  {
    hide SoundPrior, FinishedIds, StepsById, Applied, RepairedSteps, RestoredSteps, Settled, Layout;
    FinalStep(v, answer, {}, k);
    RepairedLayout(v, answer, {}, k);
    var deps := RepairedSteps(Applied(v, answer))[k].Deps();
    assert deps == [] || deps[0] in deps;
    forall d ensures d !in deps {
      RepairedEdge(v, answer, {}, k, d);
    }
  }

  // ------------------------------------------------------- a usable answer refused

  function Alternating(): View {
    ViewOf([Step(1, "a"), Step(2, "b"), Step(3, "c"), Step(4, "d")],
           map[1 := Pending, 2 := Completed, 3 := Pending, 4 := Completed])
  }

  /** Steps 2 and 4 of four are finished and one step is to follow them. Step 4 moves to place 2, where the snapshot of
      step 2 overwrites it. */
  lemma UsableAnswerRefused()
    ensures var v, answer := Alternating(), [Step(1, "e")];
            && SoundPrior(v, {}) && Usable(v, answer, {}) && !TryApply(v, answer, CompletedSnapshot(v), {}).applied
            && !SoundPrior(ReplanOutcome(v, answer, answer, {}).view, {})
  {
    hide SoundPrior, FinishedIds, Prepared, DistinctTasks, TryApply, Usable, PushedOut, StepsById, Applies;
    var v, answer := Alternating(), [Step(1, "e")];
    AlternatingSound();
    AlternatingTasks();
    DistinctTasksAppliedIff(v, answer, {});
    ReplanSoundIff(v, answer, answer, {});
    AlternatingPushesOut();
  }

  lemma AlternatingSound()
    ensures SoundPrior(Alternating(), {})
  {
    var steps := Alternating().plan.steps;
    assert !IsBlank("g") && !IsBlank("a") && !IsBlank("b") && !IsBlank("c") && !IsBlank("d");
    hide IsBlank, Strip;
    assert forall s :: s in steps <==> s == steps[0] || s == steps[1] || s == steps[2] || s == steps[3];
  }

  lemma AlternatingFinished()
    ensures FinishedIds(Alternating()) == {2, 4}
  {
  }

  lemma FilterOne(p: PlanStep -> bool, s: PlanStep)
    ensures Filter(p, [s]) == if p(s) then [s] else []
  {
    assert [s][1..] == [];
  }

  lemma OddOut(a: PlanStep, b: PlanStep, c: PlanStep, d: PlanStep, finished: set<int>)
    requires a.id !in finished && b.id in finished && c.id !in finished && d.id in finished
    ensures KeptSteps([a, b, c, d], finished) == [b, d]
  {
    hide Filter;
    var p := (s: PlanStep) => s.id in finished;
    assert [a, b, c, d] == [a] + [b] + [c] + [d];
    FilterOne(p, a);
    FilterOne(p, b);
    FilterOne(p, c);
    FilterOne(p, d);
    FilterConcat(p, [a] + [b] + [c], [d]);
    FilterConcat(p, [a] + [b], [c]);
    FilterConcat(p, [a], [b]);
  }

  lemma AlternatingKept()
    ensures Kept(Alternating()) == [Step(2, "b"), Step(4, "d")]
  {
    hide FinishedIds, KeptSteps;
    AlternatingFinished();
    OddOut(Step(1, "a"), Step(2, "b"), Step(3, "c"), Step(4, "d"), {2, 4});
  }

  lemma LettersApart()
    ensures Strip("b") == "b" && Strip("d") == "d" && Strip("e") == "e"
  {
  }

  lemma AlternatingTasks()
    ensures DistinctTasks(Alternating())
  {
    hide Strip, Kept;
    LettersApart();
    AlternatingKept();
  }

  lemma AlternatingSettled()
    ensures Settled(Alternating()) == [Step(2, "b"), Step(4, "d")]
  {
    hide Strip, Kept, DistinctTasks, SortBy;
    AlternatingKept();
    AlternatingTasks();
    DistinctTasksDistinctKeys(Alternating());
    SortByIdentity([Step(2, "b"), Step(4, "d")], IdOf);
  }

  lemma AlternatingFresh()
    ensures Fresh(Alternating(), [Step(1, "e")]) == [Step(1, "e")]
  {
    hide Strip, Kept, Prepared;
    LettersApart();
    AlternatingKept();
    OneStepPrepared("e");
  }

  lemma AlternatingPushesOut()
    ensures PushedOut(Alternating(), [Step(1, "e")]) && Usable(Alternating(), [Step(1, "e")], {})
  {
    hide SoundPrior, FinishedIds, Prepared, Settled, Fresh, FreshNumbered;
    AlternatingFinished();
    AlternatingSettled();
    AlternatingFresh();
    FreshFacts(Alternating(), [Step(1, "e")]);
    assert Settled(Alternating())[1].id == 4 && Overwritten(Alternating(), [Step(1, "e")], 1);
  }
}
