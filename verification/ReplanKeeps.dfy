/** What an applied replan keeps: new steps, finished ids, repeated steps, dependencies (plan/state.py,
    plan/repair.py). */
module ReplanKeeps {
  import opened Sequences
  import opened PlanSchema
  import opened PlanValidation
  import opened PlanRepair
  import opened PlanStateModel
  import opened Replanning
  import opened ReplanLaws

  /** Some step of the list has the task and hint of p. */
  ghost predicate InPlan(steps: seq<PlanStep>, p: PlanStep) {
    exists s :: s in steps && s.task == p.task && s.toolHint == p.toolHint
  }

  /** Every step of the list is in the plan. */
  ghost predicate AnswerSurvives(w: View, steps: seq<PlanStep>) {
    forall p :: p in steps ==> InPlan(w.plan.steps, p)
  }

  /** Every finished id that the plan still has is still finished. */
  ghost predicate StaysFinished(v: View, w: View) {
    forall id :: id in FinishedIds(v) && id in IdSet(w.plan.steps) ==> id in w.status && Finished(w.status[id])
  }

  /** A finished id lies where repair puts a new step: after the finished steps, which it packs together. */
  predicate IdsCollide(v: View, newSteps: seq<PlanStep>) {
    var m := |Settled(v)|;
    exists id :: id in FinishedIds(v) && m < id <= m + |Fresh(v, newSteps)|
  }

  /** The answer repeats a finished step, up to blanks around the task. */
  ghost predicate Repeats(v: View, newSteps: seq<PlanStep>) {
    exists p :: p in newSteps && KeyOf(p) in Keys(Kept(v))
  }

  /** A finished step is in the plan once more, as a pending one that will be executed again. */
  ghost predicate PendingCopy(v: View, w: View) {
    exists s :: s in w.plan.steps && s.id in w.status && w.status[s.id] == Pending && KeyOf(s) in Keys(Kept(v))
  }

  // ------------------------------------------------------------------ statuses

  lemma NumberedIdSet(steps: seq<PlanStep>, max: int, id: int)
    ensures id in IdSet(NumberAfter(steps, max)) <==> max < id <= max + |steps|
  {
    hide NumberAfter;
    var r := NumberAfter(steps, max);
    if id in IdSet(r) {
      var s :| s in r && s.id == id;
      var i :| 0 <= i < |r| && r[i] == s;
      NumberedAt(steps, max, i);
    }
    if max < id <= max + |steps| {
      assert |r| == |steps|;
      NumberedAt(steps, max, id - max - 1);
      assert r[id - max - 1] in r;
    }
  }

  lemma AppliedStatusMap(v: View, steps: seq<PlanStep>)
    ensures ApplyReplanned(v, steps).status ==
            (v.status - RemovedIds(v.plan.steps, FinishedIds(v)))
            + AllPending(IdSet(NumberAfter(steps, MaxOrZero(FinishedIds(v)))))
  {
  }

  lemma AppliedStatus(v: View, steps: seq<PlanStep>, registry: set<string>, id: int)
    requires SoundPrior(v, registry)
    ensures var w, max := ApplyReplanned(v, steps), MaxOrZero(FinishedIds(v));
            && (id in FinishedIds(v) ==> id in w.status && w.status[id] == v.status[id])
            && (max < id <= max + |steps| ==> id in w.status && w.status[id] == Pending)
  {
    hide SoundPrior, ApplyReplanned, NumberAfter, MaxOrZero;
    MaxBounds(v, registry);
    AppliedStatusMap(v, steps);
    NumberedIdSet(steps, MaxOrZero(FinishedIds(v)), id);
  }

  lemma MapAt(steps: seq<PlanStep>, k: nat)
    requires DistinctIds(steps) && k < |steps|
    ensures |SortById(steps)| == |steps|
    ensures SortById(steps)[k].id in RenumberMap(steps) && RenumberMap(steps)[SortById(steps)[k].id] == k + 1
  {
    SortedByIdFacts(steps);
    RenumberDistinct(steps, k);
    assert SortById(steps)[k] in SortById(steps);
  }

  /** After repair the steps that were finished before come first and are finished, the new ones are pending. */
  lemma RepairedStatus(v: View, newSteps: seq<PlanStep>, registry: set<string>, k: nat)
    requires SoundPrior(v, registry) && k < |Layout(v, newSteps)|
    ensures var w := Repaired(ApplyReplanned(v, Prepared(newSteps)), v.status);
            && k + 1 in w.status
            && (if k < |Settled(v)| then Finished(w.status[k + 1]) else w.status[k + 1] == Pending)
  {
    hide SoundPrior, FinishedIds, Prepared, Settled, FreshNumbered, Applied, ApplyReplanned, RemapStatus, Deduped,
         Compressing, RenumberMap, RenumberedSteps, MaxOrZero, ImageIds, SortById, DistinctIds;
    var w, d := ApplyReplanned(v, Prepared(newSteps)), Deduped(Applied(v, newSteps));
    AppliedPlan(v, newSteps);
    AppliedIds(v, registry, Prepared(newSteps));
    DedupedIds(Applied(v, newSteps));
    RepairLaysOut(v, newSteps, registry);
    SortedByIdFacts(d);
    MapAt(d, k);
    RenumberCompresses(d);
    RenumberImage(d);
    RenumberDomain(d);
    RemapKeepsStatuses(w.(plan := RepairOf(w.plan).plan), RenumberMap(d));
    LayoutId(v, newSteps, registry, k);
    AppliedStatus(v, Prepared(newSteps), registry, Layout(v, newSteps)[k].id);
    if k < |Settled(v)| { FinishedStatus(v, Layout(v, newSteps)[k].id); }
  }

  lemma DedupedIds(steps: seq<PlanStep>)
    ensures IdSet(Deduped(steps)) <= IdSet(steps)
    ensures (forall s :: s in steps ==> s.id >= 1) ==> forall s :: s in Deduped(steps) ==> s.id >= 1
  {
    hide KeyOf, Keys;
    DedupedKeys(steps);
  }

  lemma LayoutId(v: View, newSteps: seq<PlanStep>, registry: set<string>, k: nat)
    requires SoundPrior(v, registry) && k < |Layout(v, newSteps)|
    ensures var id, max := Layout(v, newSteps)[k].id, MaxOrZero(FinishedIds(v));
            if k < |Settled(v)| then id in FinishedIds(v) else max < id <= max + |Prepared(newSteps)|
  {
    hide SoundPrior, FinishedIds, Prepared, Settled, FreshNumbered, MaxOrZero;
    SettledFacts(v, registry);
    if k < |Settled(v)| {
      assert Settled(v)[k] in Settled(v);
    } else {
      FreshIds(v, newSteps, k - |Settled(v)|);
    }
  }

  lemma FinishedStatus(v: View, id: int)
    requires id in FinishedIds(v)
    ensures Finished(v.status[id])
  {
  }

  // ----------------------------------------------------- answers that fit at once

  lemma AppendedPlan(v: View, steps: seq<PlanStep>)
    ensures ApplyReplanned(v, steps).plan == Plan(v.plan.goal, Appended(v, steps))
  {
  }

  /** Step i of a list as it stands in the plan it is applied to: task and hint, new id, pending. */
  lemma AppliedStep(v: View, steps: seq<PlanStep>, registry: set<string>, i: nat)
    requires SoundPrior(v, registry) && i < |steps|
    ensures var w, max, p := ApplyReplanned(v, steps), MaxOrZero(FinishedIds(v)), steps[i];
            && |Appended(v, steps)| == |Kept(v)| + |steps| && w.plan.steps == Appended(v, steps)
            && var s := Appended(v, steps)[|Kept(v)| + i];
               && s.id == max + i + 1 && s.task == p.task && s.toolHint == p.toolHint && s.Deps() == p.Deps()
               && s in w.plan.steps && s.id in w.status && w.status[s.id] == Pending
  {
    hide SoundPrior, KeptSteps, NumberAfter, MaxOrZero, FinishedIds, ApplyReplanned;
    var max := MaxOrZero(FinishedIds(v));
    AppendedPlan(v, steps);
    assert |NumberAfter(steps, max)| == |steps|;
    NumberedAt(steps, max, i);
    NumberedDeps(steps, max, i);
    AppliedStatus(v, steps, registry, max + i + 1);
  }

  lemma AppliedAsIs(v: View, newSteps: seq<PlanStep>, registry: set<string>)
    requires SoundPrior(v, registry)
    ensures AnswerSurvives(ApplyReplanned(v, Prepared(newSteps)), Prepared(newSteps))
    ensures StaysFinished(v, ApplyReplanned(v, Prepared(newSteps)))
  {
    hide SoundPrior, Prepared, KeptSteps, NumberAfter, MaxOrZero, FinishedIds, Applied, ApplyReplanned;
    var p, w := Prepared(newSteps), ApplyReplanned(v, Prepared(newSteps));
    forall s | s in p ensures InPlan(w.plan.steps, s) {
      var i :| 0 <= i < |p| && p[i] == s;
      AppliedStep(v, Prepared(newSteps), registry, i);
    }
    forall id | id in FinishedIds(v) ensures id in w.status && Finished(w.status[id]) {
      AppliedStatus(v, Prepared(newSteps), registry, id);
      FinishedStatus(v, id);
    }
  }

  /** A list of steps brings a pending copy of a finished step exactly when it repeats one. */
  lemma AppendedCopies(v: View, p: seq<PlanStep>, registry: set<string>)
    requires SoundPrior(v, registry)
    ensures PendingCopy(v, ApplyReplanned(v, p)) <==> Repeats(v, p)
  {
    hide SoundPrior, KeptSteps, NumberAfter, MaxOrZero, FinishedIds, ApplyReplanned, KeyOf;
    var w := ApplyReplanned(v, p);
    AppendedPlan(v, p);
    KeptFacts(v, registry);
    if PendingCopy(v, w) {
      var s :| s in w.plan.steps && s.id in w.status && w.status[s.id] == Pending && KeyOf(s) in Keys(Kept(v));
      var i := NewStepIndex(v, p, registry, s);
      AppliedStep(v, p, registry, i);
      SameTaskSameKey(s, p[i]);
      assert p[i] in p;
    }
    if Repeats(v, p) {
      var s :| s in p && KeyOf(s) in Keys(Kept(v));
      var i :| 0 <= i < |p| && p[i] == s;
      AppliedStep(v, p, registry, i);
      SameTaskSameKey(Appended(v, p)[|Kept(v)| + i], p[i]);
    }
  }

  lemma AppliedCopies(v: View, newSteps: seq<PlanStep>, registry: set<string>)
    requires SoundPrior(v, registry)
    ensures PendingCopy(v, ApplyReplanned(v, Prepared(newSteps))) <==> Repeats(v, newSteps)
  {
    hide SoundPrior, Prepared, Kept, ApplyReplanned, KeyOf, PendingCopy;
    AppendedCopies(v, Prepared(newSteps), registry);
    PreparedDistinct(newSteps);
    RepeatsByKeys(v, newSteps);
    RepeatsByKeys(v, Prepared(newSteps));
  }

  lemma RepeatsByKeys(v: View, steps: seq<PlanStep>)
    ensures Repeats(v, steps) <==> Keys(steps) * Keys(Kept(v)) != {}
  {
    hide Kept, KeyOf;
    if Repeats(v, steps) {
      var p :| p in steps && KeyOf(p) in Keys(Kept(v));
      assert KeyOf(p) in Keys(steps) * Keys(Kept(v));
    }
    if Keys(steps) * Keys(Kept(v)) != {} {
      var key :| key in Keys(steps) * Keys(Kept(v));
      var p :| p in steps && KeyOf(p) == key;
    }
  }

  /** A pending step of the plan is one of those applied. */
  lemma NewStepIndex(v: View, p: seq<PlanStep>, registry: set<string>, s: PlanStep) returns (i: nat)
    requires SoundPrior(v, registry) && s in Appended(v, p)
    requires var w := ApplyReplanned(v, p); s.id in w.status && w.status[s.id] == Pending
    ensures i < |p| && |Kept(v)| + i < |Appended(v, p)| && Appended(v, p)[|Kept(v)| + i] == s
  {
    hide SoundPrior, KeptSteps, NumberAfter, MaxOrZero, FinishedIds, ApplyReplanned;
    var max, all := MaxOrZero(FinishedIds(v)), Appended(v, p);
    assert |NumberAfter(p, max)| == |p|;
    KeptFacts(v, registry);
    var k :| 0 <= k < |all| && all[k] == s;
    if k < |Kept(v)| {
      assert s in Kept(v) && s.id in IdSet(Kept(v));
      AppliedStatus(v, p, registry, s.id);
      FinishedStatus(v, s.id);
      assert false;
    }
    i := k - |Kept(v)|;
  }

  /** An answer that fits is applied as it is; any other one that is applied went through repair and restoring. */
  lemma AttemptOutcome(v: View, newSteps: seq<PlanStep>, registry: set<string>)
    requires SoundPrior(v, registry)
    ensures var w := ApplyReplanned(v, Prepared(newSteps));
            var a := TryApply(v, newSteps, CompletedSnapshot(v), registry);
            && (Usable(v, newSteps, registry) && FitsAtOnce(v, newSteps) ==> a == Attempt(true, w))
            && (a.applied && !FitsAtOnce(v, newSteps) ==>
                  a.view == WithRestored(Repaired(w, v.status), CompletedSnapshot(v)))
            && (a.applied ==> Usable(v, newSteps, registry))
  {
    hide SoundPrior, Usable, FitsAtOnce, AllErrors, ApplyReplanned, Prepared, StepsById, FinishedIds, Repaired,
         RepairOf, WithRestored, Applied, CompletedPreserved;
    AtOnceIff(v, newSteps, registry);
    AppliedPlan(v, newSteps);
    ValidatedApplySucceeds(v, newSteps, registry);
    AppliedIff(v, newSteps, registry);
  }

  /** What becomes of a repeated step: it is in the plan once more, pending, beside the finished one. */
  lemma AppendedRepeat(v: View, steps: seq<PlanStep>, registry: set<string>, i: nat)
    returns (s: PlanStep, t: PlanStep)
    requires SoundPrior(v, registry) && i < |steps| && KeyOf(steps[i]) in Keys(Kept(v))
    ensures var w := ApplyReplanned(v, steps);
            && s in w.plan.steps && t in w.plan.steps && KeyOf(s) == KeyOf(t)
            && s.id == MaxOrZero(FinishedIds(v)) + i + 1 && s.id in w.status && w.status[s.id] == Pending
            && s.task == steps[i].task && t.id in FinishedIds(v)
  {
    hide SoundPrior, ApplyReplanned, FinishedIds, KeptSteps, MaxOrZero, KeyOf, NumberAfter;
    AppliedStep(v, steps, registry, i);
    KeptFacts(v, registry);
    s := Appended(v, steps)[|Kept(v)| + i];
    SameTaskSameKey(s, steps[i]);
    t :| t in Kept(v) && KeyOf(t) == KeyOf(s);
    assert t.id in IdSet(Kept(v)) && t in Appended(v, steps);
  }

  /** So a finished step that an answer repeats is executed again when the answer fits. */
  lemma RepeatsRunAgain(v: View, newSteps: seq<PlanStep>, registry: set<string>, i: nat)
    returns (s: PlanStep, t: PlanStep)
    requires SoundPrior(v, registry) && Usable(v, newSteps, registry) && FitsAtOnce(v, newSteps)
    requires i < |Prepared(newSteps)| && KeyOf(Prepared(newSteps)[i]) in Keys(Kept(v))
    ensures var a := TryApply(v, newSteps, CompletedSnapshot(v), registry);
            && a.applied && s in a.view.plan.steps && t in a.view.plan.steps && KeyOf(s) == KeyOf(t)
            && s.id == MaxOrZero(FinishedIds(v)) + i + 1 && s.id in a.view.status && a.view.status[s.id] == Pending
            && s.task == Prepared(newSteps)[i].task && t.id in FinishedIds(v)
  {
    hide SoundPrior, Usable, FitsAtOnce, TryApply, ApplyReplanned, Prepared, FinishedIds, Kept, MaxOrZero, StepsById,
         KeyOf;
    AttemptOutcome(v, newSteps, registry);
    s, t := AppendedRepeat(v, Prepared(newSteps), registry, i);
  }

  // ------------------------------------------------------- answers that are repaired

  lemma RestoredAnswer(v: View, newSteps: seq<PlanStep>, registry: set<string>, w: View)
    requires SoundPrior(v, registry)
    requires w.plan.steps == RestoredSteps(RepairedSteps(Applied(v, newSteps)), CompletedSnapshot(v))
    ensures AnswerSurvives(w, Fresh(v, newSteps)) <==> !IdsCollide(v, newSteps)
  {
    hide SoundPrior, FinishedIds, Prepared, Applied, RestoredSteps, RepairedSteps, StepsById, InPlan, Settled, Fresh,
         FreshNumbered;
    FreshFacts(v, newSteps);
    var m, p := |Settled(v)|, Fresh(v, newSteps);
    forall i | 0 <= i < |p| ensures InPlan(w.plan.steps, p[i]) <==> m + i + 1 !in FinishedIds(v) {
      if m + i + 1 in FinishedIds(v) {
        LostWhenTaken(v, newSteps, registry, i);
      } else {
        SurvivesWhenFree(v, newSteps, registry, i);
      }
    }
    if id :| id in FinishedIds(v) && m < id <= m + |p| {
      assert p[id - m - 1] in p;
      assert m + (id - m - 1) + 1 == id;
    }
  }

  lemma SurvivesWhenFree(v: View, newSteps: seq<PlanStep>, registry: set<string>, i: nat)
    requires SoundPrior(v, registry) && i < |Fresh(v, newSteps)| && |Settled(v)| + i + 1 !in FinishedIds(v)
    ensures InPlan(RestoredSteps(RepairedSteps(Applied(v, newSteps)), CompletedSnapshot(v)), Fresh(v, newSteps)[i])
  {
    hide SoundPrior, FinishedIds, Prepared, Applied, RepairedSteps, RestoredSteps, StepsById, Settled, Fresh,
         FreshNumbered;
    var r := RestoredSteps(RepairedSteps(Applied(v, newSteps)), CompletedSnapshot(v));
    FreshFacts(v, newSteps);
    SnapshotKeys(v, registry);
    RestoredLayout(v, newSteps, registry, |Settled(v)| + i);
    assert r[|Settled(v)| + i] in r;
  }

  /** No place but its own can hold a new step, and its own does not when that id is finished. */
  lemma LostWhenTaken(v: View, newSteps: seq<PlanStep>, registry: set<string>, i: nat)
    requires SoundPrior(v, registry) && i < |Fresh(v, newSteps)| && |Settled(v)| + i + 1 in FinishedIds(v)
    ensures !InPlan(RestoredSteps(RepairedSteps(Applied(v, newSteps)), CompletedSnapshot(v)), Fresh(v, newSteps)[i])
  {
    hide SoundPrior, FinishedIds, Prepared, Applied, RepairedSteps, RestoredSteps, StepsById, Settled, Fresh,
         FreshNumbered, KeyOf, Holder;
    var r, p := RestoredSteps(RepairedSteps(Applied(v, newSteps)), CompletedSnapshot(v)), Fresh(v, newSteps)[i];
    FreshFacts(v, newSteps);
    forall k | 0 <= k < |r| ensures !(r[k].task == p.task && r[k].toolHint == p.toolHint) {
      RestoredCount(v, newSteps, registry);
      RestoredLayout(v, newSteps, registry, k);
      HolderKey(v, newSteps, registry, k);
      FreshKey(v, newSteps, i);
      if r[k].task == p.task && r[k].toolHint == p.toolHint {
        SameTaskSameKey(Holder(v, newSteps, k), p);
        OnlyPlace(v, newSteps, i, k);
      }
    }
  }

  lemma RestoredCount(v: View, newSteps: seq<PlanStep>, registry: set<string>)
    requires SoundPrior(v, registry)
    ensures |RestoredSteps(RepairedSteps(Applied(v, newSteps)), CompletedSnapshot(v))| == |Layout(v, newSteps)|
  {
    hide SoundPrior, Layout, Applied, RepairedSteps, StepsById;
    RepairedSize(v, newSteps, registry);
    RestoredSize(RepairedSteps(Applied(v, newSteps)), CompletedSnapshot(v));
  }

  /** Whose key place k + 1 holds: a finished step's, or that of the new step laid out there. */
  lemma HolderKey(v: View, newSteps: seq<PlanStep>, registry: set<string>, k: nat)
    requires SoundPrior(v, registry) && k < |Layout(v, newSteps)|
    ensures var key, m := KeyOf(Holder(v, newSteps, k)), |Settled(v)|;
            && (k < m || k + 1 in FinishedIds(v) ==> key in Keys(Kept(v)))
            && (k >= m && k + 1 !in FinishedIds(v) ==>
                  k - m < |Fresh(v, newSteps)| && key == KeyOf(Fresh(v, newSteps)[k - m]))
  {
    hide SoundPrior, FinishedIds, StepsById, Settled, Fresh, FreshNumbered, KeyOf, KeptSteps;
    FreshFacts(v, newSteps);
    SnapshotKeys(v, registry);
    SettledFacts(v, registry);
    var m := |Settled(v)|;
    if k + 1 !in FinishedIds(v) {
      if k < m {
        assert Settled(v)[k] in Settled(v);
      } else {
        SameTaskSameKey(FreshNumbered(v, newSteps)[k - m], Fresh(v, newSteps)[k - m]);
      }
    }
  }

  lemma FreshKey(v: View, newSteps: seq<PlanStep>, i: nat)
    requires i < |Fresh(v, newSteps)|
    ensures KeyOf(Fresh(v, newSteps)[i]) !in Keys(Kept(v))
  {
    hide KeyOf, Prepared, KeptSteps;
    assert Fresh(v, newSteps)[i] in Fresh(v, newSteps);
  }

  lemma {:induction false} OthersDistinct(keys: set<(string, Option<string>)>, steps: seq<PlanStep>)
    requires DistinctStepKeys(steps)
    ensures DistinctStepKeys(Others(keys, steps))
  {
    hide KeyOf;
    if steps != [] {
      var rest := steps[1..];
      forall i, j | 0 <= i < j < |rest| ensures KeyOf(rest[i]) != KeyOf(rest[j]) {
        assert KeyOf(steps[i + 1]) != KeyOf(steps[j + 1]);
      }
      OthersDistinct(keys, rest);
      var kept := Others(keys, rest);
      forall i | 0 <= i < |kept| ensures KeyOf(steps[0]) != KeyOf(kept[i]) {
        assert kept[i] in rest;
        var k :| 0 <= k < |rest| && rest[k] == kept[i];
        assert KeyOf(steps[0]) != KeyOf(steps[k + 1]);
      }
    }
  }

  lemma OnlyPlace(v: View, newSteps: seq<PlanStep>, i: nat, k: nat)
    requires i < |Fresh(v, newSteps)| && k >= |Settled(v)| && k - |Settled(v)| < |Fresh(v, newSteps)|
    ensures KeyOf(Fresh(v, newSteps)[k - |Settled(v)|]) == KeyOf(Fresh(v, newSteps)[i]) ==> k == |Settled(v)| + i
  {
    hide KeyOf, Prepared, KeptSteps, Settled;
    PreparedDistinct(newSteps);
    OthersDistinct(Keys(Kept(v)), Prepared(newSteps));
    var f := Fresh(v, newSteps);
    if KeyOf(f[k - |Settled(v)|]) == KeyOf(f[i]) { SameKeySameIndex(f, k - |Settled(v)|, i); }
  }

  lemma RepairedFinished(v: View, newSteps: seq<PlanStep>, registry: set<string>, w: View)
    requires SoundPrior(v, registry)
    requires w == WithRestored(Repaired(ApplyReplanned(v, Prepared(newSteps)), v.status), CompletedSnapshot(v))
    ensures StaysFinished(v, w) <==> !IdsCollide(v, newSteps)
  {
    hide SoundPrior, FinishedIds, Prepared, Applied, ApplyReplanned, RestoredSteps, RepairedSteps, StepsById,
         ContiguousIds, RemapStatus, Settled, Fresh, FreshNumbered;
    RestoredPlan(v, newSteps, registry, w);
    FreshFacts(v, newSteps);
    FinishedPositive(v, registry);
    forall id | id in FinishedIds(v) && id <= |Layout(v, newSteps)|
      ensures id in w.status && (Finished(w.status[id]) <==> id <= |Settled(v)|)
    {
      RepairedStatus(v, newSteps, registry, id - 1);
    }
  }

  lemma FinishedPositive(v: View, registry: set<string>)
    requires SoundPrior(v, registry)
    ensures forall id :: id in FinishedIds(v) ==> id >= 1
  {
    MaxBounds(v, registry);
  }

  lemma RestoredPlan(v: View, newSteps: seq<PlanStep>, registry: set<string>, w: View)
    requires SoundPrior(v, registry)
    requires w == WithRestored(Repaired(ApplyReplanned(v, Prepared(newSteps)), v.status), CompletedSnapshot(v))
    ensures w.plan.steps == RestoredSteps(RepairedSteps(Applied(v, newSteps)), CompletedSnapshot(v))
    ensures |w.plan.steps| == |Layout(v, newSteps)|
    ensures forall id :: id in IdSet(w.plan.steps) <==> 1 <= id <= |Layout(v, newSteps)|
  {
    hide SoundPrior, FinishedIds, Prepared, Applied, ApplyReplanned, RestoredSteps, RepairedSteps, StepsById,
         ContiguousIds, RemapStatus, Layout;
    AppliedPlan(v, newSteps);
    RepairedGoal(ApplyReplanned(v, Prepared(newSteps)), v.status);
    RepairedIsValid(v, newSteps, registry);
    SnapshotIds(v);
    var repaired := RepairedSteps(Applied(v, newSteps));
    RestoredIds(repaired, CompletedSnapshot(v));
    RestoredCount(v, newSteps, registry);
    RepairedSize(v, newSteps, registry);
    ContiguousCovers(repaired);
  }

  lemma RepairedCopies(v: View, newSteps: seq<PlanStep>, registry: set<string>, w: View)
    requires SoundPrior(v, registry)
    requires w == WithRestored(Repaired(ApplyReplanned(v, Prepared(newSteps)), v.status), CompletedSnapshot(v))
    ensures PendingCopy(v, w) <==> IdsCollide(v, newSteps)
  {
    hide SoundPrior, FinishedIds, Prepared, Applied, ApplyReplanned, RestoredSteps, RepairedSteps, StepsById,
         ContiguousIds, RemapStatus, Settled, Fresh, FreshNumbered, Keys, KeyOf, Holder;
    RestoredPlan(v, newSteps, registry, w);
    FreshFacts(v, newSteps);
    FinishedPositive(v, registry);
    var r, m := w.plan.steps, |Settled(v)|;
    forall k | 0 <= k < |r|
      ensures r[k].id == k + 1 && k + 1 in w.status
      ensures w.status[k + 1] == Pending && KeyOf(r[k]) in Keys(Kept(v)) <==> k >= m && k + 1 in FinishedIds(v)
    {
      RestoredLayout(v, newSteps, registry, k);
      SameTaskSameKey(r[k], Holder(v, newSteps, k));
      RepairedStatus(v, newSteps, registry, k);
      HolderKey(v, newSteps, registry, k);
      if k >= m && k + 1 !in FinishedIds(v) { FreshKey(v, newSteps, k - m); }
    }
    if PendingCopy(v, w) {
      var s :| s in r && s.id in w.status && w.status[s.id] == Pending && KeyOf(s) in Keys(Kept(v));
      var k :| 0 <= k < |r| && r[k] == s;
    }
    if IdsCollide(v, newSteps) {
      var id :| id in FinishedIds(v) && m < id <= m + |Fresh(v, newSteps)|;
      assert r[id - 1] in r && r[id - 1].id == (id - 1) + 1;
    }
  }

  // ------------------------------------------------------------------ the laws

  /** What an applied replan keeps, from any sound state and for any answer: the new steps are in the plan, and every
      finished id the plan still has is still finished, if and only if the answer fits at once or no finished id lies in
      m+1..m+p, for m finished steps with different keys and p new ones. */
  lemma ReplanKeepsWorkIff(v: View, newSteps: seq<PlanStep>, registry: set<string>)
    requires SoundPrior(v, registry)
    ensures var a := TryApply(v, newSteps, CompletedSnapshot(v), registry);
            var kept := FitsAtOnce(v, newSteps) || !IdsCollide(v, newSteps);
            a.applied ==>
              && (AnswerSurvives(a.view, Fresh(v, newSteps)) <==> kept)
              && (StaysFinished(v, a.view) <==> kept)
  {
    hide SoundPrior, AnswerSurvives, StaysFinished, IdsCollide, FitsAtOnce, TryApply, ApplyReplanned, WithRestored,
         Repaired, StepsById, FinishedIds, Applied, Prepared, Fresh;
    var a, w := TryApply(v, newSteps, CompletedSnapshot(v), registry), ApplyReplanned(v, Prepared(newSteps));
    AttemptOutcome(v, newSteps, registry);
    if a.applied && FitsAtOnce(v, newSteps) {
      AppliedAsIs(v, newSteps, registry);
      FreshIsPrepared(v, newSteps, w);
    } else if a.applied {
      RestoredPlan(v, newSteps, registry, a.view);
      RestoredAnswer(v, newSteps, registry, a.view);
      RepairedFinished(v, newSteps, registry, a.view);
    }
  }

  lemma FreshIsPrepared(v: View, newSteps: seq<PlanStep>, w: View)
    requires AnswerSurvives(w, Prepared(newSteps))
    ensures AnswerSurvives(w, Fresh(v, newSteps))
  {
    hide InPlan, Prepared, Kept, KeyOf;
  }

  /** For finished steps with different keys the first alternative is contained in the second: an answer that fits never
      collides. */
  lemma FittingNeverCollides(v: View, newSteps: seq<PlanStep>, registry: set<string>)
    requires SoundPrior(v, registry) && DistinctStepKeys(Kept(v)) && FinishedPrefix(v)
    ensures !IdsCollide(v, newSteps)
  {
    hide SoundPrior, FinishedIds, Settled, Fresh, Kept, DistinctStepKeys;
    SettledFacts(v, registry);
  }

  /** When an applied replan leaves a finished step in the plan as a pending one, too: an answer that fits does so
      exactly when it repeats a finished step; a repaired one exactly when a finished id collides. */
  lemma PendingCopyIff(v: View, newSteps: seq<PlanStep>, registry: set<string>)
    requires SoundPrior(v, registry)
    ensures var a := TryApply(v, newSteps, CompletedSnapshot(v), registry);
            a.applied ==>
              (PendingCopy(v, a.view) <==>
               if FitsAtOnce(v, newSteps) then Repeats(v, newSteps) else IdsCollide(v, newSteps))
  {
    hide SoundPrior, PendingCopy, Repeats, IdsCollide, FitsAtOnce, TryApply, ApplyReplanned, WithRestored, Repaired,
         StepsById, FinishedIds, Applied, Prepared, Fresh;
    var a := TryApply(v, newSteps, CompletedSnapshot(v), registry);
    AttemptOutcome(v, newSteps, registry);
    if a.applied && FitsAtOnce(v, newSteps) {
      AppliedCopies(v, newSteps, registry);
    } else if a.applied {
      RepairedCopies(v, newSteps, registry, a.view);
    }
  }

  // ------------------------------------------------------------- dependencies

  /** Listed step i of the answer depends on listed step k: it names the id the answer gave k. */
  predicate Needs(p: seq<PlanStep>, i: nat, k: nat)
    requires i < |p| && k < |p|
  {
    p[k].id in p[i].Deps()
  }

  /** Every dependency between two of the listed steps holds in the plan, where they follow the first n steps. */
  ghost predicate EdgesSurvive(p: seq<PlanStep>, n: nat, steps: seq<PlanStep>)
    requires |steps| == n + |p|
  {
    forall i, k :: 0 <= i < |p| && 0 <= k < |p| && Needs(p, i, k) ==> steps[n + k].id in steps[n + i].Deps()
  }

  /** A step that names the id of a listed step names the number that step gets in the plan, too. */
  ghost predicate NumbersNamed(p: seq<PlanStep>, max: int) {
    forall i, k :: 0 <= i < |p| && 0 <= k < |p| && Needs(p, i, k) ==> max + k + 1 in p[i].Deps()
  }

  /** The dependencies of an answer name the answer's ids, while its steps are numbered by position after the finished
      ones. When the answer fits, all of its dependencies survive exactly when the numbers of the steps a step needs are
      among its dependencies. */
  lemma EdgesSurviveIff(v: View, newSteps: seq<PlanStep>, registry: set<string>)
    requires SoundPrior(v, registry) && Usable(v, newSteps, registry) && FitsAtOnce(v, newSteps)
    ensures var steps := TryApply(v, newSteps, CompletedSnapshot(v), registry).view.plan.steps;
            && |steps| == |Kept(v)| + |Prepared(newSteps)|
            && (EdgesSurvive(Prepared(newSteps), |Kept(v)|, steps) <==>
                NumbersNamed(Prepared(newSteps), MaxOrZero(FinishedIds(v))))
  {
    hide SoundPrior, Usable, FitsAtOnce, TryApply, ApplyReplanned, Prepared, FinishedIds, Kept, MaxOrZero, StepsById,
         Appended, EdgesSurvive, NumbersNamed;
    AttemptOutcome(v, newSteps, registry);
    AppliedPlan(v, newSteps);
    AppendedEdges(v, Prepared(newSteps), registry);
  }

  lemma AppendedEdges(v: View, p: seq<PlanStep>, registry: set<string>)
    requires SoundPrior(v, registry)
    ensures |Appended(v, p)| == |Kept(v)| + |p|
    ensures EdgesSurvive(p, |Kept(v)|, Appended(v, p)) <==> NumbersNamed(p, MaxOrZero(FinishedIds(v)))
  {
    hide SoundPrior, ApplyReplanned, FinishedIds, KeptSteps, MaxOrZero, NumberAfter, Needs;
    var steps, max, n := Appended(v, p), MaxOrZero(FinishedIds(v)), |Kept(v)|;
    assert |NumberAfter(p, max)| == |p|;
    forall i, k | 0 <= i < |p| && 0 <= k < |p| && Needs(p, i, k)
      ensures steps[n + k].id in steps[n + i].Deps() <==> max + k + 1 in p[i].Deps()
    {
      AppliedStep(v, p, registry, i);
      AppliedStep(v, p, registry, k);
    }
  }

  /** Position by position the prepared answer has the ids 1..n. */
  predicate InIdOrder(p: seq<PlanStep>) {
    forall k :: 0 <= k < |p| ==> p[k].id == k + 1
  }

  lemma PreparedInIdOrder(newSteps: seq<PlanStep>)
    requires DistinctIds(newSteps) && (SortedBy(newSteps, IdOf) || RepairNotes(newSteps) != [])
    ensures InIdOrder(Prepared(newSteps))
    ensures forall i, d :: 0 <= i < |Prepared(newSteps)| && d in Prepared(newSteps)[i].Deps() ==> 1 <= d <= i
  {
    hide RepairNotes, RenumberedSteps, Deduped, DistinctIds, ContiguousIds;
    var p := Prepared(newSteps);
    if RepairNotes(newSteps) != [] {
      DedupedOrder(newSteps);
      RenumberedLength(Deduped(newSteps));
      forall k | 0 <= k < |p| ensures p[k].id == k + 1 { RenumberedAt(Deduped(newSteps), k); }
    } else {
      NothingToRepair(newSteps);
      forall k | 0 <= k < |p| ensures p[k].id == k + 1 { ContiguousInOrder(newSteps, k); }
    }
    forall i, d | 0 <= i < |p| && d in p[i].Deps() ensures 1 <= d <= i { PreparedDeps(newSteps, i, d); }
  }

  /** For answers in id order that means: nothing was finished, or the answer has no dependencies. */
  lemma EdgesInOrderIff(v: View, newSteps: seq<PlanStep>, registry: set<string>)
    requires SoundPrior(v, registry) && DistinctIds(newSteps)
    requires SortedBy(newSteps, IdOf) || RepairNotes(newSteps) != []
    ensures NumbersNamed(Prepared(newSteps), MaxOrZero(FinishedIds(v))) <==>
            FinishedIds(v) == {} || forall s :: s in Prepared(newSteps) ==> s.Deps() == []
  {
    hide SoundPrior, Prepared, FinishedIds, MaxOrZero, RepairNotes;
    PreparedInIdOrder(newSteps);
    MaxBounds(v, registry);
    MaxIsMember(v);
    NamedInOrder(Prepared(newSteps), MaxOrZero(FinishedIds(v)));
  }

  lemma NamedInOrder(p: seq<PlanStep>, max: nat)
    requires InIdOrder(p) && forall i, d :: 0 <= i < |p| && d in p[i].Deps() ==> 1 <= d <= i
    ensures NumbersNamed(p, max) <==> max == 0 || forall s :: s in p ==> s.Deps() == []
  {
    if max > 0 && exists s :: s in p && s.Deps() != [] {
      var s :| s in p && s.Deps() != [];
      var i :| 0 <= i < |p| && p[i] == s;
      var d := LargestOf(s.Deps());
      assert d in p[i].Deps() && max + d !in p[i].Deps();
      assert p[d - 1].id == d && Needs(p, i, d - 1);
    }
    if forall s :: s in p ==> s.Deps() == [] {
      forall i | 0 <= i < |p| ensures p[i].Deps() == [] { assert p[i] in p; }
    }
  }

  lemma {:induction false} LargestOf(xs: seq<int>) returns (x: int)
    requires xs != []
    ensures x in xs && forall y :: y in xs ==> y <= x
  {
    x := xs[0];
    if |xs| > 1 {
      var rest := LargestOf(xs[1..]);
      if rest > x { x := rest; }
      assert forall y :: y in xs ==> y == xs[0] || y in xs[1..];
    }
  }

  // ------------------------------------------- dependencies of a repaired answer

  /** After repair a step of the layout depends on an earlier one exactly when the earlier one's id from before the
      repair is among its dependencies. */
  lemma RepairedEdge(v: View, newSteps: seq<PlanStep>, registry: set<string>, k: nat, d: int)
    requires SoundPrior(v, registry) && k < |Layout(v, newSteps)|
    ensures var r := RepairedSteps(Applied(v, newSteps));
            && |r| == |Layout(v, newSteps)|
            && (d in r[k].Deps() <==>
                1 <= d <= k && Layout(v, newSteps)[d - 1].id in Layout(v, newSteps)[k].Deps())
  {
    hide SoundPrior, Applied, Layout, SortById, RenumberedSteps, Deduped, DistinctIds;
    RepairLaysOut(v, newSteps, registry);
    SortedByIdFacts(Deduped(Applied(v, newSteps)));
    RenumberDistinct(Deduped(Applied(v, newSteps)), k);
  }

  /** Place a + 1 of the repaired plan keeps the new step laid out there. */
  predicate KeepsNew(v: View, newSteps: seq<PlanStep>, a: int) {
    |Settled(v)| <= a < |Layout(v, newSteps)| && a + 1 !in FinishedIds(v)
  }

  /** In the answer the new step laid out at b depends on the one laid out at a. */
  ghost predicate NeedsPlace(v: View, newSteps: seq<PlanStep>, b: int, a: int)
    requires 0 <= a < |Layout(v, newSteps)| && 0 <= b < |Layout(v, newSteps)|
  {
    var p, max := Prepared(newSteps), MaxOrZero(FinishedIds(v));
    exists k :: 0 <= k < |p| && max + k + 1 == Layout(v, newSteps)[a].id && p[k].id in Layout(v, newSteps)[b].Deps()
  }

  /** Every dependency between two new steps that keep their places holds in the final plan. */
  ghost predicate NewEdgesSurvive(v: View, newSteps: seq<PlanStep>, steps: seq<PlanStep>)
    requires |steps| == |Layout(v, newSteps)|
  {
    forall a, b :: KeepsNew(v, newSteps, a) && KeepsNew(v, newSteps, b) && NeedsPlace(v, newSteps, b, a) ==>
      a + 1 in steps[b].Deps()
  }

  /** A new step laid out earlier, whose number before the repair is named, too. */
  ghost predicate PlacesNamed(v: View, newSteps: seq<PlanStep>) {
    forall a, b :: KeepsNew(v, newSteps, a) && KeepsNew(v, newSteps, b) && NeedsPlace(v, newSteps, b, a) ==>
      a < b && Layout(v, newSteps)[a].id in Layout(v, newSteps)[b].Deps()
  }

  /** All dependencies between new steps survive a repaired replan, in the plan with the finished steps put back,
      exactly when every step is laid out behind those it needs and names their numbers. */
  lemma RepairedEdgesIff(v: View, newSteps: seq<PlanStep>, registry: set<string>)
    requires SoundPrior(v, registry) && !FitsAtOnce(v, newSteps)
    requires TryApply(v, newSteps, CompletedSnapshot(v), registry).applied
    ensures var steps := TryApply(v, newSteps, CompletedSnapshot(v), registry).view.plan.steps;
            && |steps| == |Layout(v, newSteps)|
            && (NewEdgesSurvive(v, newSteps, steps) <==> PlacesNamed(v, newSteps))
  {
    hide SoundPrior, FitsAtOnce, TryApply, ApplyReplanned, Prepared, FinishedIds, StepsById, Repaired, WithRestored,
         Layout, NeedsPlace, Settled, Applied;
    var steps := TryApply(v, newSteps, CompletedSnapshot(v), registry).view.plan.steps;
    AttemptOutcome(v, newSteps, registry);
    RestoredPlan(v, newSteps, registry, TryApply(v, newSteps, CompletedSnapshot(v), registry).view);
    forall a, b | KeepsNew(v, newSteps, a) && KeepsNew(v, newSteps, b)
      ensures a + 1 in steps[b].Deps() <==>
              a < b && Layout(v, newSteps)[a].id in Layout(v, newSteps)[b].Deps()
    {
      FinalStep(v, newSteps, registry, b);
      RepairedEdge(v, newSteps, registry, b, a + 1);
    }
  }

  /** Where a new step keeps its place, restoring changes nothing. */
  lemma FinalStep(v: View, newSteps: seq<PlanStep>, registry: set<string>, b: nat)
    requires SoundPrior(v, registry) && KeepsNew(v, newSteps, b)
    ensures var r := RepairedSteps(Applied(v, newSteps));
            && |r| == |Layout(v, newSteps)| && |RestoredSteps(r, CompletedSnapshot(v))| == |r|
            && RestoredSteps(r, CompletedSnapshot(v))[b] == r[b]
  {
    hide SoundPrior, FinishedIds, Layout, Settled, Applied, RepairedSteps, StepsById;
    RepairedLayout(v, newSteps, registry, b);
    SnapshotKeys(v, registry);
  }

  // ------------------------------------------------------ results after a repair

  /** The results that applying an answer leaves: those of unfinished steps are dropped. */
  function KeptResults(v: View): map<int, StepResult> {
    v.results - RemovedIds(v.plan.steps, FinishedIds(v))
  }

  lemma AppliedResults(v: View, steps: seq<PlanStep>)
    ensures ApplyReplanned(v, steps).results == KeptResults(v)
  {
  }

  /** Repair moves every result with its step to its place; a place whose step had none inherits the result of a dropped
      step with that id. */
  lemma RepairedResults(v: View, newSteps: seq<PlanStep>, registry: set<string>, k: nat)
    requires SoundPrior(v, registry) && k < |Layout(v, newSteps)|
    ensures var r := Repaired(ApplyReplanned(v, Prepared(newSteps)), v.status).results;
            var before, id := KeptResults(v), Layout(v, newSteps)[k].id;
            && (id in before ==> k + 1 in r && r[k + 1] == before[id].(stepId := k + 1))
            && (id !in before ==>
                  && (k + 1 in r <==> k + 1 in before && forall s :: s in Layout(v, newSteps) ==> s.id != k + 1)
                  && (k + 1 in r ==> r[k + 1] == before[k + 1]))
  {
    hide SoundPrior, FinishedIds, Prepared, Layout, Applied, ApplyReplanned, RemapStatus, Deduped, Compressing,
         RenumberMap, RenumberedSteps, ImageIds, SortById, DistinctIds, KeptResults;
    var w, d := ApplyReplanned(v, Prepared(newSteps)), Deduped(Applied(v, newSteps));
    AppliedPlan(v, newSteps);
    AppliedResults(v, Prepared(newSteps));
    AppliedIds(v, registry, Prepared(newSteps));
    DedupedIds(Applied(v, newSteps));
    RepairLaysOut(v, newSteps, registry);
    SortedByIdFacts(d);
    MapAt(d, k);
    RenumberCompresses(d);
    RenumberImage(d);
    RenumberDomain(d);
    ImageAt(RenumberMap(d), Layout(v, newSteps)[k].id);
    RemapMovesResults(w.(plan := RepairOf(w.plan).plan), RenumberMap(d), Layout(v, newSteps)[k].id);
    IdsOfSorted(d, k + 1);
  }

  lemma ImageAt(idMap: map<int, int>, id: int)
    requires id in idMap
    ensures idMap[id] in ImageIds(idMap)
  {
  }

  lemma IdsOfSorted(steps: seq<PlanStep>, id: int)
    ensures id !in IdSet(steps) <==> forall s :: s in SortById(steps) ==> s.id != id
  {
    hide SortById;
    SortedByIdFacts(steps);
  }

  /** Which result a finished step ends with after a repaired replan put it back at its id: up to the m-th place that of
      the step laid out there, so its own only if it did not move; beyond, its own if repair dropped it as a duplicate,
      else none. */
  lemma FinishedResultAfterRepair(v: View, newSteps: seq<PlanStep>, registry: set<string>, id: int)
    requires SoundPrior(v, registry) && !FitsAtOnce(v, newSteps)
    requires TryApply(v, newSteps, CompletedSnapshot(v), registry).applied
    requires FinishedIds(v) <= v.results.Keys <= IdSet(v.plan.steps)
    requires id in FinishedIds(v) && id <= |Layout(v, newSteps)|
    ensures 1 <= id
    ensures var r := TryApply(v, newSteps, CompletedSnapshot(v), registry).view.results;
            if id <= |Settled(v)|
            then Settled(v)[id - 1].id in v.results && id in r
                 && r[id] == v.results[Settled(v)[id - 1].id].(stepId := id)
            else (id in r <==> forall s :: s in Settled(v) ==> s.id != id) && (id in r ==> r[id] == v.results[id])
  {
    hide SoundPrior, FitsAtOnce, TryApply, ApplyReplanned, Prepared, FinishedIds, StepsById, Repaired, Settled,
         FreshNumbered, MaxOrZero, KeptResults;
    AttemptOutcome(v, newSteps, registry);
    FinishedPositive(v, registry);
    RepairedResults(v, newSteps, registry, id - 1);
    LayoutId(v, newSteps, registry, id - 1);
    KeptResultIds(v, registry);
    MaxBounds(v, registry);
    forall k | 0 <= k < |FreshNumbered(v, newSteps)| ensures FreshNumbered(v, newSteps)[k].id != id {
      FreshIds(v, newSteps, k);
    }
    assert forall s :: s in Layout(v, newSteps) <==> s in Settled(v) || s in FreshNumbered(v, newSteps);
  }

  lemma KeptResultIds(v: View, registry: set<string>)
    requires SoundPrior(v, registry) && FinishedIds(v) <= v.results.Keys <= IdSet(v.plan.steps)
    ensures KeptResults(v).Keys == FinishedIds(v)
    ensures forall id :: id in FinishedIds(v) ==> KeptResults(v)[id] == v.results[id]
  {
    hide FinishedIds, WellFormed;
    var removed := RemovedIds(v.plan.steps, FinishedIds(v));
    forall id | id in v.results && id !in removed ensures id in FinishedIds(v) {
      var s :| s in v.plan.steps && s.id == id;
    }
  }
}
