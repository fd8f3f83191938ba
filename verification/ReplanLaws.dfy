/** When a replan is applied, and what it keeps (plan/replanning_controller.py, plan/repair.py, plan/state.py). */
module ReplanLaws {
  import opened Sequences
  import opened PlanSchema
  import opened PlanValidation
  import opened PlanRepair
  import opened PlanStateModel
  import opened Replanning

  // ------------------------------------------------------- usable answers

  predicate GoodStep(s: PlanStep, registry: set<string>) {
    !IsBlank(s.task) && (s.toolHint.Some? ==> s.toolHint.value in registry)
  }

  predicate GoodSteps(steps: seq<PlanStep>, registry: set<string>) {
    forall s :: s in steps ==> GoodStep(s, registry)
  }

  /** A planner answer that can be applied: every step has a task and no unknown tool, and something is left to do or
      already done. Ids, dependencies, duplicates and list order play no part. */
  predicate Usable(v: View, newSteps: seq<PlanStep>, registry: set<string>) {
    GoodSteps(newSteps, registry) && (newSteps != [] || FinishedIds(v) != {})
  }

  lemma GoodByKeys(xs: seq<PlanStep>, ys: seq<PlanStep>, registry: set<string>)
    requires Keys(xs) == Keys(ys)
    ensures GoodSteps(xs, registry) <==> GoodSteps(ys, registry)
    ensures xs == [] <==> ys == []
  {
    KeysDecide(xs, ys, registry);
    KeysDecide(ys, xs, registry);
  }

  lemma KeysDecide(xs: seq<PlanStep>, ys: seq<PlanStep>, registry: set<string>)
    requires Keys(xs) == Keys(ys)
    ensures GoodSteps(ys, registry) ==> GoodSteps(xs, registry)
    ensures ys == [] ==> xs == []
  {
    hide Strip;
    forall s | s in xs ensures ys != [] && (GoodSteps(ys, registry) ==> GoodStep(s, registry)) {
      assert KeyOf(s) in Keys(xs);
      var t :| t in ys && KeyOf(t) == KeyOf(s);
    }
    if xs != [] { assert xs[0] in xs; }
  }

  lemma PointwiseKeys(xs: seq<PlanStep>, ys: seq<PlanStep>)
    requires |xs| == |ys| && forall k :: 0 <= k < |xs| ==> KeyOf(xs[k]) == KeyOf(ys[k])
    ensures Keys(xs) == Keys(ys)
  {
    hide KeyOf, Keys;
    KeysWithin(xs, ys);
    KeysWithin(ys, xs);
  }

  lemma KeysWithin(xs: seq<PlanStep>, ys: seq<PlanStep>)
    requires |xs| == |ys| && forall k :: 0 <= k < |xs| ==> KeyOf(xs[k]) == KeyOf(ys[k])
    ensures Keys(xs) <= Keys(ys)
  {
    hide KeyOf;
    forall s | s in xs ensures KeyOf(s) in Keys(ys) {
      var k :| 0 <= k < |xs| && xs[k] == s;
      assert ys[k] in ys;
    }
  }

  lemma RemappedAt(steps: seq<PlanStep>, k: nat)
    requires k < |steps|
    ensures |RenumberedSteps(steps)| == |steps| == |SortById(steps)|
    ensures RenumberedSteps(steps)[k].task == SortById(steps)[k].task
    ensures RenumberedSteps(steps)[k].toolHint == SortById(steps)[k].toolHint
  {
    SortedByIdFacts(steps);
  }

  /** Renumbering keeps every key, whatever the ids. */
  lemma RenumberedKeys(steps: seq<PlanStep>)
    ensures Keys(RenumberedSteps(steps)) == Keys(steps)
  {
    hide KeyOf, RenumberedSteps, SortById;
    SortedByIdFacts(steps);
    var sorted, r := SortById(steps), RenumberedSteps(steps);
    assert Keys(sorted) == Keys(steps);
    if steps == [] {
      RenumberedLength(steps);
    }
    forall k | 0 <= k < |steps| ensures |r| == |steps| && KeyOf(r[k]) == KeyOf(sorted[k]) {
      RemappedAt(steps, k);
      SameTaskSameKey(r[k], sorted[k]);
    }
    RenumberedLength(steps);
    PointwiseKeys(r, sorted);
  }

  lemma RenumberedLength(steps: seq<PlanStep>)
    ensures |RenumberedSteps(steps)| == |steps|
  {
    SortedByIdFacts(steps);
  }

  lemma RepairedKeys(steps: seq<PlanStep>)
    ensures Keys(RepairedSteps(steps)) == Keys(steps)
  {
    RenumberedKeys(Deduped(steps));
    DedupedKeys(steps);
  }

  lemma PreparedGood(newSteps: seq<PlanStep>, registry: set<string>)
    ensures GoodSteps(Prepared(newSteps), registry) <==> GoodSteps(newSteps, registry)
    ensures Prepared(newSteps) == [] <==> newSteps == []
  {
    RepairedKeys(newSteps);
    GoodByKeys(RepairedSteps(newSteps), newSteps, registry);
  }

  // --------------------------------------------------- a repair that does nothing

  lemma {:induction false} NoDedupNotes(steps: seq<PlanStep>)
    requires DedupNotes(steps) == []
    ensures Deduped(steps) == steps
  {
    if steps != [] {
      var front, last := steps[..|steps| - 1], steps[|steps| - 1];
      assert steps == front + [last];
      NoDedupNotes(front);
    }
  }

  lemma {:induction false} NoDepNotes(s: PlanStep, deps: seq<int>, idMap: map<int, int>, newId: int)
    requires DepNotes(s, deps, idMap, newId) == []
    ensures forall d :: d in deps ==> d in idMap && idMap[d] < newId
  {
    if deps != [] {
      NoDepNotes(s, deps[..|deps| - 1], idMap, newId);
      assert deps == deps[..|deps| - 1] + [deps[|deps| - 1]];
    }
  }

  lemma {:induction false} NoRemapNotes(sorted: seq<PlanStep>, idMap: map<int, int>, s: PlanStep)
    requires (forall t :: t in sorted ==> t.id in idMap) && RemapNotes(sorted, idMap) == [] && s in sorted
    ensures forall d :: d in s.Deps() ==> d in idMap && idMap[d] < idMap[s.id]
  {
    hide DepNotes;
    var front, last := sorted[..|sorted| - 1], sorted[|sorted| - 1];
    assert sorted == front + [last];
    if s == last {
      NoDepNotes(s, s.Deps(), idMap, idMap[s.id]);
    } else {
      assert s in front;
      NoRemapNotes(front, idMap, s);
    }
  }

  lemma ContiguousMap(steps: seq<PlanStep>, id: int)
    requires ContiguousIds(steps) && id in RenumberMap(steps)
    ensures RenumberMap(steps)[id] == id && 1 <= id
  {
    IdMapValue(SortById(steps), id);
    SortedByIdFacts(steps);
    SortedContiguous(steps, RenumberMap(steps)[id] - 1);
  }

  lemma NoIdNote(steps: seq<PlanStep>)
    requires DistinctIds(steps) && RenumberNotes(steps) == []
    ensures ContiguousIds(steps)
  {
    hide SortById, IdMapOf, RemapNotes;
    SortedByIdFacts(steps);
    RenumberDomain(steps);
    var range := Range(1, |steps| + 1);
    forall s | s in steps ensures 1 <= s.id <= |steps| {
      assert s.id in IdSet(steps);
      assert s.id in range;
      var i :| 0 <= i < |range| && range[i] == s.id;
    }
  }

  lemma NoDepNote(steps: seq<PlanStep>, s: PlanStep)
    requires ContiguousIds(steps) && RenumberNotes(steps) == [] && s in steps
    ensures PriorStep(s)
  {
    hide SortById, IdMapOf, ContiguousIds, RemapNotes;
    SortedByIdFacts(steps);
    var m := RenumberMap(steps);
    NoRemapNotes(SortById(steps), m, s);
    ContiguousMap(steps, s.id);
    forall d | d in s.Deps() ensures 1 <= d < s.id { ContiguousMap(steps, d); }
  }

  /** A list that repair leaves without a note has contiguous ids and only prior dependencies. */
  lemma NothingToRepair(steps: seq<PlanStep>)
    requires RepairNotes(steps) == []
    ensures Deduped(steps) == steps && ContiguousIds(steps) && PriorDependencies(steps)
  {
    hide RenumberNotes, ContiguousIds, PriorStep;
    NoDedupNotes(steps);
    NoNotesDistinct(steps);
    NoIdNote(steps);
    forall s | s in steps ensures PriorStep(s) {
      NoDepNote(steps, s);
    }
  }

  lemma {:induction false} NoDepDropped(s: PlanStep, deps: seq<int>, idMap: map<int, int>, newId: int)
    requires forall d :: d in deps ==> d in idMap && idMap[d] < newId
    ensures DepNotes(s, deps, idMap, newId) == []
  {
    if deps != [] {
      assert deps == deps[..|deps| - 1] + [deps[|deps| - 1]];
      NoDepDropped(s, deps[..|deps| - 1], idMap, newId);
    }
  }

  lemma {:induction false} NothingDropped(sorted: seq<PlanStep>, idMap: map<int, int>)
    requires forall s :: s in sorted ==> s.id in idMap
    requires forall s, d :: s in sorted && d in s.Deps() ==> d in idMap && idMap[d] < idMap[s.id]
    ensures RemapNotes(sorted, idMap) == []
  {
    if sorted != [] {
      var front, last := sorted[..|sorted| - 1], sorted[|sorted| - 1];
      assert sorted == front + [last] && last in sorted;
      assert forall s :: s in front ==> s in sorted;
      NothingDropped(front, idMap);
      NoDepDropped(last, last.Deps(), idMap, idMap[last.id]);
    }
  }

  lemma CanonicalIds(steps: seq<PlanStep>)
    requires Canonical(steps)
    ensures IdSet(steps) == SetOf(Range(1, |steps| + 1))
  {
    var range := Range(1, |steps| + 1);
    forall s | s in steps ensures s.id in range {
      var k :| 0 <= k < |steps| && steps[k] == s;
      assert range[k] == s.id;
    }
    forall id | id in range ensures id in IdSet(steps) {
      var k :| 0 <= k < |range| && range[k] == id;
      assert steps[k] in steps;
    }
  }

  /** Conversely, renumbering steps that are numbered 1..n with prior dependencies makes no note. */
  lemma CanonicalHasNoNotes(steps: seq<PlanStep>)
    requires Canonical(steps)
    ensures RenumberNotes(steps) == []
  {
    hide SortBy, IdMapOf, RemapNotes;
    CanonicalIsSorted(steps);
    RenumberDomain(steps);
    CanonicalIds(steps);
    forall s, d | s in steps && d in s.Deps()
      ensures d in RenumberMap(steps) && RenumberMap(steps)[d] < RenumberMap(steps)[s.id]
    {
      var k :| 0 <= k < |steps| && steps[k] == s;
      assert PriorStep(steps[k]);
      assert steps[d - 1].id == d && steps[d - 1] in steps;
      CanonicalIdMap(steps, d);
      CanonicalIdMap(steps, s.id);
    }
    NothingDropped(steps, RenumberMap(steps));
  }

  lemma NoNotesDistinct(steps: seq<PlanStep>)
    requires RenumberNotes(steps) == []
    ensures DistinctIds(steps)
  {
    hide SortById, IdMapOf, RemapNotes;
    SortedByIdFacts(steps);
    RenumberDomain(steps);
    SetOfRange(|steps|);
    IdCount(steps);
  }

  lemma {:induction false} SetOfRange(m: nat)
    ensures |SetOf(Range(1, m + 1))| == m
  {
    if m > 0 {
      SetOfRange(m - 1);
      assert Range(1, m + 1) == Range(1, m) + [m];
      assert SetOf(Range(1, m + 1)) == SetOf(Range(1, m)) + {m};
      assert m !in SetOf(Range(1, m));
    }
  }

  /** Ids are distinct exactly when there are as many as steps; the same for keys. */
  lemma {:induction false} IdCount(steps: seq<PlanStep>)
    ensures |IdSet(steps)| <= |steps| && (|IdSet(steps)| == |steps| <==> DistinctIds(steps))
  {
    if steps != [] {
      var front, last := steps[..|steps| - 1], steps[|steps| - 1];
      assert steps == front + [last];
      DistinctIdsSnoc(front, last);
      IdSetSnoc(front, last);
      IdCount(front);
    } else {
      NoIds();
    }
  }

  lemma {:induction false} KeyCount(steps: seq<PlanStep>)
    ensures |Keys(steps)| <= |steps| && (|Keys(steps)| == |steps| <==> DistinctStepKeys(steps))
  {
    if steps != [] {
      var front, last := steps[..|steps| - 1], steps[|steps| - 1];
      assert steps == front + [last];
      DistinctStepKeysSnoc(front, last);
      KeysSnoc(front, last);
      KeyCount(front);
    } else {
      assert Keys(steps) == {};
    }
  }

  // ------------------------------------------------------- the prepared answer

  /** Whatever the ids, a renumbered step depends on earlier places only. */
  lemma RenumberedDeps(steps: seq<PlanStep>, k: nat, d: int)
    requires k < |RenumberedSteps(steps)| && d in RenumberedSteps(steps)[k].Deps()
    ensures 1 <= d <= k
  {
    hide SortBy, NewDeps, IdMapOf;
    var sorted, m := SortById(steps), RenumberMap(steps);
    SortedByIdFacts(steps);
    var id := sorted[k].id;
    NewDepsMembers(sorted[k].Deps(), m, m[id]);
    var dep :| dep in sorted[k].Deps() && dep in m && m[dep] < m[id] && m[dep] == d;
    IdMapValue(sorted, dep);
    IdMapValue(sorted, id);
    BetweenTwins(sorted, k, d - 1, m[id] - 1);
  }

  lemma BetweenTwins(sorted: seq<PlanStep>, i: nat, j: nat, k: nat)
    requires SortedBy(sorted, IdOf) && i < |sorted| && j < |sorted| && k < |sorted|
    ensures i <= j <= k && sorted[i].id == sorted[k].id ==> sorted[j].id == sorted[i].id
  {
    if i < j < k {
      assert IdOf(sorted[i]) <= IdOf(sorted[j]) <= IdOf(sorted[k]);
    }
  }

  /** Dependencies of the prepared steps are positive; and they point back, by position, when the answer was repaired or
      listed in the order of its ids. */
  lemma PreparedDeps(newSteps: seq<PlanStep>, i: nat, d: int)
    requires i < |Prepared(newSteps)| && d in Prepared(newSteps)[i].Deps()
    ensures d >= 1
    ensures RepairNotes(newSteps) != [] || SortedBy(newSteps, IdOf) ==> d <= i
  {
    hide RepairNotes, RenumberedSteps, ContiguousIds;
    if RepairNotes(newSteps) != [] {
      RenumberedDeps(Deduped(newSteps), i, d);
    } else {
      NothingToRepair(newSteps);
      assert newSteps[i] in newSteps && PriorStep(newSteps[i]);
      if SortedBy(newSteps, IdOf) {
        ContiguousInOrder(newSteps, i);
      }
    }
  }

  lemma ContiguousInOrder(steps: seq<PlanStep>, i: nat)
    requires ContiguousIds(steps) && SortedBy(steps, IdOf) && i < |steps|
    ensures steps[i].id == i + 1
  {
    SortByIdentity(steps, IdOf);
    SortedContiguous(steps, i);
  }

  /** No two prepared steps share a key. */
  lemma PreparedDistinct(newSteps: seq<PlanStep>)
    ensures DistinctStepKeys(Prepared(newSteps)) && Keys(Prepared(newSteps)) == Keys(newSteps)
  {
    hide RepairNotes, RenumberedSteps, Deduped, DistinctStepKeys, KeyOf;
    DedupedKeys(newSteps);
    KeyCount(Deduped(newSteps));
    RenumberedKeys(Deduped(newSteps));
    RenumberedLength(Deduped(newSteps));
    KeyCount(RepairedSteps(newSteps));
    if RepairNotes(newSteps) == [] { NothingToRepair(newSteps); }
  }

  // ------------------------------------------------- when an attempt is applied

  /** The finished steps, then the given ones under the numbers after them. */
  function Appended(v: View, steps: seq<PlanStep>): seq<PlanStep> {
    Kept(v) + NumberAfter(steps, MaxOrZero(FinishedIds(v)))
  }

  /** The step list an answer is applied as. */
  function Applied(v: View, newSteps: seq<PlanStep>): seq<PlanStep> {
    Appended(v, Prepared(newSteps))
  }

  lemma NumberedKeys(steps: seq<PlanStep>, max: int)
    ensures Keys(NumberAfter(steps, max)) == Keys(steps)
  {
    hide KeyOf;
    var r := NumberAfter(steps, max);
    forall i | 0 <= i < |steps| ensures KeyOf(r[i]) == KeyOf(steps[i]) && r[i] in r && steps[i] in steps {
      SameTaskSameKey(r[i], steps[i]);
    }
  }

  lemma AppendedGood(v: View, steps: seq<PlanStep>, registry: set<string>)
    requires SoundPrior(v, registry)
    ensures Usable(v, steps, registry) <==> Appended(v, steps) != [] && GoodSteps(Appended(v, steps), registry)
  {
    var finished := FinishedIds(v);
    var kept, numbered := KeptSteps(v.plan.steps, finished), NumberAfter(steps, MaxOrZero(finished));
    assert Appended(v, steps) == kept + numbered;
    NumberedKeys(steps, MaxOrZero(finished));
    GoodByKeys(numbered, steps, registry);
    assert forall s :: s in kept + numbered <==> s in kept || s in numbered;
    if finished != {} {
      NonEmpty(finished);
      var id :| id in finished;
      assert id in IdSet(v.plan.steps);
      var s :| s in v.plan.steps && s.id == id;
      assert s in kept;
    }
    if kept != [] { assert kept[0] in kept; }
  }

  lemma AppliedGood(v: View, newSteps: seq<PlanStep>, registry: set<string>)
    requires SoundPrior(v, registry)
    ensures Usable(v, newSteps, registry) <==> Applied(v, newSteps) != [] && GoodSteps(Applied(v, newSteps), registry)
  {
    hide Appended, Prepared, FinishedIds, GoodSteps;
    PreparedGood(newSteps, registry);
    AppendedGood(v, Prepared(newSteps), registry);
  }

  /** Once repaired, the applied list is a valid plan exactly when the answer was usable: ids, dependencies and
      duplicates are always put right, tasks and tools never. */
  lemma RepairedIsValid(v: View, newSteps: seq<PlanStep>, registry: set<string>)
    requires SoundPrior(v, registry)
    ensures WellFormed(Plan(v.plan.goal, RepairedSteps(Applied(v, newSteps))), registry) <==>
            Usable(v, newSteps, registry)
    ensures ContiguousIds(RepairedSteps(Applied(v, newSteps)))
  {
    var all := Applied(v, newSteps);
    AppliedIds(v, registry, Prepared(newSteps));
    AppliedGood(v, newSteps, registry);
    RepairedKeys(all);
    GoodByKeys(RepairedSteps(all), all, registry);
    DedupedOrder(all);
    RenumberIds(Deduped(all));
  }

  /** After the first validation has failed on a usable answer, the repair does change something. */
  lemma InvalidIsRepaired(v: View, newSteps: seq<PlanStep>, registry: set<string>)
    requires SoundPrior(v, registry) && Usable(v, newSteps, registry)
    requires AllErrors(Plan(v.plan.goal, Applied(v, newSteps)), registry) != []
    ensures RepairOf(Plan(v.plan.goal, Applied(v, newSteps))).repaired
  {
    hide AllErrors;
    var all := Applied(v, newSteps);
    AppliedIds(v, registry, Prepared(newSteps));
    AppliedGood(v, newSteps, registry);
    SuccessIffWellFormed(Plan(v.plan.goal, all), registry);
    if RepairNotes(all) == [] { NothingToRepair(all); }
  }

  function Kept(v: View): seq<PlanStep> {
    KeptSteps(v.plan.steps, FinishedIds(v))
  }

  lemma KeptFacts(v: View, registry: set<string>)
    requires SoundPrior(v, registry)
    ensures DistinctIds(Kept(v)) && IdSet(Kept(v)) == FinishedIds(v) && |Kept(v)| == |FinishedIds(v)|
    ensures forall s :: s in Kept(v) ==> s in v.plan.steps && s.id >= 1
    ensures forall s :: s in Kept(v) ==> CompletedSnapshot(v)[s.id] == s
  {
    var kept, finished := Kept(v), FinishedIds(v);
    FilterDistinctIds((s: PlanStep) => s.id in finished, v.plan.steps);
    forall id | id in finished ensures id in IdSet(kept) {
      assert id in IdSet(v.plan.steps);
      var s :| s in v.plan.steps && s.id == id;
      assert s in kept;
    }
    IdCount(kept);
    forall s | s in kept ensures CompletedSnapshot(v)[s.id] == s {
      SameStepById(v.plan.steps, s, CompletedSnapshot(v)[s.id]);
    }
  }

  lemma SameStepById(steps: seq<PlanStep>, s: PlanStep, u: PlanStep)
    requires DistinctIds(steps) && s in steps && u in steps && s.id == u.id
    ensures s == u
  {
    FindDistinct(steps, s);
    FindDistinct(steps, u);
  }

  lemma NumberedAt(steps: seq<PlanStep>, max: int, i: nat)
    requires i < |steps|
    ensures var r := NumberAfter(steps, max)[i];
            r.id == max + i + 1 && r.task == steps[i].task && r.toolHint == steps[i].toolHint
  {
  }

  lemma MaxBounds(v: View, registry: set<string>)
    requires SoundPrior(v, registry)
    ensures MaxOrZero(FinishedIds(v)) >= 0 && forall id :: id in FinishedIds(v) ==> 1 <= id <= MaxOrZero(FinishedIds(v))
  {
    assert FinishedIds(v) <= IdSet(v.plan.steps);
  }

  lemma RepairedGoal(w: View, preStatus: map<int, StepStatus>)
    ensures Repaired(w, preStatus).plan == Plan(w.plan.goal, RepairedSteps(w.plan.steps))
  {
  }

  lemma AppliedPlan(v: View, newSteps: seq<PlanStep>)
    ensures ApplyReplanned(v, Prepared(newSteps)).plan == Plan(v.plan.goal, Applied(v, newSteps))
  {
  }

  lemma SnapshotPositive(v: View, registry: set<string>)
    requires SoundPrior(v, registry)
    ensures forall id :: id in CompletedSnapshot(v) ==> id >= 1
  {
  }

  // ------------------------------------------- answers that validate as applied

  /** The finished ids are exactly 1..m, as the sequential executor leaves them. */
  predicate FinishedPrefix(v: View) {
    forall id :: id in FinishedIds(v) ==> id <= |FinishedIds(v)|
  }

  /** Every dependency of a prepared step, read as an id of the plan, is smaller than the id the step gets. */
  ghost predicate DependenciesFit(v: View, newSteps: seq<PlanStep>) {
    var p, max := Prepared(newSteps), MaxOrZero(FinishedIds(v));
    forall i, d :: 0 <= i < |p| && d in p[i].Deps() ==> d <= max + i
  }

  ghost predicate FitsAtOnce(v: View, newSteps: seq<PlanStep>) {
    FinishedPrefix(v) && DependenciesFit(v, newSteps)
  }

  /** Answers listed in the order of their ids always fit, and so does every answer that had to be repaired. */
  lemma ListedInOrderFits(v: View, newSteps: seq<PlanStep>, registry: set<string>)
    requires SoundPrior(v, registry)
    requires SortedBy(newSteps, IdOf) || RepairNotes(newSteps) != []
    ensures DependenciesFit(v, newSteps)
  {
    hide RepairNotes, Prepared, FinishedIds;
    MaxBounds(v, registry);
    forall i, d | 0 <= i < |Prepared(newSteps)| && d in Prepared(newSteps)[i].Deps() ensures d <= i {
      PreparedDeps(newSteps, i, d);
    }
  }

  lemma AppendedContiguousIff(v: View, p: seq<PlanStep>, registry: set<string>)
    requires SoundPrior(v, registry)
    ensures ContiguousIds(Appended(v, p)) <==> FinishedPrefix(v)
  {
    hide SoundPrior, FinishedIds, KeptSteps, NumberAfter, MaxOrZero, DistinctIds;
    var max, all := MaxOrZero(FinishedIds(v)), Appended(v, p);
    var numbered := NumberAfter(p, max);
    KeptFacts(v, registry);
    MaxBounds(v, registry);
    MaxIsMember(v);
    AppendedIsDistinct(v, p, registry);
    assert |numbered| == |p| && all == Kept(v) + numbered;
    if FinishedPrefix(v) {
      forall s | s in all ensures 1 <= s.id <= |all| {
        if s in Kept(v) {
          assert s.id in IdSet(Kept(v));
        } else {
          var i :| 0 <= i < |numbered| && numbered[i] == s;
          NumberedAt(p, max, i);
        }
      }
    }
    if ContiguousIds(all) {
      forall id | id in FinishedIds(v) ensures id <= |FinishedIds(v)| {
        assert id in IdSet(Kept(v));
        var s :| s in Kept(v) && s.id == id;
        assert s in all;
        if p != [] {
          NumberedAt(p, max, |p| - 1);
          assert all[|all| - 1] in all;
        }
      }
    }
  }

  lemma MaxIsMember(v: View)
    ensures FinishedIds(v) == {} ==> MaxOrZero(FinishedIds(v)) == 0
    ensures FinishedIds(v) != {} ==> MaxOrZero(FinishedIds(v)) in FinishedIds(v)
  {
  }

  lemma AppendedIsDistinct(v: View, steps: seq<PlanStep>, registry: set<string>)
    requires SoundPrior(v, registry)
    ensures DistinctIds(Appended(v, steps))
  {
    AppliedIds(v, registry, steps);
  }

  lemma NumberedDeps(steps: seq<PlanStep>, max: int, i: nat)
    requires i < |steps|
    ensures NumberAfter(steps, max)[i].Deps() == steps[i].Deps()
  {
  }

  /** Every dependency, read as an id of the plan, names an id before the one its step gets. */
  ghost predicate PointsBack(v: View, steps: seq<PlanStep>) {
    var max := MaxOrZero(FinishedIds(v));
    forall i, d :: 0 <= i < |steps| && d in steps[i].Deps() ==> 1 <= d <= max + i
  }

  lemma AppendedPriorIff(v: View, p: seq<PlanStep>, registry: set<string>)
    requires SoundPrior(v, registry)
    ensures PriorDependencies(Appended(v, p)) <==> PointsBack(v, p)
  {
    hide FinishedIds, KeptSteps, NumberAfter, MaxOrZero;
    var max, all := MaxOrZero(FinishedIds(v)), Appended(v, p);
    var numbered := NumberAfter(p, max);
    KeptFacts(v, registry);
    assert |numbered| == |p| && all == Kept(v) + numbered;
    forall i | 0 <= i < |p| ensures PriorStep(numbered[i]) <==> forall d :: d in p[i].Deps() ==> 1 <= d <= max + i {
      NumberedAt(p, max, i);
      NumberedDeps(p, max, i);
    }
    forall s | s in all ensures s in Kept(v) ==> PriorStep(s) {
    }
    if PriorDependencies(all) {
      forall i | 0 <= i < |p| ensures PriorStep(numbered[i]) { assert numbered[i] in all; }
    }
    if PointsBack(v, p) {
      forall s | s in numbered ensures PriorStep(s) {
        var i :| 0 <= i < |numbered| && numbered[i] == s;
      }
    }
  }

  /** Appending steps, without any repair, gives a valid plan exactly when they are usable, the finished ids are a
      prefix, and dependencies point back. */
  lemma AppendedIsValid(v: View, steps: seq<PlanStep>, registry: set<string>)
    requires SoundPrior(v, registry)
    ensures WellFormed(Plan(v.plan.goal, Appended(v, steps)), registry) <==>
            Usable(v, steps, registry) && FinishedPrefix(v) && PointsBack(v, steps)
  {
    hide Usable, Appended, FinishedIds, ContiguousIds, PriorDependencies, PointsBack, FinishedPrefix;
    AppendedGood(v, steps, registry);
    AppendedContiguousIff(v, steps, registry);
    AppendedPriorIff(v, steps, registry);
  }

  lemma PreparedPointsBack(v: View, newSteps: seq<PlanStep>)
    ensures PointsBack(v, Prepared(newSteps)) <==> DependenciesFit(v, newSteps)
  {
    hide Prepared, FinishedIds, MaxOrZero;
    var p := Prepared(newSteps);
    forall i, d | 0 <= i < |p| && d in p[i].Deps() ensures d >= 1 { PreparedDeps(newSteps, i, d); }
  }

  /** The applied plan validates as it stands exactly when the answer is usable, the finished ids are a prefix, and the
      answer's dependencies fit. */
  lemma AtOnceIff(v: View, newSteps: seq<PlanStep>, registry: set<string>)
    requires SoundPrior(v, registry)
    ensures AllErrors(Plan(v.plan.goal, Applied(v, newSteps)), registry) == [] <==>
            Usable(v, newSteps, registry) && FitsAtOnce(v, newSteps)
  {
    hide AllErrors, WellFormed, GoodSteps, Appended, Prepared, FinishedIds, PointsBack, DependenciesFit,
         FinishedPrefix;
    SuccessIffWellFormed(Plan(v.plan.goal, Applied(v, newSteps)), registry);
    PreparedGood(newSteps, registry);
    AppendedIsValid(v, Prepared(newSteps), registry);
    PreparedPointsBack(v, newSteps);
  }

  // ------------------------------------------------------ what repair lays out

  /** The steps with a key outside the given ones. */
  function Others(keys: set<(string, Option<string>)>, steps: seq<PlanStep>): seq<PlanStep> {
    Filter((s: PlanStep) => KeyOf(s) !in keys, steps)
  }

  /** The finished steps that repair keeps, one of every key, in id order. */
  function Settled(v: View): seq<PlanStep> {
    SortById(Deduped(Kept(v)))
  }

  /** The prepared steps that repeat no finished step. */
  function Fresh(v: View, newSteps: seq<PlanStep>): seq<PlanStep> {
    Others(Keys(Kept(v)), Prepared(newSteps))
  }

  function FreshNumbered(v: View, newSteps: seq<PlanStep>): seq<PlanStep> {
    Others(Keys(Kept(v)), NumberAfter(Prepared(newSteps), MaxOrZero(FinishedIds(v))))
  }

  /** The order in which repair lays the steps out and numbers them 1..n. */
  function Layout(v: View, newSteps: seq<PlanStep>): seq<PlanStep> {
    Settled(v) + FreshNumbered(v, newSteps)
  }

  lemma {:induction false} OthersPointwise(
    keys: set<(string, Option<string>)>, xs: seq<PlanStep>, ys: seq<PlanStep>)
    requires |xs| == |ys|
    requires forall k :: 0 <= k < |xs| ==> xs[k].task == ys[k].task && xs[k].toolHint == ys[k].toolHint
    ensures var a, b := Others(keys, xs), Others(keys, ys);
            |a| == |b| && forall k :: 0 <= k < |a| ==> a[k].task == b[k].task && a[k].toolHint == b[k].toolHint
  {
    hide KeyOf;
    if xs != [] {
      SameTaskSameKey(xs[0], ys[0]);
      forall k | 0 <= k < |xs| - 1
        ensures xs[1..][k].task == ys[1..][k].task && xs[1..][k].toolHint == ys[1..][k].toolHint
      {
        assert xs[1..][k] == xs[k + 1] && ys[1..][k] == ys[k + 1];
      }
      OthersPointwise(keys, xs[1..], ys[1..]);
    }
  }

  lemma DedupedSnoc(front: seq<PlanStep>, last: PlanStep)
    ensures Deduped(front + [last]) == Deduped(front) + (if KeyOf(last) in Keys(front) then [] else [last])
  {
    hide KeyOf, Keys;
    var all := front + [last];
    assert all[..|all| - 1] == front;
  }

  lemma OthersSnoc(keys: set<(string, Option<string>)>, front: seq<PlanStep>, last: PlanStep)
    ensures Others(keys, front + [last]) == Others(keys, front) + (if KeyOf(last) in keys then [] else [last])
  {
    hide KeyOf;
    FilterConcat((s: PlanStep) => KeyOf(s) !in keys, front, [last]);
    assert Others(keys, [last]) == if KeyOf(last) in keys then [] else [last];
  }

  lemma KeysConcat(xs: seq<PlanStep>, ys: seq<PlanStep>)
    ensures Keys(xs + ys) == Keys(xs) + Keys(ys)
  {
    hide KeyOf;
    assert forall s :: s in xs + ys <==> s in xs || s in ys;
  }

  /** Deduplicating a list followed by steps with distinct keys drops those that repeat a key of the list. */
  lemma {:induction false} DedupedAppend(xs: seq<PlanStep>, ys: seq<PlanStep>)
    requires DistinctStepKeys(ys)
    ensures Deduped(xs + ys) == Deduped(xs) + Others(Keys(xs), ys)
  {
    hide KeyOf, Keys, Deduped, Others, DistinctStepKeys;
    if ys == [] {
      assert xs + ys == xs;
      NoOthers(Keys(xs));
    } else {
      var front, last := ys[..|ys| - 1], ys[|ys| - 1];
      assert ys == front + [last];
      DistinctStepKeysSnoc(front, last);
      DedupedAppend(xs, front);
      assert xs + ys == (xs + front) + [last];
      DedupedSnoc(xs + front, last);
      OthersSnoc(Keys(xs), front, last);
      KeysConcat(xs, front);
    }
  }

  lemma NoOthers(keys: set<(string, Option<string>)>)
    ensures Others(keys, []) == []
  {
  }

  lemma FreshFacts(v: View, newSteps: seq<PlanStep>)
    ensures var f, n := Fresh(v, newSteps), FreshNumbered(v, newSteps);
            |f| == |n| && forall k :: 0 <= k < |f| ==> n[k].task == f[k].task && n[k].toolHint == f[k].toolHint
  {
    hide Prepared, KeptSteps, FinishedIds, MaxOrZero, NumberAfter, Others, Keys;
    var p, max := Prepared(newSteps), MaxOrZero(FinishedIds(v));
    var numbered := NumberAfter(p, max);
    assert |numbered| == |p|;
    forall i | 0 <= i < |p| ensures numbered[i].task == p[i].task && numbered[i].toolHint == p[i].toolHint {
      NumberedAt(p, max, i);
    }
    OthersPointwise(Keys(Kept(v)), numbered, p);
  }

  /** The new steps of the layout have ids after the finished ones. */
  lemma FreshIds(v: View, newSteps: seq<PlanStep>, k: nat)
    requires k < |FreshNumbered(v, newSteps)|
    ensures var max := MaxOrZero(FinishedIds(v));
            max < FreshNumbered(v, newSteps)[k].id <= max + |Prepared(newSteps)|
  {
    hide Prepared, KeptSteps, FinishedIds, MaxOrZero, NumberAfter;
    var p, max := Prepared(newSteps), MaxOrZero(FinishedIds(v));
    var numbered := NumberAfter(p, max);
    var s := FreshNumbered(v, newSteps)[k];
    assert s in FreshNumbered(v, newSteps);
    var i :| 0 <= i < |numbered| && numbered[i] == s;
    assert |numbered| == |p|;
    NumberedAt(p, max, i);
  }

  lemma NumberedDistinct(v: View, newSteps: seq<PlanStep>)
    ensures var r := NumberAfter(Prepared(newSteps), MaxOrZero(FinishedIds(v)));
            DistinctStepKeys(r) && SortedBy(r, IdOf) && DistinctIds(r)
  {
    hide Prepared, KeptSteps, FinishedIds, MaxOrZero, NumberAfter, KeyOf;
    var p, max := Prepared(newSteps), MaxOrZero(FinishedIds(v));
    var r := NumberAfter(p, max);
    assert |r| == |p|;
    PreparedDistinct(newSteps);
    forall i, j | 0 <= i < j < |r| ensures KeyOf(r[i]) != KeyOf(r[j]) && IdOf(r[i]) < IdOf(r[j]) {
      NumberedAt(p, max, i);
      NumberedAt(p, max, j);
      SameTaskSameKey(r[i], p[i]);
      SameTaskSameKey(r[j], p[j]);
    }
  }

  lemma SettledFacts(v: View, registry: set<string>)
    requires SoundPrior(v, registry)
    ensures SortedBy(Settled(v), IdOf) && DistinctIds(Settled(v))
    ensures multiset(Settled(v)) == multiset(Deduped(Kept(v))) && Keys(Settled(v)) == Keys(Kept(v))
    ensures forall s :: s in Settled(v) ==> s in Kept(v) && s.id in FinishedIds(v)
    ensures |Settled(v)| <= |FinishedIds(v)|
    ensures DistinctStepKeys(Kept(v)) ==> |Settled(v)| == |FinishedIds(v)|
  {
    hide SoundPrior, FinishedIds, KeptSteps, SortById, Deduped, KeyOf, DistinctStepKeys;
    KeptFacts(v, registry);
    DedupedKeys(Kept(v));
    DedupedOrder(Kept(v));
    SortedByIdFacts(Deduped(Kept(v)));
    assert Keys(Settled(v)) == Keys(Deduped(Kept(v)));
    forall s | s in Settled(v) ensures s.id in FinishedIds(v) { assert s.id in IdSet(Kept(v)); }
    KeyCount(Kept(v));
    KeyCount(Deduped(Kept(v)));
  }

  /** Repair of the applied plan: deduplicate and sort gives the layout. */
  lemma RepairLaysOut(v: View, newSteps: seq<PlanStep>, registry: set<string>)
    requires SoundPrior(v, registry)
    ensures SortById(Deduped(Applied(v, newSteps))) == Layout(v, newSteps)
    ensures DistinctIds(Deduped(Applied(v, newSteps)))
  {
    hide SoundPrior, FinishedIds, Prepared, KeptSteps, NumberAfter, SortById, MaxOrZero, Deduped, DistinctStepKeys,
         KeyOf, Others, Keys, SortedBy, DistinctIds;
    var max := MaxOrZero(FinishedIds(v));
    var kept, numbered := Kept(v), NumberAfter(Prepared(newSteps), max);
    NumberedDistinct(v, newSteps);
    DedupedAppend(kept, numbered);
    SettledFacts(v, registry);
    MaxBounds(v, registry);
    OthersOrdered(Keys(kept), numbered);
    forall k | 0 <= k < |FreshNumbered(v, newSteps)| ensures FreshNumbered(v, newSteps)[k].id > max {
      FreshIds(v, newSteps, k);
    }
    AppendOrdered(Settled(v), FreshNumbered(v, newSteps), max);
    assert multiset(Deduped(kept) + FreshNumbered(v, newSteps)) == multiset(Layout(v, newSteps));
    SortedUnchanged(Deduped(kept) + FreshNumbered(v, newSteps), Layout(v, newSteps));
    AppendedIsDistinct(v, Prepared(newSteps), registry);
    DedupedOrder(Applied(v, newSteps));
  }

  lemma {:induction false} OthersOrdered(keys: set<(string, Option<string>)>, steps: seq<PlanStep>)
    requires SortedBy(steps, IdOf) && DistinctIds(steps)
    ensures SortedBy(Others(keys, steps), IdOf) && DistinctIds(Others(keys, steps))
  {
    hide KeyOf;
    if steps != [] {
      var rest := steps[1..];
      forall i, j | 0 <= i < j < |rest| ensures IdOf(rest[i]) < IdOf(rest[j]) {
        assert IdOf(steps[i + 1]) <= IdOf(steps[j + 1]) && IdOf(steps[i + 1]) != IdOf(steps[j + 1]);
      }
      OthersOrdered(keys, rest);
      var kept := Others(keys, rest);
      forall i | 0 <= i < |kept| ensures IdOf(steps[0]) < IdOf(kept[i]) {
        assert kept[i] in rest;
        var k :| 0 <= k < |rest| && rest[k] == kept[i];
        assert IdOf(steps[0]) <= IdOf(steps[k + 1]) && IdOf(steps[0]) != IdOf(steps[k + 1]);
      }
    }
  }

  lemma AppendOrdered(low: seq<PlanStep>, high: seq<PlanStep>, max: int)
    requires SortedBy(low, IdOf) && DistinctIds(low) && SortedBy(high, IdOf) && DistinctIds(high)
    requires (forall s :: s in low ==> s.id <= max) && forall k :: 0 <= k < |high| ==> high[k].id > max
    ensures SortedBy(low + high, IdOf) && DistinctIds(low + high)
  {
    var all := low + high;
    forall i, j | 0 <= i < j < |all| ensures IdOf(all[i]) <= IdOf(all[j]) && IdOf(all[i]) != IdOf(all[j]) {
      if i < |low| { assert low[i] in low; }
      if j < |low| { assert IdOf(low[i]) <= IdOf(low[j]) && IdOf(low[i]) != IdOf(low[j]); }
      if i >= |low| {
        assert IdOf(high[i - |low|]) <= IdOf(high[j - |low|]) && IdOf(high[i - |low|]) != IdOf(high[j - |low|]);
      }
    }
  }

  lemma SortedUnchanged(steps: seq<PlanStep>, sorted: seq<PlanStep>)
    requires multiset(steps) == multiset(sorted) && SortedBy(sorted, IdOf) && DistinctIds(sorted)
    ensures SortById(steps) == sorted
  {
    SortByUnique(sorted, steps, IdOf);
    SortByIdentity(sorted, IdOf);
  }

  lemma RenumberedAt(steps: seq<PlanStep>, k: nat)
    requires DistinctIds(steps) && k < |steps|
    ensures |SortById(steps)| == |steps| == |RenumberedSteps(steps)|
    ensures var s, r := SortById(steps)[k], RenumberedSteps(steps)[k];
            r.id == k + 1 && r.task == s.task && r.toolHint == s.toolHint
  {
    RenumberDistinct(steps, k);
  }

  /** The repaired plan: numbered 1..n, each step from its place in the layout. */
  lemma RepairedLayout(v: View, newSteps: seq<PlanStep>, registry: set<string>, k: nat)
    requires SoundPrior(v, registry) && k < |Layout(v, newSteps)|
    ensures var r := RepairedSteps(Applied(v, newSteps));
            && |r| == |Layout(v, newSteps)| && r[k].id == k + 1
            && r[k].task == Layout(v, newSteps)[k].task && r[k].toolHint == Layout(v, newSteps)[k].toolHint
  {
    hide SoundPrior, Applied, Layout, SortById, RenumberedSteps, Deduped, DistinctIds;
    RepairLaysOut(v, newSteps, registry);
    SortedByIdFacts(Deduped(Applied(v, newSteps)));
    RenumberedAt(Deduped(Applied(v, newSteps)), k);
  }

  lemma RepairedSize(v: View, newSteps: seq<PlanStep>, registry: set<string>)
    requires SoundPrior(v, registry)
    ensures |RepairedSteps(Applied(v, newSteps))| == |Layout(v, newSteps)|
  {
    hide SoundPrior, Applied, Layout, SortById, RenumberedSteps, Deduped;
    RepairLaysOut(v, newSteps, registry);
    SortedByIdFacts(Deduped(Applied(v, newSteps)));
    RenumberedLength(Deduped(Applied(v, newSteps)));
  }

  /** What place k + 1 holds in the end: the finished step with that id, if there is one, else the step laid out
      there. */
  function Holder(v: View, newSteps: seq<PlanStep>, k: nat): PlanStep
    requires k < |Layout(v, newSteps)|
  {
    if k + 1 in CompletedSnapshot(v) then CompletedSnapshot(v)[k + 1] else Layout(v, newSteps)[k]
  }

  lemma RestoredLayout(v: View, newSteps: seq<PlanStep>, registry: set<string>, k: nat)
    requires SoundPrior(v, registry) && k < |Layout(v, newSteps)|
    ensures var r := RestoredSteps(RepairedSteps(Applied(v, newSteps)), CompletedSnapshot(v));
            && |r| == |Layout(v, newSteps)| && r[k].id == k + 1
            && r[k].task == Holder(v, newSteps, k).task && r[k].toolHint == Holder(v, newSteps, k).toolHint
  {
    hide SoundPrior, FinishedIds, Prepared, Layout, Applied, WellFormed, Usable, RepairedSteps, StepsById;
    var repaired, before := RepairedSteps(Applied(v, newSteps)), CompletedSnapshot(v);
    RepairedLayout(v, newSteps, registry, k);
    RepairedIsValid(v, newSteps, registry);
    SnapshotIds(v);
    FirstOfDistinct(repaired, k);
    RestoredAt(repaired, before, k);
  }

  lemma SnapshotKeys(v: View, registry: set<string>)
    requires SoundPrior(v, registry)
    ensures CompletedSnapshot(v).Keys == FinishedIds(v)
    ensures forall id :: id in CompletedSnapshot(v) ==> CompletedSnapshot(v)[id] in Kept(v)
  {
    var finished := FinishedIds(v);
    forall id | id in finished ensures id in CompletedSnapshot(v) {
      assert id in IdSet(v.plan.steps);
      var s :| s in v.plan.steps && s.id == id;
    }
  }

  // ------------------------------------------------ when an answer is applied

  /** Every finished id beyond the end of the repaired plan leaves its task at some place of it. */
  ghost predicate FarTasksSurvive(v: View, newSteps: seq<PlanStep>) {
    var n, before := |Layout(v, newSteps)|, CompletedSnapshot(v);
    forall id :: id in before && id > n ==>
      exists k :: 0 <= k < n && Holder(v, newSteps, k).task == before[id].task
  }

  lemma ContiguousAt(steps: seq<PlanStep>, id: int)
    requires ContiguousIds(steps)
    ensures 1 <= id <= |steps| <==> exists i :: 0 <= i < |steps| && steps[i].id == id
  {
    ContiguousCovers(steps);
    if 1 <= id <= |steps| {
      assert id in IdSet(steps);
      var s :| s in steps && s.id == id;
      var i :| 0 <= i < |steps| && steps[i] == s;
    }
    if i :| 0 <= i < |steps| && steps[i].id == id { assert steps[i] in steps; }
  }

  lemma FirstOfDistinct(steps: seq<PlanStep>, i: nat)
    requires DistinctIds(steps) && i < |steps|
    ensures FirstWithId(steps, i)
  {
    forall j | 0 <= j < i ensures steps[j].id != steps[i].id { assert IdOf(steps[j]) != IdOf(steps[i]); }
  }

  /** After restoring, the preservation check can only trip over ids beyond the end of the plan. */
  lemma RestoredPreserves(steps: seq<PlanStep>, before: map<int, PlanStep>)
    requires ContiguousIds(steps) && forall id :: id in before ==> before[id].id == id && id >= 1
    ensures CompletedPreserved(RestoredSteps(steps, before), before) <==>
            forall id :: id in before && id > |steps| ==>
              exists s :: s in RestoredSteps(steps, before) && s.task == before[id].task
  {
    hide ContiguousIds;
    var r := RestoredSteps(steps, before);
    RestoredIds(steps, before);
    forall id | id in before
      ensures StepPreserved(r, before[id]) <==> id <= |steps| || exists s :: s in r && s.task == before[id].task
    {
      RestoredPreservesAt(steps, before, id);
    }
  }

  lemma RestoredPreservesAt(steps: seq<PlanStep>, before: map<int, PlanStep>, id: int)
    requires ContiguousIds(steps) && id in before && id >= 1 && forall x :: x in before ==> before[x].id == x
    ensures var r := RestoredSteps(steps, before);
            StepPreserved(r, before[id]) <==> id <= |steps| || exists s :: s in r && s.task == before[id].task
  {
    var r := RestoredSteps(steps, before);
    RestoredIds(steps, before);
    ContiguousAt(steps, id);
    if id <= |steps| {
      var i :| 0 <= i < |steps| && steps[i].id == id;
      FirstOfDistinct(steps, i);
      RestoredAt(steps, before, i);
      assert r[i] in r;
      FindDistinct(r, r[i]);
    } else {
      assert id !in IdSet(r);
    }
  }

  lemma FarTasksAreFound(v: View, newSteps: seq<PlanStep>, registry: set<string>)
    requires SoundPrior(v, registry)
    ensures CompletedPreserved(
              RestoredSteps(RepairedSteps(Applied(v, newSteps)), CompletedSnapshot(v)), CompletedSnapshot(v)) <==>
            FarTasksSurvive(v, newSteps)
  {
    hide SoundPrior, FinishedIds, Layout, Applied, RepairedSteps, RestoredSteps, StepsById, CompletedPreserved,
         ContiguousIds, Usable, WellFormed, Holder;
    var repaired, before := RepairedSteps(Applied(v, newSteps)), CompletedSnapshot(v);
    var r, n := RestoredSteps(repaired, before), |Layout(v, newSteps)|;
    RepairedIsValid(v, newSteps, registry);
    RepairedSize(v, newSteps, registry);
    SnapshotIds(v);
    SnapshotPositive(v, registry);
    RestoredPreserves(repaired, before);
    RestoredSize(repaired, before);
    forall k | 0 <= k < n ensures r[k].task == Holder(v, newSteps, k).task {
      RestoredLayout(v, newSteps, registry, k);
    }
    forall id | id in before
      ensures (exists s :: s in r && s.task == before[id].task) <==>
              exists k :: 0 <= k < n && Holder(v, newSteps, k).task == before[id].task
    {
      if s :| s in r && s.task == before[id].task {
        var k :| 0 <= k < |r| && r[k] == s;
        assert Holder(v, newSteps, k).task == before[id].task;
      }
      if k :| 0 <= k < n && Holder(v, newSteps, k).task == before[id].task {
        assert r[k] in r;
      }
    }
  }

  lemma RestoredSize(steps: seq<PlanStep>, before: map<int, PlanStep>)
    ensures |RestoredSteps(steps, before)| == |steps|
  {
  }

  /** What a caller can check before an attempt. */
  ghost predicate Applies(v: View, newSteps: seq<PlanStep>, registry: set<string>) {
    Usable(v, newSteps, registry) && (FitsAtOnce(v, newSteps) || FarTasksSurvive(v, newSteps))
  }

  /** From a sound state an attempt is applied if and only if the answer is usable and either fits as it is or, laid out
      by repair, loses the task of no finished step. */
  lemma AppliedIff(v: View, newSteps: seq<PlanStep>, registry: set<string>)
    requires SoundPrior(v, registry)
    ensures TryApply(v, newSteps, CompletedSnapshot(v), registry).applied <==> Applies(v, newSteps, registry)
  {
    hide AllErrors, Usable, Applied, WellFormed, StepsById, FinishedIds, CompletedPreserved, RepairedSteps,
         RestoredSteps, FitsAtOnce, FarTasksSurvive;
    AtOnceIff(v, newSteps, registry);
    AppliedPlan(v, newSteps);
    if AllErrors(Plan(v.plan.goal, Applied(v, newSteps)), registry) == [] {
      ValidatedApplySucceeds(v, newSteps, registry);
    } else {
      AppliedAfterRepair(v, newSteps, registry);
    }
  }

  lemma AppliedAfterRepair(v: View, newSteps: seq<PlanStep>, registry: set<string>)
    requires SoundPrior(v, registry)
    requires AllErrors(Plan(v.plan.goal, Applied(v, newSteps)), registry) != []
    ensures TryApply(v, newSteps, CompletedSnapshot(v), registry).applied <==>
            Usable(v, newSteps, registry) && FarTasksSurvive(v, newSteps)
  {
    hide AllErrors, Usable, Applied, WellFormed, StepsById, FinishedIds, CompletedPreserved, RepairedSteps,
         RestoredSteps, ApplyReplanned, RepairNotes, RenumberMap, RemapStatus, SoundPrior, FarTasksSurvive;
    var w := ApplyReplanned(v, Prepared(newSteps));
    AppliedPlan(v, newSteps);
    RepairedIsValid(v, newSteps, registry);
    SuccessIffWellFormed(RepairOf(w.plan).plan, registry);
    if Usable(v, newSteps, registry) { InvalidIsRepaired(v, newSteps, registry); }
    RepairedGoal(w, v.status);
    FarTasksAreFound(v, newSteps, registry);
  }

  /** An unusable answer is never applied, whatever is finished. */
  lemma UnusableFails(v: View, newSteps: seq<PlanStep>, registry: set<string>)
    requires SoundPrior(v, registry) && !Usable(v, newSteps, registry)
    ensures !TryApply(v, newSteps, CompletedSnapshot(v), registry).applied
  {
    hide SoundPrior, TryApply, Usable;
    AppliedIff(v, newSteps, registry);
  }

  /** What a replan leaves is sound exactly when one of the two answers applies; both are known before
      the attempts. */
  lemma ReplanSoundIff(v: View, planned: seq<PlanStep>, fallback: seq<PlanStep>, registry: set<string>)
    requires SoundPrior(v, registry)
    ensures var r := ReplanOutcome(v, planned, fallback, registry);
            && (SoundPrior(r.view, registry) <==> Applies(v, planned, registry) || Applies(v, fallback, registry))
            && (SoundPrior(r.view, registry) <==> r.applied)
            && (!r.applied ==> r.view.plan != v.plan)
  {
    hide SoundPrior, TryApply, Applies;
    AppliedIff(v, planned, registry);
    AppliedIff(v, fallback, registry);
    ReplanSoundIffApplied(v, planned, fallback, registry);
  }

  /** With a finished prefix an attempt is applied if and only if the answer is usable, provided that the finished steps
      have distinct keys or the answer lists its steps in the order of their ids. */
  lemma PrefixAppliedIff(v: View, newSteps: seq<PlanStep>, registry: set<string>)
    requires SoundPrior(v, registry) && FinishedPrefix(v)
    requires DistinctStepKeys(Kept(v)) || SortedBy(newSteps, IdOf)
    ensures Applies(v, newSteps, registry) <==> Usable(v, newSteps, registry)
    ensures TryApply(v, newSteps, CompletedSnapshot(v), registry).applied <==> Usable(v, newSteps, registry)
  {
    hide SoundPrior, TryApply, Usable, FinishedIds, DependenciesFit, Settled, Kept, StepsById, DistinctStepKeys,
         Holder, FreshNumbered;
    AppliedIff(v, newSteps, registry);
    SnapshotKeys(v, registry);
    if DistinctStepKeys(Kept(v)) {
      SettledFacts(v, registry);
    } else {
      ListedInOrderFits(v, newSteps, registry);
    }
  }

  // ------------------------------------------------ finished steps with distinct tasks

  /** No two finished steps have the same task, apart from surrounding blanks. */
  ghost predicate DistinctTasks(v: View) {
    forall i, j :: 0 <= i < j < |Kept(v)| ==> Strip(Kept(v)[i].task) != Strip(Kept(v)[j].task)
  }

  /** The place a finished step moves to is a finished id, and no new step with its task keeps a place. */
  ghost predicate Overwritten(v: View, newSteps: seq<PlanStep>, i: nat)
    requires i < |Settled(v)|
  {
    var settled, added := Settled(v), Fresh(v, newSteps);
    i + 1 in FinishedIds(v) &&
    forall j :: 0 <= j < |added| && added[j].task == settled[i].task ==> |settled| + j + 1 in FinishedIds(v)
  }

  /** Some finished step whose id lies beyond the end of the repaired plan is overwritten where it moves to. */
  ghost predicate PushedOut(v: View, newSteps: seq<PlanStep>) {
    exists i :: 0 <= i < |Settled(v)| && Settled(v)[i].id > |Layout(v, newSteps)| && Overwritten(v, newSteps, i)
  }

  lemma TasksApart(v: View, a: PlanStep, b: PlanStep)
    requires DistinctTasks(v) && a in Kept(v) && b in Kept(v)
    ensures a.task == b.task ==> a == b
  {
    hide KeptSteps, FinishedIds, Strip;
    var i :| 0 <= i < |Kept(v)| && Kept(v)[i] == a;
    var j :| 0 <= j < |Kept(v)| && Kept(v)[j] == b;
    assert i == j || Strip(Kept(v)[i].task) != Strip(Kept(v)[j].task);
  }

  lemma DistinctTasksDistinctKeys(v: View)
    requires DistinctTasks(v)
    ensures DistinctStepKeys(Kept(v)) && Deduped(Kept(v)) == Kept(v)
  {
    hide KeptSteps, FinishedIds, Strip;
    forall i, j | 0 <= i < j < |Kept(v)| ensures KeyOf(Kept(v)[i]) != KeyOf(Kept(v)[j]) {
      assert Strip(Kept(v)[i].task) != Strip(Kept(v)[j].task);
    }
    DedupedIdentity(Kept(v));
  }

  /** Whether place k + 1 ends with the task of a finished step whose id is beyond the end. */
  lemma HolderTask(v: View, newSteps: seq<PlanStep>, registry: set<string>, i: nat, k: nat)
    requires SoundPrior(v, registry) && DistinctTasks(v) && i < |Settled(v)|
    requires k < |Layout(v, newSteps)| < Settled(v)[i].id
    ensures var m := |Settled(v)|;
            Holder(v, newSteps, k).task == Settled(v)[i].task <==>
            k + 1 !in FinishedIds(v) &&
            (k == i || (k >= m && k - m < |Fresh(v, newSteps)| && Fresh(v, newSteps)[k - m].task == Settled(v)[i].task))
  {
    hide SoundPrior, FinishedIds, DistinctTasks, Settled, StepsById, KeptSteps, DistinctIds, Fresh, FreshNumbered;
    SettledFacts(v, registry);
    SnapshotKeys(v, registry);
    SnapshotIds(v);
    FreshFacts(v, newSteps);
    var settled, from := Settled(v), Holder(v, newSteps, k);
    assert settled[i] in settled;
    if k + 1 in FinishedIds(v) {
      TasksApart(v, from, settled[i]);
    } else if k < |settled| {
      assert settled[k] in settled;
      TasksApart(v, from, settled[i]);
      SameStepSamePlace(settled, i, k);
    }
  }

  lemma SameStepSamePlace(steps: seq<PlanStep>, i: nat, k: nat)
    requires DistinctIds(steps) && i < |steps| && k < |steps|
    ensures steps[i] == steps[k] <==> i == k
  {
    assert i < k ==> IdOf(steps[i]) != IdOf(steps[k]);
    assert k < i ==> IdOf(steps[k]) != IdOf(steps[i]);
  }

  lemma SettledById(v: View, registry: set<string>)
    requires SoundPrior(v, registry) && DistinctTasks(v)
    ensures forall i :: 0 <= i < |Settled(v)| ==>
              Settled(v)[i].id in CompletedSnapshot(v) && CompletedSnapshot(v)[Settled(v)[i].id] == Settled(v)[i]
    ensures forall id :: id in CompletedSnapshot(v) ==>
              exists i :: 0 <= i < |Settled(v)| && Settled(v)[i] == CompletedSnapshot(v)[id]
  {
    hide SoundPrior, FinishedIds, DistinctTasks, StepsById, KeptSteps, SortById, Deduped;
    DistinctTasksDistinctKeys(v);
    SortedByIdFacts(Kept(v));
    KeptFacts(v, registry);
    SnapshotKeys(v, registry);
    var settled, before := Settled(v), CompletedSnapshot(v);
    forall i | 0 <= i < |settled| ensures settled[i].id in before && before[settled[i].id] == settled[i] {
      assert settled[i] in settled;
      assert settled[i].id in IdSet(Kept(v));
    }
    forall id | id in before ensures exists i :: 0 <= i < |settled| && settled[i] == before[id] {
      assert before[id] in settled;
    }
  }

  lemma FarTasksIff(v: View, newSteps: seq<PlanStep>, registry: set<string>)
    requires SoundPrior(v, registry) && DistinctTasks(v)
    ensures FarTasksSurvive(v, newSteps) <==> !PushedOut(v, newSteps)
  {
    hide SoundPrior, FinishedIds, DistinctTasks, Settled, StepsById, Layout, Holder, Overwritten;
    SettledById(v, registry);
    SnapshotIds(v);
    var settled, n := Settled(v), |Layout(v, newSteps)|;
    forall i | 0 <= i < |settled| && settled[i].id > n
      ensures (exists k :: 0 <= k < n && Holder(v, newSteps, k).task == settled[i].task) <==>
              !Overwritten(v, newSteps, i)
    {
      FarTaskIff(v, newSteps, registry, i);
    }
  }

  lemma FarTaskIff(v: View, newSteps: seq<PlanStep>, registry: set<string>, i: nat)
    requires SoundPrior(v, registry) && DistinctTasks(v)
    requires i < |Settled(v)| && Settled(v)[i].id > |Layout(v, newSteps)|
    ensures (exists k :: 0 <= k < |Layout(v, newSteps)| && Holder(v, newSteps, k).task == Settled(v)[i].task) <==>
            !Overwritten(v, newSteps, i)
  {
    hide SoundPrior, FinishedIds, DistinctTasks, Settled, StepsById, Fresh, FreshNumbered, Holder;
    FreshFacts(v, newSteps);
    var settled, added, n := Settled(v), Fresh(v, newSteps), |Layout(v, newSteps)|;
    if k :| 0 <= k < n && Holder(v, newSteps, k).task == settled[i].task {
      HolderTask(v, newSteps, registry, i, k);
      if k != i { assert added[k - |settled|].task == settled[i].task; }
    }
    if i + 1 !in FinishedIds(v) {
      HolderTask(v, newSteps, registry, i, i);
      assert Holder(v, newSteps, i).task == settled[i].task;
    }
    if j :| 0 <= j < |added| && added[j].task == settled[i].task && |settled| + j + 1 !in FinishedIds(v) {
      HolderTask(v, newSteps, registry, i, |settled| + j);
      assert Holder(v, newSteps, |settled| + j).task == settled[i].task;
    }
  }

  /** For finished steps with distinct tasks: an attempt is applied if and only if the answer is usable and no finished
      step is pushed out. */
  lemma DistinctTasksAppliedIff(v: View, newSteps: seq<PlanStep>, registry: set<string>)
    requires SoundPrior(v, registry) && DistinctTasks(v)
    ensures Applies(v, newSteps, registry) <==> Usable(v, newSteps, registry) && !PushedOut(v, newSteps)
    ensures TryApply(v, newSteps, CompletedSnapshot(v), registry).applied <==>
            Usable(v, newSteps, registry) && !PushedOut(v, newSteps)
  {
    hide SoundPrior, FinishedIds, DistinctTasks, FarTasksSurvive, Usable, TryApply, DependenciesFit, Settled, Fresh,
         StepsById, DistinctStepKeys, Overwritten;
    AppliedIff(v, newSteps, registry);
    FarTasksIff(v, newSteps, registry);
    if FitsAtOnce(v, newSteps) {
      DistinctTasksDistinctKeys(v);
      SettledFacts(v, registry);
      forall i | 0 <= i < |Settled(v)| ensures Settled(v)[i].id <= |Settled(v)| { assert Settled(v)[i] in Settled(v); }
    }
  }
}
