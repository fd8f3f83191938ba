/** Plan progress kept in mutable dictionaries and lists, with snapshots and id remapping (plan/state.py). */
module PlanStateModel {
  import opened Sequences
  import opened PlanSchema
  import opened PlanRepair

  // --------------------------------------------------- ascending traversal

  /** The members of a finite set of ids in ascending order. */
  function Ascending(s: set<int>): (r: seq<int>) {
    if s == {} then [] else [Least(s)] + Ascending(s - {Least(s)})
  }

  function Least(s: set<int>): (least: int)
    requires s != {}
    ensures least in s && forall x :: x in s ==> least <= x
  {
    HasLeast(s);
    var least :| least in s && forall x :: x in s ==> least <= x;
    least
  }

  lemma {:induction false} AscendingFacts(s: set<int>)
    ensures forall x :: x in Ascending(s) <==> x in s
    ensures forall i, j :: 0 <= i < j < |Ascending(s)| ==> Ascending(s)[i] < Ascending(s)[j]
  {
    if s != {} {
      AscendingFacts(s - {Least(s)});
      LeastFirst(Least(s), Ascending(s - {Least(s)}), s);
    }
  }

  lemma LeastFirst(least: int, rest: seq<int>, s: set<int>)
    requires least in s && (forall x :: x in s ==> least <= x) && forall x :: x in rest <==> x in s - {least}
    requires forall i, j :: 0 <= i < j < |rest| ==> rest[i] < rest[j]
    ensures forall x :: x in [least] + rest <==> x in s
    ensures forall i, j :: 0 <= i < j < |[least] + rest| ==> ([least] + rest)[i] < ([least] + rest)[j]
  {
    assert forall i :: 0 <= i < |rest| ==> rest[i] in rest;
  }

  lemma {:induction false} HasLeast(s: set<int>)
    requires s != {}
    ensures exists least :: least in s && forall x :: x in s ==> least <= x
  {
    NonEmpty(s);
    var x :| x in s;
    if s != {x} {
      assert (forall y :: y in s <==> y == x) ==> s == {x};
      HasLeast(s - {x});
      var m :| m in s - {x} && forall y :: y in s - {x} ==> m <= y;
      var least := if m <= x then m else x;
      assert forall y :: y in s ==> y in s - {x} || y == x;
      assert least in s && forall y :: y in s ==> least <= y;
    }
  }

  /** `max(ids) if ids else 0`. */
  function MaxOrZero(s: set<int>): (m: int)
    ensures s == {} ==> m == 0
    ensures s != {} ==> m in s && forall x :: x in s ==> x <= m
  {
    var r := Ascending(s);
    AscendingFacts(s);
    assert s != {} ==> r != [];
    if r == [] then 0 else assert r[|r| - 1] in r; r[|r| - 1]
  }

  // --------------------------------------------------- the state as a value

  datatype View = View(
    plan: Plan, status: map<int, StepStatus>, results: map<int, StepResult>, completed: seq<int>,
    trace: seq<TraceEntry>, current: Option<int>)

  /** Every step of the plan has a status, so no status lookup raises. */
  ghost predicate Covered(v: View) {
    forall s :: s in v.plan.steps ==> s.id in v.status
  }

  /** The status dictionary is about exactly the steps of the plan. */
  ghost predicate Consistent(v: View) {
    v.status.Keys == IdSet(v.plan.steps)
  }

  function FinishedIds(v: View): set<int> {
    set id | id in v.status && Finished(v.status[id])
  }

  function WithStatus(v: View, id: int, st: StepStatus): View {
    v.(status := v.status[id := st],
       completed := if st == Completed && id !in v.completed then v.completed + [id] else v.completed)
  }

  function WithResult(v: View, r: StepResult): View {
    WithStatus(v.(results := v.results[r.stepId := r]), r.stepId, r.status)
  }

  /** list.remove: drop the first occurrence. */
  function RemoveFirst(xs: seq<int>, x: int): seq<int> {
    if xs == [] then [] else if xs[0] == x then xs[1..] else [xs[0]] + RemoveFirst(xs[1..], x)
  }

  function ResetForRetry(v: View, id: int): View {
    v.(status := v.status[id := Pending], results := v.results - {id}, completed := RemoveFirst(v.completed, id))
  }

  function KeptSteps(steps: seq<PlanStep>, finished: set<int>): seq<PlanStep> {
    Filter((s: PlanStep) => s.id in finished, steps)
  }

  /** New steps take the ids after the largest finished id, by position; their dependencies are not remapped. */
  function NumberAfter(newSteps: seq<PlanStep>, maxId: int): (r: seq<PlanStep>)
    ensures |r| == |newSteps|
  {
    seq(|newSteps|, i requires 0 <= i < |newSteps| =>
      PlanStep(maxId + i + 1, newSteps[i].task, newSteps[i].toolHint, OrNone(newSteps[i].Deps())))
  }

  function AllPending(ids: set<int>): map<int, StepStatus> {
    map id | id in ids :: Pending
  }

  function RemovedIds(steps: seq<PlanStep>, finished: set<int>): set<int> {
    set s | s in steps && s.id !in finished :: s.id
  }

  function ApplyReplanned(v: View, newSteps: seq<PlanStep>): View {
    var finished := FinishedIds(v);
    var remapped := NumberAfter(newSteps, MaxOrZero(finished));
    var removed := RemovedIds(v.plan.steps, finished);
    v.(plan := Plan(v.plan.goal, KeptSteps(v.plan.steps, finished) + remapped),
       status := (v.status - removed) + AllPending(IdSet(remapped)),
       results := v.results - removed)
  }

  predicate SameStep(a: PlanStep, b: PlanStep) {
    a.task == b.task && a.toolHint == b.toolHint && a.Deps() == b.Deps()
  }

  predicate FirstWithId(steps: seq<PlanStep>, i: nat)
    requires i < |steps|
  {
    forall j :: 0 <= j < i ==> steps[j].id != steps[i].id
  }

  predicate Restorable(steps: seq<PlanStep>, i: nat, snaps: map<int, PlanStep>)
    requires i < |steps|
  {
    steps[i].id in snaps && FirstWithId(steps, i) && !SameStep(steps[i], snaps[steps[i].id])
  }

  /** The first step of every snapshotted id is put back when it differs; everything else stays. */
  function RestoredSteps(steps: seq<PlanStep>, snaps: map<int, PlanStep>): seq<PlanStep> {
    seq(|steps|, i requires 0 <= i < |steps| =>
      if Restorable(steps, i, snaps) then snaps[steps[i].id] else steps[i])
  }

  // -------------------------------------------------- remapping by pop/assign

  function PopAssign<T>(m: map<int, T>, k: int, to: int, touch: (T, int) -> T): map<int, T> {
    if k in m then (m - {k})[to := touch(m[k], to)] else m
  }

  /** The loop of `remap_step_status`: one in-place pop and assignment per entry, in ascending key order. */
  function RenameAll<T>(m: map<int, T>, keys: seq<int>, idMap: map<int, int>, touch: (T, int) -> T): map<int, T>
    requires forall k :: k in keys ==> k in idMap
  {
    if keys == [] then m
    else
      var k := keys[|keys| - 1];
      PopAssign(RenameAll(m, keys[..|keys| - 1], idMap, touch), k, idMap[k], touch)
  }

  lemma RenameSnoc<T>(m: map<int, T>, keys: seq<int>, i: nat, idMap: map<int, int>, touch: (T, int) -> T)
    requires i < |keys| && forall k :: k in keys ==> k in idMap
    ensures RenameAll(m, keys[..i + 1], idMap, touch) ==
            PopAssign(RenameAll(m, keys[..i], idMap, touch), keys[i], idMap[keys[i]], touch)
  {
    assert keys[..i + 1][..i] == keys[..i];
  }

  function SameStatus(st: StepStatus, id: int): StepStatus { st }

  /** A moved result record carries its new id. */
  function SetStepId(r: StepResult, id: int): StepResult { r.(stepId := id) }

  function CompletedIds(status: map<int, StepStatus>): set<int> {
    set id | id in status && status[id] == Completed
  }

  function Restrict<T>(m: map<int, T>, ids: set<int>): map<int, T> {
    map k | k in m && k in ids :: m[k]
  }

  function RemapStatus(v: View, idMap: map<int, int>): View {
    if idMap == map[] then v
    else
      var ids := IdSet(v.plan.steps);
      var keys := Ascending(idMap.Keys);
      AscendingFacts(idMap.Keys);
      var status := AllPending(ids) + Restrict(RenameAll(v.status, keys, idMap, SameStatus), ids);
      v.(status := status,
         results := Restrict(RenameAll(v.results, keys, idMap, SetStepId), ids),
         completed := Ascending(CompletedIds(status)))
  }

  /** What `renumber_steps` guarantees about its map over distinct positive ids: order-preserving, and never upwards. */
  ghost predicate Compressing(idMap: map<int, int>) {
    && (forall k :: k in idMap ==> 1 <= idMap[k] <= k)
    && (forall j, k :: j in idMap && k in idMap && j < k ==> idMap[j] < idMap[k])
  }

  lemma IdMapMonotone(sorted: seq<PlanStep>, j: int, k: int)
    requires SortedBy(sorted, IdOf) && j in IdMapOf(sorted) && k in IdMapOf(sorted) && j < k
    ensures IdMapOf(sorted)[j] < IdMapOf(sorted)[k]
  {
    IdMapValue(sorted, j);
    IdMapValue(sorted, k);
    var a, b := IdMapOf(sorted)[j] - 1, IdMapOf(sorted)[k] - 1;
    assert b < a ==> IdOf(sorted[b]) <= IdOf(sorted[a]);
  }

  lemma RenumberCompresses(steps: seq<PlanStep>)
    requires DistinctIds(steps) && forall s :: s in steps ==> s.id >= 1
    ensures Compressing(RenumberMap(steps))
  {
    hide SortBy, IdMapOf;
    var sorted, m := SortById(steps), RenumberMap(steps);
    SortedByIdFacts(steps);
    forall k | k in m ensures 1 <= m[k] <= k {
      IdMapValue(sorted, k);
      IdAtLeastPosition(sorted, m[k] - 1);
    }
    forall j, k | j in m && k in m && j < k ensures m[j] < m[k] {
      IdMapMonotone(sorted, j, k);
    }
  }

  lemma {:induction false} IdAtLeastPosition(sorted: seq<PlanStep>, i: nat)
    requires SortedBy(sorted, IdOf) && DistinctIds(sorted) && i < |sorted|
    requires forall s :: s in sorted ==> s.id >= 1
    ensures sorted[i].id >= i + 1
  {
    assert sorted[i] in sorted;
    if i > 0 {
      IdAtLeastPosition(sorted, i - 1);
      assert IdOf(sorted[i - 1]) <= IdOf(sorted[i]) && IdOf(sorted[i - 1]) != IdOf(sorted[i]);
    }
  }

  /** Some processed key with an entry is renamed to x. */
  ghost predicate Image<T>(m: map<int, T>, keys: seq<int>, idMap: map<int, int>, x: int) {
    exists k :: k in keys && k in idMap && k in m && idMap[k] == x
  }

  ghost predicate AscendingKeys(keys: seq<int>, idMap: map<int, int>) {
    (forall k :: k in keys ==> k in idMap) && forall i, j :: 0 <= i < j < |keys| ==> keys[i] < keys[j]
  }

  /** Images of smaller keys never reach the next key to be processed. */
  lemma NoImageAhead<T>(m: map<int, T>, front: seq<int>, idMap: map<int, int>, k: int)
    requires Compressing(idMap) && AscendingKeys(front + [k], idMap)
    ensures AscendingKeys(front, idMap) && k in idMap && k !in front
    ensures !Image(m, front, idMap, k)
    ensures forall j :: j in front ==> idMap[j] < k && idMap[j] < idMap[k]
  {
    var keys := front + [k];
    assert keys[|front|] == k && k in keys;
    assert forall i :: 0 <= i < |front| ==> keys[i] == front[i];
    forall j | j in front ensures j in idMap && j < k {
      var i :| 0 <= i < |front| && front[i] == j;
      assert keys[i] in keys && keys[i] < keys[|front|];
    }
  }

  /** An id that no entry is renamed to keeps its entry exactly when it is not itself renamed away. */
  lemma {:induction false} RenameKeeps<T>(
    m: map<int, T>, keys: seq<int>, idMap: map<int, int>, touch: (T, int) -> T, x: int)
    requires Compressing(idMap) && AscendingKeys(keys, idMap) && !Image(m, keys, idMap, x)
    ensures var r := RenameAll(m, keys, idMap, touch);
            && (x in r <==> x in m && x !in keys)
            && (x in r ==> r[x] == m[x])
  {
    if keys != [] {
      var n := |keys| - 1;
      var front, k := keys[..n], keys[n];
      assert keys == front + [k];
      NoImageAhead(m, front, idMap, k);
      assert !Image(m, front, idMap, x);
      RenameKeeps(m, front, idMap, touch, x);
      RenameKeeps(m, front, idMap, touch, k);
      if k in m { assert k in keys && idMap[k] != x; }
    }
  }

  /** The sequential in-place loop equals a simultaneous renaming: every entry arrives, none is clobbered on the way. */
  lemma {:induction false} RenameMoves<T>(
    m: map<int, T>, keys: seq<int>, idMap: map<int, int>, touch: (T, int) -> T, k: int)
    requires Compressing(idMap) && AscendingKeys(keys, idMap) && k in keys && k in m
    ensures var r := RenameAll(m, keys, idMap, touch);
            idMap[k] in r && r[idMap[k]] == touch(m[k], idMap[k])
  {
    var n := |keys| - 1;
    var front, last := keys[..n], keys[n];
    assert keys == front + [last];
    NoImageAhead(m, front, idMap, last);
    if k == last {
      RenameKeeps(m, front, idMap, touch, k);
    } else {
      RenameMoves(m, front, idMap, touch, k);
    }
  }

  function ImageIds(idMap: map<int, int>): set<int> {
    set k | k in idMap :: idMap[k]
  }

  lemma RemapMovesStatuses(v: View, idMap: map<int, int>)
    requires Compressing(idMap) && idMap != map[]
    requires IdSet(v.plan.steps) == ImageIds(idMap)
    requires idMap.Keys <= v.status.Keys
    ensures var w := RemapStatus(v, idMap);
            Consistent(w) && forall k :: k in idMap ==> idMap[k] in w.status && w.status[idMap[k]] == v.status[k]
  {
    hide RenameAll, Ascending, IdSet, Compressing, CompletedIds;
    RemappedStatus(v, idMap);
    assert forall k :: k in idMap ==> idMap[k] in ImageIds(idMap);
    forall k | k in idMap ensures k in v.status && RemapStatus(v, idMap).status[idMap[k]] == v.status[k] {
      StatusMoves(v.status, idMap, k);
    }
  }

  lemma RemappedStatus(v: View, idMap: map<int, int>)
    requires idMap != map[]
    ensures (forall k :: k in Ascending(idMap.Keys) ==> k in idMap)
    ensures var ids, renamed := IdSet(v.plan.steps), RenameAll(v.status, Ascending(idMap.Keys), idMap, SameStatus);
            && RemapStatus(v, idMap).status == AllPending(ids) + Restrict(renamed, ids)
            && RemapStatus(v, idMap).plan == v.plan
            && RemapStatus(v, idMap).status.Keys == ids
            && forall id :: id in ids && id in renamed ==> RemapStatus(v, idMap).status[id] == renamed[id]
  {
    hide RenameAll, Ascending, IdSet;
    AscendingFacts(idMap.Keys);
  }

  lemma StatusMoves(status: map<int, StepStatus>, idMap: map<int, int>, k: int)
    requires Compressing(idMap) && k in idMap && k in status
    ensures (forall j :: j in Ascending(idMap.Keys) ==> j in idMap)
    ensures var renamed := RenameAll(status, Ascending(idMap.Keys), idMap, SameStatus);
            idMap[k] in renamed && renamed[idMap[k]] == status[k]
  {
    AscendingFacts(idMap.Keys);
    RenameMoves(status, Ascending(idMap.Keys), idMap, SameStatus, k);
  }

  /** When the plan has just been renumbered by idMap and every renumbered id had a status: statuses move with their
      steps, the status domain becomes exactly the plan's ids, and completed_steps is exactly the COMPLETED ids. */
  lemma RemapKeepsStatuses(v: View, idMap: map<int, int>)
    requires Compressing(idMap) && idMap != map[]
    requires IdSet(v.plan.steps) == ImageIds(idMap)
    requires idMap.Keys <= v.status.Keys
    ensures var w := RemapStatus(v, idMap);
            && Consistent(w)
            && (forall k :: k in idMap ==> idMap[k] in w.status && w.status[idMap[k]] == v.status[k])
            && (forall id :: id in w.completed <==> id in w.status && w.status[id] == Completed)
  {
    RemapMovesStatuses(v, idMap);
    AscendingFacts(CompletedIds(RemapStatus(v, idMap).status));
  }

  /** Every result moves with its step. A renumbered step that had no result ends with one exactly when its new id is
      the id of a dropped step that left a result behind, and then with that result. */
  lemma RemapMovesResults(v: View, idMap: map<int, int>, k: int)
    requires Compressing(idMap) && k in idMap && idMap[k] in IdSet(v.plan.steps)
    ensures var w := RemapStatus(v, idMap);
            && (k in v.results ==> idMap[k] in w.results && w.results[idMap[k]] == v.results[k].(stepId := idMap[k]))
            && (k !in v.results ==> (idMap[k] in w.results <==> idMap[k] in v.results && idMap[k] !in idMap))
            && (k !in v.results && idMap[k] in w.results ==> w.results[idMap[k]] == v.results[idMap[k]])
  {
    var keys := Ascending(idMap.Keys);
    AscendingFacts(idMap.Keys);
    if k in v.results {
      RenameMoves(v.results, keys, idMap, SetStepId, k);
    } else {
      forall j | j in keys && j in idMap && j in v.results ensures idMap[j] != idMap[k] {
      }
      RenameKeeps(v.results, keys, idMap, SetStepId, idMap[k]);
    }
  }

  /** The failing case: of ids 1, 3, 4, 5 the duplicate 3 was dropped and left its result behind. Step 5, which had
      none, becomes step 3 and inherits it. */
  lemma InheritedResult(v: View, first: StepResult, third: StepResult)
    requires IdSet(v.plan.steps) == {1, 2, 3} && v.results == map[1 := first, 3 := third]
    ensures var idMap := map[1 := 1, 4 := 2, 5 := 3]; var w := RemapStatus(v, idMap);
            Compressing(idMap) && 5 !in v.results && 3 in w.results && w.results[3] == third
  {
    var idMap := map[1 := 1, 4 := 2, 5 := 3];
    RemapMovesResults(v, idMap, 5);
  }

  // --------------------------------------------------------------- the class

  /** The loop of `apply_replanned_steps` that numbers the new steps by position. */
  method NumberSteps(newSteps: seq<PlanStep>, maxId: int) returns (remapped: seq<PlanStep>)
    ensures remapped == NumberAfter(newSteps, maxId)
  {
    remapped := [];
    for index := 0 to |newSteps|
      invariant remapped == NumberAfter(newSteps, maxId)[..index]
    {
      var step := newSteps[index];
      remapped := remapped + [PlanStep(maxId + index + 1, step.task, step.toolHint, OrNone(step.Deps()))];
    }
  }

  /** The loop of `remap_step_status` over the entries of the id map. */
  method RenameEntries(status: map<int, StepStatus>, results: map<int, StepResult>, idMap: map<int, int>)
    returns (newStatus: map<int, StepStatus>, newResults: map<int, StepResult>)
    ensures forall k :: k in Ascending(idMap.Keys) ==> k in idMap
    ensures newStatus == RenameAll(status, Ascending(idMap.Keys), idMap, SameStatus)
    ensures newResults == RenameAll(results, Ascending(idMap.Keys), idMap, SetStepId)
  {
    var keys := Ascending(idMap.Keys);
    AscendingFacts(idMap.Keys);
    newStatus, newResults := status, results;
    for i := 0 to |keys|
      invariant newStatus == RenameAll(status, keys[..i], idMap, SameStatus)
      invariant newResults == RenameAll(results, keys[..i], idMap, SetStepId)
    {
      RenameSnoc(status, keys, i, idMap, SameStatus);
      RenameSnoc(results, keys, i, idMap, SetStepId);
      var k := keys[i];
      if k in newStatus {
        newStatus := (newStatus - {k})[idMap[k] := newStatus[k]];
      }
      if k in newResults {
        newResults := (newResults - {k})[idMap[k] := newResults[k].(stepId := idMap[k])];
      }
    }
    assert keys[..|keys|] == keys;
  }

  class PlanObject {
    var goal: string
    var steps: seq<PlanStep>

    constructor (plan: Plan)
      ensures Value() == plan
    {
      goal, steps := plan.goal, plan.steps;
    }

    function Value(): Plan
      reads this
    {
      Plan(goal, steps)
    }
  }

  class StatusDict {
    var entries: map<int, StepStatus>

    constructor (m: map<int, StepStatus>)
      ensures entries == m
    {
      entries := m;
    }
  }

  class ResultDict {
    var entries: map<int, StepResult>

    constructor (m: map<int, StepResult>)
      ensures entries == m
    {
      entries := m;
    }
  }

  class IdList {
    var items: seq<int>

    constructor (xs: seq<int>)
      ensures items == xs
    {
      items := xs;
    }
  }

  class TraceList {
    var items: seq<TraceEntry>

    constructor (xs: seq<TraceEntry>)
      ensures items == xs
    {
      items := xs;
    }
  }

  /** The dictionary `snapshot_for_replan` returns: five separate objects. */
  datatype Snapshot = Snapshot(
    plan: PlanObject, status: StatusDict, results: ResultDict, completed: IdList, trace: TraceList)
  {
    function Objects(): set<object> {
      {plan, status, results, completed, trace}
    }
  }

  class PlanState {
    var plan: PlanObject
    var stepStatus: StatusDict
    var stepResults: ResultDict
    var completedSteps: IdList
    var executionTrace: TraceList
    var currentStep: Option<int>

    constructor (p: PlanObject)
      ensures plan == p && fresh(Repr() - {p})
      ensures Value() == View(p.Value(), AllPending(IdSet(p.steps)), map[], [], [], None)
      ensures Consistent(Value())
    {
      plan := p;
      stepStatus := new StatusDict(AllPending(IdSet(p.steps)));
      stepResults := new ResultDict(map[]);
      completedSteps := new IdList([]);
      executionTrace := new TraceList([]);
      currentStep := None;
    }

    function Repr(): set<object>
      reads this
    {
      {this, plan, stepStatus, stepResults, completedSteps, executionTrace}
    }

    function Value(): View
      reads Repr()
    {
      View(plan.Value(), stepStatus.entries, stepResults.entries, completedSteps.items,
           executionTrace.items, currentStep)
    }

    /** The containers currently installed, as a snapshot would list them. */
    function Containers(): Snapshot
      reads this
    {
      Snapshot(plan, stepStatus, stepResults, completedSteps, executionTrace)
    }

    method SetStepStatus(id: int, st: StepStatus)
      modifies stepStatus, completedSteps
      ensures Value() == WithStatus(old(Value()), id, st)
      ensures stepStatus.entries == old(stepStatus.entries)[id := st]
    {
      stepStatus.entries := stepStatus.entries[id := st];
      if st == Completed && id !in completedSteps.items {
        completedSteps.items := completedSteps.items + [id];
      }
    }

    method RecordStepResult(r: StepResult)
      modifies stepStatus, stepResults, completedSteps
      ensures Value() == WithResult(old(Value()), r)
      ensures stepStatus.entries == old(stepStatus.entries)[r.stepId := r.status]
      ensures stepResults.entries == old(stepResults.entries)[r.stepId := r]
    {
      stepResults.entries := stepResults.entries[r.stepId := r];
      SetStepStatus(r.stepId, r.status);
    }

    method AppendTrace(e: TraceEntry)
      modifies executionTrace
      ensures Value() == old(Value()).(trace := old(executionTrace.items) + [e])
    {
      executionTrace.items := executionTrace.items + [e];
    }

    method ResetStepForRetry(id: int)
      modifies stepStatus, stepResults, completedSteps
      ensures Value() == ResetForRetry(old(Value()), id)
      ensures stepStatus.entries == old(stepStatus.entries)[id := Pending]
    {
      stepStatus.entries := stepStatus.entries[id := Pending];
      stepResults.entries := stepResults.entries - {id};
      completedSteps.items := RemoveFirst(completedSteps.items, id);
    }

    /** Updates the plan object and the two dictionaries in place. */
    method ApplyReplannedSteps(newSteps: seq<PlanStep>)
      modifies plan, stepStatus, stepResults
      ensures Value() == ApplyReplanned(old(Value()), newSteps)
    {
      var finished := FinishedIds(Value());
      var kept := KeptSteps(plan.steps, finished);
      var remapped := NumberSteps(newSteps, MaxOrZero(finished));
      var removed := RemovedIds(plan.steps, finished);
      stepStatus.entries := stepStatus.entries - removed;
      stepResults.entries := stepResults.entries - removed;
      plan.steps := kept + remapped;
      stepStatus.entries := stepStatus.entries + AllPending(IdSet(remapped));
    }

    /** Puts back, in place, the steps of finished ids that a replan changed; returns the ids it restored. */
    method RestoreCompletedStepSnapshots(snaps: map<int, PlanStep>) returns (restored: set<int>)
      requires forall id :: id in snaps ==> snaps[id].id == id
      modifies plan
      ensures plan.goal == old(plan.goal)
      ensures plan.steps == RestoredSteps(old(plan.steps), snaps)
      ensures restored == {} <==> plan.steps == old(plan.steps)
    {
      restored := {};
      ghost var before, changed := plan.steps, 0;
      var todo := snaps.Keys;
      while todo != {}
        invariant todo <= snaps.Keys
        invariant plan.goal == old(plan.goal) && |plan.steps| == |before|
        invariant forall i :: 0 <= i < |before| ==>
          plan.steps[i] == (if Restorable(before, i, snaps) && before[i].id !in todo then snaps[before[i].id]
                            else before[i])
        invariant restored == {} ==> plan.steps == before
        invariant restored != {} ==>
                    changed < |before| && before[changed].id !in todo && plan.steps[changed] != before[changed]
        decreases todo
      {
        NonEmpty(todo);
        var id :| id in todo;
        todo := todo - {id};
        assert forall i :: 0 <= i < |before| ==> plan.steps[i].id == before[i].id;
        var index := 0;
        while index < |plan.steps| && plan.steps[index].id != id
          invariant 0 <= index <= |plan.steps|
          invariant forall j :: 0 <= j < index ==> plan.steps[j].id != id
        {
          index := index + 1;
        }
        if index < |plan.steps| && !SameStep(plan.steps[index], snaps[id]) {
          assert Restorable(before, index, snaps);
          changed := index;
          plan.steps := plan.steps[index := snaps[id]];
          restored := restored + {id};
        }
      }
    }

    /** Builds fresh dictionaries and a fresh list, renamed by idMap, and installs them. */
    method RemapStepStatus(idMap: map<int, int>)
      modifies this
      ensures Value() == RemapStatus(old(Value()), idMap)
      ensures plan == old(plan) && executionTrace == old(executionTrace) && currentStep == old(currentStep)
      ensures fresh(Repr() - old(Repr()))
    {
      if idMap == map[] {
        return;
      }
      var newStatus, newResults := RenameEntries(stepStatus.entries, stepResults.entries, idMap);
      var planIds := IdSet(plan.steps);
      newStatus := AllPending(planIds) + Restrict(newStatus, planIds);
      newResults := Restrict(newResults, planIds);
      stepStatus := new StatusDict(newStatus);
      stepResults := new ResultDict(newResults);
      completedSteps := new IdList(Ascending(CompletedIds(newStatus)));
    }

    /** Deep copies: none of the returned objects is one the state holds. */
    method SnapshotForReplan() returns (snapshot: Snapshot)
      ensures fresh(snapshot.Objects())
      ensures SnapshotValue(snapshot, currentStep) == Value()
    {
      var p := new PlanObject(plan.Value());
      var st := new StatusDict(stepStatus.entries);
      var rs := new ResultDict(stepResults.entries);
      var cs := new IdList(completedSteps.items);
      var tr := new TraceList(executionTrace.items);
      snapshot := Snapshot(p, st, rs, cs, tr);
    }

    /** Installs the snapshot's own objects, without copying them. */
    method RestoreSnapshot(snapshot: Snapshot)
      modifies this
      ensures Containers() == snapshot
      ensures currentStep == old(currentStep)
      ensures Value() == SnapshotValue(snapshot, currentStep)
    {
      plan, stepStatus, stepResults := snapshot.plan, snapshot.status, snapshot.results;
      completedSteps, executionTrace := snapshot.completed, snapshot.trace;
    }

    /** The smallest pending id whose first step has all its dependencies finished. */
    method NextExecutableStep() returns (next: Option<int>)
      requires Covered(Value())
      ensures next == NextExecutable(Value())
    {
      SortedByIdFacts(plan.steps);
      next := FirstReady(Value(), SortById(plan.steps));
    }
  }

  /** The loop of `next_executable_step` over the sorted steps. */
  method FirstReady(v: View, sorted: seq<PlanStep>) returns (next: Option<int>)
    requires forall s :: s in sorted ==> s.id in v.status
    ensures next == NextAmong(v, sorted)
  {
    for i := 0 to |sorted|
      invariant NextAmong(v, sorted[i..]) == NextAmong(v, sorted)
    {
      assert sorted[i..][0] == sorted[i] && sorted[i..][1..] == sorted[i + 1..];
      var id := sorted[i].id;
      assert sorted[i] in sorted;
      if v.status[id] == Pending && DependenciesMet(v, id) {
        return Some(id);
      }
    }
    next := None;
  }

  ghost function SnapshotValue(s: Snapshot, current: Option<int>): View
    reads s.Objects()
  {
    View(s.plan.Value(), s.status.entries, s.results.entries, s.completed.items, s.trace.items, current)
  }

  function FindStep(steps: seq<PlanStep>, id: int): (r: Option<PlanStep>)
    ensures r.Some? ==> r.value in steps && r.value.id == id
    ensures r.None? ==> forall s :: s in steps ==> s.id != id
  {
    if steps == [] then None else if steps[0].id == id then Some(steps[0]) else FindStep(steps[1..], id)
  }

  predicate DependenciesMet(v: View, id: int) {
    var step := FindStep(v.plan.steps, id);
    step.Some? && forall d :: d in step.value.Deps() ==> d in FinishedIds(v)
  }

  predicate IsReady(v: View, id: int) {
    id in v.status && v.status[id] == Pending && DependenciesMet(v, id)
  }

  function NextAmong(v: View, sorted: seq<PlanStep>): Option<int> {
    if sorted == [] then None
    else if IsReady(v, sorted[0].id) then Some(sorted[0].id)
    else NextAmong(v, sorted[1..])
  }

  function NextExecutable(v: View): Option<int> {
    NextAmong(v, SortById(v.plan.steps))
  }

  lemma {:induction false} NextAmongIsLeast(v: View, sorted: seq<PlanStep>)
    requires SortedBy(sorted, IdOf)
    ensures match NextAmong(v, sorted)
            case None => forall s :: s in sorted ==> !IsReady(v, s.id)
            case Some(id) =>
              IsReady(v, id) && id in IdSet(sorted) && forall s :: s in sorted && IsReady(v, s.id) ==> id <= s.id
  {
    if sorted != [] {
      var rest := sorted[1..];
      assert SortedBy(rest, IdOf) by {
        assert forall i :: 0 <= i < |rest| ==> rest[i] == sorted[i + 1];
      }
      NextAmongIsLeast(v, rest);
      assert forall s :: s in sorted <==> s == sorted[0] || s in rest;
      forall s | s in rest ensures sorted[0].id <= s.id {
        var i :| 0 <= i < |rest| && rest[i] == s;
        assert IdOf(sorted[0]) <= IdOf(sorted[i + 1]);
      }
    }
  }

  /** The smallest ready id of the plan, and none only when no step is ready. */
  lemma NextIsLeastReady(v: View)
    ensures match NextExecutable(v)
            case None => forall s :: s in v.plan.steps ==> !IsReady(v, s.id)
            case Some(id) =>
              IsReady(v, id) && id in IdSet(v.plan.steps) &&
              forall s :: s in v.plan.steps && IsReady(v, s.id) ==> id <= s.id
  {
    SortedByIdFacts(v.plan.steps);
    NextAmongIsLeast(v, SortById(v.plan.steps));
  }

  function UnfinishedIds(v: View): seq<int> {
    Ids(Filter((s: PlanStep) => s.id in v.status && !Finished(v.status[s.id]), v.plan.steps))
  }

  predicate AllStepsFinished(v: View) {
    forall s :: s in v.plan.steps ==> s.id in v.status && (Finished(v.status[s.id]) || v.status[s.id] == Failed)
  }
}
