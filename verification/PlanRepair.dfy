/** Plan normalisation and repair (plan/repair.py). */
module PlanRepair {
  import opened Sequences
  import opened PlanSchema
  import opened PlanValidation

  /** The two task patterns of the module, left uninterpreted. */
  datatype Patterns = Patterns(budget: string -> bool, synthesis: string -> bool)

  datatype Note =
    | Renumbered(idMap: map<int, int>)
    | DroppedUnknown(stepId: int, dep: int)
    | DroppedNonPrior(stepId: int, dep: int)
    | RemovedDuplicate(task: string, toolHint: Option<string>)
    | RemovedBudget(task: string)
    | ClearedHint(task: string, was: string)
    | ReorderedTools

  datatype RepairResult = RepairResult(plan: Plan, repaired: bool, notes: seq<Note>, idMap: map<int, int>)

  // ------------------------------------------------------------ renumbering

  function SortById(steps: seq<PlanStep>): seq<PlanStep> {
    SortBy(steps, IdOf)
  }

  /** `{step.id: index}` over the sorted steps, counting from 1; a repeated id keeps its last index. */
  function IdMapOf(sorted: seq<PlanStep>): (m: map<int, int>)
    ensures forall s :: s in sorted ==> s.id in m
  {
    if sorted == [] then map[]
    else
      var front, last := sorted[..|sorted| - 1], sorted[|sorted| - 1];
      assert sorted == front + [last];
      IdMapOf(front)[last.id := |sorted|]
  }

  function NewDeps(deps: seq<int>, idMap: map<int, int>, newId: int): seq<int> {
    if deps == [] then []
    else
      var dep := deps[|deps| - 1];
      NewDeps(deps[..|deps| - 1], idMap, newId) +
      (if dep in idMap && idMap[dep] < newId then [idMap[dep]] else [])
  }

  function DepNotes(s: PlanStep, deps: seq<int>, idMap: map<int, int>, newId: int): seq<Note> {
    if deps == [] then []
    else
      var dep := deps[|deps| - 1];
      DepNotes(s, deps[..|deps| - 1], idMap, newId) +
      (if dep !in idMap then [DroppedUnknown(s.id, dep)]
       else if idMap[dep] >= newId then [DroppedNonPrior(s.id, dep)] else [])
  }

  function OrNone(deps: seq<int>): Option<seq<int>> {
    if deps == [] then None else Some(deps)
  }

  function RemapStep(s: PlanStep, idMap: map<int, int>): PlanStep
    requires s.id in idMap
  {
    PlanStep(idMap[s.id], s.task, s.toolHint, OrNone(NewDeps(s.Deps(), idMap, idMap[s.id])))
  }

  function RemapAll(sorted: seq<PlanStep>, idMap: map<int, int>): (r: seq<PlanStep>)
    requires forall s :: s in sorted ==> s.id in idMap
    ensures |r| == |sorted|
  {
    seq(|sorted|, k requires 0 <= k < |sorted| => RemapStep(sorted[k], idMap))
  }

  function RenumberedSteps(steps: seq<PlanStep>): seq<PlanStep> {
    RemapAll(SortById(steps), IdMapOf(SortById(steps)))
  }

  function RenumberMap(steps: seq<PlanStep>): map<int, int> {
    IdMapOf(SortById(steps))
  }

  function RemapNotes(sorted: seq<PlanStep>, idMap: map<int, int>): seq<Note>
    requires forall s :: s in sorted ==> s.id in idMap
  {
    if sorted == [] then []
    else
      var last := sorted[|sorted| - 1];
      RemapNotes(sorted[..|sorted| - 1], idMap) + DepNotes(last, last.Deps(), idMap, idMap[last.id])
  }

  /** Keys in ascending order are 1..n exactly when the key set is {1..n}, and then the values are 1..n too. */
  predicate ChangesIds(idMap: map<int, int>, n: nat) {
    idMap.Keys != SetOf(Range(1, n + 1))
  }

  function RenumberNotes(steps: seq<PlanStep>): seq<Note> {
    var idMap := RenumberMap(steps);
    (if ChangesIds(idMap, |SortById(steps)|) then [Renumbered(idMap)] else []) + RemapNotes(SortById(steps), idMap)
  }

  lemma RemapSnoc(sorted: seq<PlanStep>, idMap: map<int, int>, i: nat)
    requires (forall s :: s in sorted ==> s.id in idMap) && i < |sorted|
    ensures RemapAll(sorted[..i + 1], idMap) == RemapAll(sorted[..i], idMap) + [RemapStep(sorted[i], idMap)]
    ensures RemapNotes(sorted[..i + 1], idMap) ==
            RemapNotes(sorted[..i], idMap) + DepNotes(sorted[i], sorted[i].Deps(), idMap, idMap[sorted[i].id])
  {
    assert sorted[..i + 1][..i] == sorted[..i];
  }

  method RenumberSteps(steps: seq<PlanStep>) returns (remapped: seq<PlanStep>, idMap: map<int, int>, notes: seq<Note>)
    ensures remapped == RenumberedSteps(steps)
    ensures idMap == RenumberMap(steps)
    ensures notes == RenumberNotes(steps)
  {
    var sorted := SortById(steps);
    idMap := IdMapOf(sorted);
    notes := [];
    if ChangesIds(idMap, |sorted|) {
      notes := [Renumbered(idMap)];
    }
    var dropped;
    remapped, dropped := RemapSteps(sorted, idMap);
    notes := notes + dropped;
  }

  /** The loop of `renumber_steps` that rebuilds every step with its new id and dependencies. */
  method RemapSteps(sorted: seq<PlanStep>, idMap: map<int, int>) returns (remapped: seq<PlanStep>, notes: seq<Note>)
    requires forall s :: s in sorted ==> s.id in idMap
    ensures remapped == RemapAll(sorted, idMap)
    ensures notes == RemapNotes(sorted, idMap)
  {
    remapped, notes := [], [];
    for i := 0 to |sorted|
      invariant remapped == RemapAll(sorted[..i], idMap)
      invariant notes == RemapNotes(sorted[..i], idMap)
    {
      RemapSnoc(sorted, idMap, i);
      var step := sorted[i];
      var newDeps, dropped := RemapDependencies(step, idMap);
      notes := notes + dropped;
      remapped := remapped + [PlanStep(idMap[step.id], step.task, step.toolHint, OrNone(newDeps))];
    }
    assert sorted[..|sorted|] == sorted;
  }

  /** The inner loop of `renumber_steps` over one step's dependencies. */
  method RemapDependencies(step: PlanStep, idMap: map<int, int>) returns (newDeps: seq<int>, notes: seq<Note>)
    requires step.id in idMap
    ensures newDeps == NewDeps(step.Deps(), idMap, idMap[step.id])
    ensures notes == DepNotes(step, step.Deps(), idMap, idMap[step.id])
  {
    var deps, newId := step.Deps(), idMap[step.id];
    newDeps, notes := [], [];
    for j := 0 to |deps|
      invariant newDeps == NewDeps(deps[..j], idMap, newId)
      invariant notes == DepNotes(step, deps[..j], idMap, newId)
    {
      assert deps[..j + 1][..j] == deps[..j];
      var dep := deps[j];
      if dep !in idMap {
        notes := notes + [DroppedUnknown(step.id, dep)];
        continue;
      }
      var mapped := idMap[dep];
      if mapped >= newId {
        notes := notes + [DroppedNonPrior(step.id, dep)];
        continue;
      }
      newDeps := newDeps + [mapped];
    }
    assert deps[..|deps|] == deps;
  }

  // ------------------------------------------------- properties of renumbering

  lemma {:induction false} IdMapIndex(sorted: seq<PlanStep>, k: nat)
    requires DistinctIds(sorted) && k < |sorted|
    ensures IdMapOf(sorted)[sorted[k].id] == k + 1
  {
    var n := |sorted| - 1;
    if k < n {
      IdMapIndex(sorted[..n], k);
      assert IdOf(sorted[k]) != IdOf(sorted[n]);
    }
  }

  /** A value of the map is the position of some step carrying that id. */
  lemma {:induction false} IdMapValue(sorted: seq<PlanStep>, id: int)
    requires id in IdMapOf(sorted)
    ensures 1 <= IdMapOf(sorted)[id] <= |sorted| && sorted[IdMapOf(sorted)[id] - 1].id == id
  {
    var n := |sorted| - 1;
    if sorted[n].id != id {
      assert sorted == sorted[..n] + [sorted[n]];
      IdMapValue(sorted[..n], id);
    }
  }

  lemma {:induction false} NewDepsMembers(deps: seq<int>, idMap: map<int, int>, newId: int)
    ensures forall d :: d in NewDeps(deps, idMap, newId) <==>
                        exists dep0 :: dep0 in deps && dep0 in idMap && idMap[dep0] < newId && idMap[dep0] == d
  {
    if deps != [] {
      var front, dep := deps[..|deps| - 1], deps[|deps| - 1];
      NewDepsMembers(front, idMap, newId);
      assert deps == front + [dep];
      assert forall dep0 :: dep0 in deps <==> dep0 in front || dep0 == dep;
    }
  }

  lemma SortedByIdFacts(steps: seq<PlanStep>)
    ensures |SortById(steps)| == |steps|
    ensures multiset(SortById(steps)) == multiset(steps)
    ensures SortedBy(SortById(steps), IdOf)
    ensures forall s :: s in SortById(steps) <==> s in steps
    ensures DistinctIds(steps) <==> DistinctIds(SortById(steps))
  {
    SortByIsPermutation(steps, IdOf);
    SortByIsSorted(steps, IdOf);
    SameMembers(SortById(steps), steps);
    if DistinctIds(steps) { DistinctKeysPermutation(steps, SortById(steps), IdOf); }
    if DistinctIds(SortById(steps)) { DistinctKeysPermutation(SortById(steps), steps, IdOf); }
  }

  /** Contiguous ids sort into 1..n. */
  lemma SortedContiguous(steps: seq<PlanStep>, k: nat)
    requires ContiguousIds(steps) && k < |steps|
    ensures |SortById(steps)| == |steps| && SortById(steps)[k].id == k + 1 && SortById(steps)[k] in steps
  {
    var sorted := SortById(steps);
    SortedByIdFacts(steps);
    var ids := Ids(sorted);
    forall i | 0 <= i < |ids| ensures 1 <= ids[i] <= |steps| {
      assert sorted[i] in sorted;
    }
    forall i, j | 0 <= i < j < |ids|
      ensures Identity(ids[i]) <= Identity(ids[j]) && Identity(ids[i]) != Identity(ids[j]) {
      assert IdOf(sorted[i]) <= IdOf(sorted[j]) && IdOf(sorted[i]) != IdOf(sorted[j]);
    }
    StrictlyIncreasingIsRange(ids, |steps|);
    assert sorted[k] in sorted;
  }

  /** The edge of the k-th step (counting from 0) to new id d: d numbers an earlier step whose old id was a
      dependency. */
  ghost predicate EdgeSurvives(sorted: seq<PlanStep>, k: nat, d: int)
    requires k < |sorted|
  {
    1 <= d < k + 1 && sorted[d - 1].id in sorted[k].Deps()
  }

  lemma SurvivingEdges(sorted: seq<PlanStep>, k: nat, d: int)
    requires DistinctIds(sorted) && k < |sorted|
    ensures d in NewDeps(sorted[k].Deps(), IdMapOf(sorted), k + 1) <==> EdgeSurvives(sorted, k, d)
  {
    var idMap, deps := IdMapOf(sorted), sorted[k].Deps();
    NewDepsMembers(deps, idMap, k + 1);
    assert EdgeSurvives(sorted, k, d) ==> sorted[d - 1] in sorted;
    if d in NewDeps(deps, idMap, k + 1) {
      var dep0 :| dep0 in deps && dep0 in idMap && idMap[dep0] < k + 1 && idMap[dep0] == d;
      IdMapValue(sorted, dep0);
    }
    if EdgeSurvives(sorted, k, d) {
      IdMapIndex(sorted, d - 1);
    }
  }

  /** For distinct ids: output ids are 1..n in the original id order, tasks and hints are untouched, and an edge
      survives exactly when both its ends survive and it pointed to a smaller id. */
  lemma RenumberDistinct(steps: seq<PlanStep>, k: nat)
    requires DistinctIds(steps) && k < |steps|
    ensures |SortById(steps)| == |steps| == |RenumberedSteps(steps)|
    ensures var s, r := SortById(steps)[k], RenumberedSteps(steps)[k];
            && r.id == k + 1 && r.task == s.task && r.toolHint == s.toolHint
            && r.dependency != Some([])
            && RenumberMap(steps)[s.id] == k + 1
            && forall d :: d in r.Deps() <==> EdgeSurvives(SortById(steps), k, d)
  {
    var sorted := SortById(steps);
    SortedByIdFacts(steps);
    IdMapIndex(sorted, k);
    forall d ensures d in NewDeps(sorted[k].Deps(), IdMapOf(sorted), k + 1) <==> EdgeSurvives(sorted, k, d) {
      SurvivingEdges(sorted, k, d);
    }
  }

  lemma RenumberIds(steps: seq<PlanStep>)
    requires DistinctIds(steps)
    ensures |RenumberedSteps(steps)| == |steps|
    ensures Ids(RenumberedSteps(steps)) == Range(1, |steps| + 1)
    ensures ContiguousIds(RenumberedSteps(steps)) && PriorDependencies(RenumberedSteps(steps))
  {
    SortedByIdFacts(steps);
    var r := RenumberedSteps(steps);
    forall k | 0 <= k < |r| ensures r[k].id == k + 1 && PriorStep(r[k]) {
      RenumberDistinct(steps, k);
    }
    assert DistinctIds(r);
  }

  /** The result depends on the set of steps only, not on the order of the input list. */
  lemma RenumberOrderIndependent(steps: seq<PlanStep>, other: seq<PlanStep>)
    requires multiset(steps) == multiset(other) && DistinctIds(steps)
    ensures RenumberedSteps(steps) == RenumberedSteps(other)
    ensures RenumberMap(steps) == RenumberMap(other)
    ensures RenumberNotes(steps) == RenumberNotes(other)
  {
    SortByUnique(steps, other, IdOf);
  }

  lemma RepeatedIdsStayRepeated(steps: seq<PlanStep>)
    requires !DistinctIds(steps)
    ensures !DistinctIds(RenumberedSteps(steps))
  {
    SortedByIdFacts(steps);
    var sorted, r := SortById(steps), RenumberedSteps(steps);
    var i, j :| 0 <= i < j < |sorted| && IdOf(sorted[i]) == IdOf(sorted[j]);
    assert r[i].id == r[j].id;
    assert IdOf(r[i]) == IdOf(r[j]);
  }

  /** For any input at all, the output passes the validator's id and dependency checks exactly when the input
      ids were distinct: a repeated id sends both copies to one number. */
  lemma RenumberPassesIffDistinct(steps: seq<PlanStep>)
    ensures var r := RenumberedSteps(steps);
            ContinuityErrors(r) + DuplicateErrors(r) + DependencyErrors(r, IdSet(r)) == [] <==> DistinctIds(steps)
  {
    var r := RenumberedSteps(steps);
    ContinuityIff(r);
    DuplicateErrorsEmpty(r);
    DependencyErrorsEmpty(r, IdSet(r));
    if DistinctIds(steps) {
      RenumberIds(steps);
      PriorIffExist(r);
    } else {
      RepeatedIdsStayRepeated(steps);
    }
  }

  // --------------------------------------------------------- deduplication

  function KeyOf(s: PlanStep): (string, Option<string>) {
    (Strip(s.task), s.toolHint)
  }

  function Keys(steps: seq<PlanStep>): set<(string, Option<string>)> {
    set s | s in steps :: KeyOf(s)
  }

  function Deduped(steps: seq<PlanStep>): seq<PlanStep> {
    if steps == [] then []
    else
      var front, last := steps[..|steps| - 1], steps[|steps| - 1];
      Deduped(front) + (if KeyOf(last) in Keys(front) then [] else [last])
  }

  function DedupNotes(steps: seq<PlanStep>): seq<Note> {
    if steps == [] then []
    else
      var front, last := steps[..|steps| - 1], steps[|steps| - 1];
      DedupNotes(front) + (if KeyOf(last) in Keys(front) then [RemovedDuplicate(last.task, last.toolHint)] else [])
  }

  method RemoveDuplicateSteps(steps: seq<PlanStep>) returns (deduped: seq<PlanStep>, notes: seq<Note>)
    ensures deduped == Deduped(steps) && notes == DedupNotes(steps)
  {
    var seen: set<(string, Option<string>)> := {};
    deduped, notes := [], [];
    for i := 0 to |steps|
      invariant seen == Keys(steps[..i])
      invariant deduped == Deduped(steps[..i]) && notes == DedupNotes(steps[..i])
    {
      assert steps[..i + 1][..i] == steps[..i];
      assert steps[..i + 1] == steps[..i] + [steps[i]];
      var key := KeyOf(steps[i]);
      if key in seen {
        notes := notes + [RemovedDuplicate(steps[i].task, steps[i].toolHint)];
        continue;
      }
      seen := seen + {key};
      deduped := deduped + [steps[i]];
    }
    assert steps[..|steps|] == steps;
  }

  ghost predicate DistinctStepKeys(steps: seq<PlanStep>) {
    forall i, j :: 0 <= i < j < |steps| ==> KeyOf(steps[i]) != KeyOf(steps[j])
  }

  lemma DistinctStepKeysSnoc(front: seq<PlanStep>, last: PlanStep)
    ensures DistinctStepKeys(front + [last]) <==> DistinctStepKeys(front) && KeyOf(last) !in Keys(front)
  {
    var steps := front + [last];
    if DistinctStepKeys(steps) {
      forall s | s in front ensures KeyOf(s) != KeyOf(last) {
        var i :| 0 <= i < |front| && front[i] == s;
        assert KeyOf(steps[i]) != KeyOf(steps[|front|]);
      }
      forall i, j | 0 <= i < j < |front| ensures KeyOf(front[i]) != KeyOf(front[j]) {
        assert KeyOf(steps[i]) != KeyOf(steps[j]);
      }
    }
    if DistinctStepKeys(front) && KeyOf(last) !in Keys(front) {
      forall i, j | 0 <= i < j < |steps| ensures KeyOf(steps[i]) != KeyOf(steps[j]) {
        assert front[i] in front;
      }
    }
  }

  /** Deduplication keeps exactly one step of every key. */
  lemma {:induction false} DedupedKeys(steps: seq<PlanStep>)
    ensures forall s :: s in Deduped(steps) ==> s in steps
    ensures Keys(Deduped(steps)) == Keys(steps)
    ensures DistinctStepKeys(Deduped(steps))
  {
    if steps != [] {
      var front, last := steps[..|steps| - 1], steps[|steps| - 1];
      DedupedKeys(front);
      assert steps == front + [last];
      KeysSnoc(front, last);
      KeysSnoc(Deduped(front), last);
      DistinctStepKeysSnoc(Deduped(front), last);
    }
  }

  /** Position i holds the first step with its key. */
  ghost predicate FirstOfKey(steps: seq<PlanStep>, i: nat)
    requires i < |steps|
  {
    forall j :: 0 <= j < i ==> KeyOf(steps[j]) != KeyOf(steps[i])
  }

  /** Deduplication keeps exactly the first step of every key, in list order; ids may repeat. */
  lemma {:induction false} DedupedPositions(steps: seq<PlanStep>) returns (at: seq<nat>)
    ensures SublistAt(Deduped(steps), steps, at)
    ensures forall i: nat :: i < |steps| ==> (i in at <==> FirstOfKey(steps, i))
  {
    at := [];
    if steps != [] {
      hide KeyOf, Keys, SublistAt;
      var n := |steps| - 1;
      var front, last := steps[..n], steps[n];
      assert steps == front + [last];
      var before := DedupedPositions(front);
      KeyBefore(steps, n);
      SublistSnoc(Deduped(front), front, last, before);
      assert forall i: nat :: i < n ==> (FirstOfKey(front, i) <==> FirstOfKey(steps, i));
      at := if KeyOf(last) in Keys(front) then before else before + [n];
      assert Deduped(steps) == Deduped(front) + (if KeyOf(last) in Keys(front) then [] else [last]);
      assert Deduped(front) + [] == Deduped(front);
      NotBeyond(Deduped(front), front, before);
    }
  }

  lemma NotBeyond(out: seq<PlanStep>, src: seq<PlanStep>, at: seq<nat>)
    requires SublistAt(out, src, at)
    ensures |src| !in at
  {
  }

  lemma KeyBefore(steps: seq<PlanStep>, n: nat)
    requires n < |steps|
    ensures KeyOf(steps[n]) in Keys(steps[..n]) <==> exists j :: 0 <= j < n && KeyOf(steps[j]) == KeyOf(steps[n])
  {
    if j :| 0 <= j < n && KeyOf(steps[j]) == KeyOf(steps[n]) {
      assert steps[j] in steps[..n];
    }
    if KeyOf(steps[n]) in Keys(steps[..n]) {
      var s :| s in steps[..n] && KeyOf(s) == KeyOf(steps[n]);
      var j :| 0 <= j < n && steps[j] == s;
    }
  }

  lemma KeysSnoc(steps: seq<PlanStep>, last: PlanStep)
    ensures Keys(steps + [last]) == Keys(steps) + {KeyOf(last)}
  {
    assert forall s :: s in steps + [last] <==> s in steps || s == last;
  }

  /** Deduplication keeps ids distinct, and the order of the list. */
  lemma DedupedOrder(steps: seq<PlanStep>)
    ensures DistinctIds(steps) ==> DistinctIds(Deduped(steps))
    ensures SortedBy(steps, IdOf) ==> SortedBy(Deduped(steps), IdOf)
  {
    var at := DedupedPositions(steps);
    SublistKeepsOrder(Deduped(steps), steps, at, IdOf);
  }

  lemma {:induction false} DedupedNonEmpty(steps: seq<PlanStep>)
    requires steps != []
    ensures Deduped(steps) != []
  {
    DedupedKeys(steps);
    assert KeyOf(steps[0]) in Keys(steps);
  }

  lemma {:induction false} DedupedIdentity(steps: seq<PlanStep>)
    requires DistinctStepKeys(steps)
    ensures Deduped(steps) == steps && DedupNotes(steps) == []
  {
    if steps != [] {
      var front, last := steps[..|steps| - 1], steps[|steps| - 1];
      assert steps == front + [last];
      DistinctStepKeysSnoc(front, last);
      DedupedIdentity(front);
    }
  }

  // --------------------------------------------------- planner-path clean-ups

  predicate IsBudget(s: PlanStep, pats: Patterns) {
    s.toolHint == Some("budget") || pats.budget(s.task)
  }

  function BudgetIndices(steps: seq<PlanStep>, pats: Patterns): (r: seq<nat>)
    ensures forall a :: 0 <= a < |r| ==> r[a] < |steps|
  {
    if steps == [] then []
    else
      var n := |steps| - 1;
      BudgetIndices(steps[..n], pats) + (if IsBudget(steps[n], pats) then [n] else [])
  }

  lemma {:induction false} BudgetIndexIff(steps: seq<PlanStep>, pats: Patterns, i: nat)
    requires i < |steps|
    ensures i in BudgetIndices(steps, pats) <==> IsBudget(steps[i], pats)
  {
    var n := |steps| - 1;
    if i < n {
      BudgetIndexIff(steps[..n], pats, i);
    } else {
      assert forall a :: 0 <= a < |BudgetIndices(steps[..n], pats)| ==> BudgetIndices(steps[..n], pats)[a] != n;
    }
  }

  lemma {:induction false} BudgetIndicesAscend(steps: seq<PlanStep>, pats: Patterns)
    ensures forall a, b :: 0 <= a < b < |BudgetIndices(steps, pats)| ==>
              BudgetIndices(steps, pats)[a] < BudgetIndices(steps, pats)[b]
  {
    if steps != [] { BudgetIndicesAscend(steps[..|steps| - 1], pats); }
  }

  /** `max(indices, key=len of task)`: the first index of maximal task length. */
  function LongestTask(steps: seq<PlanStep>, indices: seq<nat>): (keep: nat)
    requires indices != [] && forall a :: 0 <= a < |indices| ==> indices[a] < |steps|
    ensures keep in indices && keep < |steps|
    ensures forall a :: 0 <= a < |indices| ==> |steps[indices[a]].task| <= |steps[keep].task|
    ensures exists b :: 0 <= b < |indices| && indices[b] == keep &&
              forall a :: 0 <= a < b ==> |steps[indices[a]].task| < |steps[keep].task|
  {
    var n := |indices| - 1;
    if n == 0 then indices[0]
    else
      var best := LongestTask(steps, indices[..n]);
      if |steps[indices[n]].task| > |steps[best].task| then indices[n] else best
  }

  /** The first n steps without the budget steps other than `keep`. */
  function KeepOneBudget(steps: seq<PlanStep>, pats: Patterns, keep: nat, n: nat): seq<PlanStep>
    requires n <= |steps|
  {
    if n == 0 then []
    else KeepOneBudget(steps, pats, keep, n - 1) +
         (if IsBudget(steps[n - 1], pats) && n - 1 != keep then [] else [steps[n - 1]])
  }

  function RemovedBudgetNotes(steps: seq<PlanStep>, pats: Patterns, keep: nat, n: nat): seq<Note>
    requires n <= |steps|
  {
    if n == 0 then []
    else RemovedBudgetNotes(steps, pats, keep, n - 1) +
         (if IsBudget(steps[n - 1], pats) && n - 1 != keep then [RemovedBudget(steps[n - 1].task)] else [])
  }

  function BudgetDeduped(steps: seq<PlanStep>, pats: Patterns): seq<PlanStep> {
    var indices := BudgetIndices(steps, pats);
    if |indices| <= 1 then steps
    else KeepOneBudget(steps, pats, LongestTask(steps, indices), |steps|)
  }

  function BudgetNotes(steps: seq<PlanStep>, pats: Patterns): seq<Note> {
    var indices := BudgetIndices(steps, pats);
    if |indices| <= 1 then []
    else RemovedBudgetNotes(steps, pats, LongestTask(steps, indices), |steps|)
  }

  method DeduplicateBudgetSteps(steps: seq<PlanStep>, pats: Patterns) returns (kept: seq<PlanStep>, notes: seq<Note>)
    ensures kept == BudgetDeduped(steps, pats)
    ensures notes == BudgetNotes(steps, pats)
  {
    var indices := BudgetIndices(steps, pats);
    if |indices| <= 1 {
      return steps, [];
    }
    var keep := LongestTask(steps, indices);
    kept, notes := [], [];
    for i := 0 to |steps|
      invariant kept == KeepOneBudget(steps, pats, keep, i)
      invariant notes == RemovedBudgetNotes(steps, pats, keep, i)
    {
      BudgetIndexIff(steps, pats, i);
      if i in indices && i != keep {
        notes := notes + [RemovedBudget(steps[i].task)];
      } else {
        kept := kept + [steps[i]];
      }
    }
  }

  function ClearHint(s: PlanStep, pats: Patterns): PlanStep {
    if s.HasTool() && pats.synthesis(s.task) then s.(toolHint := None) else s
  }

  function SynthesisCleared(steps: seq<PlanStep>, pats: Patterns): seq<PlanStep> {
    seq(|steps|, i requires 0 <= i < |steps| => ClearHint(steps[i], pats))
  }

  function SynthesisNotes(steps: seq<PlanStep>, pats: Patterns): seq<Note> {
    if steps == [] then []
    else
      var last := steps[|steps| - 1];
      SynthesisNotes(steps[..|steps| - 1], pats) +
      (if last.HasTool() && pats.synthesis(last.task) then [ClearedHint(last.task, last.toolHint.value)] else [])
  }

  lemma ClearedSnoc(front: seq<PlanStep>, last: PlanStep, pats: Patterns)
    ensures SynthesisCleared(front + [last], pats) == SynthesisCleared(front, pats) + [ClearHint(last, pats)]
    ensures SynthesisNotes(front + [last], pats) == SynthesisNotes(front, pats) +
              (if last.HasTool() && pats.synthesis(last.task)
               then [ClearedHint(last.task, last.toolHint.value)] else [])
  {
    assert (front + [last])[..|front|] == front;
  }

  /** A note is made exactly when a step is changed. */
  lemma {:induction false} SynthesisNotesIff(steps: seq<PlanStep>, pats: Patterns)
    ensures SynthesisNotes(steps, pats) == [] <==> SynthesisCleared(steps, pats) == steps
  {
    if steps != [] {
      hide SynthesisCleared, SynthesisNotes;
      var front, last := steps[..|steps| - 1], steps[|steps| - 1];
      assert steps == front + [last];
      SynthesisNotesIff(front, pats);
      ClearedSnoc(front, last, pats);
      var c := SynthesisCleared(front, pats);
      assert c + [ClearHint(last, pats)] == front + [last] <==> c == front && ClearHint(last, pats) == last by {
        assert |c| == |front| by { ClearedLength(front, pats); }
        SameSnoc(c, ClearHint(last, pats), front, last);
      }
    } else {
      assert SynthesisCleared(steps, pats) == steps;
    }
  }

  lemma ClearedLength(steps: seq<PlanStep>, pats: Patterns)
    ensures |SynthesisCleared(steps, pats)| == |steps|
  {
  }

  lemma SameSnoc(a: seq<PlanStep>, x: PlanStep, b: seq<PlanStep>, y: PlanStep)
    requires |a| == |b|
    ensures a + [x] == b + [y] <==> a == b && x == y
  {
    if a + [x] == b + [y] {
      assert (a + [x])[..|a|] == a && (b + [y])[..|b|] == b;
      assert (a + [x])[|a|] == x && (b + [y])[|b|] == y;
    }
  }

  method NormalizeSynthesisSteps(steps: seq<PlanStep>, pats: Patterns)
    returns (normalized: seq<PlanStep>, notes: seq<Note>)
    ensures normalized == SynthesisCleared(steps, pats)
    ensures notes == SynthesisNotes(steps, pats)
    ensures notes == [] <==> normalized == steps
  {
    hide SynthesisNotes;
    normalized, notes := [], [];
    assert SynthesisNotes([], pats) == [] by { SynthesisNotesIff([], pats); }
    for i := 0 to |steps|
      invariant normalized == SynthesisCleared(steps[..i], pats)
      invariant notes == SynthesisNotes(steps[..i], pats)
    {
      assert steps[..i + 1] == steps[..i] + [steps[i]];
      ClearedSnoc(steps[..i], steps[i], pats);
      var step := steps[i];
      if step.HasTool() && pats.synthesis(step.task) {
        notes := notes + [ClearedHint(step.task, step.toolHint.value)];
        normalized := normalized + [PlanStep(step.id, step.task, None, step.dependency)];
        continue;
      }
      normalized := normalized + [step];
    }
    assert steps[..|steps|] == steps;
    SynthesisNotesIff(steps, pats);
  }

  function ToolRank(s: PlanStep): int {
    if s.toolHint == Some("weather") then 0
    else if s.toolHint == Some("map") then 1
    else if s.toolHint == Some("budget") then 2
    else 99
  }

  predicate InToolOrder(steps: seq<PlanStep>) {
    forall i, j :: 0 <= i < j < |steps| ==> ToolRank(steps[i]) <= ToolRank(steps[j])
  }

  /** Stable sort by tool rank; a note is made only when the order changes. */
  function PreferToolExecutionOrder(steps: seq<PlanStep>): (r: (seq<PlanStep>, seq<Note>)) {
    if |steps| <= 1 || InToolOrder(steps) then (steps, [])
    else (SortBy(steps, ToolRank), [ReorderedTools])
  }

  // ------------------------------------------------------------ whole passes

  function NormalizedSteps(steps: seq<PlanStep>, pats: Patterns): seq<PlanStep> {
    RenumberedSteps(PreferToolExecutionOrder(SynthesisCleared(BudgetDeduped(Deduped(steps), pats), pats)).0)
  }

  /** The result of the whole pass: the steps, every note of every pass in order, and the id map of the last. */
  function NormalizationOf(plan: Plan, pats: Patterns): RepairResult {
    var deduped := Deduped(plan.steps);
    var budgeted := BudgetDeduped(deduped, pats);
    var (ordered, orderNotes) := PreferToolExecutionOrder(SynthesisCleared(budgeted, pats));
    var notes := DedupNotes(plan.steps) + BudgetNotes(deduped, pats) + SynthesisNotes(budgeted, pats) + orderNotes +
                 RenumberNotes(ordered);
    RepairResult(Plan(plan.goal, NormalizedSteps(plan.steps, pats)), notes != [], notes, RenumberMap(ordered))
  }

  method NormalizePlan(plan: Plan, pats: Patterns) returns (result: RepairResult)
    ensures result == NormalizationOf(plan, pats)
  {
    var steps, notes := RemoveDuplicateSteps(plan.steps);
    var budgetNotes, synthesisNotes, renumberNotes, idMap;
    steps, budgetNotes := DeduplicateBudgetSteps(steps, pats);
    notes := notes + budgetNotes;
    steps, synthesisNotes := NormalizeSynthesisSteps(steps, pats);
    notes := notes + synthesisNotes;
    var (ordered, orderNotes) := PreferToolExecutionOrder(steps);
    notes := notes + orderNotes;
    steps, idMap, renumberNotes := RenumberSteps(ordered);
    notes := notes + renumberNotes;
    result := RepairResult(Plan(plan.goal, steps), notes != [], notes, idMap);
  }

  function RepairedSteps(steps: seq<PlanStep>): seq<PlanStep> {
    RenumberedSteps(Deduped(steps))
  }

  function RepairNotes(steps: seq<PlanStep>): seq<Note> {
    DedupNotes(steps) + RenumberNotes(Deduped(steps))
  }

  function RepairOf(plan: Plan): RepairResult {
    RepairResult(Plan(plan.goal, RepairedSteps(plan.steps)), RepairNotes(plan.steps) != [],
                 RepairNotes(plan.steps), RenumberMap(Deduped(plan.steps)))
  }

  method RepairPlan(plan: Plan) returns (result: RepairResult)
    ensures result == RepairOf(plan)
  {
    var steps, notes := RemoveDuplicateSteps(plan.steps);
    var remapped, idMap, renumberNotes := RenumberSteps(steps);
    notes := notes + renumberNotes;
    result := RepairResult(Plan(plan.goal, remapped), notes != [], notes, idMap);
  }

  method RepairSteps(steps: seq<PlanStep>) returns (result: RepairResult)
    ensures result == RepairOf(Plan("(replan)", steps))
  {
    result := RepairPlan(Plan("(replan)", steps));
  }

  // -------------------------------------------------- the two-pass fixed point

  /** What one pass guarantees about its output. */
  ghost predicate OnePassClean(steps: seq<PlanStep>, pats: Patterns) {
    && Canonical(steps)
    && (forall s :: s in steps ==> !(s.HasTool() && pats.synthesis(s.task)))
    && AtMostOneBudget(steps, pats)
  }

  /** Numbered 1..n in list order, with backward dependencies and no empty dependency list. */
  ghost predicate Canonical(steps: seq<PlanStep>) {
    forall k :: 0 <= k < |steps| ==> steps[k].id == k + 1 && PriorStep(steps[k]) && steps[k].dependency != Some([])
  }

  ghost predicate AtMostOneBudget(steps: seq<PlanStep>, pats: Patterns) {
    forall i, j :: 0 <= i < j < |steps| ==> !(IsBudget(steps[i], pats) && IsBudget(steps[j], pats))
  }

  lemma CanonicalIsSorted(steps: seq<PlanStep>)
    requires Canonical(steps)
    ensures DistinctIds(steps) && SortedBy(steps, IdOf) && SortById(steps) == steps
  {
    SortByIdentity(steps, IdOf);
  }

  lemma {:induction false} NewDepsIdentity(deps: seq<int>, idMap: map<int, int>, newId: int)
    requires forall d :: d in deps ==> d in idMap && idMap[d] == d && d < newId
    ensures NewDeps(deps, idMap, newId) == deps
  {
    if deps != [] {
      assert deps == deps[..|deps| - 1] + [deps[|deps| - 1]];
      NewDepsIdentity(deps[..|deps| - 1], idMap, newId);
    }
  }

  lemma CanonicalIdMap(steps: seq<PlanStep>, id: int)
    requires Canonical(steps) && 1 <= id <= |steps|
    ensures id in IdMapOf(steps) && IdMapOf(steps)[id] == id
  {
    assert steps[id - 1] in steps && steps[id - 1].id == id;
    CanonicalIsSorted(steps);
    IdMapIndex(steps, id - 1);
  }

  lemma RemapCanonicalStep(steps: seq<PlanStep>, k: nat)
    requires Canonical(steps) && k < |steps|
    ensures steps[k].id in IdMapOf(steps) && RemapStep(steps[k], IdMapOf(steps)) == steps[k]
  {
    var s := steps[k];
    CanonicalIdMap(steps, s.id);
    forall d | d in s.Deps() ensures d in IdMapOf(steps) && IdMapOf(steps)[d] == d && d < s.id {
      assert PriorStep(s);
      CanonicalIdMap(steps, d);
    }
    NewDepsIdentity(s.Deps(), IdMapOf(steps), s.id);
  }

  lemma RenumberCanonical(steps: seq<PlanStep>)
    requires Canonical(steps)
    ensures RenumberedSteps(steps) == steps
  {
    CanonicalIsSorted(steps);
    var idMap := IdMapOf(steps);
    forall k | 0 <= k < |steps| ensures RemapStep(steps[k], idMap) == steps[k] {
      RemapCanonicalStep(steps, k);
    }
  }

  lemma RenumberIsCanonical(steps: seq<PlanStep>)
    requires DistinctIds(steps)
    ensures Canonical(RenumberedSteps(steps))
  {
    RenumberIds(steps);
    forall k | 0 <= k < |steps|
      ensures var r := RenumberedSteps(steps)[k]; r.id == k + 1 && PriorStep(r) && r.dependency != Some([])
    {
      RenumberDistinct(steps, k);
    }
  }

  lemma {:induction false} KeepOneBudgetPositions(
    steps: seq<PlanStep>, pats: Patterns, keep: nat, n: nat) returns (at: seq<nat>)
    requires n <= |steps|
    ensures SublistAt(KeepOneBudget(steps, pats, keep, n), steps[..n], at)
    ensures forall i: nat :: i < n ==> (i in at <==> !IsBudget(steps[i], pats) || i == keep)
  {
    at := [];
    if n > 0 {
      hide SublistAt, IsBudget;
      var before := KeepOneBudgetPositions(steps, pats, keep, n - 1);
      var out := KeepOneBudget(steps, pats, keep, n - 1);
      assert steps[..n] == steps[..n - 1] + [steps[n - 1]];
      SublistSnoc(out, steps[..n - 1], steps[n - 1], before);
      NotBeyond(out, steps[..n - 1], before);
      assert out + [] == out;
      at := if IsBudget(steps[n - 1], pats) && n - 1 != keep then before else before + [n - 1];
    }
  }

  /** The budget step that is kept: of maximal task length, and the first such. */
  ghost predicate Chosen(steps: seq<PlanStep>, pats: Patterns, k: nat) {
    && k < |steps| && IsBudget(steps[k], pats)
    && forall j :: 0 <= j < |steps| && IsBudget(steps[j], pats) ==>
         |steps[j].task| <= |steps[k].task| && (j < k ==> |steps[j].task| < |steps[k].task|)
  }

  lemma LongestIsChosen(steps: seq<PlanStep>, pats: Patterns, k: nat)
    requires BudgetIndices(steps, pats) != [] && k < |steps|
    ensures k == LongestTask(steps, BudgetIndices(steps, pats)) <==> Chosen(steps, pats, k)
  {
    hide LongestTask, BudgetIndices, IsBudget;
    var indices := BudgetIndices(steps, pats);
    var keep := LongestTask(steps, indices);
    BudgetIndicesAscend(steps, pats);
    var b :| 0 <= b < |indices| && indices[b] == keep &&
      forall a :: 0 <= a < b ==> |steps[indices[a]].task| < |steps[keep].task|;
    forall j | 0 <= j < |steps| && IsBudget(steps[j], pats)
      ensures |steps[j].task| <= |steps[keep].task| && (j < keep ==> |steps[j].task| < |steps[keep].task|)
    {
      BudgetIndexIff(steps, pats, j);
      var a :| 0 <= a < |indices| && indices[a] == j;
    }
    BudgetIndexIff(steps, pats, keep);
    assert Chosen(steps, pats, keep);
  }

  /** Exactly the non-budget steps and the first longest budget step are kept, in list order; ids may repeat. */
  lemma BudgetKept(steps: seq<PlanStep>, pats: Patterns) returns (at: seq<nat>)
    ensures SublistAt(BudgetDeduped(steps, pats), steps, at)
    ensures forall i: nat :: i < |steps| ==> (i in at <==> !IsBudget(steps[i], pats) || Chosen(steps, pats, i))
  {
    hide Chosen, IsBudget, LongestTask, KeepOneBudget;
    var indices := BudgetIndices(steps, pats);
    if |indices| > 1 {
      at := KeepOneBudgetPositions(steps, pats, LongestTask(steps, indices), |steps|);
      assert steps[..|steps|] == steps;
      forall i: nat | i < |steps| ensures i in at <==> !IsBudget(steps[i], pats) || Chosen(steps, pats, i) {
        LongestIsChosen(steps, pats, i);
        if Chosen(steps, pats, i) { ChosenIsBudget(steps, pats, i); }
      }
    } else {
      at := seq(|steps|, i => i);
      forall i: nat | i < |steps| ensures i in at && (IsBudget(steps[i], pats) ==> Chosen(steps, pats, i)) {
        assert at[i] == i;
        BudgetIndexIff(steps, pats, i);
        if IsBudget(steps[i], pats) {
          assert indices == [i];
          LongestIsChosen(steps, pats, i);
        }
      }
    }
  }

  lemma ChosenIsBudget(steps: seq<PlanStep>, pats: Patterns, i: nat)
    requires Chosen(steps, pats, i)
    ensures i < |steps| && IsBudget(steps[i], pats)
  {
  }

  lemma ChosenOnce(steps: seq<PlanStep>, pats: Patterns, i: nat, j: nat)
    requires Chosen(steps, pats, i) && Chosen(steps, pats, j)
    ensures i == j
  {
  }

  /** At most one budget step remains; ids stay distinct; and a list with at most one budget step is untouched. */
  lemma BudgetDedupedFacts(steps: seq<PlanStep>, pats: Patterns)
    ensures AtMostOneBudget(BudgetDeduped(steps, pats), pats)
    ensures DistinctIds(steps) ==> DistinctIds(BudgetDeduped(steps, pats))
    ensures AtMostOneBudget(steps, pats) ==> BudgetDeduped(steps, pats) == steps
  {
    hide Chosen, IsBudget, BudgetIndices;
    var at := BudgetKept(steps, pats);
    var r := BudgetDeduped(steps, pats);
    SublistKeepsOrder(r, steps, at, IdOf);
    forall i, j | 0 <= i < j < |r| ensures !(IsBudget(r[i], pats) && IsBudget(r[j], pats)) {
      assert at[i] in at && at[j] in at;
      if IsBudget(r[i], pats) && IsBudget(r[j], pats) { ChosenOnce(steps, pats, at[i], at[j]); }
    }
    if |BudgetIndices(steps, pats)| > 1 { ManyIndices(steps, pats); }
  }

  lemma ManyIndices(steps: seq<PlanStep>, pats: Patterns)
    requires |BudgetIndices(steps, pats)| > 1
    ensures !AtMostOneBudget(steps, pats)
  {
    var indices := BudgetIndices(steps, pats);
    BudgetIndicesAscend(steps, pats);
    BudgetIndexIff(steps, pats, indices[0]);
    BudgetIndexIff(steps, pats, indices[1]);
  }

  lemma SynthesisClearedFacts(steps: seq<PlanStep>, pats: Patterns)
    ensures var r := SynthesisCleared(steps, pats);
            && (DistinctIds(steps) ==> DistinctIds(r)) && (AtMostOneBudget(steps, pats) ==> AtMostOneBudget(r, pats))
            && (forall s :: s in r ==> !(s.HasTool() && pats.synthesis(s.task)))
    ensures (forall s :: s in steps ==> !(s.HasTool() && pats.synthesis(s.task))) ==>
              SynthesisCleared(steps, pats) == steps
  {
    var r := SynthesisCleared(steps, pats);
    assert forall i :: 0 <= i < |r| ==>
        IdOf(r[i]) == IdOf(steps[i]) && (IsBudget(r[i], pats) ==> IsBudget(steps[i], pats));
  }

  lemma RenumberPreimage(steps: seq<PlanStep>, s: PlanStep) returns (o: PlanStep)
    requires s in RenumberedSteps(steps)
    ensures o in steps && o.id in RenumberMap(steps) && s == RemapStep(o, RenumberMap(steps))
  {
    SortedByIdFacts(steps);
    var k :| 0 <= k < |RenumberedSteps(steps)| && RenumberedSteps(steps)[k] == s;
    o := SortById(steps)[k];
    assert o in SortById(steps);
  }

  lemma SortedOneBudget(steps: seq<PlanStep>, pats: Patterns, i: nat, j: nat)
    requires DistinctIds(steps) && AtMostOneBudget(steps, pats) && i < j < |steps|
    ensures |RenumberedSteps(steps)| == |steps|
    ensures !(IsBudget(RenumberedSteps(steps)[i], pats) && IsBudget(RenumberedSteps(steps)[j], pats))
  {
    RenumberDistinct(steps, i);
    RenumberDistinct(steps, j);
    SortedByIdFacts(steps);
    var sorted := SortById(steps);
    assert sorted[i] in sorted && sorted[j] in sorted && IdOf(sorted[i]) != IdOf(sorted[j]);
    var a :| 0 <= a < |steps| && steps[a] == sorted[i];
    var b :| 0 <= b < |steps| && steps[b] == sorted[j];
    OneBudgetAt(steps, pats, a, b);
  }

  lemma OneBudgetAt(steps: seq<PlanStep>, pats: Patterns, a: nat, b: nat)
    requires AtMostOneBudget(steps, pats) && a < |steps| && b < |steps| && a != b
    ensures !(IsBudget(steps[a], pats) && IsBudget(steps[b], pats))
  {
  }

  /** Renumbering keeps the tasks and hints, so it keeps cleanliness. */
  lemma RenumberKeepsClean(steps: seq<PlanStep>, pats: Patterns)
    requires DistinctIds(steps) && AtMostOneBudget(steps, pats)
    requires forall s :: s in steps ==> !(s.HasTool() && pats.synthesis(s.task))
    ensures OnePassClean(RenumberedSteps(steps), pats)
  {
    RenumberIsCanonical(steps);
    SortedByIdFacts(steps);
    var r := RenumberedSteps(steps);
    forall s | s in r ensures !(s.HasTool() && pats.synthesis(s.task)) {
      var o := RenumberPreimage(steps, s);
    }
    forall i, j | 0 <= i < j < |r| ensures !(IsBudget(r[i], pats) && IsBudget(r[j], pats)) {
      SortedOneBudget(steps, pats, i, j);
    }
  }

  /** For distinct ids the tool reorder never reaches the returned steps. */
  lemma ReorderHasNoEffect(steps: seq<PlanStep>)
    requires DistinctIds(steps)
    ensures RenumberedSteps(PreferToolExecutionOrder(steps).0) == RenumberedSteps(steps)
  {
    SortByIsPermutation(steps, ToolRank);
    RenumberOrderIndependent(steps, PreferToolExecutionOrder(steps).0);
  }

  lemma NormalizedWithoutReorder(steps: seq<PlanStep>, pats: Patterns)
    requires DistinctIds(steps)
    ensures NormalizedSteps(steps, pats) ==
            RenumberedSteps(SynthesisCleared(BudgetDeduped(Deduped(steps), pats), pats))
    ensures OnePassClean(NormalizedSteps(steps, pats), pats)
  {
    DedupedOrder(steps);
    BudgetDedupedFacts(Deduped(steps), pats);
    var b := BudgetDeduped(Deduped(steps), pats);
    SynthesisClearedFacts(b, pats);
    ReorderHasNoEffect(SynthesisCleared(b, pats));
    RenumberKeepsClean(SynthesisCleared(b, pats), pats);
  }

  lemma SublistOneBudget(out: seq<PlanStep>, src: seq<PlanStep>, at: seq<nat>, pats: Patterns)
    requires SublistAt(out, src, at) && AtMostOneBudget(src, pats)
    ensures AtMostOneBudget(out, pats)
  {
  }

  /** What deduplication leaves of a clean list is clean but for its numbering. */
  lemma DedupedClean(steps: seq<PlanStep>, pats: Patterns)
    requires OnePassClean(steps, pats)
    ensures var d := Deduped(steps);
            && DistinctIds(d) && SortedBy(d, IdOf) && DistinctStepKeys(d)
            && BudgetDeduped(d, pats) == d && SynthesisCleared(d, pats) == d
  {
    CanonicalIsSorted(steps);
    DedupedKeys(steps);
    DedupedOrder(steps);
    var at := DedupedPositions(steps);
    SublistOneBudget(Deduped(steps), steps, at, pats);
    BudgetDedupedFacts(Deduped(steps), pats);
    SynthesisClearedFacts(Deduped(steps), pats);
  }

  /** A second pass over a first pass's output only removes newly equal steps. */
  lemma SecondPass(steps: seq<PlanStep>, pats: Patterns)
    requires OnePassClean(steps, pats)
    ensures NormalizedSteps(steps, pats) == RenumberedSteps(Deduped(steps))
    ensures OnePassClean(NormalizedSteps(steps, pats), pats)
    ensures DistinctStepKeys(NormalizedSteps(steps, pats))
  {
    hide NormalizedSteps, DistinctStepKeys, Deduped, BudgetDeduped, SynthesisCleared, DistinctIds, RenumberedSteps;
    CanonicalIsSorted(steps);
    DedupedClean(steps, pats);
    NormalizedWithoutReorder(steps, pats);
    RenumberKeepsKeys(Deduped(steps));
  }

  /** Two passes reach a fixed point: a third changes no step. */
  lemma NormalizeTwiceIsFixedPoint(steps: seq<PlanStep>, pats: Patterns)
    requires DistinctIds(steps)
    ensures var twice := NormalizedSteps(NormalizedSteps(steps, pats), pats);
            NormalizedSteps(twice, pats) == twice
  {
    var once := NormalizedSteps(steps, pats);
    NormalizedWithoutReorder(steps, pats);
    SecondPass(once, pats);
    var twice := NormalizedSteps(once, pats);
    SecondPass(twice, pats);
    DedupedIdentity(twice);
    RenumberCanonical(twice);
  }

  lemma DistinctKeysByMember(steps: seq<PlanStep>)
    requires DistinctIds(steps)
    ensures DistinctStepKeys(steps) <==> forall s, t :: s in steps && t in steps && KeyOf(s) == KeyOf(t) ==> s == t
  {
    if DistinctStepKeys(steps) {
      forall s, t | s in steps && t in steps && KeyOf(s) == KeyOf(t) ensures s == t {
        var i :| 0 <= i < |steps| && steps[i] == s;
        var j :| 0 <= j < |steps| && steps[j] == t;
        SameKeySameIndex(steps, i, j);
      }
    } else {
      var i, j :| 0 <= i < j < |steps| && KeyOf(steps[i]) == KeyOf(steps[j]);
      assert IdOf(steps[i]) != IdOf(steps[j]);
      assert steps[i] in steps && steps[j] in steps;
    }
  }

  lemma SameKeySameIndex(steps: seq<PlanStep>, i: nat, j: nat)
    requires DistinctStepKeys(steps) && i < |steps| && j < |steps| && KeyOf(steps[i]) == KeyOf(steps[j])
    ensures i == j
  {
  }

  lemma RenumberKeepsKeys(steps: seq<PlanStep>)
    requires DistinctIds(steps)
    ensures DistinctStepKeys(RenumberedSteps(steps)) <==> DistinctStepKeys(steps)
  {
    hide DistinctIds, RenumberedSteps, SortById, KeyOf;
    SortedByIdFacts(steps);
    DistinctKeysByMember(steps);
    DistinctKeysByMember(SortById(steps));
    forall k | 0 <= k < |steps|
      ensures |RenumberedSteps(steps)| == |steps| && KeyOf(RenumberedSteps(steps)[k]) == KeyOf(SortById(steps)[k])
    {
      RenumberDistinct(steps, k);
      SameTaskSameKey(RenumberedSteps(steps)[k], SortById(steps)[k]);
    }
    RenumberIds(steps);
  }

  lemma SameTaskSameKey(s: PlanStep, t: PlanStep)
    requires s.task == t.task && s.toolHint == t.toolHint
    ensures KeyOf(s) == KeyOf(t)
  {
  }

  /** Two steps share a task and differ only in hints that are about to be cleared. */
  predicate HintsClash(steps: seq<PlanStep>, pats: Patterns) {
    exists i, j :: 0 <= i < j < |steps| && KeyOf(ClearHint(steps[i], pats)) == KeyOf(ClearHint(steps[j], pats))
  }

  /** A single pass is a fixed point exactly when, among the steps that survive deduplication, no two differ only in
      hints that are about to be cleared. */
  lemma OnePassIsFixedPointIff(steps: seq<PlanStep>, pats: Patterns)
    requires DistinctIds(steps)
    ensures var once := NormalizedSteps(steps, pats);
            NormalizedSteps(once, pats) == once <==> !HintsClash(BudgetDeduped(Deduped(steps), pats), pats)
  {
    hide NormalizedSteps, BudgetDeduped, Deduped, SynthesisCleared, HintsClash, DistinctStepKeys, DistinctIds;
    var once, b := NormalizedSteps(steps, pats), BudgetDeduped(Deduped(steps), pats);
    NormalizedWithoutReorder(steps, pats);
    SecondPass(once, pats);
    if DistinctStepKeys(once) {
      DedupedIdentity(once);
      RenumberCanonical(once);
    }
    DedupedOrder(steps);
    BudgetDedupedFacts(Deduped(steps), pats);
    SynthesisClearedFacts(b, pats);
    RenumberKeepsKeys(SynthesisCleared(b, pats));
    ClashIff(b, pats);
  }

  lemma ClashIff(steps: seq<PlanStep>, pats: Patterns)
    ensures HintsClash(steps, pats) <==> !DistinctStepKeys(SynthesisCleared(steps, pats))
  {
    var r := SynthesisCleared(steps, pats);
    assert forall i :: 0 <= i < |steps| ==> r[i] == ClearHint(steps[i], pats);
  }

  /** One pass is not enough: for any synthesis task, clearing the first step's hint makes it a duplicate of
      the second. */
  lemma OnePassNotEnough(task: string, pats: Patterns)
    requires pats.synthesis(task) && !pats.budget(task)
    ensures var steps := [PlanStep(1, task, Some("map"), None), PlanStep(2, task, None, None)];
            var once := NormalizedSteps(steps, pats);
            DistinctIds(steps) && NormalizedSteps(once, pats) != once
  {
    hide Strip;
    var s, t := PlanStep(1, task, Some("map"), None), PlanStep(2, task, None, None);
    var steps := [s, t];
    assert DistinctStepKeys(steps) by { assert KeyOf(s) != KeyOf(t); }
    assert DistinctIds(steps);
    DedupedIdentity(steps);
    assert AtMostOneBudget(steps, pats);
    BudgetDedupedFacts(steps, pats);
    assert KeyOf(ClearHint(steps[0], pats)) == KeyOf(ClearHint(steps[1], pats));
    OnePassIsFixedPointIff(steps, pats);
  }
}
