/** What the notes of the plan repair say: when a plan is reported as repaired, and how tools are reordered
    (plan/repair.py). */
module RepairNoteLaws {
  import opened Sequences
  import opened PlanSchema
  import opened PlanValidation
  import opened PlanRepair
  import opened Replanning
  import opened ReplanLaws

  // ------------------------------------------------------------- tool order

  function WithTool(tool: string, steps: seq<PlanStep>): seq<PlanStep> {
    Filter((s: PlanStep) => s.toolHint == Some(tool), steps)
  }

  function WithOtherTools(steps: seq<PlanStep>): seq<PlanStep> {
    Filter((s: PlanStep) => s.toolHint !in {Some("weather"), Some("map"), Some("budget")}, steps)
  }

  /** The weather steps, the map steps, the budget steps, then all others, each group in list order. */
  function Grouped(steps: seq<PlanStep>): seq<PlanStep> {
    WithTool("weather", steps) + (WithTool("map", steps) + (WithTool("budget", steps) + WithOtherTools(steps)))
  }

  /** The reorder puts weather before map before budget before the rest and keeps the list order otherwise; it makes a
      note if and only if that changes the list. */
  lemma ReorderGroups(steps: seq<PlanStep>)
    ensures PreferToolExecutionOrder(steps) ==
            (Grouped(steps), if Grouped(steps) == steps then [] else [ReorderedTools])
  {
    hide Grouped, ToolRank;
    SortGroups(steps);
    SortByIsSorted(steps, ToolRank);
    if InToolOrder(steps) || |steps| <= 1 { SortedStays(steps, ToolRank); }
  }

  lemma {:induction false} SortedStays<T>(xs: seq<T>, key: T -> int)
    requires SortedBy(xs, key)
    ensures SortBy(xs, key) == xs
  {
    if xs != [] { SortedStays(xs[1..], key); }
  }

  lemma {:induction false} SortGroups(steps: seq<PlanStep>)
    ensures SortBy(steps, ToolRank) == Grouped(steps)
  {
    if steps != [] {
      hide Grouped, ToolRank;
      var x, rest := steps[0], steps[1..];
      SortGroups(rest);
      InsertIntoGroups(x, rest);
      assert steps == [x] + rest;
    } else {
      assert Grouped([]) == [];
    }
  }

  lemma GroupsUnfold(x: PlanStep, rest: seq<PlanStep>)
    ensures forall tool :: WithTool(tool, [x] + rest) ==
                           (if x.toolHint == Some(tool) then [x] else []) + WithTool(tool, rest)
    ensures WithOtherTools([x] + rest) ==
            (if x.toolHint !in {Some("weather"), Some("map"), Some("budget")} then [x] else []) + WithOtherTools(rest)
  {
    assert ([x] + rest)[1..] == rest;
    assert [] + WithOtherTools(rest) == WithOtherTools(rest);
    forall tool
      ensures WithTool(tool, [x] + rest) == (if x.toolHint == Some(tool) then [x] else []) + WithTool(tool, rest)
    {
      assert [] + WithTool(tool, rest) == WithTool(tool, rest);
    }
  }

  /** An element goes behind the smaller ones. */
  lemma {:induction false} InsertPast<T>(x: T, low: seq<T>, rest: seq<T>, key: T -> int)
    requires forall y :: y in low ==> key(y) < key(x)
    ensures Insert(x, low + rest, key) == low + Insert(x, rest, key)
  {
    if low == [] {
      assert low + rest == rest;
    } else {
      assert (low + rest)[0] == low[0] && (low + rest)[1..] == low[1..] + rest;
      assert low[0] in low;
      InsertPast(x, low[1..], rest, key);
      assert [low[0]] + (low[1..] + Insert(x, rest, key)) == low + Insert(x, rest, key);
    }
  }

  /** An element goes before those that are not smaller. */
  lemma InsertFirst<T>(x: T, group: seq<T>, rest: seq<T>, key: T -> int)
    requires (forall y :: y in group ==> key(x) <= key(y)) && (forall y :: y in rest ==> key(x) <= key(y))
    ensures Insert(x, group + rest, key) == ([x] + group) + rest
  {
    assert group + rest != [] ==> (group + rest)[0] in group || (group + rest)[0] in rest;
    assert [x] + (group + rest) == ([x] + group) + rest;
  }

  lemma InsertIntoGroups(x: PlanStep, rest: seq<PlanStep>)
    ensures Insert(x, Grouped(rest), ToolRank) == Grouped([x] + rest)
  {
    hide WithTool, WithOtherTools;
    GroupRanks(rest);
    GroupsUnfold(x, rest);
    InsertIntoFour(x, WithTool("weather", rest), WithTool("map", rest), WithTool("budget", rest),
                   WithOtherTools(rest));
  }

  function Front<T>(here: bool, x: T): seq<T> {
    if here then [x] else []
  }

  lemma InsertIntoFour(
    x: PlanStep, w: seq<PlanStep>, m: seq<PlanStep>, b: seq<PlanStep>, o: seq<PlanStep>)
    requires (forall s :: s in w ==> ToolRank(s) == 0) && (forall s :: s in m ==> ToolRank(s) == 1)
    requires (forall s :: s in b ==> ToolRank(s) == 2) && (forall s :: s in o ==> ToolRank(s) == 99)
    ensures Insert(x, w + (m + (b + o)), ToolRank) ==
            (Front(ToolRank(x) == 0, x) + w) +
            ((Front(ToolRank(x) == 1, x) + m) + ((Front(ToolRank(x) == 2, x) + b) + (Front(ToolRank(x) == 99, x) + o)))
  {
    hide ToolRank, Insert;
    NoneInFront(x, w);
    NoneInFront(x, m);
    NoneInFront(x, b);
    NoneInFront(x, o);
    RankCases(x);
    if ToolRank(x) == 0 {
      InsertFirst(x, w, m + (b + o), ToolRank);
    } else {
      InsertPast(x, w, m + (b + o), ToolRank);
      if ToolRank(x) == 1 {
        InsertFirst(x, m, b + o, ToolRank);
      } else {
        InsertPast(x, m, b + o, ToolRank);
        if ToolRank(x) == 2 {
          InsertFirst(x, b, o, ToolRank);
        } else {
          InsertPast(x, b, o, ToolRank);
          InsertFirst(x, [], o, ToolRank);
          assert [] + o == o && ([x] + []) + o == [x] + o;
        }
      }
    }
  }

  lemma NoneInFront<T>(x: T, a: seq<T>)
    ensures Front(true, x) + a == [x] + a && Front(false, x) + a == a
  {
  }

  lemma RankCases(x: PlanStep)
    ensures ToolRank(x) == 0 || ToolRank(x) == 1 || ToolRank(x) == 2 || ToolRank(x) == 99
  {
  }

  lemma GroupRanks(steps: seq<PlanStep>)
    ensures forall s :: s in WithTool("weather", steps) ==> ToolRank(s) == 0
    ensures forall s :: s in WithTool("map", steps) ==> ToolRank(s) == 1
    ensures forall s :: s in WithTool("budget", steps) ==> ToolRank(s) == 2
    ensures forall s :: s in WithOtherTools(steps) ==> ToolRank(s) == 99
  {
  }

  // -------------------------------------------------------- when notes are made

  lemma DedupNotesIff(steps: seq<PlanStep>)
    ensures DedupNotes(steps) == [] <==> DistinctStepKeys(steps)
  {
    if DedupNotes(steps) == [] {
      NoDedupNotes(steps);
      DedupedKeys(steps);
    }
    if DistinctStepKeys(steps) { DedupedIdentity(steps); }
  }

  lemma {:induction false} NoBudgetRemoved(steps: seq<PlanStep>, pats: Patterns, keep: nat, n: nat)
    requires n <= |steps| && RemovedBudgetNotes(steps, pats, keep, n) == []
    ensures forall i :: 0 <= i < n && IsBudget(steps[i], pats) ==> i == keep
  {
    hide IsBudget;
    if n > 0 { NoBudgetRemoved(steps, pats, keep, n - 1); }
  }

  lemma BudgetNotesIff(steps: seq<PlanStep>, pats: Patterns)
    ensures BudgetNotes(steps, pats) == [] <==> AtMostOneBudget(steps, pats)
  {
    hide IsBudget, BudgetIndices, LongestTask, RemovedBudgetNotes;
    var indices := BudgetIndices(steps, pats);
    if |indices| > 1 {
      ManyIndices(steps, pats);
      if BudgetNotes(steps, pats) == [] {
        NoBudgetRemoved(steps, pats, LongestTask(steps, indices), |steps|);
      }
    } else {
      FewIndices(steps, pats);
    }
  }

  lemma FewIndices(steps: seq<PlanStep>, pats: Patterns)
    requires |BudgetIndices(steps, pats)| <= 1
    ensures AtMostOneBudget(steps, pats)
  {
    hide IsBudget, BudgetIndices;
    forall i, j | 0 <= i < j < |steps| ensures !(IsBudget(steps[i], pats) && IsBudget(steps[j], pats)) {
      BudgetIndexIff(steps, pats, i);
      BudgetIndexIff(steps, pats, j);
    }
  }

  /** Renumbering makes no note if and only if the ids are 1..n, in any list order, and dependencies point back. */
  lemma RenumberNotesIff(steps: seq<PlanStep>)
    ensures RenumberNotes(steps) == [] <==> ContiguousIds(steps) && PriorDependencies(steps)
  {
    hide RenumberNotes, ContiguousIds, PriorStep;
    if RenumberNotes(steps) == [] {
      NoNotesDistinct(steps);
      NoIdNote(steps);
      forall s | s in steps ensures PriorStep(s) { NoDepNote(steps, s); }
    }
    if ContiguousIds(steps) && PriorDependencies(steps) { NoRenumbering(steps); }
  }

  lemma NoRenumbering(steps: seq<PlanStep>)
    requires ContiguousIds(steps) && PriorDependencies(steps)
    ensures RenumberNotes(steps) == []
  {
    hide SortBy, IdMapOf, RemapNotes, ContiguousIds;
    SortedByIdFacts(steps);
    RenumberDomain(steps);
    ContiguousRange(steps);
    forall s, d | s in SortById(steps) && d in s.Deps()
      ensures d in RenumberMap(steps) && RenumberMap(steps)[d] < RenumberMap(steps)[s.id]
    {
      assert PriorStep(s);
      assert s.id in IdSet(steps);
      ContiguousMap(steps, s.id);
      ContiguousMap(steps, d);
    }
    NothingDropped(SortById(steps), RenumberMap(steps));
  }

  lemma ContiguousRange(steps: seq<PlanStep>)
    requires ContiguousIds(steps)
    ensures IdSet(steps) == SetOf(Range(1, |steps| + 1))
    ensures forall id :: id in IdSet(steps) <==> 1 <= id <= |steps|
  {
    hide ContiguousIds;
    var range := Range(1, |steps| + 1);
    SortedByIdFacts(steps);
    forall id ensures id in range <==> 1 <= id <= |steps| {
      if 1 <= id <= |steps| { assert range[id - 1] == id; }
    }
    forall id | 1 <= id <= |steps| ensures id in IdSet(steps) {
      SortedContiguous(steps, id - 1);
    }
    forall s | s in steps ensures 1 <= s.id <= |steps| {
      var k :| 0 <= k < |SortById(steps)| && SortById(steps)[k] == s;
      SortedContiguous(steps, k);
    }
  }

  // ------------------------------------------------------ what the notes name

  lemma SplitLast<T>(xs: seq<T>)
    requires xs != []
    ensures forall x :: x in xs <==> x in xs[..|xs| - 1] || x == xs[|xs| - 1]
  {
    assert xs == xs[..|xs| - 1] + [xs[|xs| - 1]];
  }

  lemma {:induction false} DepNotesName(s: PlanStep, deps: seq<int>, idMap: map<int, int>, newId: int, n: Note)
    ensures n in DepNotes(s, deps, idMap, newId) <==>
            || (n.DroppedUnknown? && n.stepId == s.id && n.dep in deps && n.dep !in idMap)
            || (n.DroppedNonPrior? && n.stepId == s.id && n.dep in deps && n.dep in idMap && idMap[n.dep] >= newId)
  {
    if deps != [] {
      SplitLast(deps);
      DepNotesName(s, deps[..|deps| - 1], idMap, newId, n);
    }
  }

  /** The step depends on an id that no step has, or on one that does not come before it. */
  predicate Drops(s: PlanStep, idMap: map<int, int>, n: Note)
    requires s.id in idMap
  {
    || (n.DroppedUnknown? && n.stepId == s.id && n.dep in s.Deps() && n.dep !in idMap)
    || (n.DroppedNonPrior? && n.stepId == s.id && n.dep in s.Deps() && n.dep in idMap
        && idMap[n.dep] >= idMap[s.id])
  }

  lemma {:induction false} RemapNotesName(sorted: seq<PlanStep>, idMap: map<int, int>, n: Note)
    requires forall s :: s in sorted ==> s.id in idMap
    ensures n in RemapNotes(sorted, idMap) <==> exists s :: s in sorted && Drops(s, idMap, n)
  {
    hide DepNotes;
    if sorted != [] {
      var front, last := sorted[..|sorted| - 1], sorted[|sorted| - 1];
      SplitLast(sorted);
      RemapNotesName(front, idMap, n);
      DepNotesName(last, last.Deps(), idMap, idMap[last.id], n);
      assert last in sorted && (n in DepNotes(last, last.Deps(), idMap, idMap[last.id]) <==> Drops(last, idMap, n));
      assert RemapNotes(sorted, idMap) ==
             RemapNotes(front, idMap) + DepNotes(last, last.Deps(), idMap, idMap[last.id]);
    }
  }

  /** For distinct ids the new numbers are in the order of the old ones. */
  lemma NumbersInOrder(steps: seq<PlanStep>, a: int, b: int)
    requires DistinctIds(steps) && a in RenumberMap(steps) && b in RenumberMap(steps)
    ensures RenumberMap(steps)[a] >= RenumberMap(steps)[b] <==> a >= b
  {
    hide SortBy, IdMapOf, SortedBy, DistinctIds;
    var sorted, m := SortById(steps), RenumberMap(steps);
    SortedByIdFacts(steps);
    IdMapValue(sorted, a);
    IdMapValue(sorted, b);
    PositionsInOrder(sorted, m[a] - 1, m[b] - 1);
  }

  lemma PositionsInOrder(sorted: seq<PlanStep>, i: nat, j: nat)
    requires SortedBy(sorted, IdOf) && DistinctIds(sorted) && i < |sorted| && j < |sorted|
    ensures i >= j <==> sorted[i].id >= sorted[j].id
  {
    assert IdOf(sorted[i]) == sorted[i].id && IdOf(sorted[j]) == sorted[j].id;
  }

  /** For distinct ids: a dependency is reported as unknown if and only if some step names an id that is not in the
      list, and as not prior if and only if some step names an id of the list that is not smaller than its own. */
  lemma DroppedIff(steps: seq<PlanStep>, id: int, d: int)
    requires DistinctIds(steps)
    ensures DroppedUnknown(id, d) in RenumberNotes(steps) <==>
            d !in IdSet(steps) && exists s :: s in steps && s.id == id && d in s.Deps()
    ensures DroppedNonPrior(id, d) in RenumberNotes(steps) <==>
            d in IdSet(steps) && d >= id && exists s :: s in steps && s.id == id && d in s.Deps()
  {
    hide SortBy, IdMapOf, RemapNotes, DistinctIds;
    var sorted, m := SortById(steps), RenumberMap(steps);
    SortedByIdFacts(steps);
    RenumberDomain(steps);
    var unknown, late := DroppedUnknown(id, d), DroppedNonPrior(id, d);
    RemapNotesName(sorted, m, unknown);
    RemapNotesName(sorted, m, late);
    if id in m && d in m { NumbersInOrder(steps, d, id); }
    forall s | s in steps && s.id == id
      ensures (Drops(s, m, unknown) <==> d in s.Deps() && d !in IdSet(steps))
              && (Drops(s, m, late) <==> d in s.Deps() && d in IdSet(steps) && d >= id)
    {
    }
  }

  // ------------------------------------------------------------ repaired or not

  /** The light repair reports nothing if and only if no two steps share a key, the ids are 1..n and every dependency
      points back. */
  lemma RepairedIff(plan: Plan)
    ensures !RepairOf(plan).repaired <==>
            DistinctStepKeys(plan.steps) && ContiguousIds(plan.steps) && PriorDependencies(plan.steps)
  {
    hide DedupNotes, RenumberNotes, ContiguousIds, PriorStep, DistinctStepKeys;
    DedupNotesIff(plan.steps);
    if DistinctStepKeys(plan.steps) {
      DedupedIdentity(plan.steps);
      RenumberNotesIff(plan.steps);
    }
  }

  /** The planner-path pass reports nothing if and only if, moreover, at most one step is a budget step, no synthesis
      step has a tool, and tools are already in the preferred order. */
  lemma NormalizedIff(plan: Plan, pats: Patterns)
    ensures !NormalizationOf(plan, pats).repaired <==>
            && DistinctStepKeys(plan.steps) && AtMostOneBudget(plan.steps, pats)
            && (forall s :: s in plan.steps ==> !(s.HasTool() && pats.synthesis(s.task)))
            && Grouped(plan.steps) == plan.steps
            && ContiguousIds(plan.steps) && PriorDependencies(plan.steps)
  {
    hide DedupNotes, RenumberNotes, BudgetNotes, SynthesisNotes, ContiguousIds, PriorStep, DistinctStepKeys,
         AtMostOneBudget, Grouped, BudgetDeduped, SynthesisCleared, PreferToolExecutionOrder, NormalizedSteps;
    var steps := plan.steps;
    DedupNotesIff(steps);
    if DistinctStepKeys(steps) {
      DedupedIdentity(steps);
      BudgetNotesIff(steps, pats);
      if AtMostOneBudget(steps, pats) {
        BudgetDedupedFacts(steps, pats);
        SynthesisNotesIff(steps, pats);
        ClearedIff(steps, pats);
        ReorderGroups(steps);
        RenumberNotesIff(steps);
      }
    }
  }

  lemma ClearedIff(steps: seq<PlanStep>, pats: Patterns)
    ensures SynthesisCleared(steps, pats) == steps <==>
            forall s :: s in steps ==> !(s.HasTool() && pats.synthesis(s.task))
  {
    var c := SynthesisCleared(steps, pats);
    if c == steps {
      forall s | s in steps ensures !(s.HasTool() && pats.synthesis(s.task)) {
        var i :| 0 <= i < |steps| && steps[i] == s;
        assert c[i] == ClearHint(s, pats);
      }
    }
  }
}
