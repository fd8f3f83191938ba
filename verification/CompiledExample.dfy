/** A plan that its compiled graph does not carry out (graph/runtime/compiler/plan_compiler.py). */
module CompiledExample {
  import opened Sequences
  import opened PlanSchema
  import opened PlanValidation
  import opened PlanRepair
  import opened GraphEngine
  import opened PlanCompiler
  import opened CompiledWalk
  import opened PlanRun
  import opened CompiledOutcome

  /** Steps 1 and 2 depend on nothing, 3 and 4 on step 1: two adjacent wide levels. */
  function TwoByTwo(): seq<PlanStep> {
    [PlanStep(1, "a", None, None), PlanStep(2, "b", None, None),
     PlanStep(3, "c", None, Some([1])), PlanStep(4, "d", None, Some([1]))]
  }

  lemma {:induction false} DictIdentity(steps: seq<PlanStep>)
    requires DistinctIds(steps)
    ensures DictById(steps) == steps
  {
    if steps != [] {
      var front, last := steps[..|steps| - 1], steps[|steps| - 1];
      assert steps == front + [last];
      DistinctIdsSnoc(front, last);
      DictIdentity(front);
      PutAbsent(front, last);
    }
  }

  lemma {:induction false} PutAbsent(dict: seq<PlanStep>, s: PlanStep)
    requires s.id !in IdSet(dict)
    ensures Put(dict, s) == dict + [s]
  {
    if dict != [] {
      assert dict[0] in dict && forall t :: t in dict[1..] ==> t in dict;
      PutAbsent(dict[1..], s);
    }
  }

  lemma ReadyCons(s: PlanStep, rest: seq<PlanStep>, finished: set<int>)
    ensures ReadySteps([s] + rest, finished) == (if Ready(s, finished) then [s] else []) + ReadySteps(rest, finished)
    ensures Waiting([s] + rest, finished) == (if Ready(s, finished) then [] else [s]) + Waiting(rest, finished)
  {
    assert ([s] + rest)[1..] == rest;
  }

  lemma LevelsUnfold(remaining: seq<PlanStep>, finished: set<int>)
    requires ReadySteps(remaining, finished) != []
    ensures var ready := ReadySteps(remaining, finished);
            LevelsFrom(remaining, finished) ==
              [SortById(ready)] + LevelsFrom(Waiting(remaining, finished), finished + IdSet(ready))
  {
  }

  lemma PairFacts(a: PlanStep, b: PlanStep)
    requires a.id < b.id
    ensures SortById([a, b]) == [a, b] && IdSet([a, b]) == {a.id, b.id}
  {
    SortByIdentity([a, b], IdOf);
  }

  lemma PairReady(a: PlanStep, b: PlanStep, rest: seq<PlanStep>, finished: set<int>)
    requires Ready(a, finished) && Ready(b, finished) && a.id < b.id && ReadySteps(rest, finished) == []
    ensures LevelsFrom([a, b] + rest, finished) ==
            [[a, b]] + LevelsFrom(Waiting(rest, finished), finished + {a.id, b.id})
  {
    hide LevelsFrom, ReadySteps, Waiting, SortById, Ready;
    var all := [a, b] + rest;
    ReadyCons(b, rest, finished);
    ReadyCons(a, [b] + rest, finished);
    assert [a] + ([b] + rest) == all;
    assert ReadySteps(all, finished) == [a, b];
    assert Waiting(all, finished) == Waiting(rest, finished);
    PairFacts(a, b);
    LevelsUnfold(all, finished);
  }

  lemma TwoByTwoLevels()
    ensures var s := TwoByTwo(); Levels(s) == [[s[0], s[1]], [s[2], s[3]]]
    ensures ContiguousIds(TwoByTwo()) && PriorDependencies(TwoByTwo())
  {
    hide SortById, LevelsFrom, ReadySteps, Waiting;
    var s := TwoByTwo();
    assert DistinctIds(s);
    DictIdentity(s);
    var late := [s[2], s[3]];
    NoneReady([], {});
    ReadyCons(s[3], [], {});
    ReadyCons(s[2], [s[3]], {});
    assert [s[2]] + [s[3]] == late && [s[3]] + [] == [s[3]];
    assert 1 in s[2].Deps() && 1 in s[3].Deps();
    assert Waiting(late, {}) == late;
    PairReady(s[0], s[1], late, {});
    assert [s[0], s[1]] + late == s;
    NoneReady([], {1, 2});
    PairReady(s[2], s[3], [], {1, 2});
    assert late + [] == late && {} + {1, 2} == {1, 2};
    NoLevels({1, 2} + {3, 4});
  }

  lemma NoneReady(none: seq<PlanStep>, finished: set<int>)
    requires none == []
    ensures ReadySteps(none, finished) == [] && Waiting(none, finished) == []
  {
  }

  lemma NoLevels(finished: set<int>)
    ensures LevelsFrom([], finished) == []
  {
  }

  /** The failing case: whatever the nodes do, step 4 is never visited. */
  lemma TwoByTwoFails<S(!new)>(parts: Parts<S>, s: S)
    requires forall x :: !parts.stop(x)
    ensures ContiguousIds(TwoByTwo()) && PriorDependencies(TwoByTwo()) && !NoAdjacentWide(Levels(TwoByTwo()))
    ensures Count(Walk(Compiled(TwoByTwo(), parts), EntryNode, s, 0).visits, StepNode(4)) == 0
  {
    hide Levels, Compiled, Walk, Count, Expected, ContiguousIds, PriorDependencies;
    var steps := TwoByTwo();
    TwoByTwoLevels();
    var levels := Levels(steps);
    var trip := ValidPlanRun(steps, parts, s);
    assert steps[3] in levels[1];
    assert PlacedAt(levels, 4, 1);
    assert Fanned(levels, 0) && !Fanned(levels, 1);
    ExpectedCount(levels, 1, 4);
    assert |levels[0]| != 1 && |levels[0 + 1]| != 1;
  }

  /** Even if all steps succeed: the run completes the plan exactly when steps 1 and 4 were finished before it. Step 2,
      the last branch of the first level, and step 3, the lowest of the second, are all it can finish. */
  lemma TwoByTwoCompletesIff<S(!new)>(parts: Parts<S>, lens: Lens<S>, s: S)
    requires RunsPlan(TwoByTwo(), parts, lens) && lens.ok(s)
    ensures Complete(TwoByTwo(), lens.done(Walk(Compiled(TwoByTwo(), parts), EntryNode, s, 0).state)) <==>
            {1, 4} <= lens.done(s)
  {
    hide Levels, Compiled, Walk, ContiguousIds, PriorDependencies, RunsPlan, Complete;
    var steps := TwoByTwo();
    TwoByTwoLevels();
    var levels := Levels(steps);
    CompletesIff(steps, parts, lens, s);
    assert Fanned(levels, 0) && !Fanned(levels, 1);
    assert Survivor(levels, 0) == steps[1] && Survivor(levels, 1) == steps[2];
    assert forall p :: Survives(levels, p) <==> p == steps[1] || p == steps[2];
    assert forall p :: p in steps <==> p == steps[0] || p == steps[1] || p == steps[2] || p == steps[3];
  }
}
