/** What a compiled plan leaves finished: node guards, fan-out copies and the merge taken together
    (graph/runtime/compiler/plan_compiler.py, graph/runtime/core/graph.py, graph/runtime/state_merge.py). */
module CompiledOutcome {
  import opened PlanSchema
  import opened PlanValidation
  import opened GraphEngine
  import opened PlanCompiler
  import opened CompiledWalk
  import opened PlanRun

  // ------------------------------------------------------------- node functions

  lemma {:induction false} StepNodeValue<S>(steps: seq<PlanStep>, parts: Parts<S>, p: PlanStep)
    requires DistinctIds(steps) && p in steps
    ensures StepNode(p.id) in StepNodes(steps, parts) && StepNodes(steps, parts)[StepNode(p.id)] == parts.stepFn(p)
  {
    var front, last := steps[..|steps| - 1], steps[|steps| - 1];
    assert steps == front + [last];
    DistinctIdsSnoc(front, last);
    if p != last {
      assert p in front;
      StepNodeValue(front, parts, p);
    }
  }

  lemma {:induction false} EntryValue<S>(steps: seq<PlanStep>, parts: Parts<S>)
    ensures EntryNode in StepNodes(steps, parts) && StepNodes(steps, parts)[EntryNode] == parts.entryFn
  {
    if steps != [] { EntryValue(steps[..|steps| - 1], parts); }
  }

  lemma {:induction false} NodeValues<S>(steps: seq<PlanStep>, parts: Parts<S>, k: nat, n: NodeId)
    requires DistinctIds(steps) && n in CompiledNodes(steps, parts, k)
    ensures n == EntryNode ==> CompiledNodes(steps, parts, k)[n] == parts.entryFn
    ensures n == SinkNode ==> CompiledNodes(steps, parts, k)[n] == parts.sinkFn
    ensures n.JoinNode? ==> CompiledNodes(steps, parts, k)[n] == parts.joinFn(n.level)
    ensures forall p :: p in steps && n == StepNode(p.id) ==> CompiledNodes(steps, parts, k)[n] == parts.stepFn(p)
  {
    if k == 0 {
      EntryValue(steps, parts);
      forall p | p in steps && n == StepNode(p.id) ensures CompiledNodes(steps, parts, k)[n] == parts.stepFn(p) {
        StepNodeValue(steps, parts, p);
      }
      NoJoinYet(steps, parts);
    } else if n != JoinNode(k - 1) {
      NodeValues(steps, parts, k - 1, n);
    }
  }

  lemma {:induction false} NoJoinYet<S>(steps: seq<PlanStep>, parts: Parts<S>)
    ensures forall j: nat :: JoinNode(j) !in StepNodes(steps, parts)
  {
    if steps != [] { NoJoinYet(steps[..|steps| - 1], parts); }
  }

  // ------------------------------------------------------------- one pass

  /** The one step of a level whose work outlives the level: the last branch of a fan-out, else the only one visited. */
  function Survivor(levels: LevelList, k: nat): PlanStep
    requires k < |levels| && forall l :: l in levels ==> l != []
  {
    assert levels[k] in levels;
    if Fanned(levels, k) then levels[k][|levels[k]| - 1] else levels[k][0]
  }

  /** What is finished after the first k levels, of what was finished at the start. */
  function Outcome(levels: LevelList, k: nat, start: Done): Done
    requires k <= |levels| && forall l :: l in levels ==> l != []
  {
    if k == 0 then start else RunStep(Survivor(levels, k - 1), Outcome(levels, k - 1, start))
  }

  predicate Survives(levels: LevelList, p: PlanStep)
    requires forall l :: l in levels ==> l != []
  {
    exists k :: 0 <= k < |levels| && Survivor(levels, k) == p
  }

  lemma LevelStep(steps: seq<PlanStep>, k: nat, i: nat)
    requires k < |Levels(steps)| && i < |Levels(steps)[k]|
    ensures Levels(steps)[k][i] in steps
  {
    DictIsGraph(steps);
    LevelDependencies(DictById(steps), {}, k, Levels(steps)[k][i]);
  }

  lemma PassAtEntering<S(!new)>(steps: seq<PlanStep>, parts: Parts<S>, lens: Lens<S>, k: nat, s: S)
    requires DistinctIds(steps) && k <= |Levels(steps)| && LevelShape(Levels(steps))
    requires RunsPlan(steps, parts, lens) && lens.ok(s)
    ensures var levels, p := Levels(steps), PassFrom(Compiled(steps, parts), Entering(Levels(steps), k), s);
            && p.Some? && lens.ok(p.value.1)
            && p.value.0 == (if k == |levels| then End else Source(k + 1))
            && (k == |levels| ==> lens.done(p.value.1) == lens.done(s))
            && (k < |levels| ==> levels[k] != [] && lens.done(p.value.1) == RunStep(levels[k][0], lens.done(s)))
  {
    hide Levels, Compiled, CompiledNodes, DistinctIds, LevelsApart;
    var levels := Levels(steps);
    NodesOf(steps, parts);
    if k == |levels| {
      SinkPasses(steps, parts);
      NodeValues(steps, parts, |levels|, SinkNode);
    } else {
      assert levels[k] in levels;
      StepPasses(steps, parts, k, levels[k][0]);
      LevelStep(steps, k, 0);
      NodeValues(steps, parts, |levels|, StepNode(levels[k][0].id));
    }
  }

  lemma NodesOf<S>(steps: seq<PlanStep>, parts: Parts<S>)
    ensures Compiled(steps, parts).nodes == CompiledNodes(steps, parts, |Levels(steps)|)
    ensures Compiled(steps, parts).merge == parts.merge
  {
  }

  lemma SourceKeeps<S(!new)>(steps: seq<PlanStep>, parts: Parts<S>, lens: Lens<S>, k: nat, s: S)
    requires DistinctIds(steps) && k <= |Levels(steps)| && LevelShape(Levels(steps))
    requires RunsPlan(steps, parts, lens) && lens.ok(s)
    ensures Source(k) in Compiled(steps, parts).nodes
    ensures var t := Compiled(steps, parts).nodes[Source(k)](s); lens.ok(t) && lens.done(t) == lens.done(s)
  {
    hide Levels, Compiled, CompiledNodes, DistinctIds, LevelsApart;
    NodesOf(steps, parts);
    SourcePasses(steps, parts, k);
    NodeValues(steps, parts, |Levels(steps)|, Source(k));
  }

  /** A source without a fan-out passes the state on. */
  lemma PassAtPlainSource<S(!new)>(steps: seq<PlanStep>, parts: Parts<S>, lens: Lens<S>, k: nat, s: S)
    requires DistinctIds(steps) && k <= |Levels(steps)| && LevelShape(Levels(steps)) && Levels(steps) != []
    requires k < |Levels(steps)| ==> |Levels(steps)[k]| == 1
    requires RunsPlan(steps, parts, lens) && lens.ok(s)
    ensures var p := PassFrom(Compiled(steps, parts), Source(k), s);
            && p.Some? && lens.ok(p.value.1) && p.value.0 == Entering(Levels(steps), k)
            && lens.done(p.value.1) == lens.done(s)
  {
    hide Levels, Compiled, CompiledNodes, DistinctIds, LevelsApart, RunsPlan;
    SourcePasses(steps, parts, k);
    SourceKeeps(steps, parts, lens, k, s);
  }

  /** After every branch of a level ran on its own copy. */
  lemma BranchesRun<S(!new)>(steps: seq<PlanStep>, parts: Parts<S>, lens: Lens<S>, k: nat, s: S)
    requires DistinctIds(steps) && k < |Levels(steps)| && LevelShape(Levels(steps))
    requires RunsPlan(steps, parts, lens) && lens.ok(s)
    ensures var level, g := Levels(steps)[k], Compiled(steps, parts);
            level != [] && forall b :: b in Branches(level) ==> b in g.nodes
    ensures var level := Levels(steps)[k];
            var r := BranchStates(Compiled(steps, parts), Branches(level), s);
            && |r| == |level| && (forall b :: b in r ==> lens.ok(b))
            && lens.done(r[|level| - 1]) == RunStep(level[|level| - 1], lens.done(s))
  {
    hide Levels, Compiled, CompiledNodes, DistinctIds, LevelsApart, RunStep;
    var level, g := Levels(steps)[k], Compiled(steps, parts);
    NodesOf(steps, parts);
    SourcePasses(steps, parts, k);
    assert level in Levels(steps);
    var r := BranchStates(g, Branches(level), s);
    forall i | 0 <= i < |level| ensures lens.ok(r[i]) && lens.done(r[i]) == RunStep(level[i], lens.done(s)) {
      LevelStep(steps, k, i);
      BranchAt(level, i);
      NodeValues(steps, parts, |Levels(steps)|, StepNode(level[i].id));
    }
  }

  /** A source with a fan-out: of the branches the last one's copy survives. */
  lemma PassAtFanOut<S(!new)>(steps: seq<PlanStep>, parts: Parts<S>, lens: Lens<S>, k: nat, s: S)
    requires DistinctIds(steps) && k < |Levels(steps)| && LevelShape(Levels(steps)) && |Levels(steps)[k]| != 1
    requires RunsPlan(steps, parts, lens) && lens.ok(s)
    ensures var level, p := Levels(steps)[k], PassFrom(Compiled(steps, parts), Source(k), s);
            && level != [] && p.Some? && lens.ok(p.value.1) && p.value.0 == Entering(Levels(steps), k + 1)
            && lens.done(p.value.1) == RunStep(level[|level| - 1], lens.done(s))
  {
    hide Levels, Compiled, CompiledNodes, DistinctIds, LevelsApart, Branches, RunStep, BranchStates;
    var level, g := Levels(steps)[k], Compiled(steps, parts);
    NodesOf(steps, parts);
    SourcePasses(steps, parts, k);
    SourceKeeps(steps, parts, lens, k, s);
    var s1 := g.nodes[Source(k)](s);
    BranchesRun(steps, parts, lens, k, s1);
    NodeValues(steps, parts, |Levels(steps)|, JoinNode(k));
    var merged := g.merge(s1, BranchStates(g, Branches(level), s1));
    assert lens.ok(merged) && lens.done(merged) == RunStep(level[|level| - 1], lens.done(s1));
  }

  lemma BranchAt(level: seq<PlanStep>, i: nat)
    requires i < |level|
    ensures |Branches(level)| == |level| && Branches(level)[i] == StepNode(level[i].id)
            && Branches(level)[i] in Branches(level)
  {
  }

  // ------------------------------------------------------------- the whole run

  /** The walk stands before level k, at its source or its first step, with exactly the outcome of the levels below. */
  ghost predicate StandsAt(levels: LevelList, start: Done, n: NodeId, done: Done, k: nat)
    requires k <= |levels| && forall l :: l in levels ==> l != []
  {
    && done == Outcome(levels, k, start)
    && (|| (n == Source(k) && (k > 0 ==> !Fanned(levels, k - 1)))
        || (n == Entering(levels, k) && (k < |levels| ==> !Fanned(levels, k)))
        || (n == End && k == |levels|))
  }

  ghost predicate Stands(levels: LevelList, start: Done, n: NodeId, done: Done) {
    (forall l :: l in levels ==> l != []) && exists k :: 0 <= k <= |levels| && StandsAt(levels, start, n, done, k)
  }

  lemma PassStands<S(!new)>(
    steps: seq<PlanStep>, parts: Parts<S>, lens: Lens<S>, start: Done, n: NodeId, s: S)
    requires DistinctIds(steps) && LevelShape(Levels(steps)) && Levels(steps) != [] && n != End
    requires RunsPlan(steps, parts, lens) && lens.ok(s) && Stands(Levels(steps), start, n, lens.done(s))
    ensures var p := PassFrom(Compiled(steps, parts), n, s);
            p.Some? && lens.ok(p.value.1) && Stands(Levels(steps), start, p.value.0, lens.done(p.value.1))
  {
    hide Levels, Compiled, DistinctIds, LevelsApart, RunStep, PassFrom, RunsPlan;
    var levels, done := Levels(steps), lens.done(s);
    var k :| 0 <= k <= |levels| && StandsAt(levels, start, n, done, k);
    if n == Entering(levels, k) && (k < |levels| ==> !Fanned(levels, k)) {
      PassAtEntering(steps, parts, lens, k, s);
      if k == |levels| {
        assert StandsAt(levels, start, End, done, k);
      } else {
        assert StandsAt(levels, start, Source(k + 1), RunStep(Survivor(levels, k), done), k + 1);
      }
    } else if k == |levels| || |levels[k]| == 1 {
      PassAtPlainSource(steps, parts, lens, k, s);
      assert StandsAt(levels, start, Entering(levels, k), done, k);
    } else {
      PassAtFanOut(steps, parts, lens, k, s);
      assert StandsAt(levels, start, Entering(levels, k + 1), RunStep(Survivor(levels, k), done), k + 1);
    }
  }

  lemma {:induction false} OutcomeGrows(levels: LevelList, j: nat, k: nat, start: Done)
    requires j <= k <= |levels| && forall l :: l in levels ==> l != []
    ensures Outcome(levels, j, start) <= Outcome(levels, k, start)
    decreases k
  {
    if j < k { OutcomeGrows(levels, j, k - 1, start); }
  }

  lemma {:induction false} OutcomeIsSurvivors(levels: LevelList, k: nat, start: Done, id: int) returns (j: nat)
    requires k <= |levels| && forall l :: l in levels ==> l != []
    requires id in Outcome(levels, k, start) && id !in start
    ensures j < k && Survivor(levels, j).id == id && Survivor(levels, j) in levels[j]
  {
    if id in Outcome(levels, k - 1, start) {
      j := OutcomeIsSurvivors(levels, k - 1, start, id);
    } else {
      j := k - 1;
      assert levels[j] in levels;
    }
  }

  lemma {:induction false} OutcomeSize(levels: LevelList, k: nat, start: Done)
    requires k <= |levels| && forall l :: l in levels ==> l != []
    ensures start <= Outcome(levels, k, start) && |Outcome(levels, k, start) - start| <= k
  {
    if k > 0 {
      OutcomeSize(levels, k - 1, start);
      var before, id := Outcome(levels, k - 1, start), Survivor(levels, k - 1).id;
      if Outcome(levels, k, start) != before {
        assert Outcome(levels, k, start) - start <= (before - start) + {id};
        SubsetSize(Outcome(levels, k, start) - start, (before - start) + {id});
      }
    }
  }

  lemma {:induction false} SubsetSize(a: set<int>, b: set<int>)
    requires a <= b
    ensures |a| <= |b|
  {
    assert |b| == |a| + |b - a| by { assert b == a + (b - a); }
  }

  /** The exact outcome of every compiled run in which steps succeed, over any state and whatever is finished when it
      starts: of each level one step survives, and it is finished if it was or if its dependencies are by then. So a run
      finishes at most one more step per level. */
  lemma RunOutcome<S(!new)>(steps: seq<PlanStep>, parts: Parts<S>, lens: Lens<S>, s: S)
    requires ContiguousIds(steps) && PriorDependencies(steps)
    requires RunsPlan(steps, parts, lens) && lens.ok(s)
    ensures LevelShape(Levels(steps))
    ensures var final := lens.done(Walk(Compiled(steps, parts), EntryNode, s, 0).state);
            && final == Outcome(Levels(steps), |Levels(steps)|, lens.done(s))
            && lens.done(s) <= final && |final - lens.done(s)| <= |Levels(steps)|
  {
    hide Levels, Compiled, LevelsApart, Walk, PassFrom, Stands, PriorDependencies, ContiguousIds;
    var levels, g, start := Levels(steps), Compiled(steps, parts), lens.done(s);
    CompiledRun(steps, parts, s);
    CompiledSettings(steps, parts);
    OutcomeSize(levels, |levels|, start);
    ContiguousDistinct(steps);
    if levels == [] {
      EmptyOutcome(steps, parts, lens, s);
    } else {
      StandsFirst(levels, start);
      var inv := (n: NodeId, x: S) => lens.ok(x) && Stands(levels, start, n, lens.done(x));
      forall a, x | inv(a, x) && a != End && !g.stop(x) && PassFrom(g, a, x).Some?
        ensures inv(PassFrom(g, a, x).value.0, PassFrom(g, a, x).value.1)
      {
        PassStands(steps, parts, lens, start, a, x);
      }
      var m := WalkKeeps(g, inv, EntryNode, s, 0);
      FinalOutcome(steps, parts, lens, start, m, Walk(g, EntryNode, s, 0));
    }
  }

  lemma ContiguousDistinct(steps: seq<PlanStep>)
    requires ContiguousIds(steps)
    ensures DistinctIds(steps)
  {
  }

  lemma StandsFirst(levels: LevelList, start: Done)
    requires forall l :: l in levels ==> l != []
    ensures Stands(levels, start, EntryNode, start)
  {
    assert StandsAt(levels, start, Source(0), start, 0);
  }

  lemma FinalOutcome<S(!new)>(
    steps: seq<PlanStep>, parts: Parts<S>, lens: Lens<S>, start: Done, m: NodeId, t: Trip<S>)
    requires LevelShape(Levels(steps)) && Stands(Levels(steps), start, m, lens.done(t.state)) && lens.ok(t.state)
    requires RunsPlan(steps, parts, lens)
    requires t.ending == ReachedEnd ==> m == End
    requires t.ending != ReachedEnd ==> parts.stop(t.state)
    ensures lens.done(t.state) == Outcome(Levels(steps), |Levels(steps)|, start)
  {
    hide Levels, LevelsApart, RunStep;
    var levels, done := Levels(steps), lens.done(t.state);
    var k :| 0 <= k <= |levels| && StandsAt(levels, start, m, done, k);
    if t.ending != ReachedEnd {
      OutcomeGrows(levels, k, |levels|, start);
      OutcomeSize(levels, k, start);
      assert Complete(steps, done);
      forall id | id in Outcome(levels, |levels|, start) && id !in start ensures id in done {
        var j := OutcomeIsSurvivors(levels, |levels|, start, id);
        LevelIdsExist(steps, j);
        assert id in IdSet(levels[j]);
        var p :| p in steps && p.id == id;
      }
    }
  }

  lemma EmptyOutcome<S(!new)>(steps: seq<PlanStep>, parts: Parts<S>, lens: Lens<S>, s: S)
    requires Levels(steps) == [] && DistinctIds(steps) && RunsPlan(steps, parts, lens) && lens.ok(s)
    ensures lens.done(Walk(Compiled(steps, parts), EntryNode, s, 0).state) == lens.done(s)
  {
    hide Levels, Compiled, CompiledNodes;
    var g := Compiled(steps, parts);
    CompiledSettings(steps, parts);
    SourcePasses(steps, parts, 0);
    if !g.stop(s) {
      PlainStep(g, EntryNode, End, s, 0);
      SourceKeeps(steps, parts, lens, 0, s);
    }
  }

  /** When only survivors are unfinished at the start, each level ends finished. */
  lemma {:induction false} SurvivorsFinish(steps: seq<PlanStep>, k: nat, start: Done)
    requires LevelShape(Levels(steps)) && k <= |Levels(steps)|
    requires forall p :: p in steps && p.id !in start ==> Survives(Levels(steps), p)
    ensures IdsBelow(Levels(steps), k) <= Outcome(Levels(steps), k, start)
  {
    hide Levels, LevelsApart, Survivor;
    if k > 0 {
      var levels := Levels(steps);
      SurvivorsFinish(steps, k - 1, start);
      OutcomeSize(levels, k - 1, start);
      SurvivorPlaced(levels, k - 1);
      PlacedDependencies(steps, k - 1, Survivor(levels, k - 1));
      forall p: PlanStep | p in levels[k - 1] ensures p.id in Outcome(levels, k, start) {
        PlacedInPlan(steps, k - 1, p);
        if p.id !in start { SurvivesAt(levels, k - 1, p); }
      }
    }
  }

  lemma SurvivorPlaced(levels: LevelList, k: nat)
    requires LevelShape(levels) && k < |levels|
    ensures Survivor(levels, k) in levels[k]
  {
    assert levels[k] in levels;
  }

  lemma PlacedInPlan(steps: seq<PlanStep>, k: nat, p: PlanStep)
    requires k < |Levels(steps)| && p in Levels(steps)[k]
    ensures p in steps
  {
    hide Levels;
    var i :| 0 <= i < |Levels(steps)[k]| && Levels(steps)[k][i] == p;
    LevelStep(steps, k, i);
  }

  lemma SurvivesAt(levels: LevelList, k: nat, p: PlanStep)
    requires LevelShape(levels) && k < |levels| && p in levels[k] && Survives(levels, p)
    ensures Survivor(levels, k) == p
  {
    hide LevelsApart, Survivor;
    var j :| 0 <= j < |levels| && Survivor(levels, j) == p;
    SurvivorPlaced(levels, j);
    SurvivorElsewhere(levels, j, k, p);
  }

  lemma PlacedDependencies(steps: seq<PlanStep>, k: nat, s: PlanStep)
    requires k < |Levels(steps)| && s in Levels(steps)[k]
    ensures forall d :: d in s.Deps() ==> d in IdsBelow(Levels(steps), k)
  {
    DictIsGraph(steps);
    LevelDependencies(DictById(steps), {}, k, s);
  }

  /** A compiled run in which every step succeeds leaves the whole plan finished if and only if all steps but the
      levels' survivors were finished when it started. */
  lemma CompletesIff<S(!new)>(steps: seq<PlanStep>, parts: Parts<S>, lens: Lens<S>, s: S)
    requires ContiguousIds(steps) && PriorDependencies(steps)
    requires RunsPlan(steps, parts, lens) && lens.ok(s)
    ensures LevelShape(Levels(steps))
    ensures Complete(steps, lens.done(Walk(Compiled(steps, parts), EntryNode, s, 0).state)) <==>
            forall p :: p in steps && p.id !in lens.done(s) ==> Survives(Levels(steps), p)
  {
    hide Levels, Walk, Compiled, LevelsApart, Outcome, Survivor, ContiguousIds, PriorDependencies, RunsPlan;
    var levels, start := Levels(steps), lens.done(s);
    RunOutcome(steps, parts, lens, s);
    var final := Outcome(levels, |levels|, start);
    if forall p :: p in steps && p.id !in start ==> Survives(levels, p) {
      SurvivorsFinish(steps, |levels|, start);
      forall p | p in steps ensures p.id in final {
        var k := ValidPlanIsPlaced(steps, p);
        assert PlacedAt(levels, p.id, k);
        BelowAt(levels, |levels|, p.id);
      }
    }
    if Complete(steps, final) {
      forall p | p in steps && p.id !in start ensures Survives(levels, p) {
        var j := OutcomeIsSurvivors(levels, |levels|, start, p.id);
        PlacedInPlan(steps, j, Survivor(levels, j));
        ContiguousDistinct(steps);
        SameIdSameStep(steps, p, Survivor(levels, j));
      }
    }
  }

  lemma SameIdSameStep(steps: seq<PlanStep>, p: PlanStep, q: PlanStep)
    requires DistinctIds(steps) && p in steps && q in steps && p.id == q.id
    ensures p == q
  {
  }

  /** From a fresh plan state that means: if and only if every level holds a single step. Any fan-out, and any wide
      level it jumps over, leaves steps pending. */
  lemma CompletesIffSequential<S(!new)>(steps: seq<PlanStep>, parts: Parts<S>, lens: Lens<S>, s: S)
    requires ContiguousIds(steps) && PriorDependencies(steps)
    requires RunsPlan(steps, parts, lens) && lens.ok(s) && lens.done(s) == {}
    ensures Complete(steps, lens.done(Walk(Compiled(steps, parts), EntryNode, s, 0).state)) <==>
            forall j :: 0 <= j < |Levels(steps)| ==> |Levels(steps)[j]| == 1
  {
    hide Levels, Walk, Compiled, LevelsApart, Survivor, ContiguousIds, PriorDependencies, RunsPlan;
    var levels := Levels(steps);
    CompletesIff(steps, parts, lens, s);
    if forall j :: 0 <= j < |levels| ==> |levels[j]| == 1 {
      forall p | p in steps ensures Survives(levels, p) {
        var k := ValidPlanIsPlaced(steps, p);
        SurvivorPlaced(levels, k);
        assert p == Survivor(levels, k);
      }
    } else {
      var j: nat :| j < |levels| && |levels[j]| != 1;
      var p := DroppedStep(steps, j);
      if Survives(levels, p) { SurvivesAt(levels, j, p); }
    }
  }

  /** A wide level has a step that is not its survivor. */
  lemma DroppedStep(steps: seq<PlanStep>, j: nat) returns (p: PlanStep)
    requires LevelShape(Levels(steps)) && j < |Levels(steps)| && |Levels(steps)[j]| != 1
    ensures p in Levels(steps)[j] && p in steps && p.id != Survivor(Levels(steps), j).id
  {
    hide Levels, LevelsApart;
    var level := Levels(steps)[j];
    assert level in Levels(steps);
    var i := if Fanned(Levels(steps), j) then 0 else 1;
    LevelStep(steps, j, i);
    p := level[i];
    assert IdOf(level[0]) != IdOf(level[|level| - 1]) && IdOf(level[0]) != IdOf(level[1]);
  }

  lemma SurvivorElsewhere(levels: LevelList, i: nat, j: nat, p: PlanStep)
    requires LevelShape(levels) && i < |levels| && j < |levels|
    requires Survivor(levels, i) in levels[i] && p in levels[j] && Survivor(levels, i).id == p.id
    ensures i == j
  {
    assert PlacedAt(levels, p.id, i) && PlacedAt(levels, p.id, j);
  }
}
