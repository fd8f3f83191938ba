/** States the outcome of a compiled run is about: agent states under the deep merge (graph/runtime/state_merge.py), and
    bare sets of finished ids. */
module CompiledMerge {
  import opened Sequences
  import opened PlanSchema
  import opened PlanValidation
  import opened PlanCompiler
  import opened GraphEngine
  import opened CompiledWalk
  import opened CompiledOutcome
  import opened PlanRun
  import opened StateMerge

  /** The plan state of a branch state, decoded; a run goes on while should_stop is not set. */
  function PlanStateLens<T, V>(decode: V -> Done): Lens<BranchState<T, V>> {
    Lens(
      (s: BranchState<T, V>) => if PlanStateScalar in s.scalars then decode(s.scalars[PlanStateScalar]) else {},
      (s: BranchState<T, V>) => PlanStateScalar in s.scalars && !s.shouldStop)
  }

  /** The deep merge, up to the version store: the engine commits the merged state before the join runs. */
  ghost predicate MergesDeep<T(!new), V(!new)>(
    merge: (BranchState<T, V>, seq<BranchState<T, V>>) -> BranchState<T, V>, str: T -> string)
  {
    forall s, branches :: UpToVersions(merge(s, branches), DeepFold(s, branches, str))
  }

  ghost predicate UpToVersions<T, V>(m: BranchState<T, V>, d: BranchState<T, V>) {
    && m.observations == d.observations && m.memory == d.memory && m.lists == d.lists && m.scalars == d.scalars
    && m.shouldStop == d.shouldStop && m.replanAttempts == d.replanAttempts && m.query == d.query
  }

  /** The deep merge of branch states that carry a plan state keeps the last branch's: any merge that agrees with it
      meets the assumption of RunOutcome. */
  lemma DeepMergeKeepsLastCopy<T(!new), V(!new)>(
    merge: (BranchState<T, V>, seq<BranchState<T, V>>) -> BranchState<T, V>,
    decode: V -> Done, str: T -> string)
    requires MergesDeep(merge, str)
    ensures KeepsLastCopy(merge, PlanStateLens<T, V>(decode))
  {
    hide DeepFold;
    var lens := PlanStateLens<T, V>(decode);
    forall s, branches: seq<BranchState<T, V>> |
      lens.ok(s) && branches != [] && forall b :: b in branches ==> lens.ok(b)
      ensures lens.ok(merge(s, branches)) && lens.done(merge(s, branches)) == lens.done(branches[|branches| - 1])
    {
      var n := |branches| - 1;
      assert branches[n] in branches && UpToVersions(merge(s, branches), DeepFold(s, branches, str));
      ScalarsClosedForm(s, branches, str, PlanStateScalar, n);
      ControlClosedForm(s, branches, str);
    }
  }

  // ------------------------------------------------ what a fanned level reports

  /** The function of the node from which level k is reached. */
  function SourceFn<S>(parts: Parts<S>, k: nat): S -> S {
    if k == 0 then parts.entryFn else parts.joinFn(k - 1)
  }

  /** What the steps of a level make of a state, each on its own copy. */
  ghost predicate LevelLeaves<S>(parts: Parts<S>, level: seq<PlanStep>, s: S, r: seq<S>) {
    |r| == |level| && forall i :: 0 <= i < |level| ==> r[i] == parts.stepFn(level[i])(s)
  }

  /** The pass over a fanned level: every step of the level runs on the state the source leaves, and the join gets a
      merge whose list fields hold everything that state and all those steps print, in step order. */
  lemma FannedLevelMerges<T(!new), V(!new)>(
    steps: seq<PlanStep>, parts: Parts<BranchState<T, V>>, k: nat, s: BranchState<T, V>, r: seq<BranchState<T, V>>,
    str: T -> string)
    requires DistinctIds(steps) && MergesDeep(parts.merge, str)
    requires k < |Levels(steps)| && |Levels(steps)[k]| != 1
    requires LevelLeaves(parts, Levels(steps)[k], SourceFn(parts, k)(s), r)
    ensures LevelShape(Levels(steps))
    ensures var s1 := SourceFn(parts, k)(s);
            var merged := parts.merge(s1, r);
            && PassFrom(Compiled(steps, parts), Source(k), s) ==
                 Some((Entering(Levels(steps), k + 1), parts.joinFn(k)(merged)))
            && forall f :: f in LISTS ==> HoldsAll(s1, r, f, merged.List(f), str)
  {
    hide Levels, Compiled, CompiledNodes, DistinctIds, LevelsApart, DeepFold, HoldsAll, PassFrom;
    var levels, g := Levels(steps), Compiled(steps, parts);
    var level, s1 := levels[k], SourceFn(parts, k)(s);
    SourcePasses(steps, parts, k);
    NodesOf(steps, parts);
    NodeValues(steps, parts, |levels|, Source(k));
    NodeValues(steps, parts, |levels|, JoinNode(k));
    LevelResults(steps, parts, k, s1, r);
    FanOutPass(g, Source(k), s, FanOut(Source(k), Branches(level), JoinNode(k)), r, 0);
    assert level in levels;
    forall f | f in LISTS ensures HoldsAll(s1, r, f, parts.merge(s1, r).List(f), str) {
      MergeHoldsAll(s1, r, f, str);
    }
  }

  lemma LevelResults<S(!new)>(steps: seq<PlanStep>, parts: Parts<S>, k: nat, s: S, r: seq<S>)
    requires DistinctIds(steps) && k < |Levels(steps)| && LevelLeaves(parts, Levels(steps)[k], s, r)
    ensures BranchesLeave(Compiled(steps, parts), Branches(Levels(steps)[k]), s, r)
  {
    hide Levels, Compiled, CompiledNodes, DistinctIds, LevelsApart;
    var level, g := Levels(steps)[k], Compiled(steps, parts);
    NodesOf(steps, parts);
    SourcePasses(steps, parts, k);
    forall i | 0 <= i < |level| ensures StepNode(level[i].id) in g.nodes && r[i] == g.nodes[StepNode(level[i].id)](s) {
      LevelStep(steps, k, i);
      BranchAt(level, i);
      NodeValues(steps, parts, |Levels(steps)|, StepNode(level[i].id));
    }
  }

  /** A node that only adds to the lists: what was printed stays printed. */
  ghost predicate OnlyAdds<T(!new), V(!new)>(fn: BranchState<T, V> -> BranchState<T, V>, str: T -> string) {
    forall s: BranchState<T, V>, f, x :: f in LISTS && Shown(s.List(f), x, str) ==> Shown(fn(s).List(f), x, str)
  }

  /** Under the deep merge no fan-out loses anything: what is printed at some point of a walk is printed at its end, if
      nodes only add. */
  lemma {:induction false} ShownStays<T(!new), V(!new)>(
    g: GraphValue<BranchState<T, V>>, n: NodeId, s: BranchState<T, V>, i: nat, f: ListField, x: T, str: T -> string)
    requires MergesDeep(g.merge, str) && forall m :: m in g.nodes ==> OnlyAdds(g.nodes[m], str)
    requires f in LISTS && Shown(s.List(f), x, str)
    ensures Shown(Walk(g, n, s, i).state.List(f), x, str)
    decreases g.maxIterations - i
  {
    hide Shown, DeepFold, LISTS, MergesDeep, OnlyAdds, Walk, PassFrom;
    if n != End && i < g.maxIterations && !g.stop(s) && PassFrom(g, n, s).Some? {
      PassShows(g, n, s, f, x, str);
      WalkOnePass(g, n, s, i);
      var (next, t) := PassFrom(g, n, s).value;
      ShownStays(g, next, t, i + 1, f, x, str);
    } else {
      NodeShows(g, n, s, f, x, str);
      WalkStopsAt(g, n, s, i);
    }
  }

  /** A walk that makes no further pass stops where it is, or after the source of a fan-out into an unknown node. */
  lemma WalkStopsAt<S>(g: GraphValue<S>, n: NodeId, s: S, i: nat)
    requires n == End || i >= g.maxIterations || g.stop(s) || PassFrom(g, n, s) == None
    ensures var t := Walk(g, n, s, i).state; t == s || t == RunIfNode(g, n, s).1
  {
  }

  lemma PassShows<T(!new), V(!new)>(
    g: GraphValue<BranchState<T, V>>, n: NodeId, s: BranchState<T, V>, f: ListField, x: T, str: T -> string)
    requires MergesDeep(g.merge, str) && forall m :: m in g.nodes ==> OnlyAdds(g.nodes[m], str)
    requires f in LISTS && Shown(s.List(f), x, str)
    ensures PassFrom(g, n, s).Some? ==> Shown(PassFrom(g, n, s).value.1.List(f), x, str)
  {
    hide Shown, DeepFold, LISTS, MergesDeep, OnlyAdds, Resolve;
    NodeShows(g, n, s, f, x, str);
    var s1 := RunIfNode(g, n, s).1;
    match FanOutFor(g.fanOuts, n)
    case None =>
    case Some(fan) =>
      if forall b :: b in fan.branches ==> b in g.nodes {
        var r := BranchStates(g, fan.branches, s1);
        DeepShows(g.merge, s1, r, f, x, str);
        NodeShows(g, fan.join, g.merge(s1, r), f, x, str);
      }
  }

  lemma NodeShows<T(!new), V(!new)>(
    g: GraphValue<BranchState<T, V>>, n: NodeId, s: BranchState<T, V>, f: ListField, x: T, str: T -> string)
    requires n in g.nodes ==> OnlyAdds(g.nodes[n], str)
    requires f in LISTS && Shown(s.List(f), x, str)
    ensures Shown(RunIfNode(g, n, s).1.List(f), x, str)
  {
    hide Shown, LISTS;
  }

  lemma DeepShows<T(!new), V(!new)>(
    merge: (BranchState<T, V>, seq<BranchState<T, V>>) -> BranchState<T, V>, base: BranchState<T, V>,
    r: seq<BranchState<T, V>>, f: ListField, x: T, str: T -> string)
    requires MergesDeep(merge, str) && f in LISTS && Shown(base.List(f), x, str)
    ensures Shown(merge(base, r).List(f), x, str)
  {
    hide Shown, DeepFold, LISTS;
    MergeShows(base, r, f, x, str);
    assert UpToVersions(merge(base, r), DeepFold(base, r, str));
  }

  lemma MergeShows<T(!new), V(!new)>(
    base: BranchState<T, V>, r: seq<BranchState<T, V>>, f: ListField, x: T, str: T -> string)
    requires f in LISTS && Shown(base.List(f), x, str)
    ensures Shown(DeepFold(base, r, str).List(f), x, str)
  {
    if r != [] {
      MergeHoldsAll(base, r, f, str);
      var y :| y in base.List(f) && str(y) == str(x);
      assert Shown(DeepFold(base, r, str).List(f), y, str);
    }
  }

  /** So the final state of a run still prints what any step of a fanned level printed on its copy. */
  lemma FannedLevelReported<T(!new), V(!new)>(
    steps: seq<PlanStep>, parts: Parts<BranchState<T, V>>, k: nat, s: BranchState<T, V>, r: seq<BranchState<T, V>>,
    str: T -> string, i: nat, j: nat, f: ListField, x: T)
    requires DistinctIds(steps) && MergesDeep(parts.merge, str)
    requires k < |Levels(steps)| && |Levels(steps)[k]| != 1
    requires LevelLeaves(parts, Levels(steps)[k], SourceFn(parts, k)(s), r)
    requires forall m :: m in Compiled(steps, parts).nodes ==> OnlyAdds(Compiled(steps, parts).nodes[m], str)
    requires i < Compiled(steps, parts).maxIterations && !parts.stop(s)
    requires j < |r| && f in LISTS && x in r[j].List(f)
    ensures Shown(Walk(Compiled(steps, parts), Source(k), s, i).state.List(f), x, str)
  {
    hide Levels, Compiled, CompiledNodes, DistinctIds, LevelsApart, Shown, DeepFold, LevelLeaves, LISTS, OnlyAdds;
    var g, s1 := Compiled(steps, parts), SourceFn(parts, k)(s);
    CompiledSettings(steps, parts);
    NodesOf(steps, parts);
    SourcePasses(steps, parts, k);
    NodeValues(steps, parts, |Levels(steps)|, JoinNode(k));
    FannedLevelMerges(steps, parts, k, s, r, str);
    var merged := parts.merge(s1, r);
    assert HoldsAll(s1, r, f, merged.List(f), str);
    assert Shown(merged.List(f), x, str);
    NodeShows(g, JoinNode(k), merged, f, x, str);
    ShownStays(g, Entering(Levels(steps), k + 1), parts.joinFn(k)(merged), i + 1, f, x, str);
    WalkOnePass(g, Source(k), s, i);
  }

  lemma WalkOnePass<S>(g: GraphValue<S>, n: NodeId, s: S, i: nat)
    requires n != End && i < g.maxIterations && !g.stop(s) && PassFrom(g, n, s).Some?
    ensures Walk(g, n, s, i).state == Walk(g, PassFrom(g, n, s).value.0, PassFrom(g, n, s).value.1, i + 1).state
  {
  }

  /** Plan parts over bare sets of finished ids: the assumptions of RunOutcome can be met. */
  function SetParts(steps: seq<PlanStep>): Parts<Done> {
    Parts(
      (done: Done) => done, (done: Done) => done, (p: PlanStep) => (done: Done) => RunStep(p, done),
      (k: nat) => (done: Done) => done, (done: Done) => Complete(steps, done),
      (base: Done, copies: seq<Done>) => if copies == [] then base else copies[|copies| - 1])
  }

  lemma SetPartsRun(steps: seq<PlanStep>)
    ensures RunsPlan(steps, SetParts(steps), Lens((done: Done) => done, (done: Done) => true))
  {
    hide RunStep, Complete;
  }
}
