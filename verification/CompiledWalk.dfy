/** The graph a plan compiles to, and the walk the engine takes over it
    (graph/runtime/compiler/plan_compiler.py, graph/runtime/core/graph.py). */
module CompiledWalk {
  import opened Sequences
  import opened PlanSchema
  import opened PlanValidation
  import opened GraphEngine
  import opened PlanCompiler

  /** Everything the compiled graph takes from outside: its node functions, stop test and merge. */
  datatype Parts<!S> = Parts(
    entryFn: S -> S, sinkFn: S -> S, stepFn: PlanStep -> (S -> S), joinFn: nat -> (S -> S),
    stop: S -> bool, merge: (S, seq<S>) -> S)

  type LevelList = seq<seq<PlanStep>>

  // ---------------------------------------------------------- what is compiled

  /** The node from which level k is reached: the entry, or the join of the level before. */
  function Source(k: nat): NodeId {
    if k == 0 then EntryNode else JoinNode(k - 1)
  }

  function Branches(level: seq<PlanStep>): (r: seq<NodeId>)
    ensures |r| == |level| && forall i :: 0 <= i < |r| ==> r[i] == StepNode(level[i].id)
  {
    seq(|level|, i requires 0 <= i < |level| => StepNode(level[i].id))
  }

  /** The first step of level k, or the sink past the last level. */
  function Entering(levels: LevelList, k: nat): NodeId
    requires k <= |levels| && forall l :: l in levels ==> l != []
  {
    if k < |levels| then assert levels[k] in levels; StepNode(levels[k][0].id) else SinkNode
  }

  /** A join leads to the first step of the next level only, or to the sink. */
  function NextAfter(levels: LevelList, k: nat): NodeId
    requires k < |levels| && forall l :: l in levels ==> l != []
  {
    Entering(levels, k + 1)
  }

  function LevelEdges<S>(edges: map<NodeId, seq<Edge<S>>>, level: seq<PlanStep>, k: nat): map<NodeId, seq<Edge<S>>>
    requires level != []
  {
    var b := Branches(level);
    if |level| == 1
    then Appended(Appended(edges, Source(k), Edge(b[0], None, Direct)), b[0], Edge(JoinNode(k), None, Direct))
    else FanOutEdges(edges, Source(k), b, JoinNode(k))
  }

  function WithLevel<S>(edges: map<NodeId, seq<Edge<S>>>, levels: LevelList, k: nat): map<NodeId, seq<Edge<S>>>
    requires k < |levels| && forall l :: l in levels ==> l != []
  {
    assert levels[k] in levels;
    Appended(LevelEdges(edges, levels[k], k), JoinNode(k), Edge(NextAfter(levels, k), None, Direct))
  }

  function CompiledEdges<S>(levels: LevelList, k: nat): map<NodeId, seq<Edge<S>>>
    requires k <= |levels| && forall l :: l in levels ==> l != []
  {
    if k == 0 then map[] else WithLevel(CompiledEdges<S>(levels, k - 1), levels, k - 1)
  }

  function WithFanOut(fanOuts: seq<FanOut>, levels: LevelList, k: nat): seq<FanOut>
    requires k < |levels|
  {
    if |levels[k]| == 1 then fanOuts else fanOuts + [FanOut(Source(k), Branches(levels[k]), JoinNode(k))]
  }

  function CompiledFanOuts(levels: LevelList, k: nat): seq<FanOut>
    requires k <= |levels|
  {
    if k == 0 then [] else WithFanOut(CompiledFanOuts(levels, k - 1), levels, k - 1)
  }

  function WithJoin(joins: map<NodeId, JoinSpec>, levels: LevelList, k: nat): map<NodeId, JoinSpec>
    requires k < |levels| && forall l :: l in levels ==> l != []
  {
    joins[JoinNode(k) := JoinSpec(Branches(levels[k]), NextAfter(levels, k))]
  }

  function CompiledJoins(levels: LevelList, k: nat): map<NodeId, JoinSpec>
    requires k <= |levels| && forall l :: l in levels ==> l != []
  {
    if k == 0 then map[] else WithJoin(CompiledJoins(levels, k - 1), levels, k - 1)
  }

  function StepNodes<S>(steps: seq<PlanStep>, parts: Parts<S>): map<NodeId, S -> S> {
    if steps == [] then map[EntryNode := parts.entryFn]
    else
      var last := steps[|steps| - 1];
      StepNodes(steps[..|steps| - 1], parts)[StepNode(last.id) := parts.stepFn(last)]
  }

  function CompiledNodes<S>(steps: seq<PlanStep>, parts: Parts<S>, k: nat): map<NodeId, S -> S> {
    if k == 0 then StepNodes(steps, parts)[SinkNode := parts.sinkFn]
    else CompiledNodes(steps, parts, k - 1)[JoinNode(k - 1) := parts.joinFn(k - 1)]
  }

  /** `max(len(plan.steps) * 4, 10)` */
  function Budget(n: nat): nat {
    if n * 4 >= 10 then n * 4 else 10
  }

  lemma LevelsNonEmpty(steps: seq<PlanStep>)
    ensures forall l :: l in Levels(steps) ==> l != []
    ensures |Levels(steps)| <= |steps|
  {
    DictIsGraph(steps);
    LevelCount(DictById(steps), {});
  }

  function Compiled<S>(steps: seq<PlanStep>, parts: Parts<S>): GraphValue<S> {
    var levels := Levels(steps);
    LevelsNonEmpty(steps);
    GraphValue(
      EntryNode, parts.stop, Budget(|steps|), parts.merge,
      CompiledNodes(steps, parts, |levels|),
      Appended(CompiledEdges<S>(levels, |levels|), SinkNode, Edge(End, None, Direct)),
      CompiledFanOuts(levels, |levels|), CompiledJoins(levels, |levels|))
  }

  /** The compiler: one node per step, then level by level edges or a fan-out, and a join. */
  method Compile<S>(steps: seq<PlanStep>, parts: Parts<S>) returns (graph: GraphEngine.Graph<S>)
    ensures fresh(graph) && graph.Value() == Compiled(steps, parts)
  {
    hide Levels, DictById, CompiledEdges, CompiledNodes, CompiledFanOuts, CompiledJoins;
    var levels := TopologicalLevels(steps);
    LevelsNonEmpty(steps);
    graph := new GraphEngine.Graph(EntryNode, parts.stop, Budget(|steps|), parts.merge);
    AddStepNodes(graph, steps, parts);
    NothingCompiled<S>(levels, steps, parts);
    for k := 0 to |levels|
      invariant fresh(graph)
      invariant graph.nodes == CompiledNodes(steps, parts, k)
      invariant graph.edges == CompiledEdges<S>(levels, k)
      invariant graph.fanOuts == CompiledFanOuts(levels, k)
      invariant graph.joins == CompiledJoins(levels, k)
    {
      AddLevel(graph, levels, k, parts);
      OneMoreLevel<S>(levels, steps, parts, k);
    }
    graph.AddEdge(SinkNode, End, Direct);
  }

  method AddStepNodes<S>(graph: GraphEngine.Graph<S>, steps: seq<PlanStep>, parts: Parts<S>)
    requires graph.nodes == map[]
    modifies graph`nodes
    ensures graph.nodes == StepNodes(steps, parts)[SinkNode := parts.sinkFn]
  {
    graph.AddNode(EntryNode, parts.entryFn);
    for i := 0 to |steps|
      invariant graph.nodes == StepNodes(steps[..i], parts)
    {
      assert steps[..i + 1][..i] == steps[..i];
      graph.AddNode(StepNode(steps[i].id), parts.stepFn(steps[i]));
    }
    assert steps[..|steps|] == steps;
    graph.AddNode(SinkNode, parts.sinkFn);
  }

  /** One round of the compiler's loop; what it calls `previous` is always the level's source. */
  method AddLevel<S>(graph: GraphEngine.Graph<S>, levels: LevelList, k: nat, parts: Parts<S>)
    requires k < |levels| && forall l :: l in levels ==> l != []
    modifies graph
    ensures graph.nodes == old(graph.nodes)[JoinNode(k) := parts.joinFn(k)]
    ensures graph.edges == WithLevel(old(graph.edges), levels, k)
    ensures graph.fanOuts == WithFanOut(old(graph.fanOuts), levels, k)
    ensures graph.joins == WithJoin(old(graph.joins), levels, k)
  {
    assert levels[k] in levels;
    var branchIds := Branches(levels[k]);
    if |branchIds| == 1 {
      graph.AddEdge(Source(k), branchIds[0], Direct);
      graph.AddEdge(branchIds[0], JoinNode(k), Direct);
    } else {
      graph.AddParallelFanout(Source(k), branchIds, JoinNode(k));
    }
    assert graph.edges == LevelEdges(old(graph.edges), levels[k], k);
    graph.AddJoinNode(JoinNode(k), branchIds, NextAfter(levels, k), parts.joinFn(k));
  }

  lemma NothingCompiled<S>(levels: LevelList, steps: seq<PlanStep>, parts: Parts<S>)
    requires forall l :: l in levels ==> l != []
    ensures CompiledEdges<S>(levels, 0) == map[] && CompiledFanOuts(levels, 0) == []
            && CompiledJoins(levels, 0) == map[]
    ensures CompiledNodes(steps, parts, 0) == StepNodes(steps, parts)[SinkNode := parts.sinkFn]
  {
  }

  lemma OneMoreLevel<S>(levels: LevelList, steps: seq<PlanStep>, parts: Parts<S>, k: nat)
    requires k < |levels| && forall l :: l in levels ==> l != []
    ensures CompiledEdges<S>(levels, k + 1) == WithLevel(CompiledEdges<S>(levels, k), levels, k)
    ensures CompiledFanOuts(levels, k + 1) == WithFanOut(CompiledFanOuts(levels, k), levels, k)
    ensures CompiledJoins(levels, k + 1) == WithJoin(CompiledJoins(levels, k), levels, k)
    ensures CompiledNodes(steps, parts, k + 1) == CompiledNodes(steps, parts, k)[JoinNode(k) := parts.joinFn(k)]
  {
  }

  // -------------------------------------------------------- reading the graph

  /** Levels as the compiler produces them. */
  ghost predicate LevelShape(levels: LevelList) {
    && (forall l :: l in levels ==> l != [])
    && (forall k :: 0 <= k < |levels| ==> DistinctIds(levels[k]))
    && LevelsApart(levels)
  }

  ghost predicate LevelsApart(levels: LevelList) {
    forall j, k, id :: 0 <= j < k < |levels| && PlacedAt(levels, id, j) ==> !PlacedAt(levels, id, k)
  }

  lemma LevelsHaveShape(steps: seq<PlanStep>)
    ensures LevelShape(Levels(steps))
  {
    LevelsNonEmpty(steps);
    DictIsGraph(steps);
    forall k | 0 <= k < |Levels(steps)| ensures DistinctIds(Levels(steps)[k]) {
      LevelDistinct(DictById(steps), {}, k);
    }
    forall j, k, id | 0 <= j < k < |Levels(steps)| && PlacedAt(Levels(steps), id, j)
      ensures !PlacedAt(Levels(steps), id, k) {
      LevelsDisjoint(DictById(steps), {}, j, k, id);
    }
  }

  lemma BranchesDistinct(level: seq<PlanStep>)
    requires DistinctIds(level)
    ensures NoDup(Branches(level))
  {
    forall i, j | 0 <= i < j < |level| ensures Branches(level)[i] != Branches(level)[j] {
      assert IdOf(level[i]) != IdOf(level[j]);
    }
  }

  lemma BranchMembers(level: seq<PlanStep>, id: int)
    ensures StepNode(id) in Branches(level) <==> id in IdSet(level)
  {
    if id in IdSet(level) {
      var s :| s in level && s.id == id;
      var i :| 0 <= i < |level| && level[i] == s;
      assert Branches(level)[i] == StepNode(id);
    }
    if StepNode(id) in Branches(level) {
      var i :| 0 <= i < |level| && Branches(level)[i] == StepNode(id);
      assert level[i] in level;
    }
  }

  function OutEdges<S>(level: seq<PlanStep>): seq<Edge<S>>
    requires level != []
  {
    if |level| == 1 then [Edge(Branches(level)[0], None, Direct)] else ParallelEdges(Branches(level))
  }

  /** What one level adds at a node. */
  function Added<S>(levels: LevelList, k: nat, n: NodeId): seq<Edge<S>>
    requires k < |levels| && forall l :: l in levels ==> l != []
  {
    assert levels[k] in levels;
    if n == Source(k) then OutEdges(levels[k])
    else if n == JoinNode(k) then [Edge(NextAfter(levels, k), None, Direct)]
    else if n in Branches(levels[k]) then [Edge(JoinNode(k), None, if |levels[k]| == 1 then Direct else Join)]
    else []
  }

  lemma AddedAt<S>(edges: map<NodeId, seq<Edge<S>>>, levels: LevelList, k: nat, n: NodeId)
    requires LevelShape(levels) && k < |levels|
    ensures At(WithLevel(edges, levels, k), n) == At(edges, n) + Added<S>(levels, k, n)
  {
    assert levels[k] in levels;
    BranchesDistinct(levels[k]);
    var b := Branches(levels[k]);
    assert Source(k) !in b && JoinNode(k) !in b;
    if |levels[k]| == 1 {
      assert b == [b[0]];
    } else {
      FanOutEdgesAt(edges, Source(k), b, JoinNode(k), n);
    }
  }

  lemma UnfoldEdges<S>(levels: LevelList, k: nat)
    requires 0 < k <= |levels| && forall l :: l in levels ==> l != []
    ensures CompiledEdges<S>(levels, k) == WithLevel(CompiledEdges<S>(levels, k - 1), levels, k - 1)
  {
  }

  lemma NoEdges<S>(levels: LevelList, n: NodeId)
    requires forall l :: l in levels ==> l != []
    ensures At(CompiledEdges<S>(levels, 0), n) == []
  {
  }

  lemma AddedAtSource<S>(levels: LevelList, k: nat, j: nat)
    requires LevelShape(levels) && k < |levels|
    ensures Added<S>(levels, k, Source(j)) ==
            if j == k then assert levels[k] in levels; OutEdges(levels[k])
            else if j == k + 1 then [Edge(NextAfter(levels, k), None, Direct)] else []
  {
    hide LevelsApart, DistinctIds, OutEdges, NextAfter;
  }

  lemma OneLevelBranch(levels: LevelList, k: nat, j: nat, id: int)
    requires LevelsApart(levels) && PlacedAt(levels, id, j) && k < |levels|
    ensures StepNode(id) in Branches(levels[k]) <==> j == k
  {
    BranchMembers(levels[k], id);
    assert id in IdSet(levels[k]) <==> PlacedAt(levels, id, k);
  }

  lemma AddedAtStep<S>(levels: LevelList, k: nat, j: nat, id: int)
    requires LevelShape(levels) && k < |levels| && PlacedAt(levels, id, j)
    ensures Added<S>(levels, k, StepNode(id)) ==
            if j == k then [Edge(JoinNode(j), None, if |levels[j]| == 1 then Direct else Join)] else []
  {
    hide DistinctIds, OutEdges, NextAfter, Branches, LevelsApart;
    OneLevelBranch(levels, k, j, id);
  }

  lemma AddedAtSink<S>(levels: LevelList, k: nat)
    requires LevelShape(levels) && k < |levels|
    ensures Added<S>(levels, k, SinkNode) == []
  {
    hide LevelsApart, DistinctIds, OutEdges, NextAfter;
  }

  /** The edges at a source: first the direct one its own join was given, then those into its level. */
  lemma {:induction false} SourceEdges<S>(levels: LevelList, k: nat, j: nat)
    requires LevelShape(levels) && k <= |levels| && j <= |levels|
    ensures At(CompiledEdges<S>(levels, k), Source(j)) ==
            (if 0 < j <= k then [Edge(NextAfter(levels, j - 1), None, Direct)] else []) +
            (if j < k then assert levels[j] in levels; OutEdges<S>(levels[j]) else [])
  {
    hide At, WithLevel, Added, OutEdges, NextAfter, CompiledEdges, DistinctIds, LevelsApart;
    NoEdges<S>(levels, Source(j));
    if k > 0 {
      UnfoldEdges<S>(levels, k);
      SourceEdges<S>(levels, k - 1, j);
      AddedAtSource<S>(levels, k - 1, j);
      AddedAt(CompiledEdges<S>(levels, k - 1), levels, k - 1, Source(j));
    }
  }

  /** The edges at a step: one, to the join of its level. */
  lemma {:induction false} StepEdges<S>(levels: LevelList, k: nat, j: nat, id: int)
    requires LevelShape(levels) && k <= |levels| && PlacedAt(levels, id, j)
    ensures At(CompiledEdges<S>(levels, k), StepNode(id)) ==
            if j < k then [Edge(JoinNode(j), None, if |levels[j]| == 1 then Direct else Join)] else []
  {
    hide At, WithLevel, Added, CompiledEdges, DistinctIds, LevelsApart;
    NoEdges<S>(levels, StepNode(id));
    if k > 0 {
      UnfoldEdges<S>(levels, k);
      StepEdges<S>(levels, k - 1, j, id);
      AddedAtStep<S>(levels, k - 1, j, id);
      AddedAt(CompiledEdges<S>(levels, k - 1), levels, k - 1, StepNode(id));
    }
  }

  lemma {:induction false} SinkEdges<S>(levels: LevelList, k: nat)
    requires LevelShape(levels) && k <= |levels|
    ensures At(CompiledEdges<S>(levels, k), SinkNode) == []
  {
    hide At, WithLevel, Added, CompiledEdges, DistinctIds, LevelsApart;
    NoEdges<S>(levels, SinkNode);
    if k > 0 {
      UnfoldEdges<S>(levels, k);
      SinkEdges<S>(levels, k - 1);
      AddedAtSink<S>(levels, k - 1);
      AddedAt(CompiledEdges<S>(levels, k - 1), levels, k - 1, SinkNode);
    }
  }

  lemma {:induction false} FanOutAtSource(levels: LevelList, k: nat, j: nat)
    requires k <= |levels| && j <= |levels|
    ensures FanOutFor(CompiledFanOuts(levels, k), Source(j)) ==
            if j < k && |levels[j]| != 1 then Some(FanOut(Source(j), Branches(levels[j]), JoinNode(j))) else None
  {
    if k > 0 {
      FanOutAtSource(levels, k - 1, j);
      FanOutForSnoc(CompiledFanOuts(levels, k - 1),
                    FanOut(Source(k - 1), Branches(levels[k - 1]), JoinNode(k - 1)), Source(j));
      assert CompiledFanOuts(levels, k - 1) + [] == CompiledFanOuts(levels, k - 1);
    }
  }

  lemma {:induction false} FanOutElsewhere(levels: LevelList, k: nat, n: NodeId)
    requires k <= |levels| && (n.StepNode? || n.SinkNode?)
    ensures FanOutFor(CompiledFanOuts(levels, k), n) == None
  {
    if k > 0 {
      FanOutElsewhere(levels, k - 1, n);
      FanOutForSnoc(CompiledFanOuts(levels, k - 1), FanOut(Source(k - 1), Branches(levels[k - 1]), JoinNode(k - 1)), n);
      assert CompiledFanOuts(levels, k - 1) + [] == CompiledFanOuts(levels, k - 1);
    }
  }

  lemma {:induction false} JoinAt(levels: LevelList, k: nat, j: nat)
    requires LevelShape(levels) && j < k <= |levels|
    ensures JoinNode(j) in CompiledJoins(levels, k)
            && CompiledJoins(levels, k)[JoinNode(j)].next == NextAfter(levels, j)
  {
    if j < k - 1 { JoinAt(levels, k - 1, j); }
  }

  lemma {:induction false} HasNodes<S>(steps: seq<PlanStep>, parts: Parts<S>, k: nat)
    ensures var nodes := CompiledNodes(steps, parts, k);
            && EntryNode in nodes && SinkNode in nodes
            && (forall j: nat :: j < k ==> JoinNode(j) in nodes)
            && (forall id :: id in IdSet(steps) ==> StepNode(id) in nodes)
  {
    if k > 0 {
      HasNodes(steps, parts, k - 1);
    } else {
      HasStepNodes(steps, parts);
    }
  }

  lemma {:induction false} HasStepNodes<S>(steps: seq<PlanStep>, parts: Parts<S>)
    ensures EntryNode in StepNodes(steps, parts)
            && forall id :: id in IdSet(steps) ==> StepNode(id) in StepNodes(steps, parts)
  {
    if steps != [] {
      HasStepNodes(steps[..|steps| - 1], parts);
      IdSetSnoc(steps[..|steps| - 1], steps[|steps| - 1]);
      assert steps == steps[..|steps| - 1] + [steps[|steps| - 1]];
    }
  }

  // ------------------------------------------------------------ expected walk

  /** A level runs in full through a fan-out when it is wide and the level before did not: a fan-out jumps to the first
      step of the next level, past the fan-out rooted at its own join. */
  predicate Fanned(levels: LevelList, k: nat)
    requires k < |levels|
  {
    |levels[k]| != 1 && (k == 0 || !Fanned(levels, k - 1))
  }

  /** The nodes executed for level k, its join included. */
  function Segment(levels: LevelList, k: nat): seq<NodeId>
    requires k < |levels| && forall l :: l in levels ==> l != []
  {
    assert levels[k] in levels;
    (if Fanned(levels, k) then Branches(levels[k]) else [StepNode(levels[k][0].id)]) + [JoinNode(k)]
  }

  /** From level k to the sink. */
  function Remaining(levels: LevelList, k: nat): seq<NodeId>
    requires k <= |levels| && forall l :: l in levels ==> l != []
    decreases |levels| - k
  {
    if k == |levels| then [SinkNode] else Segment(levels, k) + Remaining(levels, k + 1)
  }

  /** A plan without placed steps visits the entry only. */
  function Expected(levels: LevelList): seq<NodeId>
    requires forall l :: l in levels ==> l != []
  {
    if levels == [] then [EntryNode] else [EntryNode] + Remaining(levels, 0)
  }

  /** A walk that visits a prefix of the expected nodes, all of them unless it was stopped, within `passes`. */
  ghost predicate Follows<S>(g: GraphValue<S>, t: Trip<S>, expected: seq<NodeId>, from: nat, passes: nat) {
    && t.visits <= expected
    && from <= t.iterations <= from + passes
    && (t.ending == EarlyStop || (t.ending == ReachedEnd && t.visits == expected))
    && (t.ending == EarlyStop ==> g.stop(t.state))
  }

  lemma FollowsCons<S>(g: GraphValue<S>, t: Trip<S>, expected: seq<NodeId>, from: nat, passes: nat, head: seq<NodeId>)
    requires Follows(g, t, expected, from + 1, passes)
    ensures Follows(g, t.After(head), head + expected, from, passes + 1)
  {
    assert head + t.visits <= head + expected;
  }

  // ------------------------------------------------------- reading one pass

  /** What the engine reads at the source of level k. */
  ghost predicate SourcePass<S(!new)>(g: GraphValue<S>, levels: LevelList, k: nat)
    requires k <= |levels| && forall l :: l in levels ==> l != []
  {
    && Source(k) in g.nodes
    && FanOutFor(g.fanOuts, Source(k)) ==
         (if k < |levels| && |levels[k]| != 1 then Some(FanOut(Source(k), Branches(levels[k]), JoinNode(k))) else None)
    && (k < |levels| ==>
          && (forall b :: b in Branches(levels[k]) ==> b in g.nodes)
          && JoinNode(k) in g.nodes && JoinNode(k) in g.joins && g.joins[JoinNode(k)].next == NextAfter(levels, k))
    && (k == |levels| || |levels[k]| == 1 ==>
        forall s :: Resolve(g.EdgesAt(Source(k)), s) == if levels == [] then End else Entering(levels, k))
  }

  /** What the engine reads at a step or at the sink. */
  ghost predicate PlainPass<S(!new)>(g: GraphValue<S>, n: NodeId, next: NodeId) {
    n in g.nodes && FanOutFor(g.fanOuts, n) == None && forall s :: Resolve(g.EdgesAt(n), s) == next
  }

  lemma SourcePasses<S(!new)>(steps: seq<PlanStep>, parts: Parts<S>, k: nat)
    requires k <= |Levels(steps)|
    ensures LevelShape(Levels(steps))
    ensures SourcePass(Compiled(steps, parts), Levels(steps), k)
  {
    hide Levels, CompiledEdges, CompiledNodes, CompiledFanOuts, CompiledJoins, LevelsApart;
    var levels := Levels(steps);
    LevelsHaveShape(steps);
    SourceEdges<S>(levels, |levels|, k);
    FanOutAtSource(levels, |levels|, k);
    HasNodes(steps, parts, |levels|);
    if k < |levels| {
      JoinAt(levels, |levels|, k);
      LevelIdsExist(steps, k);
      LevelNodes(steps, parts, k);
    }
  }

  lemma LevelIdsExist(steps: seq<PlanStep>, k: nat)
    requires k < |Levels(steps)|
    ensures IdSet(Levels(steps)[k]) <= IdSet(steps)
  {
    DictIsGraph(steps);
    forall id | id in IdSet(Levels(steps)[k]) ensures id in IdSet(steps) {
      assert PlacedAt(Levels(steps), id, k);
      PlacedIsFromInput(DictById(steps), {}, k, id);
    }
  }

  lemma LevelNodes<S>(steps: seq<PlanStep>, parts: Parts<S>, k: nat)
    requires k < |Levels(steps)|
    ensures forall b :: b in Branches(Levels(steps)[k]) ==> b in CompiledNodes(steps, parts, |Levels(steps)|)
  {
    hide Levels, CompiledNodes;
    var level := Levels(steps)[k];
    LevelIdsExist(steps, k);
    HasNodes(steps, parts, |Levels(steps)|);
    forall b | b in Branches(level) ensures b in CompiledNodes(steps, parts, |Levels(steps)|) {
      var i :| 0 <= i < |level| && Branches(level)[i] == b;
      assert level[i].id in IdSet(level);
    }
  }

  lemma StepPasses<S(!new)>(steps: seq<PlanStep>, parts: Parts<S>, k: nat, s: PlanStep)
    requires k < |Levels(steps)| && s in Levels(steps)[k]
    ensures PlainPass(Compiled(steps, parts), StepNode(s.id), JoinNode(k))
  {
    hide Levels, CompiledEdges, CompiledNodes, CompiledFanOuts, CompiledJoins, LevelsApart;
    var levels := Levels(steps);
    LevelsHaveShape(steps);
    assert PlacedAt(levels, s.id, k);
    StepEdges<S>(levels, |levels|, k, s.id);
    FanOutElsewhere(levels, |levels|, StepNode(s.id));
    LevelIdsExist(steps, k);
    HasNodes(steps, parts, |levels|);
  }

  lemma SinkPasses<S(!new)>(steps: seq<PlanStep>, parts: Parts<S>)
    ensures PlainPass(Compiled(steps, parts), SinkNode, End)
  {
    hide Levels, CompiledEdges, CompiledNodes, CompiledFanOuts, CompiledJoins, LevelsApart;
    var levels := Levels(steps);
    LevelsHaveShape(steps);
    SinkEdges<S>(levels, |levels|);
    FanOutElsewhere(levels, |levels|, SinkNode);
    HasNodes(steps, parts, |levels|);
  }

  // --------------------------------------------------------------- the walk

  lemma PlainStep<S(!new)>(g: GraphValue<S>, n: NodeId, next: NodeId, s: S, i: nat)
    requires PlainPass(g, n, next) && n != End && i < g.maxIterations && !g.stop(s)
    ensures Walk(g, n, s, i) == Walk(g, next, g.nodes[n](s), i + 1).After([n])
  {
  }

  /** One fan-out pass: the source, every branch, the join; and on to the first step of the next level. */
  lemma FanOutStep<S(!new)>(g: GraphValue<S>, levels: LevelList, k: nat, s: S, i: nat) returns (s2: S)
    requires LevelShape(levels) && k < |levels| && |levels[k]| != 1 && SourcePass(g, levels, k)
    requires i < g.maxIterations && !g.stop(s)
    ensures Walk(g, Source(k), s, i) ==
            Walk(g, Entering(levels, k + 1), s2, i + 1).After([Source(k)] + Branches(levels[k]) + [JoinNode(k)])
  {
    hide Branches, BranchStates;
    var f := FanOut(Source(k), Branches(levels[k]), JoinNode(k));
    var s1 := g.nodes[Source(k)](s);
    var (second, merged) := Parallelised(g, f, s1);
    s2 := merged;
    assert second == Branches(levels[k]) + [JoinNode(k)];
    assert [Source(k)] + second == [Source(k)] + Branches(levels[k]) + [JoinNode(k)];
  }

  /** From the first step of level k, or from the sink, when the level is not fanned out. */
  lemma {:induction false} FromEntering<S(!new)>(steps: seq<PlanStep>, parts: Parts<S>, k: nat, s: S, i: nat)
    requires LevelShape(Levels(steps)) && k <= |Levels(steps)| && |Levels(steps)| > 0
    requires k < |Levels(steps)| ==> !Fanned(Levels(steps), k)
    requires i + 2 * (|Levels(steps)| - k) + 1 <= Budget(|steps|)
    ensures var levels := Levels(steps); var g := Compiled(steps, parts);
            Follows(g, Walk(g, Entering(levels, k), s, i), Remaining(levels, k), i, 2 * (|levels| - k) + 1)
    decreases |Levels(steps)| - k, 0
  {
    hide Levels, Compiled, Walk, Follows, Budget, LevelsApart;
    var levels, g := Levels(steps), Compiled(steps, parts);
    CompiledSettings(steps, parts);
    var n := Entering(levels, k);
    if g.stop(s) {
      WalkStops(g, n, s, i, Remaining(levels, k), 2 * (|levels| - k) + 1);
    } else if k == |levels| {
      SinkPasses(steps, parts);
      PlainStep(g, n, End, s, i);
      WalkEnds(g, g.nodes[n](s), i + 1);
      FollowsCons(g, Walk(g, End, g.nodes[n](s), i + 1), [], i, 0, [n]);
      assert [n] + [] == Remaining(levels, k);
    } else {
      assert levels[k] in levels;
      StepPasses(steps, parts, k, levels[k][0]);
      PlainStep(g, n, JoinNode(k), s, i);
      var s1 := g.nodes[n](s);
      FromSource(steps, parts, k + 1, s1, i + 1);
      FollowsCons(g, Walk(g, JoinNode(k), s1, i + 1), [JoinNode(k)] + Remaining(levels, k + 1),
                  i, 2 * (|levels| - k), [n]);
      assert [n] + ([JoinNode(k)] + Remaining(levels, k + 1)) == Remaining(levels, k);
    }
  }

  /** From the source of level k, when the level before it was not fanned out. */
  lemma {:induction false} FromSource<S(!new)>(steps: seq<PlanStep>, parts: Parts<S>, k: nat, s: S, i: nat)
    requires LevelShape(Levels(steps)) && k <= |Levels(steps)| && |Levels(steps)| > 0
    requires k > 0 ==> !Fanned(Levels(steps), k - 1)
    requires i + 2 * (|Levels(steps)| - k) + 2 <= Budget(|steps|)
    ensures var levels := Levels(steps); var g := Compiled(steps, parts);
            Follows(g, Walk(g, Source(k), s, i), [Source(k)] + Remaining(levels, k), i, 2 * (|levels| - k) + 2)
    decreases |Levels(steps)| - k, 1
  {
    hide Levels, Compiled, Walk, Follows, Budget, LevelsApart, Entering, Segment;
    var levels, g := Levels(steps), Compiled(steps, parts);
    CompiledSettings(steps, parts);
    if g.stop(s) {
      WalkStops(g, Source(k), s, i, [Source(k)] + Remaining(levels, k), 2 * (|levels| - k) + 2);
    } else {
      SourcePasses(steps, parts, k);
      if k == |levels| || |levels[k]| == 1 {
        PlainStep(g, Source(k), Entering(levels, k), s, i);
        var s1 := g.nodes[Source(k)](s);
        FromEntering(steps, parts, k, s1, i + 1);
        FollowsCons(g, Walk(g, Entering(levels, k), s1, i + 1), Remaining(levels, k),
                    i, 2 * (|levels| - k) + 1, [Source(k)]);
      } else {
        var s2 := FanOutStep(g, levels, k, s, i);
        FromEntering(steps, parts, k + 1, s2, i + 1);
        var head := [Source(k)] + Branches(levels[k]) + [JoinNode(k)];
        FollowsCons(g, Walk(g, Entering(levels, k + 1), s2, i + 1), Remaining(levels, k + 1),
                    i, 2 * (|levels| - k - 1) + 1, head);
        FannedSegment(levels, k);
        assert head + Remaining(levels, k + 1) == [Source(k)] + Remaining(levels, k);
        FollowsLonger(g, Walk(g, Source(k), s, i), [Source(k)] + Remaining(levels, k), i, 2 * (|levels| - k), 2);
      }
    }
  }

  lemma FannedSegment(levels: LevelList, k: nat)
    requires k < |levels| && (forall l :: l in levels ==> l != []) && Fanned(levels, k)
    ensures Segment(levels, k) == Branches(levels[k]) + [JoinNode(k)]
  {
  }

  lemma CompiledSettings<S>(steps: seq<PlanStep>, parts: Parts<S>)
    ensures var g := Compiled(steps, parts);
            g.maxIterations == Budget(|steps|) && g.entry == EntryNode && g.stop == parts.stop
  {
  }

  lemma WalkStops<S>(g: GraphValue<S>, n: NodeId, s: S, i: nat, expected: seq<NodeId>, passes: nat)
    requires g.stop(s) && n != End && i < g.maxIterations
    ensures Follows(g, Walk(g, n, s, i), expected, i, passes)
  {
  }

  lemma WalkEnds<S>(g: GraphValue<S>, s: S, i: nat)
    ensures Follows(g, Walk(g, End, s, i), [], i, 0)
  {
  }

  lemma FollowsLonger<S>(g: GraphValue<S>, t: Trip<S>, expected: seq<NodeId>, from: nat, passes: nat, more: nat)
    requires Follows(g, t, expected, from, passes)
    ensures Follows(g, t, expected, from, passes + more)
  {
  }

  /** Every run of a compiled plan, for any nodes, merge and stop test: it takes exactly the expected walk, all of it
      unless the stop test cuts it short, within 2m + 2 passes for m levels; so the budget is never exhausted and no
      unknown node is ever met. Duplicate ids, cycles and dangling dependencies are included. */
  lemma CompiledRun<S(!new)>(steps: seq<PlanStep>, parts: Parts<S>, s: S)
    ensures var levels := Levels(steps); var g := Compiled(steps, parts);
            && LevelShape(levels) && |levels| <= |steps|
            && Follows(g, Walk(g, g.entry, s, 0), Expected(levels), 0, 2 * |levels| + 2)
            && 2 * |levels| + 2 <= g.maxIterations
  {
    hide Levels, Compiled, Walk, Follows, LevelsApart;
    var levels, g := Levels(steps), Compiled(steps, parts);
    LevelsHaveShape(steps);
    LevelsNonEmpty(steps);
    CompiledSettings(steps, parts);
    if g.stop(s) {
      WalkStops(g, EntryNode, s, 0, Expected(levels), 2 * |levels| + 2);
    } else if levels == [] {
      SourcePasses(steps, parts, 0);
      PlainStep(g, EntryNode, End, s, 0);
      var s1 := g.nodes[EntryNode](s);
      WalkEnds(g, s1, 1);
      FollowsCons(g, Walk(g, End, s1, 1), [], 0, 0, [EntryNode]);
      FollowsLonger(g, Walk(g, EntryNode, s, 0), [EntryNode], 0, 1, 1);
    } else {
      FromSource(steps, parts, 0, s, 0);
    }
  }

  // ---------------------------------------------------- which steps are visited

  /** The steps of a level that a run visits: all of them, or the lowest id alone. */
  predicate Visited(levels: LevelList, k: nat, id: int)
    requires k < |levels| && forall l :: l in levels ==> l != []
  {
    assert levels[k] in levels;
    |levels[k]| == 1 || Fanned(levels, k) || id == levels[k][0].id
  }

  lemma SegmentCount(levels: LevelList, j: nat, k: nat, id: int)
    requires LevelShape(levels) && j < |levels| && PlacedAt(levels, id, k)
    ensures Count(Segment(levels, j), StepNode(id)) == if j == k && Visited(levels, k, id) then 1 else 0
  {
    hide LevelsApart, DistinctIds, Count;
    assert levels[j] in levels;
    var n := StepNode(id);
    var b := if Fanned(levels, j) then Branches(levels[j]) else [StepNode(levels[j][0].id)];
    CountConcat(b, [JoinNode(j)], n);
    assert Count([JoinNode(j)], n) == 0 by { NoDupCount([JoinNode(j)], n); }
    BranchesDistinct(levels[j]);
    NoDupCount(b, n);
    OneLevelBranch(levels, j, k, id);
    BranchMembers(levels[j], levels[j][0].id);
    assert levels[j][0] in levels[j];
    if |levels[j]| == 1 && j == k { SingleBranch(levels[j], id); }
  }

  lemma SingleBranch(level: seq<PlanStep>, id: int)
    requires |level| == 1 && id in IdSet(level)
    ensures id == level[0].id
  {
  }

  lemma {:induction false} RemainingCount(levels: LevelList, m: nat, k: nat, id: int)
    requires LevelShape(levels) && m <= |levels| && PlacedAt(levels, id, k)
    ensures Count(Remaining(levels, m), StepNode(id)) == if m <= k && Visited(levels, k, id) then 1 else 0
    decreases |levels| - m
  {
    hide LevelsApart, DistinctIds, Segment, Visited;
    if m < |levels| {
      SegmentCount(levels, m, k, id);
      RemainingCount(levels, m + 1, k, id);
      CountConcat(Segment(levels, m), Remaining(levels, m + 1), StepNode(id));
    }
  }

  /** A placed step is visited once or never; once exactly when its level is narrow or fanned out, or it is
      the lowest. */
  lemma ExpectedCount(levels: LevelList, k: nat, id: int)
    requires LevelShape(levels) && PlacedAt(levels, id, k)
    ensures Count(Expected(levels), StepNode(id)) == if Visited(levels, k, id) then 1 else 0
  {
    hide LevelsApart, DistinctIds, Visited, Count, Remaining;
    RemainingCount(levels, 0, k, id);
    NoDupCount([EntryNode], StepNode(id));
    CountConcat([EntryNode], Remaining(levels, 0), StepNode(id));
  }

  /** A run of wide levels that starts after a narrow one, or at the start, is fanned out every second level. */
  lemma {:induction false} FannedParity(levels: LevelList, a: nat, k: nat)
    requires a <= k < |levels| && forall j :: a <= j <= k ==> |levels[j]| != 1
    requires a == 0 || |levels[a - 1]| == 1
    ensures Fanned(levels, k) <==> (k - a) % 2 == 0
  {
    if a < k { FannedParity(levels, a, k - 1); }
  }

  predicate NoAdjacentWide(levels: LevelList) {
    forall k :: 0 <= k < |levels| - 1 ==> |levels[k]| == 1 || |levels[k + 1]| == 1
  }

  /** Every placed step is visited if and only if no two adjacent levels are wide. */
  lemma AllVisitedIff(levels: LevelList)
    requires LevelShape(levels)
    ensures NoAdjacentWide(levels) <==> forall k: nat, id :: PlacedAt(levels, id, k) ==> Visited(levels, k, id)
  {
    hide LevelsApart;
    if NoAdjacentWide(levels) {
      forall k: nat, id | PlacedAt(levels, id, k) ensures Visited(levels, k, id) {
        assert levels[k] in levels;
        if k > 0 {
          var j := k - 1;
          assert |levels[j]| == 1 || |levels[j + 1]| == 1;
          assert !Fanned(levels, j) || |levels[k]| == 1;
        }
      }
    } else {
      var k :| 0 <= k < |levels| - 1 && !(|levels[k]| == 1 || |levels[k + 1]| == 1);
      var j := if Fanned(levels, k) then k + 1 else k;
      assert levels[j] in levels;
      var id := levels[j][1].id;
      assert IdOf(levels[j][0]) != IdOf(levels[j][1]);
      assert levels[j][1] in levels[j];
      assert PlacedAt(levels, id, j) && !Visited(levels, j, id);
    }
  }

  // ------------------------------------------------------------------- order

  /** The walk up to level k. */
  function Before(levels: LevelList, k: nat): seq<NodeId>
    requires k <= |levels| && forall l :: l in levels ==> l != []
  {
    if k == 0 then [EntryNode] else Before(levels, k - 1) + Segment(levels, k - 1)
  }

  lemma {:induction false} ExpectedSplit(levels: LevelList, k: nat)
    requires k <= |levels| && levels != [] && forall l :: l in levels ==> l != []
    ensures Expected(levels) == Before(levels, k) + Remaining(levels, k)
  {
    hide Segment;
    if k > 0 {
      var a, b, c := Before(levels, k - 1), Segment(levels, k - 1), Remaining(levels, k);
      ExpectedSplit(levels, k - 1);
      assert Remaining(levels, k - 1) == b + c;
      assert a + (b + c) == (a + b) + c;
    }
  }

  ghost predicate Precedes(visits: seq<NodeId>, a: NodeId, b: NodeId) {
    exists i, j :: 0 <= i < j < |visits| && visits[i] == a && visits[j] == b
  }

  /** Visited steps of lower levels come before visited steps of higher ones. */
  lemma LevelOrder(levels: LevelList, j: nat, k: nat, d: int, id: int)
    requires LevelShape(levels) && j < k && PlacedAt(levels, d, j) && PlacedAt(levels, id, k)
    requires Visited(levels, j, d) && Visited(levels, k, id)
    ensures Precedes(Expected(levels), StepNode(d), StepNode(id))
  {
    hide LevelsApart, DistinctIds, Visited, Count, Before, Remaining, Expected;
    ExpectedSplit(levels, k);
    ExpectedCount(levels, j, d);
    RemainingCount(levels, k, j, d);
    RemainingCount(levels, k, k, id);
    CountConcat(Before(levels, k), Remaining(levels, k), StepNode(d));
    var all, n := Expected(levels), |Before(levels, k)|;
    CountIn(Before(levels, k), StepNode(d));
    CountIn(Remaining(levels, k), StepNode(id));
    var a :| 0 <= a < n && Before(levels, k)[a] == StepNode(d);
    var b :| 0 <= b < |Remaining(levels, k)| && Remaining(levels, k)[b] == StepNode(id);
    assert all[a] == StepNode(d) && all[n + b] == StepNode(id);
  }

  /** The id sits at a level, and is visited once or never as that level says. */
  ghost predicate CountedAtLevel(levels: LevelList, visits: seq<NodeId>, id: int)
    requires forall l :: l in levels ==> l != []
  {
    exists k :: PlacedAt(levels, id, k) && Count(visits, StepNode(id)) == if Visited(levels, k, id) then 1 else 0
  }

  /** The step is visited once, and so is each of its dependencies, before it. */
  ghost predicate OnceInOrder(visits: seq<NodeId>, p: PlanStep) {
    && Count(visits, StepNode(p.id)) == 1
    && forall d :: d in p.Deps() ==> Count(visits, StepNode(d)) == 1 && Precedes(visits, StepNode(d), StepNode(p.id))
  }

  /** A validated plan under a stop test that stays false: the run ends at the end node within 2n + 2 passes; each step
      is visited exactly once if its level is narrow or fanned out or it has the level's lowest id, and otherwise never;
      and a visited step comes after each of its visited dependencies. */
  lemma ValidPlanRun<S(!new)>(steps: seq<PlanStep>, parts: Parts<S>, s: S) returns (trip: Trip<S>)
    requires ContiguousIds(steps) && PriorDependencies(steps) && forall x :: !parts.stop(x)
    ensures trip == Walk(Compiled(steps, parts), EntryNode, s, 0)
    ensures LevelShape(Levels(steps))
    ensures trip.ending == ReachedEnd && trip.iterations <= 2 * |steps| + 2 && trip.visits == Expected(Levels(steps))
    ensures forall p :: p in steps ==> CountedAtLevel(Levels(steps), trip.visits, p.id)
    ensures forall p, d ::
              && p in steps && d in p.Deps()
              && Count(trip.visits, StepNode(p.id)) > 0 && Count(trip.visits, StepNode(d)) > 0
              ==> Precedes(trip.visits, StepNode(d), StepNode(p.id))
  {
    hide Levels, Compiled, Walk, LevelsApart, ContiguousIds, PriorDependencies, Expected, Visited, Count;
    CompiledRun(steps, parts, s);
    CompiledSettings(steps, parts);
    trip := Walk(Compiled(steps, parts), EntryNode, s, 0);
    var levels := Levels(steps);
    forall p | p in steps
      ensures CountedAtLevel(levels, trip.visits, p.id)
    {
      var k := ValidPlanIsPlaced(steps, p);
      assert PlacedAt(levels, p.id, k);
      ExpectedCount(levels, k, p.id);
    }
    forall p, d | p in steps && d in p.Deps()
                  && Count(trip.visits, StepNode(p.id)) > 0 && Count(trip.visits, StepNode(d)) > 0
      ensures Precedes(trip.visits, StepNode(d), StepNode(p.id))
    {
      var k := ValidPlanIsPlaced(steps, p);
      assert PlacedAt(levels, p.id, k);
      ExpectedCount(levels, k, p.id);
      var j :| 0 <= j < k && PlacedAt(levels, d, j);
      ExpectedCount(levels, j, d);
      LevelOrder(levels, j, k, d, p.id);
    }
  }

  /** A validated plan has every step visited exactly once, and after all its dependencies, if and only if no two
      adjacent levels are wide. */
  lemma EveryStepOnceIff<S(!new)>(steps: seq<PlanStep>, parts: Parts<S>, s: S)
    requires ContiguousIds(steps) && PriorDependencies(steps) && forall x :: !parts.stop(x)
    ensures var visits := Walk(Compiled(steps, parts), EntryNode, s, 0).visits;
            NoAdjacentWide(Levels(steps)) <==> forall p :: p in steps ==> OnceInOrder(visits, p)
  {
    hide Levels, Compiled, Walk, LevelsApart, Expected, Visited, Count, NoAdjacentWide, Precedes;
    var trip := ValidPlanRun(steps, parts, s);
    var levels, visits := Levels(steps), trip.visits;
    AllVisitedIff(levels);
    if NoAdjacentWide(levels) {
      forall p | p in steps ensures Count(visits, StepNode(p.id)) == 1 {
        assert CountedAtLevel(levels, visits, p.id);
      }
      forall p | p in steps ensures OnceInOrder(visits, p) {
        forall d | d in p.Deps()
          ensures Count(visits, StepNode(d)) == 1 && Precedes(visits, StepNode(d), StepNode(p.id))
        {
          var q := DependencyStep(steps, p, d);
          assert Count(visits, StepNode(q.id)) == 1;
        }
      }
    }
    if forall p :: p in steps ==> OnceInOrder(visits, p) {
      forall k: nat, id | PlacedAt(levels, id, k) ensures Visited(levels, k, id) {
        ExpectedCount(levels, k, id);
        LevelIdsExist(steps, k);
        var p :| p in steps && p.id == id;
        assert OnceInOrder(visits, p);
      }
    }
  }

  lemma DependencyStep(steps: seq<PlanStep>, p: PlanStep, d: int) returns (q: PlanStep)
    requires ContiguousIds(steps) && PriorDependencies(steps) && p in steps && d in p.Deps()
    ensures q in steps && q.id == d
  {
    assert PriorStep(p);
    ContiguousCovers(steps);
    assert p.id in IdSet(steps);
    assert d in IdSet(steps);
    q :| q in steps && q.id == d;
  }
}
