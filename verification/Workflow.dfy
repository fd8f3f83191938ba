/** The macro graph with its critic and replan loop (graph/runtime/workflow.py, graph/runtime/nodes.py). */
module Workflow {
  import opened Sequences
  import opened GraphEngine

  /** What the macro graph reads of the agent state; `data` is everything else, the critic's future answers included.
      `controllerAttempts` is the replanning controller's own counter, which outlives a run. */
  datatype Macro<D> = Macro(
    data: D, hasPlan: bool, critique: Option<bool>, replanAttempts: int, controllerAttempts: int, shouldStop: bool)

  /** Arbitrary node effects and critic answers; `limit` is the controller's max_replan_attempts. */
  datatype Deps<!D> = Deps(
    work: (NodeId, D) -> D, criticEnabled: bool, needReplan: D -> bool, replanEnabled: bool, limit: int)

  function Fresh<D>(data: D, controllerAttempts: int): Macro<D> {
    Macro(data, false, None, 0, controllerAttempts, false)
  }

  // -------------------------------------------------------------------- nodes

  /** `ReplanningController.handle`, as far as its counter goes. */
  function AttemptsAfter<D>(deps: Deps<D>, critique: bool, attempts: int): int {
    if critique && deps.replanEnabled && attempts < deps.limit then attempts + 1 else attempts
  }

  function Effect<D>(deps: Deps<D>, n: NodeId, s: Macro<D>): Macro<D> {
    var worked := s.(data := deps.work(n, s.data));
    match n
    case Planner => worked.(hasPlan := true)
    case CompilePlan => if s.hasPlan then worked else s
    case Router => if s.hasPlan then worked else s
    case Execution => if s.hasPlan then worked else s
    case Critic =>
      if s.hasPlan && deps.criticEnabled then worked.(critique := Some(deps.needReplan(worked.data))) else s
    case Replanner =>
      if s.hasPlan && s.critique.Some? then
        var attempts := AttemptsAfter(deps, s.critique.value, s.controllerAttempts);
        worked.(controllerAttempts := attempts, replanAttempts := attempts)
      else s
    case Finalize => worked.(shouldStop := true)
    case _ => worked
  }

  function NodeFn<D>(deps: Deps<D>, n: NodeId): Macro<D> -> Macro<D> {
    (s: Macro<D>) => Effect(deps, n, s)
  }

  function ShouldStop<D>(): Macro<D> -> bool {
    (s: Macro<D>) => s.shouldStop
  }

  function ShouldGoOn<D>(): Macro<D> -> bool {
    (s: Macro<D>) => !s.shouldStop
  }

  predicate WantsReplan<D>(deps: Deps<D>, s: Macro<D>) {
    s.critique.Some? && s.critique.value && s.replanAttempts < deps.limit
  }

  function NeedReplan<D>(deps: Deps<D>): Macro<D> -> bool {
    (s: Macro<D>) => WantsReplan(deps, s)
  }

  /** The macro graph has no fan-out, so nothing is ever merged. */
  function NoMerge<D>(): (Macro<D>, seq<Macro<D>>) -> Macro<D> {
    (s: Macro<D>, branches: seq<Macro<D>>) => s
  }

  const MACRO_NODES: seq<NodeId> :=
    [MemoryLoad, Planner, CompilePlan, Router, Execution, MemoryPersist, Critic, Replanner, Finalize]

  function NodeTable<D>(deps: Deps<D>, k: nat): map<NodeId, Macro<D> -> Macro<D>>
    requires k <= |MACRO_NODES|
  {
    if k == 0 then map[] else NodeTable(deps, k - 1)[MACRO_NODES[k - 1] := NodeFn(deps, MACRO_NODES[k - 1])]
  }

  function Plain<D>(target: NodeId): seq<Edge<Macro<D>>> {
    [Edge(target, None, Direct)]
  }

  function StraightEdges<D>(): map<NodeId, seq<Edge<Macro<D>>>> {
    map[MemoryLoad := Plain(Planner), Planner := Plain(CompilePlan), CompilePlan := Plain(Router),
        Router := Plain(Execution), Execution := Plain(MemoryPersist), Finalize := Plain(MemoryPersist)]
  }

  function RoutingEdges<D>(deps: Deps<D>): map<NodeId, seq<Edge<Macro<D>>>> {
    map[MemoryPersist := [Edge(End, Some(ShouldStop()), Conditional), Edge(Critic, None, Conditional)],
        Critic := [Edge(Replanner, Some(NeedReplan(deps)), Loop), Edge(Finalize, None, Conditional)],
        Replanner := [Edge(Router, Some(ShouldGoOn()), Loop)]]
  }

  function EdgeTable<D>(deps: Deps<D>): map<NodeId, seq<Edge<Macro<D>>>> {
    StraightEdges() + RoutingEdges(deps)
  }

  function MacroGraph<D>(deps: Deps<D>, max: int): GraphValue<Macro<D>> {
    GraphValue(MemoryLoad, ShouldStop(), max, NoMerge(), NodeTable(deps, |MACRO_NODES|), EdgeTable(deps), [], map[])
  }

  /** `AgentWorkflowBuilder.build` */
  method Build<D>(deps: Deps<D>, max: int) returns (graph: Graph<Macro<D>>)
    ensures fresh(graph) && graph.Value() == MacroGraph(deps, max)
  {
    graph := new Graph(MemoryLoad, ShouldStop(), max, NoMerge());
    for k := 0 to |MACRO_NODES|
      invariant fresh(graph) && graph.nodes == NodeTable(deps, k)
      invariant graph.edges == map[] && graph.fanOuts == [] && graph.joins == map[]
    {
      graph.AddNode(MACRO_NODES[k], NodeFn(deps, MACRO_NODES[k]));
    }
    AddStraightEdges(graph);
    AddRoutingEdges(graph, deps);
  }

  method AddStraightEdges<D>(graph: Graph<Macro<D>>)
    requires graph.edges == map[]
    modifies graph`edges
    ensures graph.edges == StraightEdges()
  {
    hide Appended;
    FirstEdge<Macro<D>>();
    graph.AddEdge(MemoryLoad, Planner, Direct);
    graph.AddEdge(Planner, CompilePlan, Direct);
    graph.AddEdge(CompilePlan, Router, Direct);
    graph.AddEdge(Router, Execution, Direct);
    graph.AddEdge(Execution, MemoryPersist, Direct);
    graph.AddEdge(Finalize, MemoryPersist, Direct);
  }

  lemma FirstEdge<S>()
    ensures forall edges: map<NodeId, seq<Edge<S>>>, n, e :: n !in edges ==> Appended(edges, n, e) == edges[n := [e]]
  {
    forall edges: map<NodeId, seq<Edge<S>>>, n, e | n !in edges ensures Appended(edges, n, e) == edges[n := [e]] {
      assert At(edges, n) + [e] == [e];
    }
  }

  lemma SecondEdge<S>(edges: map<NodeId, seq<Edge<S>>>, n: NodeId, a: Edge<S>, b: Edge<S>)
    requires n !in edges
    ensures Appended(Appended(edges, n, a), n, b) == edges[n := [a, b]]
  {
    assert At(edges, n) + [a] == [a];
    assert [a] + [b] == [a, b];
  }

  method AddRoutingEdges<D>(graph: Graph<Macro<D>>, deps: Deps<D>)
    requires forall n :: n in graph.edges ==> n !in RoutingEdges(deps)
    modifies graph`edges
    ensures graph.edges == old(graph.edges) + RoutingEdges(deps)
  {
    hide Appended;
    FirstEdge<Macro<D>>();
    var stop := Edge(End, Some(ShouldStop<D>()), Conditional);
    var replan := Edge(Replanner, Some(NeedReplan(deps)), Loop);
    SecondEdge(graph.edges, MemoryPersist, stop, Edge(Critic, None, Conditional));
    graph.AddConditionalEdge(MemoryPersist, stop.target, stop.condition, stop.kind);
    graph.AddConditionalEdge(MemoryPersist, Critic, None, Conditional);
    SecondEdge(graph.edges, Critic, replan, Edge(Finalize, None, Conditional));
    graph.AddConditionalEdge(Critic, replan.target, replan.condition, replan.kind);
    graph.AddConditionalEdge(Critic, Finalize, None, Conditional);
    graph.AddConditionalEdge(Replanner, Router, Some(ShouldGoOn()), Loop);
  }

  // ------------------------------------------------------------ passes and legs

  function NextOf<D>(deps: Deps<D>, n: NodeId, s: Macro<D>): NodeId {
    match n
    case MemoryLoad => Planner
    case Planner => CompilePlan
    case CompilePlan => Router
    case Router => Execution
    case Execution => MemoryPersist
    case MemoryPersist => if s.shouldStop then End else Critic
    case Critic => if WantsReplan(deps, s) then Replanner else Finalize
    case Replanner => if s.shouldStop then End else Router
    case Finalize => MemoryPersist
    case _ => End
  }

  lemma {:induction false} NodeTableAt<D>(deps: Deps<D>, k: nat, n: NodeId)
    requires k <= |MACRO_NODES|
    ensures n in NodeTable(deps, k) <==> n in MACRO_NODES[..k]
    ensures n in NodeTable(deps, k) ==> NodeTable(deps, k)[n] == NodeFn(deps, n)
  {
    if k > 0 {
      NodeTableAt(deps, k - 1, n);
      assert MACRO_NODES[..k] == MACRO_NODES[..k - 1] + [MACRO_NODES[k - 1]];
    }
  }

  lemma EdgesLead<D>(deps: Deps<D>, n: NodeId, s: Macro<D>)
    ensures Resolve(At(EdgeTable(deps), n), s) == NextOf(deps, n, s)
  {
    hide WantsReplan, Resolve, NextOf, StraightEdges, RoutingEdges;
    if n in RoutingEdges(deps) {
      RoutingLeads(deps, n, s);
    } else {
      StraightLeads(deps, n, s);
    }
  }

  lemma StraightLeads<D>(deps: Deps<D>, n: NodeId, s: Macro<D>)
    requires n !in RoutingEdges(deps)
    ensures Resolve(At(StraightEdges<D>(), n), s) == NextOf(deps, n, s)
  {
    hide WantsReplan, Resolve;
    if n in StraightEdges<D>() { ResolveOne(StraightEdges<D>()[n][0], s); } else { ResolveNone<Macro<D>>(s); }
  }

  lemma RoutingLeads<D>(deps: Deps<D>, n: NodeId, s: Macro<D>)
    requires n in RoutingEdges(deps)
    ensures Resolve(RoutingEdges(deps)[n], s) == NextOf(deps, n, s)
  {
    hide WantsReplan, Resolve;
    var es := RoutingEdges(deps)[n];
    if |es| == 2 { ResolveTwo(es[0], es[1], s); } else { ResolveOne(es[0], s); }
  }

  lemma ResolveNone<S>(s: S)
    ensures Resolve([], s) == End
  {
  }

  lemma ResolveOne<S>(a: Edge<S>, s: S)
    requires a.kind != Parallel
    ensures Resolve([a], s) == if a.Matches(s) then a.target else End
  {
  }

  lemma ResolveTwo<S>(a: Edge<S>, b: Edge<S>, s: S)
    requires a.kind != Parallel && b.kind != Parallel
    ensures Resolve([a, b], s) == if a.Matches(s) then a.target else if b.Matches(s) then b.target else End
  {
    assert [a, b][1..] == [b];
    ResolveOne(b, s);
  }

  lemma Pass<D>(deps: Deps<D>, max: nat, n: NodeId, s: Macro<D>, i: nat)
    requires n in MACRO_NODES && i < max && !s.shouldStop
    ensures var s1 := Effect(deps, n, s);
            Walk(MacroGraph(deps, max), n, s, i) ==
              Walk(MacroGraph(deps, max), NextOf(deps, n, s1), s1, i + 1).After([n])
  {
    hide Walk, EdgeTable, NextOf, Effect;
    var g := MacroGraph(deps, max);
    assert MACRO_NODES[..|MACRO_NODES|] == MACRO_NODES;
    NodeTableAt(deps, |MACRO_NODES|, n);
    OnePass(g, n, s, i);
    EdgesLead(deps, n, g.nodes[n](s));
  }

  lemma OutOfBudget<D>(deps: Deps<D>, max: nat, n: NodeId, s: Macro<D>)
    requires n != End
    ensures Walk(MacroGraph(deps, max), n, s, max) == Trip([], s, max, OutOfIterations)
  {
  }

  /** Passes before the critic is reached from a node that is neither the critic nor the last one. */
  function Ahead(n: NodeId): nat {
    match n
    case MemoryLoad => 6 case Planner => 5 case CompilePlan => 4 case Replanner => 4
    case Router => 3 case Execution => 2 case MemoryPersist => 1 case _ => 0
  }

  function Successor(n: NodeId): NodeId {
    match n
    case MemoryLoad => Planner case Planner => CompilePlan case CompilePlan => Router case Replanner => Router
    case Router => Execution case Execution => MemoryPersist case _ => Critic
  }

  /** The nodes from here up to the critic. */
  function Path(n: NodeId): (r: seq<NodeId>)
    ensures |r| == Ahead(n)
    decreases Ahead(n)
  {
    if Ahead(n) == 0 then [] else [n] + Path(Successor(n))
  }

  /** The state in which the critic is reached. */
  function AtCritic<D>(deps: Deps<D>, n: NodeId, s: Macro<D>): Macro<D>
    decreases Ahead(n)
  {
    if Ahead(n) == 0 then s else AtCritic(deps, Successor(n), Effect(deps, n, s))
  }

  /** From any node on the way to the critic: there in `Ahead(n)` passes, or out of passes before. */
  lemma {:induction false} Leg<D>(deps: Deps<D>, max: nat, n: NodeId, s: Macro<D>, i: nat)
    requires (Ahead(n) > 0 || n == Critic) && !s.shouldStop && i <= max
    ensures var g := MacroGraph(deps, max); var t := Walk(g, n, s, i);
            if i + Ahead(n) <= max
            then t == Walk(g, Critic, AtCritic(deps, n, s), i + Ahead(n)).After(Path(n))
                 && !AtCritic(deps, n, s).shouldStop
            else t.ending == OutOfIterations && t.iterations == max && t.visits == Path(n)[..max - i]
                 && !t.state.shouldStop
    decreases Ahead(n)
  {
    hide Walk, MacroGraph, WantsReplan;
    var g := MacroGraph(deps, max);
    if Ahead(n) == 0 {
      NothingBefore(Walk(g, Critic, s, i));
    } else if i == max {
      OutOfBudget(deps, max, n, s);
    } else {
      LegPass(deps, max, n, s, i);
      var m, s1 := Successor(n), Effect(deps, n, s);
      Leg(deps, max, m, s1, i + 1);
      if i + Ahead(n) <= max {
        AfterAfter(Walk(g, Critic, AtCritic(deps, m, s1), i + Ahead(n)), [n], Path(m));
      } else {
        assert [n] + Path(m)[..max - i - 1] == ([n] + Path(m))[..max - i];
      }
    }
  }

  lemma NothingBefore<S>(t: Trip<S>)
    ensures t == t.After([])
  {
    assert [] + t.visits == t.visits;
  }

  lemma LegPass<D>(deps: Deps<D>, max: nat, n: NodeId, s: Macro<D>, i: nat)
    requires Ahead(n) > 0 && !s.shouldStop && i < max
    ensures var g, m, s1 := MacroGraph(deps, max), Successor(n), Effect(deps, n, s);
            && Walk(g, n, s, i) == Walk(g, m, s1, i + 1).After([n]) && !s1.shouldStop
            && Ahead(n) == Ahead(m) + 1 && (Ahead(m) > 0 || m == Critic)
  {
    hide Walk, MacroGraph, WantsReplan;
    Pass(deps, max, n, s, i);
  }

  // -------------------------------------------------------- rounds of the loop

  /** The state in which the critic is reached for the r-th time, replanning after each visit before. */
  function Round<D>(deps: Deps<D>, s: Macro<D>, r: nat): Macro<D>
    decreases r
  {
    if r == 0 then s else Round(deps, AtCritic(deps, Replanner, Effect(deps, Critic, s)), r - 1)
  }

  /** After its r-th visit the critic sends the run to the replanner. */
  predicate Asks<D>(deps: Deps<D>, s: Macro<D>, r: nat) {
    WantsReplan(deps, Effect(deps, Critic, Round(deps, s, r)))
  }

  function Loops(r: nat): seq<NodeId> {
    if r == 0 then [] else [Critic] + Path(Replanner) + Loops(r - 1)
  }

  /** What a run does after `r` replans: it is finalized and stopped at once, or it was out of passes before that. */
  ghost predicate Ends<D>(t: Trip<Macro<D>>, max: nat, r: nat, last: nat) {
    && Count(t.visits, Replanner) == r
    && (Finalize in t.visits <==> last <= max)
    && t.state.shouldStop == (last <= max)
    && (last <= max ==>
          t.visits == Loops(r) + [Critic, Finalize] && t.iterations == last
          && t.ending == if last < max then EarlyStop else OutOfIterations)
    && (last > max ==> t.ending == OutOfIterations && t.iterations == max)
  }

  lemma PathOfReplanner()
    ensures Path(Replanner) == [Replanner, Router, Execution, MemoryPersist]
    ensures forall k :: 1 <= k <= 4 ==>
              Path(Replanner)[..k] == [Replanner] + [Router, Execution, MemoryPersist][..k - 1]
  {
    assert Path(MemoryPersist) == [MemoryPersist] && Path(Execution) == [Execution, MemoryPersist];
    assert Path(Router) == [Router, Execution, MemoryPersist];
  }

  lemma EndsAfterLoop<D>(t: Trip<Macro<D>>, max: nat, r: nat, last: nat)
    requires Ends(t, max, r, last)
    ensures Ends(t.After([Critic] + Path(Replanner)), max, r + 1, last)
  {
    hide Path, Count, Loops;
    var loop := [Critic] + Path(Replanner);
    OneLoop();
    LoopsCons(r);
    CountConcat(loop, t.visits, Replanner);
    assert loop + (Loops(r) + [Critic, Finalize]) == (loop + Loops(r)) + [Critic, Finalize];
  }

  lemma LoopsCons(r: nat)
    ensures Loops(r + 1) == [Critic] + Path(Replanner) + Loops(r)
  {
  }

  lemma OneLoop()
    ensures var loop := [Critic] + Path(Replanner); Count(loop, Replanner) == 1 && Finalize !in loop
  {
    hide Path, Count;
    PathOfReplanner();
    var loop := [Critic, Replanner, Router, Execution, MemoryPersist];
    assert [Critic] + Path(Replanner) == loop;
    assert NoDup(loop);
    NoDupCount(loop, Replanner);
    assert loop[1] == Replanner;
  }

  lemma EndsInLeg<D>(t: Trip<Macro<D>>, max: nat, k: nat, last: nat)
    requires k < 4 && t.visits == [Critic] + Path(Replanner)[..k] && last > max
    requires !t.state.shouldStop && t.ending == OutOfIterations && t.iterations == max
    ensures Ends(t, max, if k == 0 then 0 else 1, last)
  {
    hide Path;
    PathOfReplanner();
    if k == 0 { assert Path(Replanner)[..0] == []; }
    NoDupCount(t.visits, Replanner);
  }

  lemma FinalizeAndStop<D>(deps: Deps<D>, max: nat, s: Macro<D>, i: nat)
    requires i <= max && !s.shouldStop
    ensures var t := Walk(MacroGraph(deps, max), Finalize, s, i);
            if i == max then t == Trip([], s, max, OutOfIterations)
            else t.visits == [Finalize] && t.state.shouldStop && t.iterations == i + 1 &&
                 t.ending == if i + 1 < max then EarlyStop else OutOfIterations
  {
    hide EdgeTable, NodeTable;
    if i == max {
      OutOfBudget(deps, max, Finalize, s);
    } else {
      Pass(deps, max, Finalize, s, i);
      assert [Finalize] + [] == [Finalize];
    }
  }

  lemma EndsWithFinalize<D>(t: Trip<Macro<D>>, max: nat, i: nat, u: Trip<Macro<D>>)
    requires t == u.After([Critic]) && i < max
    requires if i + 1 == max
             then u.visits == [] && !u.state.shouldStop && u.iterations == max && u.ending == OutOfIterations
             else u.visits == [Finalize] && u.state.shouldStop && u.iterations == i + 2 &&
                  u.ending == if i + 2 < max then EarlyStop else OutOfIterations
    ensures Ends(t, max, 0, i + 2)
  {
    NoDupCount(t.visits, Replanner);
  }

  /** From the critic: replans while it asks; `r` counts the replans done, and each was asked for. */
  lemma {:induction false} FromCritic<D>(deps: Deps<D>, max: nat, s: Macro<D>, i: nat) returns (r: nat)
    requires i <= max && !s.shouldStop
    ensures forall q: nat :: q < r ==> Asks(deps, s, q)
    ensures i + 5 * r + 2 <= max ==> !Asks(deps, s, r)
    ensures Ends(Walk(MacroGraph(deps, max), Critic, s, i), max, r, i + 5 * r + 2)
    decreases max - i
  {
    hide Walk, MacroGraph, AtCritic, Path, Ends, WantsReplan, Ahead;
    r := 0;
    var g := MacroGraph(deps, max);
    var judged := Effect(deps, Critic, s);
    if i == max {
      OutOfBudget(deps, max, Critic, s);
      EndsAtOnce(Walk(g, Critic, s, i), max);
    } else if !WantsReplan(deps, judged) {
      Pass(deps, max, Critic, s, i);
      FinalizeAndStop(deps, max, judged, i + 1);
      EndsWithFinalize(Walk(g, Critic, s, i), max, i, Walk(g, Finalize, judged, i + 1));
    } else {
      Pass(deps, max, Critic, s, i);
      assert Asks(deps, s, 0);
      r := FromReplanner(deps, max, s, i);
    }
  }

  lemma EndsAtOnce<D>(t: Trip<Macro<D>>, max: nat)
    requires t.visits == [] && !t.state.shouldStop && t.iterations == max && t.ending == OutOfIterations
    ensures Ends(t, max, 0, max + 2)
  {
  }

  lemma {:induction false} FromReplanner<D>(deps: Deps<D>, max: nat, s: Macro<D>, i: nat) returns (r: nat)
    requires i < max && !s.shouldStop && Asks(deps, s, 0)
    requires var g, judged := MacroGraph(deps, max), Effect(deps, Critic, s);
             Walk(g, Critic, s, i) == Walk(g, Replanner, judged, i + 1).After([Critic])
    ensures forall q: nat :: q < r ==> Asks(deps, s, q)
    ensures i + 5 * r + 2 <= max ==> !Asks(deps, s, r)
    ensures Ends(Walk(MacroGraph(deps, max), Critic, s, i), max, r, i + 5 * r + 2)
    decreases max - i, 0
  {
    hide Walk, MacroGraph, AtCritic, Path, Ends, WantsReplan;
    var g, judged := MacroGraph(deps, max), Effect(deps, Critic, s);
    var t := Walk(g, Critic, s, i);
    Leg(deps, max, Replanner, judged, i + 1);
    if i + 5 <= max {
      var next := AtCritic(deps, Replanner, judged);
      var later := FromCritic(deps, max, next, i + 5);
      r := later + 1;
      assert forall q: nat :: Asks(deps, s, q + 1) == Asks(deps, next, q);
      assert forall q: nat :: 0 < q ==> Asks(deps, s, q) == Asks(deps, next, q - 1);
      AfterAfter(Walk(g, Critic, next, i + 5), [Critic], Path(Replanner));
      EndsAfterLoop(Walk(g, Critic, next, i + 5), max, later, i + 5 + 5 * later + 2);
    } else {
      r := if i + 1 == max then 0 else 1;
      EndsInLeg(t, max, max - i - 1, i + 5 * r + 2);
    }
  }

  // ------------------------------------------------------------------ results

  /** The first time the critic is reached. */
  function FirstJudged<D>(deps: Deps<D>, start: Macro<D>): Macro<D> {
    AtCritic(deps, MemoryLoad, start)
  }

  /** Every run, for any pass limit: after exactly as many replans as were asked for it is finalized and stopped,
      nothing running after `finalize`; or the pass limit cut it short. */
  lemma MacroRun<D>(deps: Deps<D>, max: int, start: Macro<D>) returns (r: nat)
    requires !start.shouldStop
    ensures var t := Walk(MacroGraph(deps, max), MemoryLoad, start, 0);
            && Count(t.visits, Replanner) == r
            && (forall q: nat :: q < r ==> Asks(deps, FirstJudged(deps, start), q))
            && (8 + 5 * r <= max ==> !Asks(deps, FirstJudged(deps, start), r))
            && (Finalize in t.visits <==> 8 + 5 * r <= max)
            && (t.state.shouldStop <==> Finalize in t.visits)
            && (Finalize in t.visits ==>
                  t.visits == Path(MemoryLoad) + Loops(r) + [Critic, Finalize] && t.iterations == 8 + 5 * r
                  && t.ending == if 8 + 5 * r < max then EarlyStop else OutOfIterations)
            && (Finalize !in t.visits ==> t.ending == OutOfIterations && t.iterations == if max >= 0 then max else 0)
  {
    hide Walk, MacroGraph, AtCritic, Asks;
    hide Ends, Count, Path, Loops, Ahead;
    var first := FirstJudged(deps, start);
    if max >= 6 {
      assert Ahead(MemoryLoad) == 6 by { SixAhead(); }
      Leg(deps, max, MemoryLoad, start, 0);
      r := FromCritic(deps, max, first, 6);
      AfterLoad(Walk(MacroGraph(deps, max), Critic, first, 6), max, r, 8 + 5 * r);
    } else {
      r := 0;
      ShortRun(deps, max, start);
    }
  }

  /** Fewer passes than it takes to reach the critic. */
  lemma ShortRun<D>(deps: Deps<D>, max: int, start: Macro<D>)
    requires !start.shouldStop && max < 6
    ensures var t := Walk(MacroGraph(deps, max), MemoryLoad, start, 0);
            && Count(t.visits, Replanner) == 0 && Finalize !in t.visits && !t.state.shouldStop
            && t.ending == OutOfIterations && t.iterations == if max >= 0 then max else 0
  {
    hide Walk, MacroGraph, Count, Path, Ahead, AtCritic;
    if max >= 0 {
      SixAhead();
      Leg(deps, max, MemoryLoad, start, 0);
      OpeningPrefix(max);
    } else {
      NoPass(deps, max, start);
      NoDupCount([], Replanner);
    }
  }

  lemma OpeningPrefix(n: nat)
    requires n < 6
    ensures Count(Path(MemoryLoad)[..n], Replanner) == 0 && Finalize !in Path(MemoryLoad)[..n]
  {
    hide Path, Count;
    PathOfLoad();
    NoDupCount(Path(MemoryLoad)[..n], Replanner);
  }

  lemma NoPass<D>(deps: Deps<D>, max: int, start: Macro<D>)
    requires max < 0
    ensures Walk(MacroGraph(deps, max), MemoryLoad, start, 0) == Trip([], start, 0, OutOfIterations)
  {
  }

  lemma SixAhead()
    ensures Ahead(MemoryLoad) == 6
  {
  }

  lemma AfterLoad<D>(u: Trip<Macro<D>>, max: nat, r: nat, last: nat)
    requires Ends(u, max, r, last)
    ensures var t := u.After(Path(MemoryLoad));
            && Count(t.visits, Replanner) == r
            && (Finalize in t.visits <==> last <= max) && (t.state.shouldStop <==> Finalize in t.visits)
            && (Finalize in t.visits ==>
                  t.visits == Path(MemoryLoad) + Loops(r) + [Critic, Finalize] && t.iterations == last
                  && t.ending == if last < max then EarlyStop else OutOfIterations)
            && (Finalize !in t.visits ==> t.ending == OutOfIterations && t.iterations == max)
  {
    hide Path, Count, Loops;
    PathOfLoad();
    CountConcat(Path(MemoryLoad), u.visits, Replanner);
    NoDupCount(Path(MemoryLoad), Replanner);
    assert Path(MemoryLoad) + (Loops(r) + [Critic, Finalize]) == Path(MemoryLoad) + Loops(r) + [Critic, Finalize];
  }

  lemma PathOfLoad()
    ensures Path(MemoryLoad) == [MemoryLoad, Planner, CompilePlan, Router, Execution, MemoryPersist]
  {
    assert Path(MemoryPersist) == [MemoryPersist] && Path(Execution) == [Execution, MemoryPersist];
    assert Path(Router) == [Router, Execution, MemoryPersist];
    assert Path(CompilePlan) == [CompilePlan] + Path(Router);
    assert Path(Planner) == [Planner] + Path(CompilePlan);
  }

  /** A run reaches `finalize` if and only if the critic stops asking after some number of replans that fit
      the limit. */
  lemma FinalizedIff<D>(deps: Deps<D>, max: int, start: Macro<D>)
    requires !start.shouldStop
    ensures Finalize in Walk(MacroGraph(deps, max), MemoryLoad, start, 0).visits <==>
            exists r: nat :: 8 + 5 * r <= max && !Asks(deps, FirstJudged(deps, start), r)
  {
    hide Walk, MacroGraph, AtCritic, Asks;
    var r := MacroRun(deps, max, start);
    if r1: nat :| 8 + 5 * r1 <= max && !Asks(deps, FirstJudged(deps, start), r1) {
      assert r1 >= r;
    }
  }

  // ---------------------------------------------------- enabled and disabled

  /** What one replan does to the counters, wherever the work goes. */
  lemma {:induction false} LegCounters<D>(deps: Deps<D>, n: NodeId, s: Macro<D>)
    requires Ahead(n) > 0 || n == Critic
    ensures var c := AtCritic(deps, n, s); var e := if n == Replanner then Effect(deps, Replanner, s) else s;
            && c.replanAttempts == e.replanAttempts && c.controllerAttempts == e.controllerAttempts
            && c.critique == e.critique
            && c.hasPlan == (s.hasPlan || n == MemoryLoad || n == Planner)
    decreases Ahead(n)
  {
    if Ahead(n) > 0 { LegCounters(deps, Successor(n), Effect(deps, n, s)); }
  }

  /** Enabled controller: after r rounds that were all asked for, both counters agree and have grown by r or
      hit the limit. */
  lemma {:induction false} Counters<D>(deps: Deps<D>, s: Macro<D>, r: nat)
    requires s.hasPlan && s.replanAttempts == 0 && s.controllerAttempts >= 0 && r >= 1
    requires forall q: nat :: q < r ==> Asks(deps, s, q)
    ensures var c := Round(deps, s, r); var a := s.controllerAttempts;
            && c.hasPlan && c.replanAttempts == c.controllerAttempts
            && c.controllerAttempts ==
                if deps.replanEnabled && a < deps.limit then (if a + r <= deps.limit then a + r else deps.limit)
                else a
  {
    RoundSnoc(deps, s, r - 1);
    var before := Round(deps, s, r - 1);
    if r > 1 { Counters(deps, s, r - 1); }
    assert Asks(deps, s, r - 1);
    LegCounters(deps, Replanner, Effect(deps, Critic, before));
  }

  lemma {:induction false} RoundSnoc<D>(deps: Deps<D>, s: Macro<D>, r: nat)
    ensures Round(deps, s, r + 1) == AtCritic(deps, Replanner, Effect(deps, Critic, Round(deps, s, r)))
    decreases r
  {
    if r > 0 { RoundSnoc(deps, AtCritic(deps, Replanner, Effect(deps, Critic, s)), r - 1); }
  }

  /** Enabled controller: at most max(limit, 0) replans are asked for, whatever the critic answers. */
  lemma ReplansBounded<D>(deps: Deps<D>, data: D, attempts: nat, r: nat)
    requires deps.replanEnabled
    requires forall q: nat :: q < r ==> Asks(deps, FirstJudged(deps, Fresh(data, attempts)), q)
    ensures r <= if deps.limit >= 0 then deps.limit else 0
  {
    var s := FirstJudged(deps, Fresh(data, attempts));
    LegCounters(deps, MemoryLoad, Fresh(data, attempts));
    if r >= 1 {
      assert Asks(deps, s, 0);
      if r >= 2 {
        Counters(deps, s, r - 1);
        assert Asks(deps, s, r - 1);
      }
    }
  }

  /** Liveness: with an enabled controller, any critic and any node work, the replanner is visited at most M times; and
      with at least 8 + 5M passes the run reaches `finalize`, as its last node, with should_stop set. */
  lemma MacroLiveness<D>(deps: Deps<D>, max: int, data: D, attempts: nat)
    requires deps.replanEnabled
    ensures var t := Walk(MacroGraph(deps, max), MemoryLoad, Fresh(data, attempts), 0);
            var m := if deps.limit >= 0 then deps.limit else 0;
            && Count(t.visits, Replanner) <= m
            && (max >= 8 + 5 * m ==>
                  |t.visits| > 0 && t.visits[|t.visits| - 1] == Finalize && t.state.shouldStop
                  && t.iterations <= 8 + 5 * m)
  {
    hide Walk, MacroGraph, AtCritic, Asks;
    var r := MacroRun(deps, max, Fresh(data, attempts));
    ReplansBounded(deps, data, attempts, r);
  }

  /** Disabled controller: a critic that always asks is replanned for ever; no pass limit lets the run be finalized. */
  lemma DisabledNeverFinalizes<D>(deps: Deps<D>, max: int, data: D, attempts: nat)
    requires !deps.replanEnabled && deps.criticEnabled && attempts < deps.limit
    requires forall d :: deps.needReplan(d)
    ensures var t := Walk(MacroGraph(deps, max), MemoryLoad, Fresh(data, attempts), 0);
            && Finalize !in t.visits && !t.state.shouldStop
            && t.ending == OutOfIterations && t.iterations == if max >= 0 then max else 0
  {
    hide Walk, MacroGraph;
    var s := FirstJudged(deps, Fresh(data, attempts));
    LegCounters(deps, MemoryLoad, Fresh(data, attempts));
    var r := MacroRun(deps, max, Fresh(data, attempts));
    AlwaysAsks(deps, s, r);
  }

  lemma {:induction false} AlwaysAsks<D>(deps: Deps<D>, s: Macro<D>, r: nat)
    requires !deps.replanEnabled && deps.criticEnabled && (forall d :: deps.needReplan(d))
    requires s.hasPlan && s.replanAttempts == 0 && 0 <= s.controllerAttempts < deps.limit
    ensures forall q: nat :: q <= r ==> Asks(deps, s, q)
  {
    if r > 0 {
      AlwaysAsks(deps, s, r - 1);
      Counters(deps, s, r);
    }
    assert Asks(deps, s, r);
  }

  // ------------------------------------------------- what the critic answers

  /** The data the critic first sees: six nodes have worked on it. */
  function Opened<D>(deps: Deps<D>, data: D): D {
    var planned := deps.work(CompilePlan, deps.work(Planner, deps.work(MemoryLoad, data)));
    deps.work(MemoryPersist, deps.work(Execution, deps.work(Router, planned)))
  }

  /** The data after r rounds of judging, replanning and executing again. */
  function Rounded<D>(deps: Deps<D>, data: D, r: nat): D {
    if r == 0 then Opened(deps, data)
    else
      var replanned := deps.work(Replanner, deps.work(Critic, Rounded(deps, data, r - 1)));
      deps.work(MemoryPersist, deps.work(Execution, deps.work(Router, replanned)))
  }

  /** The counter the routing condition reads at the critic's r-th visit: zero until the first replan has copied the
      controller's. */
  function CounterAt<D>(deps: Deps<D>, attempts: int, r: nat): int {
    if r == 0 then 0
    else if !deps.replanEnabled || attempts >= deps.limit then attempts
    else if attempts + r <= deps.limit then attempts + r else deps.limit
  }

  /** The critic's r-th visit calls for a replan: it is enabled, answers so, and attempts are left. */
  predicate CallsForReplan<D>(deps: Deps<D>, data: D, attempts: int, r: nat) {
    && deps.criticEnabled && deps.needReplan(deps.work(Critic, Rounded(deps, data, r)))
    && CounterAt(deps, attempts, r) < deps.limit
  }

  lemma OpenedData<D>(deps: Deps<D>, data: D, attempts: int)
    ensures var s := FirstJudged(deps, Fresh(data, attempts));
            && s.data == Opened(deps, data) && s.hasPlan && s.critique == None
            && s.replanAttempts == 0 && s.controllerAttempts == attempts
  {
    LegCounters(deps, MemoryLoad, Fresh(data, attempts));
    var loaded := Effect(deps, MemoryLoad, Fresh(data, attempts));
    var planned := Effect(deps, CompilePlan, Effect(deps, Planner, loaded));
    PathData(deps, planned);
    AtRouter(deps, loaded);
    assert FirstJudged(deps, Fresh(data, attempts)) == AtCritic(deps, Planner, loaded);
  }

  lemma AtRouter<D>(deps: Deps<D>, loaded: Macro<D>)
    ensures AtCritic(deps, Planner, loaded) ==
            AtCritic(deps, Router, Effect(deps, CompilePlan, Effect(deps, Planner, loaded)))
  {
    hide Effect;
    assert AtCritic(deps, Planner, loaded) == AtCritic(deps, CompilePlan, Effect(deps, Planner, loaded));
  }

  lemma PathData<D>(deps: Deps<D>, s: Macro<D>)
    requires s.hasPlan
    ensures AtCritic(deps, Router, s).data ==
            deps.work(MemoryPersist, deps.work(Execution, deps.work(Router, s.data)))
  {
    var routed := Effect(deps, Router, s);
    var executed := Effect(deps, Execution, routed);
    assert AtCritic(deps, Router, s) == AtCritic(deps, Execution, routed);
    assert AtCritic(deps, Execution, routed) == AtCritic(deps, MemoryPersist, executed);
    assert AtCritic(deps, MemoryPersist, executed) == AtCritic(deps, Critic, Effect(deps, MemoryPersist, executed));
  }

  /** Round by round the data is what the nodes' own work makes of it. */
  lemma {:induction false} RoundedData<D>(deps: Deps<D>, data: D, attempts: int, r: nat)
    requires deps.criticEnabled
    ensures var s := Round(deps, FirstJudged(deps, Fresh(data, attempts)), r);
            s.data == Rounded(deps, data, r) && s.hasPlan
  {
    hide AtCritic, AttemptsAfter;
    OpenedData(deps, data, attempts);
    if r > 0 {
      var first := FirstJudged(deps, Fresh(data, attempts));
      RoundedData(deps, data, attempts, r - 1);
      RoundSnoc(deps, first, r - 1);
      var judged := Effect(deps, Critic, Round(deps, first, r - 1));
      LegCounters(deps, Replanner, judged);
      OneStep(deps, judged);
      PathData(deps, Effect(deps, Replanner, judged));
    }
  }

  lemma OneStep<D>(deps: Deps<D>, s: Macro<D>)
    ensures AtCritic(deps, Replanner, s) == AtCritic(deps, Router, Effect(deps, Replanner, s))
  {
    hide Effect;
  }

  /** After r replans, each asked for, the critic asks again if and only if it is enabled, answers so on the data its
      own work leaves, and the counter is below the limit. */
  lemma AsksIff<D>(deps: Deps<D>, data: D, attempts: nat, r: nat)
    requires forall q: nat :: q < r ==> Asks(deps, FirstJudged(deps, Fresh(data, attempts)), q)
    ensures Asks(deps, FirstJudged(deps, Fresh(data, attempts)), r) <==> CallsForReplan(deps, data, attempts, r)
  {
    hide AtCritic, Rounded, FirstJudged;
    var first := FirstJudged(deps, Fresh(data, attempts));
    OpenedData(deps, data, attempts);
    if deps.criticEnabled {
      RoundedData(deps, data, attempts, r);
      if r > 0 { Counters(deps, first, r); }
    } else {
      DisabledIsSilent(deps, first, r);
    }
  }

  lemma DisabledIsSilent<D>(deps: Deps<D>, s: Macro<D>, r: nat)
    requires !deps.criticEnabled && s.critique == None
    requires forall q: nat :: q < r ==> Asks(deps, s, q)
    ensures !Asks(deps, s, 0) && r == 0
  {
  }

  lemma {:induction false} AsksUpTo<D>(deps: Deps<D>, data: D, attempts: nat, r: nat)
    ensures (forall q: nat :: q < r ==> Asks(deps, FirstJudged(deps, Fresh(data, attempts)), q)) <==>
            (forall q: nat :: q < r ==> CallsForReplan(deps, data, attempts, q))
  {
    hide Asks, CallsForReplan, FirstJudged;
    if r > 0 {
      AsksUpTo(deps, data, attempts, r - 1);
      var first := FirstJudged(deps, Fresh(data, attempts));
      if forall q: nat :: q < r - 1 ==> Asks(deps, first, q) {
        AsksIff(deps, data, attempts, r - 1);
      } else {
        var q: nat :| q < r - 1 && !Asks(deps, first, q);
        var p: nat :| p < r - 1 && !CallsForReplan(deps, data, attempts, p);
      }
    }
  }

  /** Every run from a fresh state, in terms of the critic's answers: it is replanned r times, r the number of visits of
      the critic in a row that call for it, and then finalized, if that many rounds fit the pass limit. */
  lemma RunFollowsCritic<D>(deps: Deps<D>, max: int, data: D, attempts: nat, r: nat)
    requires forall q: nat :: q < r ==> CallsForReplan(deps, data, attempts, q)
    requires !CallsForReplan(deps, data, attempts, r) && 8 + 5 * r <= max
    ensures var t := Walk(MacroGraph(deps, max), MemoryLoad, Fresh(data, attempts), 0);
            && Count(t.visits, Replanner) == r
            && t.visits == Path(MemoryLoad) + Loops(r) + [Critic, Finalize] && t.iterations == 8 + 5 * r
            && t.ending == (if 8 + 5 * r < max then EarlyStop else OutOfIterations) && t.state.shouldStop
  {
    hide Walk, MacroGraph, Asks, CallsForReplan, FirstJudged, Path, Loops, Count;
    var n := MacroRun(deps, max, Fresh(data, attempts));
    AsksUpTo(deps, data, attempts, r);
    AsksIff(deps, data, attempts, r);
  }

  /** The critic's r-th visit, in a run that came that far, sends it to the replanner if and only if it calls for it. */
  lemma ReplannedIff<D>(deps: Deps<D>, max: int, data: D, attempts: nat, r: nat)
    requires 8 + 5 * r <= max
    ensures Count(Walk(MacroGraph(deps, max), MemoryLoad, Fresh(data, attempts), 0).visits, Replanner) > r <==>
            forall q: nat :: q <= r ==> CallsForReplan(deps, data, attempts, q)
  {
    hide Walk, MacroGraph, Asks, CallsForReplan, FirstJudged, Path, Loops, Count;
    var n := MacroRun(deps, max, Fresh(data, attempts));
    AsksUpTo(deps, data, attempts, r + 1);
    var first := FirstJudged(deps, Fresh(data, attempts));
    if n <= r {
      assert !Asks(deps, first, n);
    } else {
      assert forall q: nat :: q < r + 1 ==> Asks(deps, first, q);
    }
  }

  /** A critic that is disabled, or does not ask on its first visit: the six opening nodes, critic, finalize. */
  lemma NeverAsking<D>(deps: Deps<D>, max: int, data: D, attempts: nat)
    requires !deps.criticEnabled || !deps.needReplan(deps.work(Critic, Opened(deps, data)))
    requires max >= 8
    ensures var t := Walk(MacroGraph(deps, max), MemoryLoad, Fresh(data, attempts), 0);
            && t.visits == [MemoryLoad, Planner, CompilePlan, Router, Execution, MemoryPersist, Critic, Finalize]
            && t.iterations == 8 && t.state.shouldStop
  {
    hide Walk, MacroGraph, Opened, Path, Count;
    RunFollowsCritic(deps, max, data, attempts, 0);
    PathOfLoad();
    assert [MemoryLoad, Planner, CompilePlan, Router, Execution, MemoryPersist] + Loops(0) + [Critic, Finalize] ==
           [MemoryLoad, Planner, CompilePlan, Router, Execution, MemoryPersist, Critic, Finalize];
  }

  /** A critic that asks k times and then no more, with k replans left and passes enough: exactly k replans, each
      followed by another execution. */
  lemma AsksExactly<D>(deps: Deps<D>, max: int, data: D, attempts: nat, k: nat)
    requires deps.criticEnabled && deps.replanEnabled && attempts + k <= deps.limit && max >= 8 + 5 * k
    requires forall q: nat :: q < k ==> deps.needReplan(deps.work(Critic, Rounded(deps, data, q)))
    requires !deps.needReplan(deps.work(Critic, Rounded(deps, data, k)))
    ensures var t := Walk(MacroGraph(deps, max), MemoryLoad, Fresh(data, attempts), 0);
            && Count(t.visits, Replanner) == k && t.visits == Path(MemoryLoad) + Loops(k) + [Critic, Finalize]
            && t.iterations == 8 + 5 * k && t.state.shouldStop
  {
    hide Walk, MacroGraph, Path, Loops, Count, Rounded;
    forall q: nat | q < k ensures CallsForReplan(deps, data, attempts, q) {
      assert CounterAt(deps, attempts, q) < deps.limit;
    }
    assert !CallsForReplan(deps, data, attempts, k);
    RunFollowsCritic(deps, max, data, attempts, k);
  }
}
