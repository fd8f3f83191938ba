/** The graph engine: builder methods, edge resolution, fan-out, and the budgeted walk (graph/runtime/core/graph.py). */
module GraphEngine {
  import opened Sequences

  /** Node names: those of a compiled plan, those of the macro graph, and the end. The compiler formats step ids and
      level numbers into strings; here they stay apart by construction. */
  datatype NodeId =
    | EntryNode | StepNode(stepId: int) | JoinNode(level: nat) | SinkNode
    | MemoryLoad | Planner | CompilePlan | Router | Execution | MemoryPersist | Critic | Replanner | Finalize
    | End

  datatype EdgeKind = Direct | Conditional | Loop | Parallel | Join

  datatype Edge<!S> = Edge(target: NodeId, condition: Option<S -> bool>, kind: EdgeKind) {
    predicate Matches(s: S) {
      condition.None? || condition.value(s)
    }
  }

  datatype FanOut = FanOut(source: NodeId, branches: seq<NodeId>, join: NodeId)

  datatype JoinSpec = JoinSpec(waitFor: seq<NodeId>, next: NodeId)

  /** A graph as a value. `stop` is the loop-head test: should_stop, or the termination callback. */
  datatype GraphValue<!S> = GraphValue(
    entry: NodeId, stop: S -> bool, maxIterations: int, merge: (S, seq<S>) -> S,
    nodes: map<NodeId, S -> S>, edges: map<NodeId, seq<Edge<S>>>, fanOuts: seq<FanOut>, joins: map<NodeId, JoinSpec>)
  {
    function EdgesAt(n: NodeId): seq<Edge<S>> {
      At(edges, n)
    }
  }

  function At<S>(edges: map<NodeId, seq<Edge<S>>>, n: NodeId): seq<Edge<S>> {
    if n in edges then edges[n] else []
  }

  /** `fan_out_for`: the first fan-out rooted at the node. */
  function FanOutFor(fanOuts: seq<FanOut>, source: NodeId): Option<FanOut> {
    if fanOuts == [] then None
    else if fanOuts[0].source == source then Some(fanOuts[0])
    else FanOutFor(fanOuts[1..], source)
  }

  lemma {:induction false} FanOutForSnoc(fanOuts: seq<FanOut>, f: FanOut, source: NodeId)
    ensures FanOutFor(fanOuts + [f], source) ==
            if FanOutFor(fanOuts, source).Some? then FanOutFor(fanOuts, source)
            else if f.source == source then Some(f) else None
  {
    if fanOuts == [] {
      assert fanOuts + [f] == [f];
    } else {
      assert (fanOuts + [f])[1..] == fanOuts[1..] + [f];
      FanOutForSnoc(fanOuts[1..], f, source);
    }
  }

  /** The first edge that is not a parallel one and whose condition holds; END when there is none. */
  function Resolve<S>(edges: seq<Edge<S>>, s: S): NodeId {
    if edges == [] then End
    else if edges[0].kind != Parallel && edges[0].Matches(s) then edges[0].target
    else Resolve(edges[1..], s)
  }

  // ---------------------------------------------------------------- the walk

  datatype Ending = ReachedEnd | EarlyStop | OutOfIterations | UnknownNode

  /** A finished walk: executed nodes in order, final state, passes of the loop, and how it ended. */
  datatype Trip<S> = Trip(visits: seq<NodeId>, state: S, iterations: nat, ending: Ending) {
    function After(earlier: seq<NodeId>): Trip<S> {
      this.(visits := earlier + visits)
    }
  }

  function RunIfNode<S>(g: GraphValue<S>, n: NodeId, s: S): (seq<NodeId>, S) {
    if n in g.nodes then ([n], g.nodes[n](s)) else ([], s)
  }

  function BranchStates<S>(g: GraphValue<S>, branches: seq<NodeId>, s: S): (r: seq<S>)
    requires forall b :: b in branches ==> b in g.nodes
    ensures |r| == |branches|
  {
    seq(|branches|, i requires 0 <= i < |branches| => g.nodes[branches[i]](s))
  }

  /** The parallel part: every branch on its own copy of the state, the merge, then the join node. */
  function Parallelised<S>(g: GraphValue<S>, f: FanOut, s: S): (seq<NodeId>, S)
    requires forall b :: b in f.branches ==> b in g.nodes
  {
    var (joined, t) := RunIfNode(g, f.join, g.merge(s, BranchStates(g, f.branches, s)));
    (f.branches + joined, t)
  }

  /** After a fan-out the join's declared successor is entered directly, whatever edges or fan-out the join has. */
  function AfterJoin<S>(g: GraphValue<S>, f: FanOut, s: S): NodeId {
    if f.join in g.joins then g.joins[f.join].next else Resolve(g.EdgesAt(f.join), s)
  }

  function Walk<S>(g: GraphValue<S>, current: NodeId, s: S, iterations: nat): Trip<S>
    decreases g.maxIterations - iterations
  {
    if current == End then Trip([], s, iterations, ReachedEnd)
    else if iterations >= g.maxIterations then Trip([], s, iterations, OutOfIterations)
    else if g.stop(s) then Trip([], s, iterations, EarlyStop)
    else
      match FanOutFor(g.fanOuts, current)
      case Some(f) =>
        var (first, s1) := RunIfNode(g, current, s);
        if exists b :: b in f.branches && b !in g.nodes then Trip(first, s1, iterations, UnknownNode)
        else
          var (second, s2) := Parallelised(g, f, s1);
          Walk(g, AfterJoin(g, f, s2), s2, iterations + 1).After(first + second)
      case None =>
        if current !in g.nodes then Trip([], s, iterations, UnknownNode)
        else
          var s1 := g.nodes[current](s);
          Walk(g, Resolve(g.EdgesAt(current), s1), s1, iterations + 1).After([current])
  }

  /** The budget bounds every walk of every graph. */
  lemma {:induction false} WalkBounded<S>(g: GraphValue<S>, current: NodeId, s: S, iterations: nat)
    requires iterations <= g.maxIterations
    ensures iterations <= Walk(g, current, s, iterations).iterations <= g.maxIterations
    decreases g.maxIterations - iterations
  {
    if current != End && iterations < g.maxIterations && !g.stop(s) {
      match FanOutFor(g.fanOuts, current)
      case Some(f) =>
        var (first, s1) := RunIfNode(g, current, s);
        if forall b :: b in f.branches ==> b in g.nodes {
          var (second, s2) := Parallelised(g, f, s1);
          WalkBounded(g, AfterJoin(g, f, s2), s2, iterations + 1);
        }
      case None =>
        if current in g.nodes {
          var s1 := g.nodes[current](s);
          WalkBounded(g, Resolve(g.EdgesAt(current), s1), s1, iterations + 1);
        }
    }
  }

  /** One pass at a node without a fan-out. */
  lemma OnePass<S>(g: GraphValue<S>, n: NodeId, s: S, i: nat)
    requires n != End && i < g.maxIterations && !g.stop(s) && FanOutFor(g.fanOuts, n) == None && n in g.nodes
    ensures var s1 := g.nodes[n](s); Walk(g, n, s, i) == Walk(g, Resolve(g.EdgesAt(n), s1), s1, i + 1).After([n])
  {
  }

  /** Where one pass leads, and in which state; None at an unknown node. */
  function PassFrom<S>(g: GraphValue<S>, n: NodeId, s: S): Option<(NodeId, S)> {
    match FanOutFor(g.fanOuts, n)
    case Some(f) =>
      if exists b :: b in f.branches && b !in g.nodes then None
      else
        var t := Parallelised(g, f, RunIfNode(g, n, s).1).1;
        Some((AfterJoin(g, f, t), t))
    case None =>
      if n !in g.nodes then None else Some((Resolve(g.EdgesAt(n), g.nodes[n](s)), g.nodes[n](s)))
  }

  /** r lists the states the branches leave, each run on its own copy of s. */
  ghost predicate BranchesLeave<S>(g: GraphValue<S>, branches: seq<NodeId>, s: S, r: seq<S>) {
    && |r| == |branches|
    && forall i :: 0 <= i < |branches| ==> branches[i] in g.nodes && r[i] == g.nodes[branches[i]](s)
  }

  /** The pass at a fan-out, whatever the branches do: the node runs first, every branch on the state it leaves, the
      merge gets that state and all branch states in the order of the branches, and the join runs on the merge. */
  lemma FanOutPass<S>(g: GraphValue<S>, n: NodeId, s: S, f: FanOut, r: seq<S>, i: nat)
    requires FanOutFor(g.fanOuts, n) == Some(f)
    requires BranchesLeave(g, f.branches, if n in g.nodes then g.nodes[n](s) else s, r)
    ensures var s1 := if n in g.nodes then g.nodes[n](s) else s;
            var t := if f.join in g.nodes then g.nodes[f.join](g.merge(s1, r)) else g.merge(s1, r);
            var next := if f.join in g.joins then g.joins[f.join].next else Resolve(g.EdgesAt(f.join), t);
            && PassFrom(g, n, s) == Some((next, t))
            && (n != End && i < g.maxIterations && !g.stop(s) ==>
                  Walk(g, n, s, i) ==
                  Walk(g, next, t, i + 1).After((if n in g.nodes then [n] else []) + f.branches +
                                                (if f.join in g.nodes then [f.join] else [])))
  {
    hide Resolve, FanOutFor;
    forall b | b in f.branches ensures b in g.nodes {
      var k :| 0 <= k < |f.branches| && f.branches[k] == b;
    }
    var s1 := RunIfNode(g, n, s).1;
    assert BranchStates(g, f.branches, s1) == r;
    var (first, second) := (RunIfNode(g, n, s).0, Parallelised(g, f, s1).0);
    assert first + second ==
           (if n in g.nodes then [n] else []) + f.branches + (if f.join in g.nodes then [f.join] else []);
  }

  /** The invariant rule: what every pass keeps holds wherever the walk ends. */
  lemma {:induction false} WalkKeeps<S(!new)>(g: GraphValue<S>, inv: (NodeId, S) -> bool, n: NodeId, s: S, i: nat)
    returns (m: NodeId)
    requires inv(n, s)
    requires forall a, x ::
      inv(a, x) && a != End && !g.stop(x) && PassFrom(g, a, x).Some? ==>
        inv(PassFrom(g, a, x).value.0, PassFrom(g, a, x).value.1)
    ensures var t := Walk(g, n, s, i);
            t.ending != UnknownNode ==> inv(m, t.state) && (t.ending == ReachedEnd ==> m == End)
    decreases g.maxIterations - i
  {
    m := n;
    if n != End && i < g.maxIterations && !g.stop(s) && PassFrom(g, n, s).Some? {
      var (next, t) := PassFrom(g, n, s).value;
      m := WalkKeeps(g, inv, next, t, i + 1);
    }
  }

  lemma AfterAfter<S>(t: Trip<S>, a: seq<NodeId>, b: seq<NodeId>)
    ensures t.After(b).After(a) == t.After(a + b)
  {
    assert a + (b + t.visits) == (a + b) + t.visits;
  }

  /** How often a node was executed. */
  function Count(visits: seq<NodeId>, n: NodeId): nat {
    multiset(visits)[n]
  }

  lemma CountConcat(a: seq<NodeId>, b: seq<NodeId>, n: NodeId)
    ensures Count(a + b, n) == Count(a, n) + Count(b, n)
  {
  }

  lemma CountIn(a: seq<NodeId>, n: NodeId)
    ensures Count(a, n) > 0 <==> n in a
  {
  }

  lemma {:induction false} NoDupCount(a: seq<NodeId>, n: NodeId)
    requires NoDup(a)
    ensures Count(a, n) == if n in a then 1 else 0
  {
    if a != [] {
      var front, last := a[..|a| - 1], a[|a| - 1];
      assert a == front + [last];
      NoDupCount(front, n);
      CountConcat(front, [last], n);
    }
  }

  // --------------------------------------------------------------- the class

  class Graph<S> {
    const entry: NodeId
    const stop: S -> bool
    const maxIterations: int
    const merge: (S, seq<S>) -> S
    var nodes: map<NodeId, S -> S>
    var edges: map<NodeId, seq<Edge<S>>>
    var fanOuts: seq<FanOut>
    var joins: map<NodeId, JoinSpec>

    constructor (e: NodeId, st: S -> bool, max: int, m: (S, seq<S>) -> S)
      ensures Value() == GraphValue(e, st, max, m, map[], map[], [], map[])
    {
      entry, stop, maxIterations, merge := e, st, max, m;
      nodes, edges, fanOuts, joins := map[], map[], [], map[];
    }

    function Value(): GraphValue<S>
      reads this
    {
      GraphValue(entry, stop, maxIterations, merge, nodes, edges, fanOuts, joins)
    }

    method AddNode(n: NodeId, fn: S -> S)
      modifies this`nodes
      ensures nodes == old(nodes)[n := fn]
    {
      nodes := nodes[n := fn];
    }

    method AddEdge(source: NodeId, target: NodeId, kind: EdgeKind)
      modifies this`edges
      ensures edges == Appended(old(edges), source, Edge(target, None, kind))
    {
      edges := Appended(edges, source, Edge(target, None, kind));
    }

    method AddConditionalEdge(source: NodeId, target: NodeId, condition: Option<S -> bool>, kind: EdgeKind)
      modifies this`edges
      ensures edges == Appended(old(edges), source, Edge(target, condition, kind))
    {
      edges := Appended(edges, source, Edge(target, condition, kind));
    }

    /** Registers the fan-out, then one parallel edge out to each branch and one join edge back from it. */
    method AddParallelFanout(source: NodeId, branches: seq<NodeId>, join: NodeId)
      modifies this`edges, this`fanOuts
      ensures fanOuts == old(fanOuts) + [FanOut(source, branches, join)]
      ensures edges == FanOutEdges(old(edges), source, branches, join)
    {
      fanOuts := fanOuts + [FanOut(source, branches, join)];
      for i := 0 to |branches|
        invariant fanOuts == old(fanOuts) + [FanOut(source, branches, join)]
        invariant edges == FanOutEdges(old(edges), source, branches[..i], join)
      {
        assert branches[..i + 1][..i] == branches[..i];
        AddEdge(source, branches[i], Parallel);
        AddEdge(branches[i], join, Join);
      }
      assert branches[..|branches|] == branches;
    }

    method AddJoinNode(join: NodeId, waitFor: seq<NodeId>, next: NodeId, fn: S -> S)
      modifies this`joins, this`nodes, this`edges
      ensures joins == old(joins)[join := JoinSpec(waitFor, next)]
      ensures nodes == old(nodes)[join := fn]
      ensures edges == if next == End then old(edges) else Appended(old(edges), join, Edge(next, None, Direct))
    {
      joins := joins[join := JoinSpec(waitFor, next)];
      AddNode(join, fn);
      if next != End {
        AddEdge(join, next, Direct);
      }
    }

    method FindFanOut(source: NodeId) returns (f: Option<FanOut>)
      ensures f == FanOutFor(fanOuts, source)
      ensures f.None? ==> forall i :: 0 <= i < |fanOuts| ==> fanOuts[i].source != source
      ensures f.Some? ==> exists i :: 0 <= i < |fanOuts| && fanOuts[i] == f.value && f.value.source == source
                                      && forall j :: 0 <= j < i ==> fanOuts[j].source != source
    {
      for i := 0 to |fanOuts|
        invariant FanOutFor(fanOuts[i..], source) == FanOutFor(fanOuts, source)
        invariant forall j :: 0 <= j < i ==> fanOuts[j].source != source
      {
        assert fanOuts[i..][0] == fanOuts[i] && fanOuts[i..][1..] == fanOuts[i + 1..];
        if fanOuts[i].source == source {
          return Some(fanOuts[i]);
        }
      }
      f := None;
    }

    method ResolveNext(source: NodeId, s: S) returns (next: NodeId)
      ensures next == Resolve(Value().EdgesAt(source), s)
      ensures var es := Value().EdgesAt(source);
              || (next == End && forall i :: 0 <= i < |es| ==> es[i].kind == Parallel || !es[i].Matches(s))
              || exists i :: 0 <= i < |es| && next == es[i].target && es[i].kind != Parallel && es[i].Matches(s)
                             && forall j :: 0 <= j < i ==> es[j].kind == Parallel || !es[j].Matches(s)
    {
      var es := Value().EdgesAt(source);
      for i := 0 to |es|
        invariant Resolve(es[i..], s) == Resolve(es, s)
        invariant forall j :: 0 <= j < i ==> es[j].kind == Parallel || !es[j].Matches(s)
      {
        assert es[i..][0] == es[i] && es[i..][1..] == es[i + 1..];
        if es[i].kind == Parallel {
          continue;
        }
        if es[i].Matches(s) {
          return es[i].target;
        }
      }
      next := End;
    }

    method RunParallelFanout(f: FanOut, s: S) returns (visits: seq<NodeId>, t: S, ghost left: seq<S>)
      requires forall b :: b in f.branches ==> b in nodes
      ensures (visits, t) == Parallelised(Value(), f, s)
      ensures BranchesLeave(Value(), f.branches, s, left)
      ensures t == if f.join in nodes then nodes[f.join](merge(s, left)) else merge(s, left)
      ensures visits == f.branches + (if f.join in nodes then [f.join] else [])
    {
      var states: seq<S> := [];
      for i := 0 to |f.branches|
        invariant states == BranchStates(Value(), f.branches, s)[..i]
      {
        states := states + [nodes[f.branches[i]](s)];
      }
      assert states == BranchStates(Value(), f.branches, s);
      left := states;
      t := merge(s, states);
      visits := f.branches;
      assert visits + [] == visits;
      if f.join in nodes {
        t := nodes[f.join](t);
        visits := visits + [f.join];
      }
    }

    /** The walk loop. */
    method Astream(initial: S) returns (trip: Trip<S>)
      ensures trip == Walk(Value(), entry, initial, 0)
    {
      var g := Value();
      var current, s, iterations, visits := entry, initial, 0, [];
      while current != End && iterations < maxIterations
        invariant Walk(g, entry, initial, 0) == Walk(g, current, s, iterations).After(visits)
        decreases maxIterations - iterations
      {
        ghost var here := Walk(g, current, s, iterations);
        if stop(s) {
          return Trip(visits, s, iterations, EarlyStop);
        }
        var fanOut := FindFanOut(current);
        if fanOut.Some? {
          var f := fanOut.value;
          var (first, s1) := RunIfNode(g, current, s);
          if exists b :: b in f.branches && b !in nodes {
            return Trip(visits + first, s1, iterations, UnknownNode);
          }
          var second, s2, _ := RunParallelFanout(f, s1);
          var next;
          if f.join in joins {
            next := joins[f.join].next;
          } else {
            next := ResolveNext(f.join, s2);
          }
          AfterAfter(Walk(g, next, s2, iterations + 1), visits, first + second);
          current, s, iterations, visits := next, s2, iterations + 1, visits + (first + second);
          continue;
        }
        if current !in nodes {
          return Trip(visits, s, iterations, UnknownNode);
        }
        var s1 := nodes[current](s);
        var next := ResolveNext(current, s1);
        AfterAfter(Walk(g, next, s1, iterations + 1), visits, [current]);
        current, s, iterations, visits := next, s1, iterations + 1, visits + [current];
      }
      trip := Trip(visits, s, iterations, if current == End then ReachedEnd else OutOfIterations);
    }
  }

  /** `_edges.setdefault(source, []).append(e)` */
  function Appended<S>(edges: map<NodeId, seq<Edge<S>>>, source: NodeId, e: Edge<S>): map<NodeId, seq<Edge<S>>> {
    edges[source := At(edges, source) + [e]]
  }

  function FanOutEdges<S>(
    edges: map<NodeId, seq<Edge<S>>>, source: NodeId, branches: seq<NodeId>, join: NodeId): map<NodeId, seq<Edge<S>>>
  {
    if branches == [] then edges
    else
      var last := branches[|branches| - 1];
      Appended(Appended(FanOutEdges(edges, source, branches[..|branches| - 1], join),
                        source, Edge(last, None, Parallel)),
               last, Edge(join, None, Join))
  }

  function ParallelEdges<S>(branches: seq<NodeId>): seq<Edge<S>> {
    if branches == [] then []
    else ParallelEdges(branches[..|branches| - 1]) + [Edge(branches[|branches| - 1], None, Parallel)]
  }

  lemma AppendedAt<S>(edges: map<NodeId, seq<Edge<S>>>, source: NodeId, e: Edge<S>, n: NodeId)
    ensures At(Appended(edges, source, e), n) == At(edges, n) + (if n == source then [e] else [])
  {
    assert At(edges, n) + [] == At(edges, n);
  }

  /** What a fan-out adds at each node. */
  function FanOutAdds<S>(source: NodeId, branches: seq<NodeId>, join: NodeId, n: NodeId): seq<Edge<S>> {
    if n == source then ParallelEdges(branches) else if n in branches then [Edge(join, None, Join)] else []
  }

  lemma {:induction false} FanOutEdgesAt<S>(
    edges: map<NodeId, seq<Edge<S>>>, source: NodeId, branches: seq<NodeId>, join: NodeId, n: NodeId)
    requires NoDup(branches) && source !in branches
    ensures At(FanOutEdges(edges, source, branches, join), n) == At(edges, n) + FanOutAdds<S>(source, branches, join, n)
  {
    hide FanOutEdges, NoDup, At, Appended, FanOutAdds;
    if branches == [] {
      NoFanOut(edges, source, join, n);
    } else {
      var front, last := branches[..|branches| - 1], branches[|branches| - 1];
      FanOutUnfold(edges, source, branches, join);
      FanOutEdgesAt(edges, source, front, join, n);
      var inner := FanOutEdges(edges, source, front, join);
      var out: Edge<S> := Edge(last, None, Parallel);
      AppendedAt(inner, source, out, n);
      AppendedAt(Appended(inner, source, out), last, Edge(join, None, Join), n);
      AddsUnfold<S>(source, front, last, join, n);
      var adds := FanOutAdds<S>(source, front, join, n);
      var x: seq<Edge<S>>, y: seq<Edge<S>> :=
        if n == source then [out] else [], if n == last then [Edge(join, None, Join)] else [];
      assert ((At(edges, n) + adds) + x) + y == At(edges, n) + (adds + x + y);
    }
  }

  lemma NoFanOut<S>(edges: map<NodeId, seq<Edge<S>>>, source: NodeId, join: NodeId, n: NodeId)
    ensures At(FanOutEdges(edges, source, [], join), n) == At(edges, n) + FanOutAdds<S>(source, [], join, n)
  {
  }

  lemma AddsUnfold<S>(source: NodeId, front: seq<NodeId>, last: NodeId, join: NodeId, n: NodeId)
    requires last !in front && source !in front + [last]
    ensures FanOutAdds<S>(source, front + [last], join, n) ==
            FanOutAdds<S>(source, front, join, n) + (if n == source then [Edge(last, None, Parallel)] else []) +
            (if n == last then [Edge(join, None, Join)] else [])
  {
    assert (front + [last])[..|front|] == front;
    assert last in front + [last];
  }

  lemma FanOutUnfold<S>(edges: map<NodeId, seq<Edge<S>>>, source: NodeId, branches: seq<NodeId>, join: NodeId)
    requires NoDup(branches) && branches != []
    ensures var front, last := branches[..|branches| - 1], branches[|branches| - 1];
            && branches == front + [last] && last !in front && NoDup(front)
            && ParallelEdges<S>(branches) == ParallelEdges(front) + [Edge(last, None, Parallel)]
            && FanOutEdges(edges, source, branches, join) ==
                 Appended(Appended(FanOutEdges(edges, source, front, join), source, Edge(last, None, Parallel)),
                          last, Edge(join, None, Join))
  {
  }

  /** Parallel edges are never followed. */
  lemma {:induction false} ParallelResolve<S>(branches: seq<NodeId>, s: S)
    ensures Resolve(ParallelEdges(branches), s) == End
  {
    if branches != [] {
      var front := branches[..|branches| - 1];
      ParallelResolve(front, s);
      ResolveConcat(ParallelEdges(front), [Edge(branches[|branches| - 1], None, Parallel)], s);
    }
  }

  lemma {:induction false} ResolveConcat<S>(a: seq<Edge<S>>, b: seq<Edge<S>>, s: S)
    ensures (exists e :: e in a && e.kind != Parallel && e.Matches(s)) ==> Resolve(a + b, s) == Resolve(a, s)
    ensures (forall e :: e in a ==> !(e.kind != Parallel && e.Matches(s))) ==>
              Resolve(a + b, s) == Resolve(b, s) && Resolve(a, s) == End
  {
    if a == [] {
      assert a + b == b;
    } else {
      assert (a + b)[0] == a[0] && (a + b)[1..] == a[1..] + b;
      ResolveConcat(a[1..], b, s);
    }
  }
}
