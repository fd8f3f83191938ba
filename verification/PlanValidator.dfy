/** Plan validation, with the recursive cycle search (plan/validator.py). */
module PlanValidation {
  import opened Sequences
  import opened PlanSchema

  // ------------------------------------------------------- dependency graphs

  type Graph = map<int, seq<int>>

  /** The dict comprehension of the validator: a repeated id keeps its last dependency list. */
  function GraphOf(steps: seq<PlanStep>): (g: Graph)
    ensures g.Keys == IdSet(steps)
  {
    if steps == [] then map[]
    else
      var last := steps[|steps| - 1];
      assert steps == steps[..|steps| - 1] + [last];
      GraphOf(steps[..|steps| - 1])[last.id := last.Deps()]
  }

  /** A directed walk that stays on existing ids. */
  ghost predicate IsWalk(g: Graph, p: seq<int>) {
    && |p| >= 1
    && (forall i :: 0 <= i < |p| ==> p[i] in g)
    && (forall i :: 0 <= i < |p| - 1 ==> p[i + 1] in g[p[i]])
  }

  ghost predicate IsCycle(g: Graph, p: seq<int>) {
    IsWalk(g, p) && |p| >= 2 && p[0] == p[|p| - 1]
  }

  ghost predicate HasCycle(g: Graph) {
    exists p :: IsCycle(g, p)
  }

  ghost predicate Reaches(g: Graph, u: int, v: int) {
    exists p :: IsWalk(g, p) && |p| >= 2 && p[0] == u && p[|p| - 1] == v
  }

  lemma ReachesStep(g: Graph, u: int, v: int, w: int)
    requires u == v || Reaches(g, u, v)
    requires v in g && w in g && w in g[v]
    ensures Reaches(g, u, w)
  {
    if u == v {
      assert IsWalk(g, [v, w]);
    } else {
      var p :| IsWalk(g, p) && |p| >= 2 && p[0] == u && p[|p| - 1] == v;
      var q := p + [w];
      assert IsWalk(g, q) && q[0] == u && q[|q| - 1] == w;
    }
  }

  /** `order` lists nodes so that every edge between existing ids points to an earlier entry. */
  ghost predicate TopologicalOrder(g: Graph, order: seq<int>) {
    forall i :: 0 <= i < |order| ==> order[i] in g && EdgesInto(g, order[i], order[..i])
  }

  ghost predicate EdgesInto(g: Graph, node: int, earlier: seq<int>)
    requires node in g
  {
    forall w :: w in g[node] && w in g ==> w in earlier
  }

  lemma ExtendOrder(g: Graph, order: seq<int>, node: int)
    requires TopologicalOrder(g, order) && node in g
    requires forall w :: w in g[node] && w in g ==> w in order
    ensures TopologicalOrder(g, order + [node])
  {
    var longer := order + [node];
    forall i | 0 <= i < |longer|
      ensures longer[i] in g && EdgesInto(g, longer[i], longer[..i])
    {
      if i < |order| {
        assert longer[..i] == order[..i];
      } else {
        assert longer[..i] == order;
      }
    }
  }

  /** A walk leaving position k of a topological order ends strictly before k. */
  lemma {:induction false} WalkDescends(g: Graph, order: seq<int>, p: seq<int>, k: nat)
    requires TopologicalOrder(g, order) && IsWalk(g, p) && |p| >= 2
    requires k < |order| && order[k] == p[0]
    ensures p[|p| - 1] in order[..k]
    decreases |p|
  {
    var v, w := order[k], p[1];
    assert p[0 + 1] in g[p[0]];
    assert EdgesInto(g, v, order[..k]) && w in g[v] && w in g;
    assert w in order[..k];
    var j :| 0 <= j < k && order[j] == p[1];
    if |p| > 2 {
      var q := p[1..];
      assert forall i :: 0 <= i < |q| ==> q[i] == p[i + 1];
      assert IsWalk(g, q);
      WalkDescends(g, order, q, j);
    }
  }

  lemma {:induction false} NoCycleAt(g: Graph, order: seq<int>, p: seq<int>, k: nat)
    requires IsCycle(g, p)
    requires TopologicalOrder(g, order) && k < |order| && order[k] == p[0]
    ensures false
    decreases k
  {
    WalkDescends(g, order, p, k);
    var j :| 0 <= j < k && order[j] == p[0];
    NoCycleAt(g, order, p, j);
  }

  lemma OrderedIsAcyclic(g: Graph, order: seq<int>)
    requires TopologicalOrder(g, order) && forall v :: v in g ==> v in order
    ensures !HasCycle(g)
  {
    forall p | IsCycle(g, p) ensures false {
      assert p[0] in order;
      var k :| 0 <= k < |order| && order[k] == p[0];
      NoCycleAt(g, order, p, k);
    }
  }

  /** The depth-first search of `_validate_dependency_cycles`: the closure `dfs` and the two sets it mutates. */
  class CycleSearch {
    const graph: Graph
    var visiting: set<int>
    var visited: set<int>
    ghost var order: seq<int>

    constructor (g: Graph)
      ensures graph == g && visiting == {} && visited == {} && Invariant()
    {
      graph := g;
      visiting, visited, order := {}, {}, [];
    }

    ghost predicate Invariant()
      reads this
    {
      && visiting <= graph.Keys
      && visiting !! visited
      && visited == SetOf(order)
      && TopologicalOrder(graph, order)
    }

    method Dfs(node: int) returns (found: bool)
      requires Invariant() && node in graph
      requires forall v :: v in visiting ==> Reaches(graph, v, node)
      modifies this
      ensures found ==> HasCycle(graph)
      ensures !found ==> Invariant() && visiting == old(visiting)
      ensures !found ==> node in visited && old(visited) <= visited
      decreases graph.Keys - visiting
    {
      if node in visiting {
        ghost var p :| IsWalk(graph, p) && |p| >= 2 && p[0] == node && p[|p| - 1] == node;
        assert IsCycle(graph, p);
        return true;
      }
      if node in visited {
        return false;
      }
      visiting := visiting + {node};
      var neighbors := graph[node];
      for i := 0 to |neighbors|
        invariant Invariant() && visiting == old(visiting) + {node}
        invariant old(visited) <= visited
        invariant forall j :: 0 <= j < i && neighbors[j] in graph ==> neighbors[j] in visited
      {
        if neighbors[i] in graph {
          forall v | v in visiting ensures Reaches(graph, v, neighbors[i]) {
            ReachesStep(graph, v, node, neighbors[i]);
          }
          var cyclic := Dfs(neighbors[i]);
          if cyclic {
            return true;
          }
        }
      }
      visiting := visiting - {node};
      visited := visited + {node};
      ExtendOrder(graph, order, node);
      order := order + [node];
      return false;
    }
  }

  // ----------------------------------------------------------- error reports

  datatype PlanError =
    | BlankGoal
    | NoSteps
    | BlankTask(stepId: int)
    | IdsNotContinuous(expected: seq<int>, got: seq<int>)
    | DuplicateId(stepId: int)
    | UnknownDependency(stepId: int, dep: int)
    | DependencyNotPrior(stepId: int, dep: int)
    | DependencyCycle
    | UnregisteredTool(stepId: int, tool: string)

  datatype Report = Report(success: bool, errors: seq<PlanError>)

  function TaskErrors(steps: seq<PlanStep>): seq<PlanError> {
    if steps == [] then []
    else TaskErrors(steps[..|steps| - 1]) +
         (if IsBlank(steps[|steps| - 1].task) then [BlankTask(steps[|steps| - 1].id)] else [])
  }

  function StructureErrors(plan: Plan): seq<PlanError> {
    (if IsBlank(plan.goal) then [BlankGoal] else []) +
    (if plan.steps == [] then [NoSteps] else []) +
    TaskErrors(plan.steps)
  }

  function SortedIds(steps: seq<PlanStep>): seq<int> {
    SortBy(Ids(steps), Identity)
  }

  function Identity(n: int): int { n }

  function ContinuityErrors(steps: seq<PlanStep>): seq<PlanError> {
    var expected := Range(1, |steps| + 1);
    if steps != [] && SortedIds(steps) != expected then [IdsNotContinuous(expected, SortedIds(steps))] else []
  }

  function DuplicateErrors(steps: seq<PlanStep>): seq<PlanError> {
    if steps == [] then []
    else
      var last := steps[|steps| - 1];
      DuplicateErrors(steps[..|steps| - 1]) +
      (if last.id in IdSet(steps[..|steps| - 1]) then [DuplicateId(last.id)] else [])
  }

  function DepErrors(id: int, deps: seq<int>, ids: set<int>): seq<PlanError> {
    if deps == [] then []
    else
      var dep := deps[|deps| - 1];
      DepErrors(id, deps[..|deps| - 1], ids) +
      (if dep !in ids then [UnknownDependency(id, dep)] else []) +
      (if dep >= id then [DependencyNotPrior(id, dep)] else [])
  }

  ghost predicate DepsExist(s: PlanStep, ids: set<int>) {
    forall d :: d in s.Deps() ==> d in ids && d < s.id
  }

  function DependencyErrors(steps: seq<PlanStep>, ids: set<int>): seq<PlanError> {
    if steps == [] then []
    else
      var last := steps[|steps| - 1];
      DependencyErrors(steps[..|steps| - 1], ids) + DepErrors(last.id, last.Deps(), ids)
  }

  function ToolErrors(steps: seq<PlanStep>, registry: set<string>): seq<PlanError> {
    if steps == [] then []
    else
      var last := steps[|steps| - 1];
      ToolErrors(steps[..|steps| - 1], registry) +
      (if last.toolHint.Some? && last.toolHint.value !in registry
       then [UnregisteredTool(last.id, last.toolHint.value)] else [])
  }

  ghost function CycleErrors(steps: seq<PlanStep>): seq<PlanError> {
    if HasCycle(GraphOf(steps)) then [DependencyCycle] else []
  }

  ghost function AllErrors(plan: Plan, registry: set<string>): seq<PlanError> {
    if StructureErrors(plan) != [] then StructureErrors(plan)
    else
      ContinuityErrors(plan.steps) + DuplicateErrors(plan.steps) +
      DependencyErrors(plan.steps, IdSet(plan.steps)) + CycleErrors(plan.steps) +
      ToolErrors(plan.steps, registry)
  }

  class PlanValidator {
    const registry: set<string>

    constructor (tools: set<string>)
      ensures registry == tools
    {
      registry := tools;
    }

    method Validate(plan: Plan) returns (report: Report)
      ensures report == Report(AllErrors(plan, registry) == [], AllErrors(plan, registry))
      ensures report.success <==> WellFormed(plan, registry)
    {
      SuccessIffWellFormed(plan, registry);
      var errors := ValidateStructure(plan);
      if errors != [] {
        return Report(false, errors);
      }
      var stepIds := IdSet(plan.steps);
      errors := ContinuityErrors(plan.steps);
      var duplicates := ValidateDuplicateStepIds(plan.steps);
      errors := errors + duplicates;
      var unmet := ValidateDependenciesExist(plan.steps, stepIds);
      errors := errors + unmet;
      var cycles := ValidateDependencyCycles(plan.steps);
      errors := errors + cycles;
      var tools := ValidateToolHints(plan.steps);
      errors := errors + tools;
      return Report(|errors| == 0, errors);
    }

    static method ValidateStructure(plan: Plan) returns (errors: seq<PlanError>)
      ensures errors == StructureErrors(plan)
      ensures errors == [] <==>
              (!IsBlank(plan.goal) && plan.steps != [] && forall s :: s in plan.steps ==> !IsBlank(s.task))
    {
      errors := [];
      if IsBlank(plan.goal) {
        errors := errors + [BlankGoal];
      }
      if plan.steps == [] {
        errors := errors + [NoSteps];
      }
      ghost var head := errors;
      for i := 0 to |plan.steps|
        invariant errors == head + TaskErrors(plan.steps[..i])
      {
        assert plan.steps[..i + 1][..i] == plan.steps[..i];
        if IsBlank(plan.steps[i].task) {
          errors := errors + [BlankTask(plan.steps[i].id)];
        }
      }
      assert plan.steps[..|plan.steps|] == plan.steps;
      TaskErrorsEmpty(plan.steps);
    }

    static method ValidateDuplicateStepIds(steps: seq<PlanStep>) returns (errors: seq<PlanError>)
      ensures errors == DuplicateErrors(steps)
      ensures errors == [] <==> DistinctIds(steps)
    {
      hide DistinctIds, IdSet;
      errors := [];
      var seen: set<int> := {};
      assert IdSet(steps[..0]) == {} by { NoIds(); }
      for i := 0 to |steps|
        invariant seen == IdSet(steps[..i])
        invariant errors == DuplicateErrors(steps[..i])
      {
        assert steps[..i + 1][..i] == steps[..i];
        assert steps[..i + 1] == steps[..i] + [steps[i]];
        IdSetSnoc(steps[..i], steps[i]);
        if steps[i].id in seen {
          errors := errors + [DuplicateId(steps[i].id)];
        }
        seen := seen + {steps[i].id};
      }
      assert steps[..|steps|] == steps;
      DuplicateErrorsEmpty(steps);
    }

    static method ValidateDependenciesExist(steps: seq<PlanStep>, stepIds: set<int>) returns (errors: seq<PlanError>)
      ensures errors == DependencyErrors(steps, stepIds)
      ensures errors == [] <==> forall s :: s in steps ==> DepsExist(s, stepIds)
    {
      errors := [];
      for i := 0 to |steps|
        invariant errors == DependencyErrors(steps[..i], stepIds)
      {
        assert steps[..i + 1][..i] == steps[..i];
        var unmet := DependencyErrorsOf(steps[i].id, steps[i].Deps(), stepIds);
        errors := errors + unmet;
      }
      assert steps[..|steps|] == steps;
      DependencyErrorsEmpty(steps, stepIds);
    }

    /** The inner loop over one step's dependencies. */
    static method DependencyErrorsOf(id: int, deps: seq<int>, stepIds: set<int>) returns (errors: seq<PlanError>)
      ensures errors == DepErrors(id, deps, stepIds)
    {
      errors := [];
      for j := 0 to |deps|
        invariant errors == DepErrors(id, deps[..j], stepIds)
      {
        assert deps[..j + 1][..j] == deps[..j];
        if deps[j] !in stepIds {
          errors := errors + [UnknownDependency(id, deps[j])];
        }
        if deps[j] >= id {
          errors := errors + [DependencyNotPrior(id, deps[j])];
        }
      }
      assert deps[..|deps|] == deps;
    }

    /** The search reports an error exactly when the graph on existing ids has a directed cycle. */
    static method ValidateDependencyCycles(steps: seq<PlanStep>) returns (errors: seq<PlanError>)
      ensures errors == if HasCycle(GraphOf(steps)) then [DependencyCycle] else []
    {
      var graph := GraphOf(steps);
      var search := new CycleSearch(graph);
      var todo := graph.Keys;
      while todo != {}
        invariant todo <= graph.Keys
        invariant search.graph == graph && search.Invariant() && search.visiting == {}
        invariant graph.Keys - todo <= search.visited
        decreases todo
      {
        var stepId :| stepId in todo;
        var cyclic := search.Dfs(stepId);
        if cyclic {
          return [DependencyCycle];
        }
        todo := todo - {stepId};
      }
      assert forall v :: v in graph ==> v in search.visited;
      OrderedIsAcyclic(graph, search.order);
      return [];
    }

    method ValidateToolHints(steps: seq<PlanStep>) returns (errors: seq<PlanError>)
      ensures errors == ToolErrors(steps, registry)
      ensures errors == [] <==> forall s :: s in steps && s.toolHint.Some? ==> s.toolHint.value in registry
    {
      errors := [];
      for i := 0 to |steps|
        invariant errors == ToolErrors(steps[..i], registry)
      {
        assert steps[..i + 1][..i] == steps[..i];
        if steps[i].toolHint.Some? && steps[i].toolHint.value !in registry {
          errors := errors + [UnregisteredTool(steps[i].id, steps[i].toolHint.value)];
        }
      }
      assert steps[..|steps|] == steps;
      ToolErrorsEmpty(steps, registry);
    }
  }

  // ------------------------------------------------------ what success means

  /** Ids are exactly 1..n, whatever the list order. */
  ghost predicate ContiguousIds(steps: seq<PlanStep>) {
    && DistinctIds(steps)
    && forall s :: s in steps ==> 1 <= s.id <= |steps|
  }

  ghost predicate PriorStep(s: PlanStep) {
    forall d :: d in s.Deps() ==> 1 <= d < s.id
  }

  ghost predicate PriorDependencies(steps: seq<PlanStep>) {
    forall s :: s in steps ==> PriorStep(s)
  }

  ghost predicate WellFormed(plan: Plan, registry: set<string>) {
    && !IsBlank(plan.goal)
    && plan.steps != []
    && (forall s :: s in plan.steps ==> !IsBlank(s.task))
    && ContiguousIds(plan.steps)
    && PriorDependencies(plan.steps)
    && (forall s :: s in plan.steps && s.toolHint.Some? ==> s.toolHint.value in registry)
  }

  lemma {:induction false} TaskErrorsEmpty(steps: seq<PlanStep>)
    ensures TaskErrors(steps) == [] <==> forall s :: s in steps ==> !IsBlank(s.task)
  {
    if steps != [] {
      TaskErrorsEmpty(steps[..|steps| - 1]);
      assert steps == steps[..|steps| - 1] + [steps[|steps| - 1]];
    }
  }

  lemma NoIds()
    ensures IdSet([]) == {}
  {
  }

  lemma {:induction false} DuplicateErrorsEmpty(steps: seq<PlanStep>)
    ensures DuplicateErrors(steps) == [] <==> DistinctIds(steps)
  {
    if steps != [] {
      var front, last := steps[..|steps| - 1], steps[|steps| - 1];
      assert steps == front + [last];
      DuplicateErrorsEmpty(front);
      DistinctIdsSnoc(front, last);
    }
  }

  lemma {:induction false} DepErrorsEmpty(id: int, deps: seq<int>, ids: set<int>)
    ensures DepErrors(id, deps, ids) == [] <==> forall d :: d in deps ==> d in ids && d < id
  {
    if deps != [] {
      DepErrorsEmpty(id, deps[..|deps| - 1], ids);
      assert deps == deps[..|deps| - 1] + [deps[|deps| - 1]];
    }
  }

  lemma {:induction false} DependencyErrorsEmpty(steps: seq<PlanStep>, ids: set<int>)
    ensures DependencyErrors(steps, ids) == [] <==> forall s :: s in steps ==> DepsExist(s, ids)
  {
    if steps != [] {
      var last := steps[|steps| - 1];
      var front := steps[..|steps| - 1];
      DependencyErrorsEmpty(front, ids);
      DepErrorsEmpty(last.id, last.Deps(), ids);
      assert DepErrors(last.id, last.Deps(), ids) == [] <==> DepsExist(last, ids);
      assert steps == front + [last];
      assert forall s :: s in steps <==> s in front || s == last;
    }
  }

  lemma {:induction false} ToolErrorsEmpty(steps: seq<PlanStep>, registry: set<string>)
    ensures ToolErrors(steps, registry) == [] <==>
            forall s :: s in steps && s.toolHint.Some? ==> s.toolHint.value in registry
  {
    if steps != [] {
      ToolErrorsEmpty(steps[..|steps| - 1], registry);
      assert steps == steps[..|steps| - 1] + [steps[|steps| - 1]];
    }
  }

  /** Sorting the ids gives 1..n exactly when they are distinct and lie in 1..n. */
  lemma ContinuityIff(steps: seq<PlanStep>)
    ensures SortedIds(steps) == Range(1, |steps| + 1) <==> ContiguousIds(steps)
  {
    var ids, sorted, n := Ids(steps), SortedIds(steps), |steps|;
    SortByIsPermutation(ids, Identity);
    SortByIsSorted(ids, Identity);
    SameMembers(sorted, ids);
    if sorted == Range(1, n + 1) {
      DistinctKeysPermutation(sorted, ids, Identity);
      assert DistinctIds(steps) by {
        assert forall i :: 0 <= i < n ==> ids[i] == steps[i].id;
      }
      forall s | s in steps ensures 1 <= s.id <= n {
        var i :| 0 <= i < n && steps[i] == s;
        assert ids[i] in ids && ids[i] in sorted;
      }
    }
    if ContiguousIds(steps) {
      assert DistinctKeys(ids, Identity);
      DistinctKeysPermutation(ids, sorted, Identity);
      forall i | 0 <= i < n ensures 1 <= sorted[i] <= n {
        assert sorted[i] in sorted && sorted[i] in ids;
        var k :| 0 <= k < n && ids[k] == sorted[i];
        assert steps[k] in steps;
      }
      StrictlyIncreasingIsRange(sorted, n);
    }
  }

  lemma StrictlyIncreasingIsRange(xs: seq<int>, n: nat)
    requires |xs| == n && SortedBy(xs, Identity) && DistinctKeys(xs, Identity)
    requires forall i :: 0 <= i < n ==> 1 <= xs[i] <= n
    ensures xs == Range(1, n + 1)
  {
    forall i | 0 <= i < n ensures xs[i] == i + 1 {
      LowerBound(xs, i);
      UpperBound(xs, n, i);
    }
  }

  lemma {:induction false} LowerBound(xs: seq<int>, i: nat)
    requires SortedBy(xs, Identity) && DistinctKeys(xs, Identity) && i < |xs| && xs[0] >= 1
    ensures xs[i] >= i + 1
  {
    if i > 0 { LowerBound(xs, i - 1); assert Identity(xs[i - 1]) < Identity(xs[i]); }
  }

  lemma {:induction false} UpperBound(xs: seq<int>, n: nat, i: nat)
    requires SortedBy(xs, Identity) && DistinctKeys(xs, Identity) && |xs| == n && i < n && xs[n - 1] <= n
    ensures xs[i] <= i + 1
    decreases n - i
  {
    if i < n - 1 { UpperBound(xs, n, i + 1); assert Identity(xs[i]) < Identity(xs[i + 1]); }
  }

  /** Contiguous ids cover all of 1..n. */
  lemma ContiguousCovers(steps: seq<PlanStep>)
    requires ContiguousIds(steps)
    ensures forall i :: i in IdSet(steps) <==> 1 <= i <= |steps|
  {
    ContinuityIff(steps);
    var ids := Ids(steps);
    SortByIsPermutation(ids, Identity);
    SameMembers(SortedIds(steps), ids);
    forall i | 1 <= i <= |steps| ensures i in IdSet(steps) {
      assert SortedIds(steps)[i - 1] == i;
      assert i in SortedIds(steps) && i in ids;
      var k :| 0 <= k < |ids| && ids[k] == i;
      assert steps[k] in steps && steps[k].id == i;
    }
  }

  lemma GraphEntry(steps: seq<PlanStep>, s: PlanStep)
    requires DistinctIds(steps) && s in steps
    ensures s.id in GraphOf(steps) && GraphOf(steps)[s.id] == s.Deps()
  {
    var last := steps[|steps| - 1];
    assert steps == steps[..|steps| - 1] + [last];
    if s != last {
      GraphEntry(steps[..|steps| - 1], s);
    }
  }

  /** Once ids are distinct and dependencies point backwards, the cycle search cannot fire. */
  lemma PriorDependenciesAcyclic(steps: seq<PlanStep>)
    requires DistinctIds(steps)
    requires forall s :: s in steps ==> DepsExist(s, IdSet(steps))
    ensures !HasCycle(GraphOf(steps))
  {
    var g := GraphOf(steps);
    forall p | IsCycle(g, p) ensures false {
      WalkDecreases(steps, p, |p| - 1);
    }
  }

  lemma EdgeDecreases(steps: seq<PlanStep>, p: seq<int>, i: nat)
    requires DistinctIds(steps)
    requires forall s :: s in steps ==> DepsExist(s, IdSet(steps))
    requires IsWalk(GraphOf(steps), p) && i + 1 < |p|
    ensures p[i + 1] < p[i]
  {
    var u, v := p[i], p[i + 1];
    assert u in GraphOf(steps) && v in GraphOf(steps)[u];
    assert u in IdSet(steps);
    var s :| s in steps && s.id == u;
    GraphEntry(steps, s);
    assert DepsExist(s, IdSet(steps));
  }

  lemma {:induction false} WalkDecreases(steps: seq<PlanStep>, p: seq<int>, i: nat)
    requires DistinctIds(steps)
    requires forall s :: s in steps ==> DepsExist(s, IdSet(steps))
    requires IsWalk(GraphOf(steps), p) && 1 <= i < |p|
    ensures p[i] < p[0]
  {
    EdgeDecreases(steps, p, i - 1);
    if i > 1 { WalkDecreases(steps, p, i - 1); }
  }

  lemma PriorIffExist(steps: seq<PlanStep>)
    requires ContiguousIds(steps)
    ensures (forall s :: s in steps ==> DepsExist(s, IdSet(steps))) <==> PriorDependencies(steps)
  {
    ContiguousCovers(steps);
    forall s | s in steps ensures DepsExist(s, IdSet(steps)) <==> PriorStep(s) {
    }
  }

  /** Success of the whole report, characterised without any of the checks that produce it. */
  lemma SuccessIffWellFormed(plan: Plan, registry: set<string>)
    ensures AllErrors(plan, registry) == [] <==> WellFormed(plan, registry)
  {
    var steps := plan.steps;
    TaskErrorsEmpty(steps);
    ContinuityIff(steps);
    DuplicateErrorsEmpty(steps);
    DependencyErrorsEmpty(steps, IdSet(steps));
    ToolErrorsEmpty(steps, registry);
    if ContiguousIds(steps) {
      PriorIffExist(steps);
      if PriorDependencies(steps) {
        PriorDependenciesAcyclic(steps);
      }
    }
  }
}
