/** What each error of the plan validator says about the plan (plan/validator.py). */
module PlanErrorLaws {
  import opened Sequences
  import opened PlanSchema
  import opened PlanValidation

  lemma SplitLast<T>(xs: seq<T>)
    requires xs != []
    ensures xs == xs[..|xs| - 1] + [xs[|xs| - 1]]
    ensures forall x :: x in xs <==> x in xs[..|xs| - 1] || x == xs[|xs| - 1]
  {
    assert xs == xs[..|xs| - 1] + [xs[|xs| - 1]];
  }

  /** Some step has this id and a blank task. */
  lemma {:induction false} BlankTasks(steps: seq<PlanStep>, e: PlanError)
    ensures e in TaskErrors(steps) <==>
            e.BlankTask? && exists s :: s in steps && s.id == e.stepId && IsBlank(s.task)
  {
    if steps != [] {
      SplitLast(steps);
      BlankTasks(steps[..|steps| - 1], e);
    }
  }

  /** A step with this id stands behind another one. */
  lemma {:induction false} DuplicateIds(steps: seq<PlanStep>, e: PlanError)
    ensures e in DuplicateErrors(steps) <==> e.DuplicateId? && Twice(steps, e.stepId)
  {
    if steps != [] {
      hide Twice, IdSet;
      var n := |steps| - 1;
      DuplicateIds(steps[..n], e);
      assert steps == steps[..n] + [steps[n]];
      TwiceSnoc(steps[..n], steps[n], steps[n].id);
      if e.DuplicateId? { TwiceSnoc(steps[..n], steps[n], e.stepId); }
    }
  }

  ghost predicate Twice(steps: seq<PlanStep>, id: int) {
    exists i, j :: 0 <= i < j < |steps| && steps[i].id == steps[j].id == id
  }

  lemma TwiceSnoc(front: seq<PlanStep>, last: PlanStep, id: int)
    ensures Twice(front + [last], id) <==> Twice(front, id) || (last.id == id && id in IdSet(front))
  {
    var steps, n := front + [last], |front|;
    assert steps[n] == last && forall i :: 0 <= i < n ==> steps[i] == front[i] && front[i] in front;
    if last.id == id && id in IdSet(front) {
      var s :| s in front && s.id == id;
      var i :| 0 <= i < n && front[i] == s;
      assert steps[i].id == steps[n].id == id;
    }
    if Twice(front, id) { TwiceStays(front, last, id); }
    if i, j :| 0 <= i < j < |steps| && steps[i].id == steps[j].id == id && j < n {
      assert front[i].id == front[j].id == id;
    }
  }

  lemma TwiceStays(front: seq<PlanStep>, last: PlanStep, id: int)
    requires Twice(front, id)
    ensures Twice(front + [last], id)
  {
    var i, j :| 0 <= i < j < |front| && front[i].id == front[j].id == id;
    assert (front + [last])[i].id == (front + [last])[j].id == id;
  }

  /** The step names a dependency that no step has as its id, or one that is not smaller than its own. */
  predicate NamesBadly(s: PlanStep, ids: set<int>, e: PlanError) {
    || (e.UnknownDependency? && s.id == e.stepId && e.dep in s.Deps() && e.dep !in ids)
    || (e.DependencyNotPrior? && s.id == e.stepId && e.dep in s.Deps() && e.dep >= s.id)
  }

  lemma {:induction false} StepDependencies(s: PlanStep, deps: seq<int>, ids: set<int>, e: PlanError)
    ensures e in DepErrors(s.id, deps, ids) <==>
            || (e.UnknownDependency? && s.id == e.stepId && e.dep in deps && e.dep !in ids)
            || (e.DependencyNotPrior? && s.id == e.stepId && e.dep in deps && e.dep >= s.id)
  {
    if deps != [] {
      SplitLast(deps);
      StepDependencies(s, deps[..|deps| - 1], ids, e);
    }
  }

  lemma {:induction false} BadDependencies(steps: seq<PlanStep>, ids: set<int>, e: PlanError)
    ensures e in DependencyErrors(steps, ids) <==> exists s :: s in steps && NamesBadly(s, ids, e)
  {
    hide DepErrors;
    if steps != [] {
      var last := steps[|steps| - 1];
      SplitLast(steps);
      var front := steps[..|steps| - 1];
      BadDependencies(front, ids, e);
      StepDependencies(last, last.Deps(), ids, e);
      assert last in steps && (e in DepErrors(last.id, last.Deps(), ids) <==> NamesBadly(last, ids, e));
      assert DependencyErrors(steps, ids) == DependencyErrors(front, ids) + DepErrors(last.id, last.Deps(), ids);
    }
  }

  predicate NamesTool(s: PlanStep, registry: set<string>, e: PlanError) {
    e.UnregisteredTool? && e.tool !in registry && s.id == e.stepId && s.toolHint == Some(e.tool)
  }

  lemma {:induction false} UnknownTools(steps: seq<PlanStep>, registry: set<string>, e: PlanError)
    ensures e in ToolErrors(steps, registry) <==> exists s :: s in steps && NamesTool(s, registry, e)
  {
    if steps != [] {
      SplitLast(steps);
      UnknownTools(steps[..|steps| - 1], registry, e);
      var last := steps[|steps| - 1];
      assert NamesTool(last, registry, e) <==>
             last.toolHint.Some? && last.toolHint.value !in registry
             && e == UnregisteredTool(last.id, last.toolHint.value);
    }
  }

  /** What an error claims about a plan. */
  ghost predicate Claims(plan: Plan, registry: set<string>, e: PlanError) {
    match e
    case BlankGoal => IsBlank(plan.goal)
    case NoSteps => plan.steps == []
    case BlankTask(id) => exists s :: s in plan.steps && s.id == id && IsBlank(s.task)
    case IdsNotContinuous(expected, got) =>
      expected == Range(1, |plan.steps| + 1) && got == SortedIds(plan.steps) && !ContiguousIds(plan.steps)
    case DuplicateId(id) => Twice(plan.steps, id)
    case UnknownDependency(id, d) =>
      d !in IdSet(plan.steps) && exists s :: s in plan.steps && s.id == id && d in s.Deps()
    case DependencyNotPrior(id, d) => exists s :: s in plan.steps && s.id == id && d in s.Deps() && d >= id
    case DependencyCycle => HasCycle(GraphOf(plan.steps))
    case UnregisteredTool(id, tool) =>
      tool !in registry && exists s :: s in plan.steps && s.id == id && s.toolHint == Some(tool)
  }

  /** The faults of goal and tasks, which hide all others from the report. */
  predicate Structural(e: PlanError) {
    e.BlankGoal? || e.NoSteps? || e.BlankTask?
  }

  /** The report names a fault if and only if the plan has it, except that faults of goal and tasks are reported
      alone. */
  lemma ErrorsAreFaults(plan: Plan, registry: set<string>, e: PlanError)
    ensures e in AllErrors(plan, registry) <==>
            && Claims(plan, registry, e)
            && (Structural(e) || forall f :: Structural(f) ==> !Claims(plan, registry, f))
  {
    hide StructureErrors, DuplicateErrors, DependencyErrors, ToolErrors, ContinuityErrors, CycleErrors, Claims;
    StructureFaults(plan, registry);
    if StructureErrors(plan) == [] {
      assert !Structural(e) || !Claims(plan, registry, e);
      OtherFaults(plan, registry, e);
    } else {
      assert StructureErrors(plan)[0] in StructureErrors(plan);
    }
  }

  lemma OtherFaults(plan: Plan, registry: set<string>, e: PlanError)
    requires !Structural(e) || !Claims(plan, registry, e)
    ensures Claims(plan, registry, e) <==>
            e in ContinuityErrors(plan.steps) + DuplicateErrors(plan.steps) +
                 DependencyErrors(plan.steps, IdSet(plan.steps)) + CycleErrors(plan.steps) +
                 ToolErrors(plan.steps, registry)
  {
    hide DuplicateErrors, DependencyErrors, ToolErrors, ContinuityErrors, HasCycle, ContiguousIds, IsBlank;
    DuplicateIds(plan.steps, e);
    BadDependencies(plan.steps, IdSet(plan.steps), e);
    UnknownTools(plan.steps, registry, e);
    Discontinuity(plan, registry, e);
  }

  lemma StructureFaults(plan: Plan, registry: set<string>)
    ensures forall f :: f in StructureErrors(plan) <==> Structural(f) && Claims(plan, registry, f)
  {
    hide TaskErrors, HasCycle, ContiguousIds, IsBlank;
    forall f ensures f in StructureErrors(plan) <==> Structural(f) && Claims(plan, registry, f) {
      BlankTasks(plan.steps, f);
    }
  }

  /** The continuity error shows the expected ids and the sorted actual ones. */
  lemma Discontinuity(plan: Plan, registry: set<string>, e: PlanError)
    ensures e in ContinuityErrors(plan.steps) <==> e.IdsNotContinuous? && Claims(plan, registry, e)
  {
    hide ContiguousIds;
    ContinuityIff(plan.steps);
  }
}
