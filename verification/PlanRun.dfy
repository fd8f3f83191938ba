/** Node functions, merge and stop test of a compiled plan whose steps all succeed, over any state
    (graph/runtime/compiler/plan_compiler.py). */
module PlanRun {
  import opened PlanSchema
  import opened CompiledWalk

  type Done = set<int>

  /** What a state says is finished, and which states count as running. */
  datatype Lens<!S> = Lens(done: S -> Done, ok: S -> bool)

  /** A step node whose step succeeds: it acts only when its step is unfinished and its dependencies are finished. */
  function RunStep(p: PlanStep, done: Done): Done {
    if p.id !in done && forall d :: d in p.Deps() ==> d in done then done + {p.id} else done
  }

  /** `all_steps_finished` */
  predicate Complete(steps: seq<PlanStep>, done: Done) {
    forall p :: p in steps ==> p.id in done
  }

  /** The node keeps what is finished and keeps the run going. */
  ghost predicate Keeps<S(!new)>(fn: S -> S, lens: Lens<S>) {
    forall s {:trigger fn(s)} :: lens.ok(s) ==> lens.ok(fn(s)) && lens.done(fn(s)) == lens.done(s)
  }

  ghost predicate Runs<S(!new)>(fn: S -> S, lens: Lens<S>, p: PlanStep) {
    forall s {:trigger fn(s)} :: lens.ok(s) ==> lens.ok(fn(s)) && lens.done(fn(s)) == RunStep(p, lens.done(s))
  }

  /** The merge leaves finished what the last branch's copy says. */
  ghost predicate KeepsLastCopy<S(!new)>(merge: (S, seq<S>) -> S, lens: Lens<S>) {
    forall s, branches: seq<S> {:trigger merge(s, branches)} ::
      lens.ok(s) && branches != [] && (forall b :: b in branches ==> lens.ok(b)) ==>
      lens.ok(merge(s, branches)) && lens.done(merge(s, branches)) == lens.done(branches[|branches| - 1])
  }

  /** Nodes of a compiled plan whose steps all succeed, over any state. */
  ghost predicate RunsPlan<S(!new)>(steps: seq<PlanStep>, parts: Parts<S>, lens: Lens<S>) {
    && Keeps(parts.entryFn, lens) && Keeps(parts.sinkFn, lens) && (forall k :: Keeps(parts.joinFn(k), lens))
    && (forall p :: p in steps ==> Runs(parts.stepFn(p), lens, p))
    && KeepsLastCopy(parts.merge, lens)
    && (forall s {:trigger parts.stop(s)} :: lens.ok(s) ==> (parts.stop(s) <==> Complete(steps, lens.done(s))))
  }
}
