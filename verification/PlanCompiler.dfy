/** Plans compiled level by level into graphs (graph/runtime/compiler/plan_compiler.py). */
module PlanCompiler {
  import opened Sequences
  import opened PlanSchema
  import opened PlanValidation
  import opened PlanRepair

  // ------------------------------------------------------------------ levels

  /** `{step.id: step for step in steps}` in insertion order: a repeated id keeps its first place and its last step. */
  function DictById(steps: seq<PlanStep>): seq<PlanStep> {
    if steps == [] then []
    else Put(DictById(steps[..|steps| - 1]), steps[|steps| - 1])
  }

  function Put(dict: seq<PlanStep>, s: PlanStep): seq<PlanStep> {
    if dict == [] then [s]
    else if dict[0].id == s.id then [s] + dict[1..]
    else [dict[0]] + Put(dict[1..], s)
  }

  predicate Ready(s: PlanStep, finished: set<int>) {
    forall d :: d in s.Deps() ==> d in finished
  }

  function ReadySteps(remaining: seq<PlanStep>, finished: set<int>): seq<PlanStep> {
    Filter((s: PlanStep) => Ready(s, finished), remaining)
  }

  function Waiting(remaining: seq<PlanStep>, finished: set<int>): seq<PlanStep> {
    Filter((s: PlanStep) => !Ready(s, finished), remaining)
  }

  lemma {:induction false} ReadySplit(remaining: seq<PlanStep>, finished: set<int>)
    ensures |remaining| == |ReadySteps(remaining, finished)| + |Waiting(remaining, finished)|
  {
    if remaining != [] { ReadySplit(remaining[1..], finished); }
  }

  function LevelsFrom(remaining: seq<PlanStep>, finished: set<int>): seq<seq<PlanStep>>
    decreases |remaining|
  {
    var ready := ReadySteps(remaining, finished);
    ReadySplit(remaining, finished);
    if ready == [] then []
    else [SortById(ready)] + LevelsFrom(Waiting(remaining, finished), finished + IdSet(ready))
  }

  function Levels(steps: seq<PlanStep>): seq<seq<PlanStep>> {
    LevelsFrom(DictById(steps), {})
  }

  method TopologicalLevels(steps: seq<PlanStep>) returns (levels: seq<seq<PlanStep>>)
    ensures levels == Levels(steps)
  {
    var remaining, finished := DictById(steps), {};
    levels := [];
    while remaining != []
      invariant levels + LevelsFrom(remaining, finished) == Levels(steps)
      decreases |remaining|
    {
      var ready := ReadySteps(remaining, finished);
      ReadySplit(remaining, finished);
      if ready == [] {
        break;
      }
      assert levels + ([SortById(ready)] + LevelsFrom(Waiting(remaining, finished), finished + IdSet(ready))) ==
             (levels + [SortById(ready)]) + LevelsFrom(Waiting(remaining, finished), finished + IdSet(ready));
      levels := levels + [SortById(ready)];
      remaining, finished := Waiting(remaining, finished), finished + IdSet(ready);
    }
  }

  // ------------------------------------------------------ facts about levels

  lemma {:induction false} PutFacts(dict: seq<PlanStep>, s: PlanStep)
    requires DistinctIds(dict)
    ensures DistinctIds(Put(dict, s)) && IdSet(Put(dict, s)) == IdSet(dict) + {s.id}
    ensures forall t :: t in Put(dict, s) <==> t == s || (t in dict && t.id != s.id)
  {
    if dict != [] {
      var head, rest := dict[0], dict[1..];
      assert dict == [head] + rest;
      UnconsDistinct(head, rest);
      if head.id != s.id {
        PutFacts(rest, s);
        ConsDistinct(head, Put(rest, s));
      } else {
        ConsDistinct(s, rest);
      }
      assert forall t :: t in dict <==> t == head || t in rest;
    }
  }

  lemma UnconsDistinct(head: PlanStep, rest: seq<PlanStep>)
    requires DistinctIds([head] + rest)
    ensures DistinctIds(rest) && forall t :: t in rest ==> t.id != head.id
  {
    var dict := [head] + rest;
    forall i, j | 0 <= i < j < |rest| ensures IdOf(rest[i]) != IdOf(rest[j]) {
      assert IdOf(dict[i + 1]) != IdOf(dict[j + 1]);
    }
    forall t | t in rest ensures t.id != head.id {
      var i :| 0 <= i < |rest| && rest[i] == t;
      assert IdOf(dict[0]) != IdOf(dict[i + 1]);
    }
  }

  lemma ConsDistinct(head: PlanStep, rest: seq<PlanStep>)
    requires DistinctIds(rest) && forall t :: t in rest ==> t.id != head.id
    ensures DistinctIds([head] + rest)
  {
    var all := [head] + rest;
    forall i, j | 0 <= i < j < |all| ensures IdOf(all[i]) != IdOf(all[j]) {
      assert rest[j - 1] in rest;
      if i > 0 { assert IdOf(rest[i - 1]) != IdOf(rest[j - 1]); }
    }
  }

  /** The dictionary is the validator's dependency graph: the same ids, each with the dependencies it looks up. */
  lemma {:induction false} DictIsGraph(steps: seq<PlanStep>)
    ensures DistinctIds(DictById(steps)) && IdSet(DictById(steps)) == IdSet(steps)
    ensures forall s :: s in DictById(steps) ==>
              s in steps && s.id in GraphOf(steps) && GraphOf(steps)[s.id] == s.Deps()
    ensures |DictById(steps)| <= |steps|
  {
    if steps != [] {
      var front, last := steps[..|steps| - 1], steps[|steps| - 1];
      assert steps == front + [last];
      DictIsGraph(front);
      PutFacts(DictById(front), last);
      PutLength(DictById(front), last);
      IdSetSnoc(front, last);
    }
  }

  lemma {:induction false} PutLength(dict: seq<PlanStep>, s: PlanStep)
    ensures |Put(dict, s)| <= |dict| + 1
  {
    if dict != [] { PutLength(dict[1..], s); }
  }

  function IdsBelow(levels: seq<seq<PlanStep>>, k: nat): set<int>
    requires k <= |levels|
  {
    if k == 0 then {} else IdsBelow(levels, k - 1) + IdSet(levels[k - 1])
  }

  lemma SortedMembers(steps: seq<PlanStep>)
    ensures IdSet(SortById(steps)) == IdSet(steps) && |SortById(steps)| == |steps|
    ensures forall s :: s in SortById(steps) <==> s in steps
  {
    SortedByIdFacts(steps);
  }

  lemma {:induction false} IdsBelowTail(levels: seq<seq<PlanStep>>, k: nat)
    requires 1 <= k <= |levels|
    ensures IdsBelow(levels, k) == IdSet(levels[0]) + IdsBelow(levels[1..], k - 1)
  {
    if k > 1 {
      IdsBelowTail(levels, k - 1);
      assert levels[1..][k - 2] == levels[k - 1];
    } else {
      assert IdsBelow(levels, 0) == {} && IdsBelow(levels[1..], 0) == {};
    }
  }

  lemma ReadyDependencies(remaining: seq<PlanStep>, finished: set<int>, s: PlanStep)
    ensures s in ReadySteps(remaining, finished) ==> s in remaining && forall d :: d in s.Deps() ==> d in finished
    ensures s in Waiting(remaining, finished) ==> s in remaining && !Ready(s, finished)
  {
  }

  lemma FirstLevelDependency(s: PlanStep, ready: seq<PlanStep>, finished: set<int>, rest: seq<seq<PlanStep>>)
    requires !Ready(s, finished) && forall d :: d in s.Deps() ==> d in finished + IdSet(ready) + IdsBelow(rest, 0)
    ensures exists d :: d in s.Deps() && d !in finished && d in IdSet(SortById(ready))
  {
    hide SortById;
    SortedMembers(ready);
    var d :| d in s.Deps() && d !in finished;
    assert IdsBelow(rest, 0) == {};
    assert d in IdSet(ready);
  }

  /** Level by level: steps come from the input, every dependency is below, and one is exactly one level below. */
  lemma {:induction false} LevelDependencies(remaining: seq<PlanStep>, finished: set<int>, k: nat, s: PlanStep)
    requires k < |LevelsFrom(remaining, finished)| && s in LevelsFrom(remaining, finished)[k]
    ensures s in remaining
    ensures forall d :: d in s.Deps() ==> d in finished + IdsBelow(LevelsFrom(remaining, finished), k)
    ensures k > 0 ==> exists d :: d in s.Deps() && d !in finished && d in IdSet(LevelsFrom(remaining, finished)[k - 1])
    decreases |remaining|
  {
    hide SortById, IdsBelow, Ready;
    var ready := ReadySteps(remaining, finished);
    ReadySplit(remaining, finished);
    SortedMembers(ready);
    var levels := LevelsFrom(remaining, finished);
    var rest := LevelsFrom(Waiting(remaining, finished), finished + IdSet(ready));
    assert levels == [SortById(ready)] + rest && levels[1..] == rest;
    if k == 0 {
      ReadyDependencies(remaining, finished, s);
    } else {
      assert levels[k] == rest[k - 1];
      LevelDependencies(Waiting(remaining, finished), finished + IdSet(ready), k - 1, s);
      ReadyDependencies(remaining, finished, s);
      IdsBelowTail(levels, k);
      if k == 1 {
        FirstLevelDependency(s, ready, finished, rest);
      } else {
        assert levels[k - 1] == rest[k - 2];
      }
    }
  }

  /** Steps that never become ready. */
  function Leftover(remaining: seq<PlanStep>, finished: set<int>): seq<PlanStep>
    decreases |remaining|
  {
    var ready := ReadySteps(remaining, finished);
    ReadySplit(remaining, finished);
    if ready == [] then remaining else Leftover(Waiting(remaining, finished), finished + IdSet(ready))
  }

  /** Some dependency of the step is neither finished before nor placed. */
  ghost predicate WaitsFor(s: PlanStep, remaining: seq<PlanStep>, finished: set<int>) {
    exists d ::
      d in s.Deps() && d !in finished + IdsBelow(LevelsFrom(remaining, finished), |LevelsFrom(remaining, finished)|)
  }

  /** Placed and left-over steps partition the input, and every left-over step waits for something never placed. */
  lemma {:induction false} LeftoverFacts(remaining: seq<PlanStep>, finished: set<int>)
    ensures var levels := LevelsFrom(remaining, finished);
            IdSet(remaining) == IdsBelow(levels, |levels|) + IdSet(Leftover(remaining, finished))
    ensures forall s :: s in Leftover(remaining, finished) ==> s in remaining && WaitsFor(s, remaining, finished)
    decreases |remaining|
  {
    var ready, waiting := ReadySteps(remaining, finished), Waiting(remaining, finished);
    ReadySplit(remaining, finished);
    SortedMembers(ready);
    var levels := LevelsFrom(remaining, finished);
    if ready == [] {
      forall s | s in remaining ensures !Ready(s, finished) {
        assert s !in ready;
      }
    } else {
      LeftoverFacts(waiting, finished + IdSet(ready));
      assert levels[1..] == LevelsFrom(waiting, finished + IdSet(ready));
      IdsBelowTail(levels, |levels|);
      IdSetSplit(remaining, ready, waiting);
    }
  }

  lemma IdSetSplit(all: seq<PlanStep>, a: seq<PlanStep>, b: seq<PlanStep>)
    requires forall s :: s in all <==> s in a || s in b
    ensures IdSet(all) == IdSet(a) + IdSet(b)
  {
  }

  lemma {:induction false} LevelCount(remaining: seq<PlanStep>, finished: set<int>)
    ensures |LevelsFrom(remaining, finished)| <= |remaining|
    ensures forall k :: 0 <= k < |LevelsFrom(remaining, finished)| ==> LevelsFrom(remaining, finished)[k] != []
    decreases |remaining|
  {
    var ready := ReadySteps(remaining, finished);
    ReadySplit(remaining, finished);
    if ready != [] {
      SortedMembers(ready);
      LevelCount(Waiting(remaining, finished), finished + IdSet(ready));
      var rest := LevelsFrom(Waiting(remaining, finished), finished + IdSet(ready));
      assert forall k :: 0 < k < |LevelsFrom(remaining, finished)| ==>
          LevelsFrom(remaining, finished)[k] == rest[k - 1];
    }
  }

  ghost predicate PlacedAt(levels: seq<seq<PlanStep>>, id: int, k: nat) {
    k < |levels| && id in IdSet(levels[k])
  }

  lemma {:induction false} BelowAt(levels: seq<seq<PlanStep>>, k: nat, id: int)
    requires k <= |levels|
    ensures id in IdsBelow(levels, k) <==> exists j :: 0 <= j < k && PlacedAt(levels, id, j)
  {
    if k > 0 {
      BelowAt(levels, k - 1, id);
      assert id in IdSet(levels[k - 1]) <==> PlacedAt(levels, id, k - 1);
    }
  }

  lemma ReadyWaitingDisjoint(remaining: seq<PlanStep>, finished: set<int>, id: int)
    requires DistinctIds(remaining) && id in IdSet(ReadySteps(remaining, finished))
    ensures id !in IdSet(Waiting(remaining, finished))
  {
    var s :| s in ReadySteps(remaining, finished) && s.id == id;
    forall t | t in Waiting(remaining, finished) ensures t.id != id {
      if t.id == id { SameIdSameStep(remaining, s, t); }
    }
  }

  lemma PlacedIsFromInput(remaining: seq<PlanStep>, finished: set<int>, k: nat, id: int)
    requires PlacedAt(LevelsFrom(remaining, finished), id, k)
    ensures id in IdSet(remaining)
  {
    var s: PlanStep :| s in LevelsFrom(remaining, finished)[k] && s.id == id;
    LevelDependencies(remaining, finished, k, s);
  }

  /** An id is placed at one level only. */
  lemma {:induction false} LevelsDisjoint(remaining: seq<PlanStep>, finished: set<int>, j: nat, k: nat, id: int)
    requires DistinctIds(remaining) && j < k
    requires PlacedAt(LevelsFrom(remaining, finished), id, j)
    ensures !PlacedAt(LevelsFrom(remaining, finished), id, k)
    decreases |remaining|
  {
    var ready, waiting := ReadySteps(remaining, finished), Waiting(remaining, finished);
    ReadySplit(remaining, finished);
    var levels := LevelsFrom(remaining, finished);
    var rest := LevelsFrom(waiting, finished + IdSet(ready));
    assert levels == [SortById(ready)] + rest;
    assert forall m: nat :: m > 0 ==> (PlacedAt(levels, id, m) <==> PlacedAt(rest, id, m - 1));
    if j == 0 {
      SortedMembers(ready);
      ReadyWaitingDisjoint(remaining, finished, id);
      if PlacedAt(rest, id, k - 1) { PlacedIsFromInput(waiting, finished + IdSet(ready), k - 1, id); }
    } else {
      FilterDistinctIds((s: PlanStep) => !Ready(s, finished), remaining);
      LevelsDisjoint(waiting, finished + IdSet(ready), j - 1, k - 1, id);
    }
  }

  lemma SameIdSameStep(steps: seq<PlanStep>, s: PlanStep, t: PlanStep)
    requires DistinctIds(steps) && s in steps && t in steps && s.id == t.id
    ensures s == t
  {
    var i :| 0 <= i < |steps| && steps[i] == s;
    var j :| 0 <= j < |steps| && steps[j] == t;
    assert i < j ==> IdOf(steps[i]) != IdOf(steps[j]);
    assert j < i ==> IdOf(steps[j]) != IdOf(steps[i]);
  }

  lemma {:induction false} LevelDistinct(remaining: seq<PlanStep>, finished: set<int>, k: nat)
    requires DistinctIds(remaining) && k < |LevelsFrom(remaining, finished)|
    ensures var level := LevelsFrom(remaining, finished)[k]; DistinctIds(level) && SortedBy(level, IdOf)
    decreases |remaining|
  {
    hide SortById, DistinctIds, Filter;
    var ready := ReadySteps(remaining, finished);
    ReadySplit(remaining, finished);
    FilterDistinctIds((s: PlanStep) => !Ready(s, finished), remaining);
    FilterDistinctIds((s: PlanStep) => Ready(s, finished), remaining);
    SortedByIdFacts(ready);
    if k > 0 {
      LevelDistinct(Waiting(remaining, finished), finished + IdSet(ready), k - 1);
    }
  }

  // ---------------------------------------------------- levels are exactly right

  /** A dependency chain: each node but the last exists and depends on the next. */
  ghost predicate IsChain(g: PlanValidation.Graph, p: seq<int>) {
    |p| >= 1 && p[0] in g && forall i :: 0 <= i < |p| - 1 ==> p[i] in g && p[i + 1] in g[p[i]]
  }

  lemma ConsChain(g: PlanValidation.Graph, id: int, p: seq<int>)
    requires id in g && IsChain(g, p) && p[0] in g[id]
    ensures IsChain(g, [id] + p)
  {
    var q := [id] + p;
    assert forall i :: 0 < i < |q| ==> q[i] == p[i - 1];
  }

  /** What placement says in terms of the dependency graph. */
  lemma PlacedStep(steps: seq<PlanStep>, id: int, k: nat)
    requires PlacedAt(Levels(steps), id, k)
    ensures id in GraphOf(steps)
    ensures forall d :: d in GraphOf(steps)[id] ==> exists j :: 0 <= j < k && PlacedAt(Levels(steps), d, j)
    ensures k > 0 ==> exists d :: d in GraphOf(steps)[id] && PlacedAt(Levels(steps), d, k - 1)
  {
    DictIsGraph(steps);
    var levels := Levels(steps);
    var s: PlanStep :| s in levels[k] && s.id == id;
    LevelDependencies(DictById(steps), {}, k, s);
    forall d | d in s.Deps() ensures exists j :: 0 <= j < k && PlacedAt(levels, d, j) {
      BelowAt(levels, k, d);
    }
  }

  /** Along a chain the level falls at every edge. */
  lemma {:induction false} ChainDescends(steps: seq<PlanStep>, p: seq<int>, k: nat, i: nat) returns (j: nat)
    requires IsChain(GraphOf(steps), p) && PlacedAt(Levels(steps), p[0], k) && i < |p|
    ensures PlacedAt(Levels(steps), p[i], j) && j + i <= k
    decreases i
  {
    if i == 0 {
      j := k;
    } else {
      var m := ChainDescends(steps, p, k, i - 1);
      PlacedStep(steps, p[i - 1], m);
      var d := p[i - 1 + 1];
      assert d in GraphOf(steps)[p[i - 1]];
      j :| 0 <= j < m && PlacedAt(Levels(steps), d, j);
    }
  }

  lemma {:induction false} LongestChain(steps: seq<PlanStep>, id: int, k: nat) returns (p: seq<int>)
    requires PlacedAt(Levels(steps), id, k)
    ensures IsChain(GraphOf(steps), p) && p[0] == id && |p| == k + 1
    decreases k
  {
    PlacedStep(steps, id, k);
    if k == 0 {
      p := [id];
    } else {
      var d :| d in GraphOf(steps)[id] && PlacedAt(Levels(steps), d, k - 1);
      var q := LongestChain(steps, d, k - 1);
      ConsChain(GraphOf(steps), id, q);
      p := [id] + q;
    }
  }

  /** Every transitive dependency exists and none lies on a cycle. */
  ghost predicate Grounded(g: PlanValidation.Graph, id: int) {
    forall p :: IsChain(g, p) && p[0] == id ==> NoDup(p) && forall x :: x in p ==> x in g
  }

  /** The longest dependency chain from id has exactly k edges. */
  ghost predicate HeightIs(g: PlanValidation.Graph, id: int, k: nat) {
    && (forall p :: IsChain(g, p) && p[0] == id ==> |p| <= k + 1)
    && exists p :: IsChain(g, p) && p[0] == id && |p| == k + 1
  }

  lemma PlacedIsGrounded(steps: seq<PlanStep>, id: int, k: nat)
    requires PlacedAt(Levels(steps), id, k)
    ensures Grounded(GraphOf(steps), id) && HeightIs(GraphOf(steps), id, k)
  {
    var g := GraphOf(steps);
    forall p | IsChain(g, p) && p[0] == id
      ensures |p| <= k + 1 && NoDup(p) && forall x :: x in p ==> x in g
    {
      var last := ChainDescends(steps, p, k, |p| - 1);
      forall x | x in p ensures x in g {
        var i :| 0 <= i < |p| && p[i] == x;
        var j := ChainDescends(steps, p, k, i);
        PlacedStep(steps, x, j);
      }
      ChainHasNoRepeat(steps, p, k);
    }
    var q := LongestChain(steps, id, k);
  }

  lemma SuffixChain(g: PlanValidation.Graph, p: seq<int>, i: nat)
    requires IsChain(g, p) && i < |p| && p[i] in g
    ensures IsChain(g, p[i..])
  {
    var q := p[i..];
    forall m | 0 <= m < |q| - 1 ensures q[m] in g && q[m + 1] in g[q[m]] {
      assert q[m] == p[i + m] && q[m + 1] == p[i + m + 1];
    }
  }

  lemma ChainDistinctAt(steps: seq<PlanStep>, p: seq<int>, k: nat, i: nat, j: nat)
    requires IsChain(GraphOf(steps), p) && PlacedAt(Levels(steps), p[0], k) && i < j < |p|
    ensures p[i] != p[j]
  {
    hide GraphOf, Levels, IsChain;
    var a := ChainDescends(steps, p, k, i);
    PlacedStep(steps, p[i], a);
    SuffixChain(GraphOf(steps), p, i);
    assert p[i..][0] == p[i] && p[i..][j - i] == p[j];
    var b := ChainDescends(steps, p[i..], a, j - i);
    if p[i] == p[j] { OneLevelOnly(steps, p[i], a, b); }
  }

  lemma OneLevelOnly(steps: seq<PlanStep>, id: int, a: nat, b: nat)
    requires PlacedAt(Levels(steps), id, a) && PlacedAt(Levels(steps), id, b)
    ensures a == b
  {
    DictIsGraph(steps);
    if a < b { LevelsDisjoint(DictById(steps), {}, a, b, id); }
    if b < a { LevelsDisjoint(DictById(steps), {}, b, a, id); }
  }

  lemma ChainHasNoRepeat(steps: seq<PlanStep>, p: seq<int>, k: nat)
    requires IsChain(GraphOf(steps), p) && PlacedAt(Levels(steps), p[0], k)
    ensures NoDup(p)
  {
    hide GraphOf, Levels;
    forall i, j | 0 <= i < j < |p| ensures p[i] != p[j] {
      ChainDistinctAt(steps, p, k, i, j);
    }
  }

  /** A step that is never placed depends on something that is never placed: an unknown id or another such step. */
  lemma UnplacedDependency(steps: seq<PlanStep>, id: int) returns (d: int)
    requires id in IdSet(Leftover(DictById(steps), {}))
    ensures id in GraphOf(steps) && d in GraphOf(steps)[id]
    ensures d in GraphOf(steps) ==> d in IdSet(Leftover(DictById(steps), {}))
  {
    var levels := Levels(steps);
    DictIsGraph(steps);
    LeftoverFacts(DictById(steps), {});
    var s :| s in Leftover(DictById(steps), {}) && s.id == id;
    assert WaitsFor(s, DictById(steps), {});
    d :| d in s.Deps() && d !in {} + IdsBelow(levels, |levels|);
  }

  /** From a step that is never placed one can follow never-placed dependencies as long as one likes. */
  lemma {:induction false} EndlessChain(steps: seq<PlanStep>, id: int, n: nat) returns (p: seq<int>)
    requires id in IdSet(Leftover(DictById(steps), {}))
    ensures IsChain(GraphOf(steps), p) && p[0] == id
    ensures p[|p| - 1] !in GraphOf(steps) || (|p| == n + 1 && forall x :: x in p ==> x in GraphOf(steps))
    decreases n
  {
    hide GraphOf, LevelsFrom, Leftover;
    var g := GraphOf(steps);
    var d := UnplacedDependency(steps, id);
    if n == 0 {
      p := [id];
    } else {
      if d !in g {
        p := [id, d];
      } else {
        var q := EndlessChain(steps, d, n - 1);
        ConsChain(g, id, q);
        p := [id] + q;
      }
    }
  }

  lemma UnplacedIsUngrounded(steps: seq<PlanStep>, id: int)
    requires id in GraphOf(steps) && forall k :: !PlacedAt(Levels(steps), id, k)
    ensures !Grounded(GraphOf(steps), id)
  {
    hide GraphOf, Levels;
    var g := GraphOf(steps);
    UnplacedIsLeftover(steps, id);
    var p := EndlessChain(steps, id, |g.Keys|);
    assert p[|p| - 1] in p;
    if Grounded(g, id) {
      assert IsChain(g, p) && p[0] == id;
      assert NoDup(p) && forall x :: x in p ==> x in g.Keys;
      NoDupBound(p, g.Keys);
    }
  }

  lemma UnplacedIsLeftover(steps: seq<PlanStep>, id: int)
    requires id in GraphOf(steps) && forall k :: !PlacedAt(Levels(steps), id, k)
    ensures id in IdSet(Leftover(DictById(steps), {}))
  {
    DictIsGraph(steps);
    LeftoverFacts(DictById(steps), {});
    BelowAt(Levels(steps), |Levels(steps)|, id);
  }

  /** The levels are exactly right: a step sits at level k if and only if its transitive dependencies all exist and
      are cycle-free and its longest dependency chain has k edges. Self-loops, dangling dependencies, repeated ids and
      shared sub-graphs are all included. */
  lemma LevelsExact(steps: seq<PlanStep>, id: int, k: nat)
    requires id in GraphOf(steps)
    ensures PlacedAt(Levels(steps), id, k) <==> Grounded(GraphOf(steps), id) && HeightIs(GraphOf(steps), id, k)
  {
    var g, levels := GraphOf(steps), Levels(steps);
    if PlacedAt(levels, id, k) {
      PlacedIsGrounded(steps, id, k);
    } else if Grounded(g, id) && HeightIs(g, id, k) {
      if forall j :: !PlacedAt(levels, id, j) {
        UnplacedIsUngrounded(steps, id);
        assert false;
      } else {
        var j :| PlacedAt(levels, id, j);
        PlacedIsGrounded(steps, id, j);
        SameHeight(g, id, j, k);
      }
    }
  }

  lemma SameHeight(g: PlanValidation.Graph, id: int, j: nat, k: nat)
    requires HeightIs(g, id, j) && HeightIs(g, id, k)
    ensures j == k
  {
  }

  /** For a validated plan nothing is dropped: every step is placed, at one level only, above all its dependencies. */
  lemma ValidPlanIsPlaced(steps: seq<PlanStep>, s: PlanStep) returns (k: nat)
    requires ContiguousIds(steps) && PriorDependencies(steps) && s in steps
    ensures k < |Levels(steps)| && s in Levels(steps)[k]
    ensures forall d :: d in s.Deps() ==> exists j :: 0 <= j < k && PlacedAt(Levels(steps), d, j)
  {
    var g, levels := GraphOf(steps), Levels(steps);
    GraphEntry(steps, s);
    if forall j :: !PlacedAt(levels, s.id, j) {
      UnplacedIsUngrounded(steps, s.id);
      forall p | IsChain(g, p) && p[0] == s.id ensures NoDup(p) && forall x :: x in p ==> x in g {
        ValidChain(steps, p);
      }
      assert false;
    }
    k :| PlacedAt(levels, s.id, k);
    PlacedStep(steps, s.id, k);
    DictIsGraph(steps);
    var t: PlanStep :| t in levels[k] && t.id == s.id;
    LevelDependencies(DictById(steps), {}, k, t);
    SameIdSameStep(steps, s, t);
  }

  lemma ValidChain(steps: seq<PlanStep>, p: seq<int>)
    requires ContiguousIds(steps) && PriorDependencies(steps) && IsChain(GraphOf(steps), p)
    ensures NoDup(p) && forall x :: x in p ==> x in GraphOf(steps)
  {
    forall i | 0 <= i < |p| ensures p[i] in GraphOf(steps) && p[i] <= p[0] - i {
      ValidChainAt(steps, p, i);
    }
    forall i, j | 0 <= i < j < |p| ensures p[i] > p[j] {
      ChainFalls(steps, p, i, j);
    }
  }

  lemma EdgeFalls(steps: seq<PlanStep>, u: int, v: int)
    requires ContiguousIds(steps) && PriorDependencies(steps) && u in GraphOf(steps) && v in GraphOf(steps)[u]
    ensures v < u && v in GraphOf(steps)
  {
    assert u in IdSet(steps);
    var s :| s in steps && s.id == u;
    GraphEntry(steps, s);
    assert PriorStep(s);
    ContiguousCovers(steps);
    assert v in IdSet(steps);
  }

  lemma {:induction false} ValidChainAt(steps: seq<PlanStep>, p: seq<int>, i: nat)
    requires ContiguousIds(steps) && PriorDependencies(steps) && IsChain(GraphOf(steps), p) && i < |p|
    ensures p[i] in GraphOf(steps) && p[i] <= p[0] - i
  {
    if i > 0 {
      ValidChainAt(steps, p, i - 1);
      assert p[i - 1 + 1] in GraphOf(steps)[p[i - 1]];
      EdgeFalls(steps, p[i - 1], p[i]);
    }
  }

  lemma {:induction false} ChainFalls(steps: seq<PlanStep>, p: seq<int>, i: nat, j: nat)
    requires ContiguousIds(steps) && PriorDependencies(steps) && IsChain(GraphOf(steps), p) && i < j < |p|
    ensures p[i] > p[j]
    decreases j
  {
    ValidChainAt(steps, p, j - 1);
    assert p[j - 1 + 1] in GraphOf(steps)[p[j - 1]];
    EdgeFalls(steps, p[j - 1], p[j]);
    if i < j - 1 { ChainFalls(steps, p, i, j - 1); }
  }
}
