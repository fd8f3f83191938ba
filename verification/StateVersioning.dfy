/** Versioned snapshots of the graph state: commit, rollback, fork, diff, lineage and store merge
    (graph/runtime/state_versioning.py, schemas/state_versioning.py, graph/runtime/state_merge.py). */
module StateVersioning {
  import opened Sequences

  // ------------------------------------------------------ states and snapshots

  /** The keys of `state_to_serializable`. */
  datatype Field =
    | Messages | PlanKey | CurrentStep | Observations | ExecutionTrace | GraphTrace | ShortTermMemory
    | LongTermMemory | EpisodicMemory | SessionId | Query | FinalResult | Critique | ReplanHistory | ShouldStop
    | ReplanAttempts | ExecutionSeed | StateVersionId | BranchId | Memory | PlanStateKey

  datatype Value = Null | Text(text: string) | Id(id: nat) | Dict(entries: map<string, Value>)

  type Snapshot = map<Field, Value>

  const ALL_FIELDS: set<Field> := {
    Messages, PlanKey, CurrentStep, Observations, ExecutionTrace, GraphTrace, ShortTermMemory,
    LongTermMemory, EpisodicMemory, SessionId, Query, FinalResult, Critique, ReplanHistory, ShouldStop,
    ReplanAttempts, ExecutionSeed, StateVersionId, BranchId, Memory, PlanStateKey }

  /** The compiled graph kept in memory is left out of snapshots. */
  const COMPILED := "compiled_plan_graph"

  /** `plain` holds the fields a snapshot copies as they are; the live plan state shows only as a summary. */
  datatype AgentState = AgentState(
    plain: Field -> Value, memory: map<string, Value>, planSummary: Value, executionGraph: Value)

  function SnapshotOf(s: AgentState): Snapshot {
    map f | f in ALL_FIELDS ::
      if f == Memory then Dict(s.memory - {COMPILED}) else if f == PlanStateKey then s.planSummary else s.plain(f)
  }

  /** What every stored snapshot looks like. */
  ghost predicate IsSnapshot(snap: Snapshot) {
    snap.Keys == ALL_FIELDS && snap[Memory].Dict? && COMPILED !in snap[Memory].entries
  }

  /** `apply_snapshot`: every key of the snapshot but the plan state overwrites the state's field. */
  function ApplySnapshot(s: AgentState, snap: Snapshot): AgentState {
    AgentState(
      (f: Field) => if f in snap && f != PlanStateKey && f != Memory then snap[f] else s.plain(f),
      if Memory in snap && snap[Memory].Dict? then snap[Memory].entries else s.memory,
      s.planSummary, s.executionGraph)
  }

  function SetField(s: AgentState, key: Field, v: Value): AgentState {
    s.(plain := (f: Field) => if f == key then v else s.plain(f))
  }

  // ------------------------------------------------------------------- diffs

  type Delta = map<Field, (Value, Value)>

  /** `dict.get` with None for a missing key. */
  function Get(m: Snapshot, f: Field): Value {
    if f in m then m[f] else Null
  }

  function Diff(before: Snapshot, after: Snapshot): Delta {
    map f | f in before.Keys + after.Keys && Get(before, f) != Get(after, f) :: (Get(before, f), Get(after, f))
  }

  function ApplyDelta(s: Snapshot, d: Delta): Snapshot {
    map f | f in s.Keys + d.Keys :: if f in d then d[f].1 else s[f]
  }

  lemma DiffRoundTrip(before: Snapshot, after: Snapshot)
    requires before.Keys == after.Keys
    ensures ApplyDelta(before, Diff(before, after)) == after
  {
  }

  // ------------------------------------------------------------------ stores

  datatype Version = Version(
    id: nat, parent: Option<nat>, branch: string, node: string, snapshot: Snapshot, diff: Delta)

  datatype Store = Store(
    current: Option<nat>, branch: string, versions: seq<Version>, branches: map<string, Option<nat>>)

  const EMPTY := Store(None, "main", [], map["main" := None])

  function GetVersion(vs: seq<Version>, id: nat): (r: Option<Version>)
    ensures r.Some? ==> r.value in vs && r.value.id == id
    ensures r.None? ==> forall v :: v in vs ==> v.id != id
  {
    if vs == [] then None else if vs[0].id == id then Some(vs[0]) else GetVersion(vs[1..], id)
  }

  function VersionIds(vs: seq<Version>): set<nat> {
    set v | v in vs :: v.id
  }

  ghost predicate UniqueIds(vs: seq<Version>) {
    forall i, j :: 0 <= i < j < |vs| ==> vs[i].id != vs[j].id
  }

  /** The version at position i is a root with no diff, or its diff is taken against an earlier version. */
  ghost predicate Derived(vs: seq<Version>, i: nat)
    requires i < |vs|
  {
    && IsSnapshot(vs[i].snapshot)
    && (vs[i].parent.None? ==> vs[i].diff == map[])
    && (vs[i].parent.Some? ==> ParentAt(vs, i) < i && vs[ParentAt(vs, i)].id == vs[i].parent.value
                               && vs[i].diff == Diff(vs[ParentAt(vs, i)].snapshot, vs[i].snapshot))
  }

  /** The position of the parent, or |vs| when there is none. */
  function ParentAt(vs: seq<Version>, i: nat): (j: nat)
    requires i < |vs|
    ensures j <= |vs|
  {
    if vs[i].parent.None? then |vs| else Position(vs, vs[i].parent.value)
  }

  function Position(vs: seq<Version>, id: nat): (j: nat)
    ensures j <= |vs| && (j < |vs| ==> vs[j].id == id) && forall i :: 0 <= i < j ==> vs[i].id != id
  {
    if vs == [] || vs[0].id == id then 0
    else
      var j := Position(vs[1..], id);
      assert forall i :: 0 < i <= j ==> vs[i] == vs[1..][i - 1] || i > |vs[1..]|;
      j + 1
  }

  ghost predicate History(vs: seq<Version>) {
    UniqueIds(vs) && forall i :: 0 <= i < |vs| ==> Derived(vs, i)
  }

  ghost predicate Inv(s: Store) {
    History(s.versions) && (s.current.Some? ==> s.current.value in VersionIds(s.versions))
  }

  // ----------------------------------------------------------------- lineage

  function LineageAt(vs: seq<Version>, i: nat): (r: seq<Version>)
    requires i < |vs|
    ensures r != [] && r[|r| - 1] == vs[i]
    decreases i
  {
    if vs[i].parent.None? || ParentAt(vs, i) >= i then [vs[i]] else LineageAt(vs, ParentAt(vs, i)) + [vs[i]]
  }

  /** The chain of a known version from its root; empty for an unknown id. */
  function Lineage(vs: seq<Version>, id: nat): seq<Version> {
    if Position(vs, id) < |vs| then LineageAt(vs, Position(vs, id)) else []
  }

  lemma PositionUnique(vs: seq<Version>, i: nat)
    requires UniqueIds(vs) && i < |vs|
    ensures Position(vs, vs[i].id) == i
  {
    var j := Position(vs, vs[i].id);
    assert j <= i;
  }

  lemma GetIsPosition(vs: seq<Version>, id: nat)
    requires UniqueIds(vs)
    ensures GetVersion(vs, id) == if Position(vs, id) < |vs| then Some(vs[Position(vs, id)]) else None
  {
    var r, j := GetVersion(vs, id), Position(vs, id);
    assert j < |vs| ==> vs[j] in vs;
    if r.Some? {
      var i :| 0 <= i < |vs| && vs[i] == r.value;
      PositionUnique(vs, i);
    }
  }

  lemma MoveIntoTail(a: seq<Version>, v: Version, b: seq<Version>)
    ensures (a + [v]) + b == a + ([v] + b)
  {
  }

  /** One step of the walk to the root. */
  lemma LineageUnfolds(vs: seq<Version>, id: nat)
    requires History(vs)
    ensures GetVersion(vs, id).None? ==> Lineage(vs, id) == []
    ensures GetVersion(vs, id).Some? ==>
              var v := GetVersion(vs, id).value;
              && Lineage(vs, id) == (if v.parent.None? then [] else Lineage(vs, v.parent.value)) + [v]
              && (v.parent.Some? ==> Position(vs, v.parent.value) < Position(vs, id))
  {
    GetIsPosition(vs, id);
    var i := Position(vs, id);
    if i < |vs| {
      assert Derived(vs, i);
      assert [] + [vs[i]] == [vs[i]];
    }
  }

  /** A lineage ends at the version and starts at a version without parent. */
  lemma {:induction false} LineageRoot(vs: seq<Version>, i: nat)
    requires History(vs) && i < |vs|
    ensures LineageAt(vs, i)[0].parent.None?
    decreases i
  {
    assert Derived(vs, i);
    if vs[i].parent.Some? { LineageRoot(vs, ParentAt(vs, i)); }
  }

  lemma LineageStartsAtRoot(vs: seq<Version>, id: nat)
    requires History(vs) && id in VersionIds(vs)
    ensures var chain := Lineage(vs, id); chain != [] && chain[0].parent.None? && chain[|chain| - 1].id == id
  {
    var v :| v in vs && v.id == id;
    var i :| 0 <= i < |vs| && vs[i] == v;
    PositionUnique(vs, i);
    LineageRoot(vs, i);
  }

  /** Folding the stored diffs along a lineage onto its root's snapshot. */
  function Replay(chain: seq<Version>): Snapshot
    requires chain != []
  {
    if |chain| == 1 then chain[0].snapshot
    else ApplyDelta(Replay(chain[..|chain| - 1]), chain[|chain| - 1].diff)
  }

  /** The fold rebuilds the version's own snapshot. */
  lemma {:induction false} ReplayRebuilds(vs: seq<Version>, i: nat)
    requires History(vs) && i < |vs|
    ensures Replay(LineageAt(vs, i)) == vs[i].snapshot
    decreases i
  {
    assert Derived(vs, i);
    if vs[i].parent.Some? {
      var p := ParentAt(vs, i);
      ReplayRebuilds(vs, p);
      var chain := LineageAt(vs, p) + [vs[i]];
      assert chain[..|chain| - 1] == LineageAt(vs, p);
      assert Derived(vs, p);
      DiffRoundTrip(vs[p].snapshot, vs[i].snapshot);
    }
  }

  /** Lineages depend only on the versions reached: a history that contains another has all its lineages. */
  lemma {:induction false} LineagePreserved(vs: seq<Version>, ws: seq<Version>, i: nat)
    requires History(vs) && History(ws) && i < |vs|
    requires forall v :: v in vs ==> v in ws
    ensures Position(ws, vs[i].id) < |ws|
    ensures LineageAt(ws, Position(ws, vs[i].id)) == LineageAt(vs, i)
    decreases i
  {
    assert vs[i] in ws;
    var j :| 0 <= j < |ws| && ws[j] == vs[i];
    PositionUnique(ws, j);
    assert Derived(vs, i) && Derived(ws, j);
    if vs[i].parent.Some? {
      LineagePreserved(vs, ws, ParentAt(vs, i));
    }
  }

  lemma LineagesPreserved(vs: seq<Version>, ws: seq<Version>, id: nat)
    requires History(vs) && History(ws) && id in VersionIds(vs)
    requires forall v :: v in vs ==> v in ws
    ensures Lineage(ws, id) == Lineage(vs, id)
  {
    var v :| v in vs && v.id == id;
    var i :| 0 <= i < |vs| && vs[i] == v;
    PositionUnique(vs, i);
    LineagePreserved(vs, ws, i);
  }

  // -------------------------------------------------------------- operations

  function Committed(s: Store, newId: nat, node: string, snap: Snapshot): Version {
    var parent := if s.current.Some? then GetVersion(s.versions, s.current.value) else None;
    Version(newId, s.current, s.branch, node, snap, if parent.Some? then Diff(parent.value.snapshot, snap) else map[])
  }

  function Commit(s: Store, newId: nat, node: string, snap: Snapshot): Store {
    s.(versions := s.versions + [Committed(s, newId, node, snap)], current := Some(newId))
  }

  function Rollback(s: Store, v: Version): Store {
    s.(current := Some(v.id), branch := v.branch)
  }

  function Fork(s: Store, v: Version, name: string): Store {
    Rollback(s, v).(branches := s.branches[name := Some(v.id)], branch := name)
  }

  /** The versions of the right store that the left one does not know, in order. */
  function MergedVersions(left: seq<Version>, right: seq<Version>): seq<Version> {
    if right == [] then left
    else
      var m, last := MergedVersions(left, right[..|right| - 1]), right[|right| - 1];
      if last.id in VersionIds(m) then m else m + [last]
  }

  function Merge(left: Store, right: Store): Store {
    Store(if right.current.Some? then right.current else left.current,
          if right.branch != "" then right.branch else left.branch,
          MergedVersions(left.versions, right.versions), left.branches + right.branches)
  }

  lemma AppendHistory(vs: seq<Version>, v: Version)
    requires History(vs) && v.id !in VersionIds(vs) && IsSnapshot(v.snapshot)
    requires v.parent.None? ==> v.diff == map[]
    requires v.parent.Some? ==> exists p :: p in vs && p.id == v.parent.value && v.diff == Diff(p.snapshot, v.snapshot)
    ensures History(vs + [v])
  {
    var ws := vs + [v];
    assert UniqueIds(ws) by {
      forall i | 0 <= i < |vs| ensures vs[i].id != v.id { assert vs[i] in vs; }
    }
    forall i | 0 <= i < |ws| ensures Derived(ws, i) {
      if i < |vs| {
        assert Derived(vs, i);
        if vs[i].parent.Some? {
          PositionUnique(ws, ParentAt(vs, i));
        }
      } else if v.parent.Some? {
        var p :| p in vs && p.id == v.parent.value && v.diff == Diff(p.snapshot, v.snapshot);
        var k :| 0 <= k < |vs| && vs[k] == p;
        assert ws[k] == p;
        PositionUnique(ws, k);
      }
    }
  }

  /** A commit under a fresh id keeps the invariant, and extends the current lineage by exactly the new version. */
  lemma CommitKeepsInv(s: Store, newId: nat, node: string, snap: Snapshot)
    requires Inv(s) && newId !in VersionIds(s.versions) && IsSnapshot(snap)
    ensures var t := Commit(s, newId, node, snap);
            && Inv(t)
            && Lineage(t.versions, newId) ==
               (if s.current.Some? then Lineage(s.versions, s.current.value) else [])
                 + [Committed(s, newId, node, snap)]
  {
    var v, t := Committed(s, newId, node, snap), Commit(s, newId, node, snap);
    AppendHistory(s.versions, v);
    assert t.versions[|s.versions|] == v && v in t.versions;
    PositionUnique(t.versions, |s.versions|);
    assert Derived(t.versions, |s.versions|);
    if s.current.Some? {
      LineagesPreserved(s.versions, t.versions, s.current.value);
    }
  }

  /** A commit is found under its id, with the branch the store is on, its node and the version it was made on; nothing
      else changes. */
  lemma CommitRecords(s: Store, newId: nat, node: string, snap: Snapshot)
    requires Inv(s) && newId !in VersionIds(s.versions) && IsSnapshot(snap)
    ensures var t := Commit(s, newId, node, snap);
            && GetVersion(t.versions, newId).Some?
            && var w := GetVersion(t.versions, newId).value;
               && w.branch == s.branch && w.node == node && w.parent == s.current && w.snapshot == snap
               && t.versions == s.versions + [w] && t.current == Some(newId)
               && t.branch == s.branch && t.branches == s.branches
  {
    hide Derived, Lineage;
    CommitKeepsInv(s, newId, node, snap);
    var t := Commit(s, newId, node, snap);
    assert t.versions[|s.versions|] == Committed(s, newId, node, snap);
    LatestFound(t.versions);
  }

  lemma LatestFound(vs: seq<Version>)
    requires UniqueIds(vs) && vs != []
    ensures GetVersion(vs, vs[|vs| - 1].id) == Some(vs[|vs| - 1])
  {
    GetIsPosition(vs, vs[|vs| - 1].id);
    PositionUnique(vs, |vs| - 1);
  }

  /** A fork puts the store on the new branch at the base version, and moves no other branch. The first commit after it
      carries the new branch's name on top of the base's lineage; the branch table keeps pointing to the base. */
  lemma CommitAfterFork(s: Store, v: Version, name: string, newId: nat, node: string, snap: Snapshot)
    requires Inv(s) && v in s.versions && newId !in VersionIds(s.versions) && IsSnapshot(snap)
    ensures var f, t := Fork(s, v, name), Commit(Fork(s, v, name), newId, node, snap);
            && f.branch == name && f.current == Some(v.id) && f.versions == s.versions
            && (forall b :: b in f.branches <==> b == name || b in s.branches)
            && (forall b :: b in f.branches ==> f.branches[b] == if b == name then Some(v.id) else s.branches[b])
            && t.branch == name && t.branches == f.branches && GetVersion(t.versions, newId).Some?
            && var w := GetVersion(t.versions, newId).value;
               && w.branch == name && w.node == node && w.parent == Some(v.id) && w.snapshot == snap
               && Lineage(t.versions, newId) == Lineage(s.versions, v.id) + [w]
  {
    hide History, Lineage, Committed;
    CommitRecords(Fork(s, v, name), newId, node, snap);
    CommitKeepsInv(Fork(s, v, name), newId, node, snap);
  }

  /** After a rollback commits go on from the version, on the branch that version was made on. */
  lemma CommitAfterReturn(s: Store, v: Version, newId: nat, node: string, snap: Snapshot)
    requires Inv(s) && v in s.versions && newId !in VersionIds(s.versions) && IsSnapshot(snap)
    ensures var t := Commit(Rollback(s, v), newId, node, snap);
            && t.branch == v.branch && t.branches == s.branches && GetVersion(t.versions, newId).Some?
            && var w := GetVersion(t.versions, newId).value;
               && w.branch == v.branch && w.parent == Some(v.id)
               && Lineage(t.versions, newId) == Lineage(s.versions, v.id) + [w]
  {
    hide History, Lineage, Committed;
    CommitRecords(Rollback(s, v), newId, node, snap);
    CommitKeepsInv(Rollback(s, v), newId, node, snap);
  }

  /** Two stores never disagree about a version they both know. */
  ghost predicate Agree(left: seq<Version>, right: seq<Version>) {
    forall v, w :: v in left && w in right && v.id == w.id ==> v == w
  }

  lemma PrefixHistory(vs: seq<Version>, n: nat)
    requires History(vs) && n <= |vs|
    ensures History(vs[..n])
  {
    var p := vs[..n];
    forall i | 0 <= i < n ensures Derived(p, i) {
      assert Derived(vs, i);
      if vs[i].parent.Some? {
        assert p[ParentAt(vs, i)] == vs[ParentAt(vs, i)];
        PositionUnique(p, ParentAt(vs, i));
      }
    }
  }

  lemma {:induction false} MergeKeepsHistory(left: seq<Version>, right: seq<Version>)
    requires History(left) && History(right) && Agree(left, right)
    ensures History(MergedVersions(left, right))
    ensures forall v :: v in MergedVersions(left, right) <==> v in left || v in right
  {
    if right != [] {
      var n := |right| - 1;
      var front, last := right[..n], right[n];
      assert right == front + [last];
      PrefixHistory(right, n);
      MergeKeepsHistory(left, front);
      var m := MergedVersions(left, front);
      if last.id in VersionIds(m) {
        assert forall i :: 0 <= i < n ==> front[i] == right[i] && right[i].id != right[n].id;
        var v :| v in m && v.id == last.id;
        assert v in left;
      } else {
        assert Derived(right, n);
        if last.parent.Some? {
          assert right[ParentAt(right, n)] in front;
        }
        AppendHistory(m, last);
      }
    }
  }

  /** Merging stores that agree keeps the invariant and every lineage of both. */
  lemma MergeKeepsInv(left: Store, right: Store, id: nat)
    requires Inv(left) && Inv(right) && Agree(left.versions, right.versions)
    ensures Inv(Merge(left, right))
    ensures id in VersionIds(left.versions) ==> Lineage(Merge(left, right).versions, id) == Lineage(left.versions, id)
    ensures id in VersionIds(right.versions) ==> Lineage(Merge(left, right).versions, id) == Lineage(right.versions, id)
  {
    var m := Merge(left, right);
    MergeKeepsHistory(left.versions, right.versions);
    if m.current.Some? {
      var side := if right.current.Some? then right.versions else left.versions;
      var v :| v in side && v.id == m.current.value;
      assert v in m.versions;
    }
    if id in VersionIds(left.versions) { LineagesPreserved(left.versions, m.versions, id); }
    if id in VersionIds(right.versions) { LineagesPreserved(right.versions, m.versions, id); }
  }

  // ------------------------------------------------ every reachable system of stores

  /** All the stores alive at one moment (each parallel branch works on its own copy) and every id ever drawn. */
  datatype System = System(stores: seq<Store>, used: set<nat>)

  datatype Op =
    | DoCommit(i: nat, newId: nat, node: string, snap: Snapshot)
    | DoRollback(i: nat, id: nat)
    | DoFork(i: nat, id: nat, name: string)
    | DoCopy(i: nat)
    | DoMerge(i: nat, j: nat)

  /** A step; one that the code would refuse (or that names no store) changes nothing. */
  function Apply(sys: System, op: Op): System {
    match op
    case DoCommit(i, newId, node, snap) =>
      if i < |sys.stores| && newId !in sys.used
      then System(sys.stores[i := Commit(sys.stores[i], newId, node, snap)], sys.used + {newId}) else sys
    case DoRollback(i, id) =>
      if i < |sys.stores| && GetVersion(sys.stores[i].versions, id).Some?
      then sys.(stores := sys.stores[i := Rollback(sys.stores[i], GetVersion(sys.stores[i].versions, id).value)])
      else sys
    case DoFork(i, id, name) =>
      if i < |sys.stores| && GetVersion(sys.stores[i].versions, id).Some?
      then sys.(stores := sys.stores[i := Fork(sys.stores[i], GetVersion(sys.stores[i].versions, id).value, name)])
      else sys
    case DoCopy(i) => if i < |sys.stores| then sys.(stores := sys.stores + [sys.stores[i]]) else sys
    case DoMerge(i, j) =>
      if i < |sys.stores| && j < |sys.stores|
      then sys.(stores := sys.stores[i := Merge(sys.stores[i], sys.stores[j])])
      else sys
  }

  ghost predicate SnapshotsTaken(op: Op) {
    op.DoCommit? ==> IsSnapshot(op.snap)
  }

  ghost predicate SystemInv(sys: System) {
    && (forall s :: s in sys.stores ==> Inv(s) && VersionIds(s.versions) <= sys.used)
    && (forall s, t :: s in sys.stores && t in sys.stores ==> Agree(s.versions, t.versions))
  }

  lemma SameVersionsKeepInv(s: Store, t: Store)
    requires Inv(s) && t.versions == s.versions && (t.current.Some? ==> t.current.value in VersionIds(s.versions))
    ensures Inv(t)
  {
  }

  /** Replacing one store by another with known-good contents keeps the system invariant. */
  lemma ReplaceStore(sys: System, i: nat, t: Store, used: set<nat>)
    requires SystemInv(sys) && i < |sys.stores| && sys.used <= used
    requires Inv(t) && VersionIds(t.versions) <= used
    requires forall s :: s in sys.stores ==> Agree(s.versions, t.versions) && Agree(t.versions, s.versions)
    requires Agree(t.versions, t.versions)
    ensures SystemInv(System(sys.stores[i := t], used))
  {
    var stores := sys.stores[i := t];
    assert forall s :: s in stores ==> s == t || s in sys.stores;
  }

  lemma CommitAgrees(s: Store, newId: nat, node: string, snap: Snapshot, other: seq<Version>, used: set<nat>)
    requires Agree(s.versions, other) && Agree(other, s.versions) && VersionIds(other) <= used && newId !in used
    ensures Agree(Commit(s, newId, node, snap).versions, other) && Agree(other, Commit(s, newId, node, snap).versions)
  {
    assert forall v :: v in other ==> v.id in VersionIds(other);
  }

  lemma MergeAgrees(a: Store, b: Store, other: seq<Version>)
    requires History(a.versions) && History(b.versions) && Agree(a.versions, b.versions)
    requires Agree(a.versions, other) && Agree(b.versions, other)
             && Agree(other, a.versions) && Agree(other, b.versions)
    ensures Agree(Merge(a, b).versions, other) && Agree(other, Merge(a, b).versions)
  {
    MergeKeepsHistory(a.versions, b.versions);
  }

  lemma UniqueAgreesWithItself(vs: seq<Version>)
    requires UniqueIds(vs)
    ensures Agree(vs, vs)
  {
    forall v, w | v in vs && w in vs && v.id == w.id ensures v == w {
      var i :| 0 <= i < |vs| && vs[i] == v;
      var j :| 0 <= j < |vs| && vs[j] == w;
    }
  }

  lemma CommitKeepsSystemInv(sys: System, i: nat, newId: nat, node: string, snap: Snapshot)
    requires SystemInv(sys) && IsSnapshot(snap) && i < |sys.stores| && newId !in sys.used
    ensures SystemInv(System(sys.stores[i := Commit(sys.stores[i], newId, node, snap)], sys.used + {newId}))
  {
    hide Agree;
    var s := sys.stores[i];
    var t := Commit(s, newId, node, snap);
    CommitKeepsInv(s, newId, node, snap);
    forall o | o in sys.stores ensures Agree(o.versions, t.versions) && Agree(t.versions, o.versions) {
      CommitAgrees(s, newId, node, snap, o.versions, sys.used);
    }
    UniqueAgreesWithItself(t.versions);
    assert VersionIds(t.versions) <= sys.used + {newId} by {
      assert forall v :: v in t.versions ==> v in s.versions || v.id == newId;
      assert forall v :: v in s.versions ==> v.id in VersionIds(s.versions);
    }
    ReplaceStore(sys, i, t, sys.used + {newId});
  }

  lemma MergeKeepsSystemInv(sys: System, i: nat, j: nat)
    requires SystemInv(sys) && i < |sys.stores| && j < |sys.stores|
    ensures SystemInv(sys.(stores := sys.stores[i := Merge(sys.stores[i], sys.stores[j])]))
  {
    hide Agree;
    var a, b := sys.stores[i], sys.stores[j];
    var t := Merge(a, b);
    MergeKeepsInv(a, b, 0);
    forall o | o in sys.stores ensures Agree(o.versions, t.versions) && Agree(t.versions, o.versions) {
      MergeAgrees(a, b, o.versions);
    }
    UniqueAgreesWithItself(t.versions);
    assert VersionIds(t.versions) <= sys.used by {
      MergeKeepsHistory(a.versions, b.versions);
      assert forall v :: v in a.versions ==> v.id in VersionIds(a.versions);
      assert forall v :: v in b.versions ==> v.id in VersionIds(b.versions);
    }
    ReplaceStore(sys, i, t, sys.used);
  }

  lemma StepKeepsSystemInv(sys: System, op: Op)
    requires SystemInv(sys) && SnapshotsTaken(op)
    ensures SystemInv(Apply(sys, op))
  {
    hide Agree, Commit, Merge;
    match op {
      case DoCommit(i, newId, node, snap) =>
        if i < |sys.stores| && newId !in sys.used { CommitKeepsSystemInv(sys, i, newId, node, snap); }
      case DoRollback(i, id) =>
        if i < |sys.stores| && GetVersion(sys.stores[i].versions, id).Some? {
          var t := Rollback(sys.stores[i], GetVersion(sys.stores[i].versions, id).value);
          SameVersionsKeepInv(sys.stores[i], t);
          ReplaceStore(sys, i, t, sys.used);
        }
      case DoFork(i, id, name) =>
        if i < |sys.stores| && GetVersion(sys.stores[i].versions, id).Some? {
          var t := Fork(sys.stores[i], GetVersion(sys.stores[i].versions, id).value, name);
          SameVersionsKeepInv(sys.stores[i], t);
          ReplaceStore(sys, i, t, sys.used);
        }
      case DoCopy(i) =>
        if i < |sys.stores| {
          assert forall s :: s in sys.stores + [sys.stores[i]] ==> s in sys.stores;
        }
      case DoMerge(i, j) =>
        if i < |sys.stores| && j < |sys.stores| { MergeKeepsSystemInv(sys, i, j); }
    }
  }

  function RunOps(ops: seq<Op>): System {
    if ops == [] then System([EMPTY], {}) else Apply(RunOps(ops[..|ops| - 1]), ops[|ops| - 1])
  }

  /** A step never takes a version away from a store. */
  lemma StepKeepsVersions(sys: System, op: Op, i: nat)
    requires SystemInv(sys) && i < |sys.stores|
    ensures i < |Apply(sys, op).stores|
    ensures forall v :: v in sys.stores[i].versions ==> v in Apply(sys, op).stores[i].versions
  {
    if op.DoMerge? && op.i < |sys.stores| && op.j < |sys.stores| {
      MergeKeepsHistory(sys.stores[op.i].versions, sys.stores[op.j].versions);
    }
  }

  /** A step leaves every lineage of every store as it was. */
  lemma StepKeepsLineages(sys: System, op: Op, i: nat, id: nat)
    requires SystemInv(sys) && SnapshotsTaken(op) && i < |sys.stores| && id in VersionIds(sys.stores[i].versions)
    ensures var t := Apply(sys, op);
            && i < |t.stores| && id in VersionIds(t.stores[i].versions)
            && Lineage(t.stores[i].versions, id) == Lineage(sys.stores[i].versions, id)
  {
    hide Lineage, History, Agree, Apply;
    StepKeepsSystemInv(sys, op);
    StepKeepsVersions(sys, op, i);
    var t := Apply(sys, op);
    assert t.stores[i] in t.stores && sys.stores[i] in sys.stores;
    LineagesPreserved(sys.stores[i].versions, t.stores[i].versions, id);
    var v :| v in sys.stores[i].versions && v.id == id;
  }

  /** Existing lineages never change, whatever steps follow; and each of them starts at a root. */
  lemma {:induction false} RunKeepsLineages(ops: seq<Op>, more: seq<Op>, i: nat, id: nat)
    requires forall op :: op in ops + more ==> SnapshotsTaken(op)
    requires i < |RunOps(ops).stores| && id in VersionIds(RunOps(ops).stores[i].versions)
    ensures var s, t := RunOps(ops), RunOps(ops + more);
            && i < |t.stores| && id in VersionIds(t.stores[i].versions)
            && Lineage(t.stores[i].versions, id) == Lineage(s.stores[i].versions, id)
            && Lineage(s.stores[i].versions, id) != [] && Lineage(s.stores[i].versions, id)[0].parent.None?
    decreases |more|
  {
    hide Lineage, History, Agree, Apply;
    if more == [] {
      assert ops + more == ops;
      ReachableStoresInv(ops);
      LineageStartsAtRoot(RunOps(ops).stores[i].versions, id);
    } else {
      var n := |more| - 1;
      var front := ops + more[..n];
      assert ops + more == front + [more[n]];
      assert (front + [more[n]])[..|front|] == front;
      assert forall op :: op in front ==> op in ops + more;
      RunKeepsLineages(ops, more[..n], i, id);
      ReachableStoresInv(front);
      StepKeepsLineages(RunOps(front), more[n], i, id);
    }
  }

  /** Under any interleaving of commits, rollbacks, forks, branch copies and merges, every store keeps unique ids,
      parents before children, exact diffs and an existing current version. */
  lemma {:induction false} ReachableStoresInv(ops: seq<Op>)
    requires forall op :: op in ops ==> SnapshotsTaken(op)
    ensures SystemInv(RunOps(ops))
  {
    if ops != [] {
      var n := |ops| - 1;
      assert forall op :: op in ops[..n] ==> op in ops;
      ReachableStoresInv(ops[..n]);
      StepKeepsSystemInv(RunOps(ops[..n]), ops[n]);
    }
  }

  // ---------------------------------------------------------------- rollback

  function RolledBack(s: AgentState, v: Version): AgentState {
    SetField(ApplySnapshot(s, v.snapshot), StateVersionId, Id(v.id))
  }

  /** A rolled-back state shows the version's snapshot in every field but two: the version id is the version's own,
      and the live plan state is not rolled back at all. The compiled graph, which no snapshot holds, is dropped from
      the memory. */
  lemma RollbackSnapshot(s: AgentState, v: Version, f: Field)
    requires IsSnapshot(v.snapshot) && f in ALL_FIELDS
    ensures SnapshotOf(RolledBack(s, v))[f] ==
            if f == PlanStateKey then s.planSummary else if f == StateVersionId then Id(v.id) else v.snapshot[f]
    ensures RolledBack(s, v).memory == v.snapshot[Memory].entries && COMPILED !in RolledBack(s, v).memory
  {
    if f == Memory {
      assert v.snapshot[Memory].entries - {COMPILED} == v.snapshot[Memory].entries;
    }
  }

  lemma SnapshotIsSnapshot(s: AgentState)
    ensures IsSnapshot(SnapshotOf(s))
  {
  }

  /** So committing right after a rollback records a diff in those two fields at most. */
  lemma CommitAfterRollback(s: AgentState, store: Store, v: Version, newId: nat, node: string)
    requires Inv(store) && v in store.versions
    ensures Committed(Rollback(store, v), newId, node, SnapshotOf(RolledBack(s, v))).diff.Keys <=
              {PlanStateKey, StateVersionId}
  {
    var i :| 0 <= i < |store.versions| && store.versions[i] == v;
    assert Derived(store.versions, i);
    PositionUnique(store.versions, i);
    GetIsPosition(store.versions, v.id);
    RollbackDiff(s, v);
  }

  lemma RollbackDiff(s: AgentState, v: Version)
    requires IsSnapshot(v.snapshot)
    ensures Diff(v.snapshot, SnapshotOf(RolledBack(s, v))).Keys <= {PlanStateKey, StateVersionId}
  {
    hide SnapshotOf, RolledBack;
    var snap := SnapshotOf(RolledBack(s, v));
    SnapshotIsSnapshot(RolledBack(s, v));
    forall f | f in Diff(v.snapshot, snap) ensures f in {PlanStateKey, StateVersionId} {
      RollbackSnapshot(s, v, f);
    }
  }

  // ----------------------------------------------------------------- classes

  class StateVersionStore {
    var current: Option<nat>
    var branch: string
    var versions: seq<Version>
    var branches: map<string, Option<nat>>

    constructor ()
      ensures Value() == EMPTY
    {
      current, branch, versions, branches := None, "main", [], map["main" := None];
    }

    function Value(): Store
      reads this
    {
      Store(current, branch, versions, branches)
    }

    method FindVersion(id: nat) returns (v: Option<Version>)
      ensures v == GetVersion(versions, id)
    {
      for i := 0 to |versions|
        invariant GetVersion(versions, id) == GetVersion(versions[i..], id)
      {
        assert versions[i..][0] == versions[i] && versions[i..][1..] == versions[i + 1..];
        if versions[i].id == id {
          return Some(versions[i]);
        }
      }
      v := None;
    }

    /** The walk from a version to its root; it terminates because every parent is an earlier entry. */
    method LineageOf(id: Option<nat>) returns (chain: seq<Version>)
      requires Inv(Value())
      ensures var start := if id.Some? then id else current;
              chain == if start.None? then [] else Lineage(versions, start.value)
    {
      var cursor := if id.Some? then id else current;
      chain := [];
      if cursor.None? {
        return;
      }
      ghost var all := Lineage(versions, cursor.value);
      hide History, Lineage, Position, GetVersion, VersionIds, Replay, LineageAt;
      while cursor.Some?
        invariant all == (if cursor.None? then [] else Lineage(versions, cursor.value)) + chain
        decreases if cursor.None? then -1 else Position(versions, cursor.value)
      {
        var version := FindVersion(cursor.value);
        LineageUnfolds(versions, cursor.value);
        if version.None? {
          break;
        }
        // the code appends and reverses at the end
        ghost var below := if version.value.parent.None? then [] else Lineage(versions, version.value.parent.value);
        MoveIntoTail(below, version.value, chain);
        chain := [version.value] + chain;
        cursor := version.value.parent;
      }
    }
  }

  /** The graph state object: its fields and the store object it shares with the states rolled back from it. */
  class GraphState {
    var fields: AgentState
    var store: StateVersionStore

    constructor (s: AgentState, st: StateVersionStore)
      ensures fields == s && store == st
    {
      fields, store := s, st;
    }

    method CommitVersion(newId: nat, node: string) returns (v: Version)
      requires Inv(store.Value()) && newId !in VersionIds(store.versions)
      modifies this`fields, store
      ensures v == Committed(old(store.Value()), newId, node, SnapshotOf(old(fields)))
      ensures store.Value() == Commit(old(store.Value()), newId, node, SnapshotOf(old(fields))) && Inv(store.Value())
      ensures fields == SetField(old(fields), StateVersionId, Id(newId))
    {
      hide History, IsSnapshot, SnapshotOf, Diff, Lineage, VersionIds, SetField;
      var snap := SnapshotOf(fields);
      SnapshotIsSnapshot(fields);
      var diff: Delta := map[];
      if store.current.Some? {
        var parent := store.FindVersion(store.current.value);
        if parent.Some? {
          diff := Diff(parent.value.snapshot, snap);
        }
      }
      CommitKeepsInv(store.Value(), newId, node, snap);
      v := Version(newId, store.current, store.branch, node, snap, diff);
      store.versions := store.versions + [v];
      store.current := Some(newId);
      fields := SetField(fields, StateVersionId, Id(newId));
    }

    /** A new state object on the same store; None stands for the KeyError on an unknown id. */
    method RollbackTo(id: nat) returns (restored: GraphState?)
      requires Inv(store.Value())
      modifies store
      ensures restored == null <==> GetVersion(old(store.versions), id).None?
      ensures restored == null ==> store.Value() == old(store.Value())
      ensures restored != null ==>
                && fresh(restored) && restored.store == store && Inv(store.Value())
                && var v := GetVersion(old(store.versions), id).value;
                   restored.fields == RolledBack(fields, v) && store.Value() == Rollback(old(store.Value()), v)
    {
      var version := store.FindVersion(id);
      if version.None? {
        return null;
      }
      var v := version.value;
      SameVersionsKeepInv(store.Value(), Rollback(store.Value(), v));
      restored := new GraphState(RolledBack(fields, v), store);
      store.current := Some(v.id);
      store.branch := v.branch;
    }

    /** Rolls this very object back to the fork point and opens a branch there, under the given name or a generated one;
        None stands for the raised errors. */
    method ForkBranch(from: Option<nat>, name: Option<string>) returns (branch: Option<string>)
      requires Inv(store.Value())
      modifies this`fields, store
      ensures var base := if from.Some? then from else old(store.current);
              && (branch.Some? <==> base.Some? && GetVersion(old(store.versions), base.value).Some?)
              && (branch.None? ==> store.Value() == old(store.Value()) && fields == old(fields))
              && (branch.Some? ==>
                    var v := GetVersion(old(store.versions), base.value).value;
                    && branch.value == BranchName(name, |old(store.branches)|)
                    && store.Value() == Fork(old(store.Value()), v, branch.value)
                    && fields == SetField(RolledBack(old(fields), v), BranchId, Text(branch.value)))
      ensures Inv(store.Value())
    {
      hide History, ApplySnapshot, SetField, VersionIds, BranchName;
      var base := if from.Some? then from else store.current;
      if base.None? {
        return None;
      }
      var restored := RollbackTo(base.value);
      if restored == null {
        return None;
      }
      fields := restored.fields;
      var branchId := BranchName(name, |store.branches|);
      store.branches := store.branches[branchId := base];
      store.branch := branchId;
      fields := SetField(fields, BranchId, Text(branchId));
      return Some(branchId);
    }
  }

  function Decimal(n: nat): string {
    if n < 10 then ["0123456789"[n]] else Decimal(n / 10) + ["0123456789"[n % 10]]
  }

  /** The given name, or `branch_<n>` for n existing branches when none (or an empty one) is given. */
  function BranchName(name: Option<string>, count: nat): string {
    if name.Some? && name.value != "" then name.value else "branch_" + Decimal(count)
  }
}
