/** Merging the states of parallel branches (graph/runtime/state_merge.py). */
module StateMerge {
  import opened Sequences
  import opened StateVersioning

  /** The list fields that are concatenated and deduplicated. */
  datatype ListField
    = MessageList | TraceList | GraphTraceList
    | HistoryList | ShortTermList | LongTermList | EpisodicList

  /** The fields where a set value on the right replaces the left one. */
  datatype ScalarField = PlanScalar | StepScalar | ResultScalar | CritiqueScalar | PlanStateScalar

  const LISTS: set<ListField> :=
    {MessageList, TraceList, GraphTraceList, HistoryList, ShortTermList, LongTermList, EpisodicList}

  /** A branch state. `query` and the other identity fields are never merged: the left one stays. */
  datatype BranchState<T, V> = BranchState(
    observations: map<string, V>, memory: map<string, V>,
    lists: map<ListField, seq<T>>, scalars: map<ScalarField, V>,
    shouldStop: bool, replanAttempts: int, query: string, store: Option<Store>, versionId: Option<nat>)
  {
    function List(f: ListField): seq<T> {
      if f in lists then lists[f] else []
    }
  }

  datatype Strategy = LastWins | DeepMergeAll | MergeLists | FailOnConflict

  // ----------------------------------------------------------- deduplication

  function KeySet<T(==)>(items: seq<T>, str: T -> string): set<string> {
    set x | x in items :: str(x)
  }

  /** Keep the first item of every rendering, in order. */
  function Dedupe<T(==, !new)>(items: seq<T>, str: T -> string): (r: seq<T>) {
    if items == [] then []
    else
      var front, last := Dedupe(items[..|items| - 1], str), items[|items| - 1];
      if str(last) in KeySet(items[..|items| - 1], str) then front else front + [last]
  }

  method DedupeList<T(==, !new)>(items: seq<T>, str: T -> string) returns (result: seq<T>)
    ensures result == Dedupe(items, str)
  {
    var seen: set<string> := {};
    result := [];
    for i := 0 to |items|
      invariant seen == KeySet(items[..i], str)
      invariant result == Dedupe(items[..i], str)
    {
      assert items[..i + 1][..i] == items[..i];
      KeySetSnoc(items[..i], items[i], str);
      assert items[..i + 1] == items[..i] + [items[i]];
      var key := str(items[i]);
      if key !in seen {
        seen := seen + {key};
        result := result + [items[i]];
      }
    }
    assert items[..|items|] == items;
  }

  lemma KeySetSnoc<T>(front: seq<T>, last: T, str: T -> string)
    ensures KeySet(front + [last], str) == KeySet(front, str) + {str(last)}
  {
    assert forall x :: x in front + [last] <==> x in front || x == last;
  }

  lemma {:induction false} DedupeKeys<T(!new)>(items: seq<T>, str: T -> string)
    ensures KeySet(Dedupe(items, str), str) == KeySet(items, str)
    ensures forall i, j :: 0 <= i < j < |Dedupe(items, str)| ==>
              str(Dedupe(items, str)[i]) != str(Dedupe(items, str)[j])
  {
    if items != [] {
      var front, last := items[..|items| - 1], items[|items| - 1];
      assert items == front + [last];
      DedupeKeys(front, str);
      KeySetSnoc(front, last, str);
      var d := Dedupe(front, str);
      KeySetSnoc(d, last, str);
      assert forall i :: 0 <= i < |d| ==> d[i] in d;
    }
  }

  lemma DedupeSnoc<T(!new)>(front: seq<T>, last: T, str: T -> string)
    ensures Dedupe(front + [last], str) ==
            if str(last) in KeySet(front, str) then Dedupe(front, str) else Dedupe(front, str) + [last]
  {
    assert (front + [last])[..|front|] == front;
  }

  /** Deduplicating a prefix first makes no difference. */
  lemma {:induction false} DedupeTwice<T(!new)>(a: seq<T>, b: seq<T>, str: T -> string)
    ensures Dedupe(Dedupe(a, str) + b, str) == Dedupe(a + b, str)
    decreases |b|
  {
    if b == [] {
      assert a + b == a && Dedupe(a, str) + b == Dedupe(a, str);
      DedupeIdempotent(a, str);
    } else {
      var n := |b| - 1;
      var front, last := b[..n], b[n];
      assert b == front + [last];
      DedupeTwice(a, front, str);
      var d := Dedupe(a, str);
      assert a + b == (a + front) + [last] && d + b == (d + front) + [last];
      DedupeSnoc(a + front, last, str);
      DedupeSnoc(d + front, last, str);
      DedupeKeys(a, str);
      KeySetConcat(a, front, str);
      KeySetConcat(d, front, str);
    }
  }

  /** The kept items are the first ones of their printed form, in list order. */
  lemma {:induction false} DedupePositions<T(!new)>(items: seq<T>, str: T -> string) returns (at: seq<nat>)
    ensures |at| == |Dedupe(items, str)|
    ensures forall j :: 0 <= j < |at| ==> at[j] < |items| && Dedupe(items, str)[j] == items[at[j]]
    ensures forall j, k :: 0 <= j < |at| && 0 <= k < at[j] ==> str(items[k]) != str(items[at[j]])
    ensures forall j, k :: 0 <= j < k < |at| ==> at[j] < at[k]
  {
    at := [];
    if items != [] {
      var n := |items| - 1;
      at := DedupePositions(items[..n], str);
      assert items == items[..n] + [items[n]];
      DedupeSnoc(items[..n], items[n], str);
      if str(items[n]) !in KeySet(items[..n], str) {
        assert forall k :: 0 <= k < n ==> items[k] in items[..n];
        at := at + [n];
      }
    }
  }

  lemma KeySetConcat<T>(a: seq<T>, b: seq<T>, str: T -> string)
    ensures KeySet(a + b, str) == KeySet(a, str) + KeySet(b, str)
  {
    assert forall x :: x in a + b <==> x in a || x in b;
  }

  lemma DedupeIdempotent<T(!new)>(a: seq<T>, str: T -> string)
    ensures Dedupe(Dedupe(a, str), str) == Dedupe(a, str)
  {
    DedupeKeys(a, str);
    DedupeDistinct(Dedupe(a, str), str);
  }

  lemma {:induction false} DedupeDistinct<T(!new)>(items: seq<T>, str: T -> string)
    requires forall i, j :: 0 <= i < j < |items| ==> str(items[i]) != str(items[j])
    ensures Dedupe(items, str) == items
  {
    if items != [] {
      var n := |items| - 1;
      DedupeDistinct(items[..n], str);
      assert items == items[..n] + [items[n]];
      assert forall i :: 0 <= i < n ==> items[..n][i] == items[i];
    }
  }

  // ------------------------------------------------------------ pairwise merge

  /** How list items print: as the dictionaries a dumped state holds, and as the live objects of a state. */
  datatype Printer<!T> = Printer(dumped: T -> string, live: T -> string)

  /** Both forms tell the same items apart. */
  ghost predicate SameForms<T(!new)>(p: Printer<T>) {
    forall x, y :: p.dumped(x) == p.dumped(y) <==> p.live(x) == p.live(y)
  }

  function MergeStores(left: Option<Store>, right: Option<Store>): Option<Store> {
    if left.None? then right else if right.None? then left else Some(Merge(left.value, right.value))
  }

  function MergedLists<T(==, !new), V>(
    left: BranchState<T, V>, right: BranchState<T, V>, fields: set<ListField>, str: T -> string): map<ListField, seq<T>>
  {
    map f | f in fields :: Dedupe(left.List(f) + right.List(f), str)
  }

  function DeepMerge<T(==, !new), V>(
    left: BranchState<T, V>, right: BranchState<T, V>, str: T -> string): BranchState<T, V>
  {
    BranchState(
      left.observations + right.observations,
      left.memory + right.memory,
      MergedLists(left, right, LISTS, str),
      left.scalars + right.scalars,
      left.shouldStop || right.shouldStop,
      if left.replanAttempts >= right.replanAttempts then left.replanAttempts else right.replanAttempts,
      left.query,
      MergeStores(left.store, right.store),
      if right.versionId.Some? then right.versionId else left.versionId)
  }

  predicate Conflicts<T, V(==)>(left: BranchState<T, V>, right: BranchState<T, V>) {
    || (exists f ::
          f in {PlanScalar, StepScalar, ResultScalar, CritiqueScalar} && f in left.scalars && f in right.scalars
          && left.scalars[f] != right.scalars[f])
    || left.shouldStop != right.shouldStop
    || left.query != right.query
  }

  /** The lists-only strategy recomputes three of the lists of the deep merge, from the live items. */
  function ListMerge<T(==, !new), V>(
    left: BranchState<T, V>, right: BranchState<T, V>, p: Printer<T>): BranchState<T, V>
  {
    var merged := DeepMerge(left, right, p.dumped);
    merged.(lists := merged.lists + MergedLists(left, right, {MessageList, TraceList, GraphTraceList}, p.live))
  }

  /** None is the conflict error. */
  function MergePair<T(==, !new), V(==)>(
    left: BranchState<T, V>, right: BranchState<T, V>, strategy: Strategy, p: Printer<T>): Option<BranchState<T, V>>
  {
    match strategy
    case LastWins => Some(right)
    case FailOnConflict => if Conflicts(left, right) then None else Some(DeepMerge(left, right, p.dumped))
    case MergeLists => Some(ListMerge(left, right, p))
    case DeepMergeAll => Some(DeepMerge(left, right, p.dumped))
  }

  lemma {:induction false} DedupeSameForms<T(!new)>(items: seq<T>, p: Printer<T>)
    requires SameForms(p)
    ensures Dedupe(items, p.dumped) == Dedupe(items, p.live)
  {
    if items != [] {
      var front, last := items[..|items| - 1], items[|items| - 1];
      DedupeSameForms(front, p);
      assert p.dumped(last) in KeySet(front, p.dumped) <==> exists x :: x in front && p.dumped(x) == p.dumped(last);
      assert p.live(last) in KeySet(front, p.live) <==> exists x :: x in front && p.live(x) == p.live(last);
    }
  }

  lemma ListMergeIsDeepMerge<T(!new), V>(left: BranchState<T, V>, right: BranchState<T, V>, p: Printer<T>)
    requires SameForms(p)
    ensures ListMerge(left, right, p) == DeepMerge(left, right, p.dumped)
  {
    hide Dedupe;
    forall f | f in LISTS
      ensures Dedupe(left.List(f) + right.List(f), p.dumped) == Dedupe(left.List(f) + right.List(f), p.live)
    {
      DedupeSameForms(left.List(f) + right.List(f), p);
    }
    assert ListMerge(left, right, p).lists == DeepMerge(left, right, p.dumped).lists;
  }

  lemma DedupePair<T(!new)>(x: T, y: T, str: T -> string)
    ensures Dedupe([x] + [y], str) == if str(x) == str(y) then [x] else [x, y]
  {
    assert Dedupe([x], str) == [x];
    assert ([x] + [y])[..1] == [x];
  }

  lemma SameMergesSameForms<T(!new), V>(some: BranchState<T, V>, x: T, y: T, p: Printer<T>)
    requires var l, r := some.(lists := map[MessageList := [x]]), some.(lists := map[MessageList := [y]]);
             ListMerge(l, r, p).lists == DeepMerge(l, r, p.dumped).lists
    ensures p.dumped(x) == p.dumped(y) <==> p.live(x) == p.live(y)
  {
    hide Dedupe, MergeStores;
    var l, r := some.(lists := map[MessageList := [x]]), some.(lists := map[MessageList := [y]]);
    DedupePair(x, y, p.dumped);
    DedupePair(x, y, p.live);
    assert ListMerge(l, r, p).lists[MessageList] == DeepMerge(l, r, p.dumped).lists[MessageList];
  }

  /** The list strategy is the deep one for all states exactly when live and dumped items print alike up to equality. */
  lemma ListMergeIsDeepMergeIff<T(!new), V(!new)>(some: BranchState<T, V>, p: Printer<T>)
    ensures SameForms(p) <==> forall l: BranchState<T, V>, r :: ListMerge(l, r, p) == DeepMerge(l, r, p.dumped)
  {
    hide DeepMerge, ListMerge;
    if SameForms(p) {
      forall l: BranchState<T, V>, r ensures ListMerge(l, r, p) == DeepMerge(l, r, p.dumped) {
        ListMergeIsDeepMerge(l, r, p);
      }
    }
    if forall l: BranchState<T, V>, r :: ListMerge(l, r, p) == DeepMerge(l, r, p.dumped) {
      forall x, y ensures p.dumped(x) == p.dumped(y) <==> p.live(x) == p.live(y) {
        SameMergesSameForms(some, x, y, p);
      }
    }
  }

  // ------------------------------------------------------------ merging a fan-out

  /** The fold over the branches, or None once a pair conflicts. */
  function FoldMerge<T(==, !new), V(==)>(
    base: BranchState<T, V>, branches: seq<BranchState<T, V>>, strategy: Strategy, p: Printer<T>)
    : Option<BranchState<T, V>>
  {
    if branches == [] then Some(base)
    else
      var front := FoldMerge(base, branches[..|branches| - 1], strategy, p);
      if front.None? then None else MergePair(front.value, branches[|branches| - 1], strategy, p)
  }

  method MergeStates<T(==, !new), V(==)>(
    base: BranchState<T, V>, branches: seq<BranchState<T, V>>, strategy: Strategy, p: Printer<T>)
    returns (merged: Option<BranchState<T, V>>)
    ensures merged == FoldMerge(base, branches, strategy, p)
  {
    hide MergePair;
    if branches == [] {
      return Some(base);
    }
    if |branches| == 1 {
      assert branches[..0] == [];
      merged := MergePair(base, branches[0], strategy, p);
      return;
    }
    var acc := base;
    for i := 0 to |branches|
      invariant FoldMerge(base, branches[..i], strategy, p) == Some(acc)
    {
      assert branches[..i + 1][..i] == branches[..i];
      var next := MergePair(acc, branches[i], strategy, p);
      if next.None? {
        ConflictStays(base, branches, i + 1, strategy, p);
        return None;
      }
      acc := next.value;
    }
    assert branches[..|branches|] == branches;
    merged := Some(acc);
  }

  lemma {:induction false} ConflictStays<T(!new), V>(
    base: BranchState<T, V>, branches: seq<BranchState<T, V>>, i: nat, strategy: Strategy, p: Printer<T>)
    requires i <= |branches| && FoldMerge(base, branches[..i], strategy, p).None?
    ensures FoldMerge(base, branches, strategy, p).None?
    decreases |branches|
  {
    hide MergePair;
    if i == |branches| {
      assert branches[..i] == branches;
    } else {
      assert branches[..|branches| - 1][..i] == branches[..i];
      ConflictStays(base, branches[..|branches| - 1], i, strategy, p);
    }
  }

  function DeepFold<T(==, !new), V>(
    base: BranchState<T, V>, branches: seq<BranchState<T, V>>, str: T -> string): BranchState<T, V>
  {
    if branches == [] then base
    else DeepMerge(DeepFold(base, branches[..|branches| - 1], str), branches[|branches| - 1], str)
  }

  lemma {:induction false} DeepFoldIsFold<T(!new), V>(
    base: BranchState<T, V>, branches: seq<BranchState<T, V>>, p: Printer<T>)
    ensures FoldMerge(base, branches, DeepMergeAll, p) == Some(DeepFold(base, branches, p.dumped))
    ensures SameForms(p) ==> FoldMerge(base, branches, MergeLists, p) == Some(DeepFold(base, branches, p.dumped))
  {
    hide DeepMerge, ListMerge, SameForms;
    if branches != [] {
      var front := branches[..|branches| - 1];
      DeepFoldIsFold(base, front, p);
      if SameForms(p) { ListMergeIsDeepMerge(DeepFold(base, front, p.dumped), branches[|branches| - 1], p); }
    }
  }

  /** Under the last-wins strategy nothing of the base or the earlier branches is left. */
  lemma {:induction false} LastWinsIsLast<T(!new), V>(
    base: BranchState<T, V>, branches: seq<BranchState<T, V>>, p: Printer<T>)
    ensures FoldMerge(base, branches, LastWins, p) ==
            Some(if branches == [] then base else branches[|branches| - 1])
  {
    if branches != [] { LastWinsIsLast(base, branches[..|branches| - 1], p); }
  }

  // -------------------------------------------------------- lists: closed form

  function ListConcat<T, V>(base: BranchState<T, V>, branches: seq<BranchState<T, V>>, f: ListField): seq<T> {
    if branches == [] then base.List(f)
    else ListConcat(base, branches[..|branches| - 1], f) + branches[|branches| - 1].List(f)
  }

  lemma MergedList<T(!new), V>(left: BranchState<T, V>, right: BranchState<T, V>, f: ListField, str: T -> string)
    requires f in LISTS
    ensures DeepMerge(left, right, str).List(f) == Dedupe(left.List(f) + right.List(f), str)
  {
    hide Dedupe, MergeStores;
  }

  /** For one branch or more, every list field is one order-preserving deduplication of base, branch 1, ...,
      branch n. */
  lemma {:induction false} ListsClosedForm<T(!new), V>(
    base: BranchState<T, V>, branches: seq<BranchState<T, V>>, f: ListField, str: T -> string)
    requires branches != [] && f in LISTS
    ensures DeepFold(base, branches, str).List(f) == Dedupe(ListConcat(base, branches, f), str)
  {
    hide DeepMerge, Dedupe;
    var front, last := branches[..|branches| - 1], branches[|branches| - 1];
    MergedList(DeepFold(base, front, str), last, f, str);
    if front != [] {
      ListsClosedForm(base, front, f, str);
      DedupeTwice(ListConcat(base, front, f), last.List(f), str);
    }
  }

  ghost predicate Shown<T>(list: seq<T>, x: T, str: T -> string) {
    str(x) in KeySet(list, str)
  }

  ghost predicate ShownBefore<T>(list: seq<T>, x: T, y: T, str: T -> string) {
    exists p, q :: 0 <= p < q < |list| && str(list[p]) == str(x) && str(list[q]) == str(y)
  }

  /** Printed neither in the base's list nor in that of a branch before the j-th. */
  ghost predicate NewAt<T, V>(
    base: BranchState<T, V>, branches: seq<BranchState<T, V>>, f: ListField, j: nat, y: T, str: T -> string)
    requires j <= |branches|
  {
    !Shown(base.List(f), y, str) && forall i :: 0 <= i < j ==> !Shown(branches[i].List(f), y, str)
  }

  /** The list holds items of base and branches only, no printed form twice, every form that any of them holds, and what
      a branch adds comes after everything that the base and the branches before it hold. */
  ghost predicate HoldsAll<T(!new), V>(
    base: BranchState<T, V>, branches: seq<BranchState<T, V>>, f: ListField, list: seq<T>, str: T -> string)
  {
    && (forall x :: x in list ==> x in base.List(f) || exists i :: 0 <= i < |branches| && x in branches[i].List(f))
    && (forall p, q :: 0 <= p < q < |list| ==> str(list[p]) != str(list[q]))
    && (forall x :: x in base.List(f) ==> Shown(list, x, str))
    && (forall i, x :: 0 <= i < |branches| && x in branches[i].List(f) ==> Shown(list, x, str))
    && (forall j, y :: 0 <= j < |branches| && y in branches[j].List(f) && NewAt(base, branches, f, j, y, str) ==>
          && (forall x :: x in base.List(f) ==> ShownBefore(list, x, y, str))
          && (forall i, x :: 0 <= i < j && x in branches[i].List(f) ==> ShownBefore(list, x, y, str)))
  }

  lemma {:induction false} ConcatHolds<T(!new), V>(
    base: BranchState<T, V>, branches: seq<BranchState<T, V>>, f: ListField)
    ensures forall x :: x in ListConcat(base, branches, f) <==>
              x in base.List(f) || exists i :: 0 <= i < |branches| && x in branches[i].List(f)
  {
    if branches != [] {
      var n := |branches| - 1;
      var front := branches[..n];
      ConcatHolds(base, front, f);
      assert forall i :: 0 <= i < n ==> front[i] == branches[i];
    }
  }

  lemma {:induction false} ConcatPrefix<T, V>(
    base: BranchState<T, V>, branches: seq<BranchState<T, V>>, f: ListField, j: nat)
    requires j <= |branches|
    ensures ListConcat(base, branches[..j], f) <= ListConcat(base, branches, f)
    decreases |branches|
  {
    if j == |branches| {
      assert branches[..j] == branches;
    } else {
      assert branches[..|branches| - 1][..j] == branches[..j];
      ConcatPrefix(base, branches[..|branches| - 1], f, j);
    }
  }

  lemma {:induction false} DedupePrefix<T(!new)>(a: seq<T>, b: seq<T>, str: T -> string)
    ensures Dedupe(a, str) <= Dedupe(a + b, str)
    decreases |b|
  {
    if b == [] {
      assert a + b == a;
    } else {
      var n := |b| - 1;
      DedupePrefix(a, b[..n], str);
      assert b == b[..n] + [b[n]] && a + b == (a + b[..n]) + [b[n]];
      DedupeSnoc(a + b[..n], b[n], str);
    }
  }

  /** What a part of a list prints comes before what the rest prints anew. */
  lemma NewLater<T(!new)>(a: seq<T>, all: seq<T>, x: T, y: T, str: T -> string)
    requires a <= all && x in a && y in all && !Shown(a, y, str)
    ensures ShownBefore(Dedupe(all, str), x, y, str)
  {
    hide Dedupe;
    var d, list := Dedupe(a, str), Dedupe(all, str);
    assert all == a + all[|a|..];
    DedupePrefix(a, all[|a|..], str);
    DedupeKeys(a, str);
    DedupeKeys(all, str);
    assert str(x) in KeySet(d, str) && str(y) in KeySet(list, str);
    var u :| u in d && str(u) == str(x);
    var w :| w in list && str(w) == str(y);
    var p :| 0 <= p < |d| && d[p] == u;
    var q :| 0 <= q < |list| && list[q] == w;
    assert forall k :: 0 <= k < |d| ==> d[k] in d && list[k] == d[k];
    assert q >= |d|;
  }

  lemma {:induction false} DedupeWithin<T(!new)>(items: seq<T>, str: T -> string)
    ensures forall x :: x in Dedupe(items, str) ==> x in items
  {
    if items != [] {
      var n := |items| - 1;
      DedupeWithin(items[..n], str);
      assert items == items[..n] + [items[n]];
      DedupeSnoc(items[..n], items[n], str);
    }
  }

  lemma NewInConcat<T(!new), V>(
    base: BranchState<T, V>, branches: seq<BranchState<T, V>>, f: ListField, j: nat, y: T, str: T -> string)
    requires j <= |branches| && NewAt(base, branches, f, j, y, str)
    ensures !Shown(ListConcat(base, branches[..j], f), y, str)
  {
    hide ListConcat;
    ConcatHolds(base, branches[..j], f);
  }

  /** Every list field of a merge holds what base and branches print, in branch order. */
  lemma MergeHoldsAll<T(!new), V>(
    base: BranchState<T, V>, branches: seq<BranchState<T, V>>, f: ListField, str: T -> string)
    requires branches != [] && f in LISTS
    ensures HoldsAll(base, branches, f, DeepFold(base, branches, str).List(f), str)
  {
    hide DeepFold, Dedupe, ListConcat, NewAt, ShownBefore, KeySet;
    var all := ListConcat(base, branches, f);
    var list := Dedupe(all, str);
    ListsClosedForm(base, branches, f, str);
    DedupeWithin(all, str);
    DedupeKeys(all, str);
    ConcatHolds(base, branches, f);
    forall x | x in all ensures Shown(list, x, str) { ShownItself(all, x, str); }
    forall j, y | 0 <= j < |branches| && y in branches[j].List(f) && NewAt(base, branches, f, j, y, str)
      ensures forall x :: x in base.List(f) ==> ShownBefore(list, x, y, str)
      ensures forall i, x :: 0 <= i < j && x in branches[i].List(f) ==> ShownBefore(list, x, y, str)
    {
      var before := ListConcat(base, branches[..j], f);
      ConcatPrefix(base, branches, f, j);
      NewInConcat(base, branches, f, j, y, str);
      ConcatHolds(base, branches[..j], f);
      assert forall i :: 0 <= i < j ==> branches[..j][i] == branches[i];
      forall x | x in before ensures ShownBefore(list, x, y, str) { NewLater(before, all, x, y, str); }
    }
  }

  lemma ShownItself<T>(list: seq<T>, x: T, str: T -> string)
    requires x in list
    ensures Shown(list, x, str)
  {
  }

  // -------------------------------------------------- maps: last writer, and order

  function MapFold<V>(base: map<string, V>, maps: seq<map<string, V>>): map<string, V> {
    if maps == [] then base else MapFold(base, maps[..|maps| - 1]) + maps[|maps| - 1]
  }

  function Observations<T, V>(branches: seq<BranchState<T, V>>): (r: seq<map<string, V>>)
    ensures |r| == |branches|
  {
    seq(|branches|, i requires 0 <= i < |branches| => branches[i].observations)
  }

  function Memories<T, V>(branches: seq<BranchState<T, V>>): (r: seq<map<string, V>>)
    ensures |r| == |branches|
  {
    seq(|branches|, i requires 0 <= i < |branches| => branches[i].memory)
  }

  lemma MergedMaps<T(!new), V>(left: BranchState<T, V>, right: BranchState<T, V>, str: T -> string)
    ensures var m := DeepMerge(left, right, str);
            && m.observations == left.observations + right.observations && m.memory == left.memory + right.memory
            && m.scalars == left.scalars + right.scalars
  {
    hide MergeStores, MergedLists;
  }

  /** Both dictionaries of the merged state are folds of dictionary updates. */
  lemma {:induction false} MapsAreFolds<T(!new), V>(
    base: BranchState<T, V>, branches: seq<BranchState<T, V>>, str: T -> string)
    ensures DeepFold(base, branches, str).observations == MapFold(base.observations, Observations(branches))
    ensures DeepFold(base, branches, str).memory == MapFold(base.memory, Memories(branches))
  {
    hide DeepMerge;
    if branches != [] {
      var front := branches[..|branches| - 1];
      MapsAreFolds(base, front, str);
      MergedMaps(DeepFold(base, front, str), branches[|branches| - 1], str);
      assert Observations(branches)[..|branches| - 1] == Observations(front);
      assert Memories(branches)[..|branches| - 1] == Memories(front);
    }
  }

  lemma {:induction false} MapFoldKeys<V>(base: map<string, V>, maps: seq<map<string, V>>, k: string)
    ensures k in MapFold(base, maps) <==> k in base || exists m :: m in maps && k in m
  {
    if maps != [] {
      var front, last := maps[..|maps| - 1], maps[|maps| - 1];
      assert maps == front + [last];
      MapFoldKeys(base, front, k);
      assert forall m :: m in maps <==> m in front || m == last;
    }
  }

  /** The last branch's copy of a key wins, whether the branch changed it or merely still carries it from the base. */
  lemma LastBranchWins<V>(base: map<string, V>, maps: seq<map<string, V>>, k: string)
    requires maps != [] && k in maps[|maps| - 1]
    ensures k in MapFold(base, maps) && MapFold(base, maps)[k] == maps[|maps| - 1][k]
  {
  }

  ghost predicate PairwiseAgree<V>(maps: seq<map<string, V>>) {
    forall m, n, k :: m in maps && n in maps && k in m && k in n ==> m[k] == n[k]
  }

  /** When branches agree wherever they overlap, the fold holds every branch's value. */
  lemma {:induction false} AgreeingFold<V>(base: map<string, V>, maps: seq<map<string, V>>, k: string)
    requires PairwiseAgree(maps)
    ensures forall m :: m in maps && k in m ==> k in MapFold(base, maps) && MapFold(base, maps)[k] == m[k]
    ensures k in base && (forall m :: m in maps ==> k !in m) ==>
            k in MapFold(base, maps) && MapFold(base, maps)[k] == base[k]
  {
    if maps != [] {
      var front, last := maps[..|maps| - 1], maps[|maps| - 1];
      assert maps == front + [last];
      assert last in maps && forall m :: m in maps <==> m in front || m == last;
      AgreeingFold(base, front, k);
    }
  }

  ghost predicate SameElements<A>(xs: seq<A>, ys: seq<A>) {
    (forall x :: x in xs ==> x in ys) && (forall y :: y in ys ==> y in xs)
  }

  lemma AgreeingOrder<V>(base: map<string, V>, maps: seq<map<string, V>>, other: seq<map<string, V>>)
    requires SameElements(maps, other) && PairwiseAgree(maps)
    ensures MapFold(base, maps) == MapFold(base, other)
  {
    hide MapFold;
    var a, b := MapFold(base, maps), MapFold(base, other);
    forall k ensures (k in a <==> k in b) && (k in a ==> a[k] == b[k]) {
      MapFoldKeys(base, maps, k);
      MapFoldKeys(base, other, k);
      AgreeingFold(base, maps, k);
      AgreeingFold(base, other, k);
    }
  }

  ghost predicate OrderIrrelevant<V(!new)>(base: map<string, V>, maps: seq<map<string, V>>) {
    forall other: seq<map<string, V>> :: multiset(other) == multiset(maps) ==>
      MapFold(base, other) == MapFold(base, maps)
  }

  /** maps with entry i moved to the end. */
  function MovedLast<A>(maps: seq<A>, i: nat): seq<A>
    requires i < |maps|
  {
    maps[..i] + maps[i + 1..] + [maps[i]]
  }

  lemma MovedLastPermutes<A>(maps: seq<A>, i: nat)
    requires i < |maps|
    ensures multiset(MovedLast(maps, i)) == multiset(maps)
  {
    assert maps == maps[..i] + [maps[i]] + maps[i + 1..];
  }

  /** The merged dictionary is the same for every branch order exactly when the branches agree on every shared key. */
  lemma OrderIrrelevantIff<V(!new)>(base: map<string, V>, maps: seq<map<string, V>>)
    ensures OrderIrrelevant(base, maps) <==> PairwiseAgree(maps)
  {
    if PairwiseAgree(maps) {
      forall other: seq<map<string, V>> | multiset(other) == multiset(maps)
        ensures MapFold(base, other) == MapFold(base, maps)
      {
        SameMembers(maps, other);
        AgreeingOrder(base, maps, other);
      }
    }
    if OrderIrrelevant(base, maps) {
      forall m, n, k | m in maps && n in maps && k in m && k in n ensures m[k] == n[k] {
        var i :| 0 <= i < |maps| && maps[i] == m;
        var j :| 0 <= j < |maps| && maps[j] == n;
        MovedLastPermutes(maps, i);
        MovedLastPermutes(maps, j);
        LastBranchWins(base, MovedLast(maps, i), k);
        LastBranchWins(base, MovedLast(maps, j), k);
      }
    }
  }

  /** The failing case: two branches that give one key different values. */
  lemma OrderMatters<V(!new)>(x: V, y: V)
    requires x != y
    ensures var a, b := map["key" := x], map["key" := y];
            MapFold(map[], [a, b]) != MapFold(map[], [b, a]) && !PairwiseAgree([a, b])
  {
    var a, b := map["key" := x], map["key" := y];
    LastBranchWins(map[], [a, b], "key");
    LastBranchWins(map[], [b, a], "key");
    assert a in [a, b] && b in [a, b] && a["key"] != b["key"];
  }

  /** Merging the branches in another order gives the same two dictionaries. */
  ghost predicate SameMaps<T(!new), V>(
    base: BranchState<T, V>, branches: seq<BranchState<T, V>>, other: seq<BranchState<T, V>>, str: T -> string)
  {
    var m, n := DeepFold(base, branches, str), DeepFold(base, other, str);
    m.observations == n.observations && m.memory == n.memory
  }

  ghost predicate MapsAgree<T, V>(branches: seq<BranchState<T, V>>) {
    PairwiseAgree(Observations(branches)) && PairwiseAgree(Memories(branches))
  }

  lemma ReorderedMaps<T, V>(branches: seq<BranchState<T, V>>, other: seq<BranchState<T, V>>)
    requires SameElements(branches, other)
    ensures SameElements(Observations(branches), Observations(other))
            && SameElements(Memories(branches), Memories(other))
  {
    HasMaps(branches, other);
    HasMaps(other, branches);
  }

  lemma HasMaps<T, V>(branches: seq<BranchState<T, V>>, other: seq<BranchState<T, V>>)
    requires forall b :: b in branches ==> b in other
    ensures forall m :: m in Observations(branches) ==> m in Observations(other)
    ensures forall m :: m in Memories(branches) ==> m in Memories(other)
  {
    forall i | 0 <= i < |branches|
      ensures Observations(branches)[i] in Observations(other) && Memories(branches)[i] in Memories(other)
    {
      assert branches[i] in other;
      var j :| 0 <= j < |other| && other[j] == branches[i];
      assert Observations(other)[j] == branches[i].observations && Memories(other)[j] == branches[i].memory;
    }
  }

  lemma PermutedElements<A>(xs: seq<A>, ys: seq<A>)
    requires multiset(xs) == multiset(ys)
    ensures SameElements(xs, ys)
  {
    forall x | x in xs ensures x in ys { assert x in multiset(xs); }
    forall y | y in ys ensures y in xs { assert y in multiset(ys); }
  }

  lemma AgreeingBranches<T(!new), V>(
    base: BranchState<T, V>, branches: seq<BranchState<T, V>>, other: seq<BranchState<T, V>>, str: T -> string)
    requires MapsAgree(branches) && multiset(other) == multiset(branches)
    ensures SameMaps(base, branches, other, str)
  {
    hide DeepFold, MapFold, PairwiseAgree, SameElements, Observations, Memories;
    PermutedElements(branches, other);
    ReorderedMaps(branches, other);
    MapsAreFolds(base, branches, str);
    MapsAreFolds(base, other, str);
    AgreeingOrder(base.observations, Observations(branches), Observations(other));
    AgreeingOrder(base.memory, Memories(branches), Memories(other));
  }

  lemma MovedBranch<T(!new), V>(base: BranchState<T, V>, branches: seq<BranchState<T, V>>, str: T -> string, i: nat)
    requires i < |branches| && SameMaps(base, branches, MovedLast(branches, i), str)
    ensures MapFold(base.observations, MovedLast(Observations(branches), i)) ==
            MapFold(base.observations, Observations(branches))
    ensures MapFold(base.memory, MovedLast(Memories(branches), i)) == MapFold(base.memory, Memories(branches))
  {
    hide DeepFold, MapFold;
    MapsAreFolds(base, branches, str);
    MapsAreFolds(base, MovedLast(branches, i), str);
    assert Observations(MovedLast(branches, i)) == MovedLast(Observations(branches), i);
    assert Memories(MovedLast(branches, i)) == MovedLast(Memories(branches), i);
  }

  /** The observations and memory of a merge are the same for every branch order exactly when the branches agree on
      every shared key of each. */
  lemma MergeOrderIrrelevantIff<T(!new), V(!new)>(
    base: BranchState<T, V>, branches: seq<BranchState<T, V>>, str: T -> string)
    ensures MapsAgree(branches) <==>
            forall other: seq<BranchState<T, V>> :: multiset(other) == multiset(branches) ==>
              SameMaps(base, branches, other, str)
  {
    hide DeepFold, MapFold, PairwiseAgree, SameMaps, MovedLast;
    if MapsAgree(branches) {
      forall other: seq<BranchState<T, V>> | multiset(other) == multiset(branches)
        ensures SameMaps(base, branches, other, str)
      {
        AgreeingBranches(base, branches, other, str);
      }
    }
    if forall other: seq<BranchState<T, V>> :: multiset(other) == multiset(branches) ==>
         SameMaps(base, branches, other, str) {
      forall i: nat | i < |branches| ensures SameMaps(base, branches, MovedLast(branches, i), str) {
        MovedLastPermutes(branches, i);
      }
      forall i: nat | i < |branches|
        ensures MapFold(base.observations, MovedLast(Observations(branches), i)) ==
                MapFold(base.observations, Observations(branches))
        ensures MapFold(base.memory, MovedLast(Memories(branches), i)) == MapFold(base.memory, Memories(branches))
      {
        MovedBranch(base, branches, str, i);
      }
      LastMovesAgree(base.observations, Observations(branches));
      LastMovesAgree(base.memory, Memories(branches));
    }
  }

  /** If moving any one map to the end changes nothing, the maps agree. */
  lemma LastMovesAgree<V>(base: map<string, V>, maps: seq<map<string, V>>)
    requires forall i: nat :: i < |maps| ==> MapFold(base, MovedLast(maps, i)) == MapFold(base, maps)
    ensures PairwiseAgree(maps)
  {
    forall m, n, k | m in maps && n in maps && k in m && k in n ensures m[k] == n[k] {
      var i: nat :| i < |maps| && maps[i] == m;
      var j: nat :| j < |maps| && maps[j] == n;
      LastBranchWins(base, MovedLast(maps, i), k);
      LastBranchWins(base, MovedLast(maps, j), k);
      assert MapFold(base, MovedLast(maps, i)) == MapFold(base, MovedLast(maps, j));
    }
  }

  /** Branches that keep every base entry and write pairwise disjoint new keys do agree, so their merge
      forgets the order. */
  lemma DisjointWritesAgree<V>(base: map<string, V>, maps: seq<map<string, V>>)
    requires forall m :: m in maps ==> KeepsEntries(base, m)
    requires forall i, j :: 0 <= i < j < |maps| ==> (maps[i].Keys - base.Keys) !! (maps[j].Keys - base.Keys)
    ensures PairwiseAgree(maps)
  {
    forall m, n, k | m in maps && n in maps && k in m && k in n ensures m[k] == n[k] {
      var i :| 0 <= i < |maps| && maps[i] == m;
      var j :| 0 <= j < |maps| && maps[j] == n;
      if k !in base {
        assert k in maps[i].Keys - base.Keys && k in maps[j].Keys - base.Keys;
        assert i == j;
      }
    }
  }

  /** Branches that keep the base's dictionaries and write pairwise disjoint new keys merge to the same dictionaries in
      every order. */
  lemma DisjointBranchesMergeAlike<T(!new), V(!new)>(
    base: BranchState<T, V>, branches: seq<BranchState<T, V>>, other: seq<BranchState<T, V>>, str: T -> string)
    requires multiset(other) == multiset(branches)
    requires forall b :: b in branches ==>
              KeepsEntries(base.observations, b.observations) && KeepsEntries(base.memory, b.memory)
    requires forall i, j :: 0 <= i < j < |branches| ==>
      && (branches[i].observations.Keys - base.observations.Keys)
          !! (branches[j].observations.Keys - base.observations.Keys)
      && (branches[i].memory.Keys - base.memory.Keys) !! (branches[j].memory.Keys - base.memory.Keys)
    ensures SameMaps(base, branches, other, str)
  {
    hide SameMaps, PairwiseAgree;
    forall m | m in Observations(branches) ensures KeepsEntries(base.observations, m) {
      var i :| 0 <= i < |branches| && Observations(branches)[i] == m;
      assert branches[i] in branches;
    }
    forall m | m in Memories(branches) ensures KeepsEntries(base.memory, m) {
      var i :| 0 <= i < |branches| && Memories(branches)[i] == m;
      assert branches[i] in branches;
    }
    DisjointWritesAgree(base.observations, Observations(branches));
    DisjointWritesAgree(base.memory, Memories(branches));
    MergeOrderIrrelevantIff(base, branches, str);
  }

  predicate KeepsEntries<V(==)>(base: map<string, V>, m: map<string, V>) {
    forall k :: k in base ==> k in m && m[k] == base[k]
  }

  // ------------------------------------------------------------------ scalars

  /** Branch i is the last one with a value for f. */
  predicate LastSetter<T, V>(branches: seq<BranchState<T, V>>, f: ScalarField, i: nat) {
    && i < |branches| && f in branches[i].scalars
    && forall j :: i < j < |branches| ==> f !in branches[j].scalars
  }

  /** A scalar of the merge is that of the last branch that sets it: a branch's plan state survives only if no later
      branch has one. */
  lemma {:induction false} ScalarsClosedForm<T(!new), V>(
    base: BranchState<T, V>, branches: seq<BranchState<T, V>>, str: T -> string, f: ScalarField, i: nat)
    requires LastSetter(branches, f, i)
    ensures var m := DeepFold(base, branches, str); f in m.scalars && m.scalars[f] == branches[i].scalars[f]
  {
    hide DeepMerge;
    var n := |branches| - 1;
    var front := branches[..n];
    MergedMaps(DeepFold(base, front, str), branches[n], str);
    if i < n {
      assert forall j :: 0 <= j < n ==> front[j] == branches[j];
      ScalarsClosedForm(base, front, str, f, i);
    }
  }

  /** A scalar that no branch sets is the base's. */
  lemma {:induction false} UnsetScalars<T(!new), V>(
    base: BranchState<T, V>, branches: seq<BranchState<T, V>>, str: T -> string, f: ScalarField)
    requires forall b :: b in branches ==> f !in b.scalars
    ensures var m := DeepFold(base, branches, str);
            (f in m.scalars <==> f in base.scalars) && (f in base.scalars ==> m.scalars[f] == base.scalars[f])
  {
    hide DeepMerge;
    if branches != [] {
      var n := |branches| - 1;
      var front := branches[..n];
      assert branches[n] in branches && forall b :: b in front ==> b in branches;
      UnsetScalars(base, front, str, f);
      MergedMaps(DeepFold(base, front, str), branches[n], str);
    }
  }

  lemma MergedControl<T(!new), V>(left: BranchState<T, V>, right: BranchState<T, V>, str: T -> string)
    ensures var m := DeepMerge(left, right, str);
            && m.shouldStop == (left.shouldStop || right.shouldStop) && m.query == left.query
            && m.replanAttempts ==
                if left.replanAttempts >= right.replanAttempts then left.replanAttempts else right.replanAttempts
  {
    hide MergeStores, MergedLists;
  }

  /** Stop flags are joined, attempt counters maximised, and the query stays the base's. */
  lemma {:induction false} ControlClosedForm<T(!new), V>(
    base: BranchState<T, V>, branches: seq<BranchState<T, V>>, str: T -> string)
    ensures var m := DeepFold(base, branches, str);
            && m.query == base.query
            && (m.shouldStop <==> base.shouldStop || exists b :: b in branches && b.shouldStop)
            && m.replanAttempts >= base.replanAttempts
            && (forall b :: b in branches ==> m.replanAttempts >= b.replanAttempts)
            && (m.replanAttempts == base.replanAttempts
               || exists b :: b in branches && m.replanAttempts == b.replanAttempts)
  {
    hide DeepMerge;
    if branches != [] {
      var front, last := branches[..|branches| - 1], branches[|branches| - 1];
      assert branches == front + [last];
      assert last in branches && forall b :: b in branches <==> b in front || b == last;
      ControlClosedForm(base, front, str);
      MergedControl(DeepFold(base, front, str), last, str);
    }
  }

  // -------------------------------------------------- version stores and ids

  lemma MergedVersioning<T(!new), V>(left: BranchState<T, V>, right: BranchState<T, V>, str: T -> string)
    ensures var m := DeepMerge(left, right, str);
            && m.store == MergeStores(left.store, right.store)
            && m.versionId == if right.versionId.Some? then right.versionId else left.versionId
  {
    hide MergeStores, MergedLists;
  }

  /** The state id is that of the last branch that has one, here the i-th from 1, else the base's, i being 0. */
  lemma {:induction false} VersionIdClosedForm<T(!new), V>(
    base: BranchState<T, V>, branches: seq<BranchState<T, V>>, str: T -> string, i: nat)
    requires i <= |branches| && (i > 0 ==> branches[i - 1].versionId.Some?)
    requires forall j :: i <= j < |branches| ==> branches[j].versionId == None
    ensures DeepFold(base, branches, str).versionId == if i == 0 then base.versionId else branches[i - 1].versionId
  {
    hide DeepMerge;
    if branches != [] {
      var n := |branches| - 1;
      MergedVersioning(DeepFold(base, branches[..n], str), branches[n], str);
      if i <= n { VersionIdClosedForm(base, branches[..n], str, i); }
    }
  }

  /** The store of the base or of a branch. */
  ghost predicate HasStore<T, V>(base: BranchState<T, V>, branches: seq<BranchState<T, V>>, s: Store) {
    base.store == Some(s) || exists i :: 0 <= i < |branches| && branches[i].store == Some(s)
  }

  /** The stores are sound and never disagree about a version they share. */
  ghost predicate StoresFit<T(!new), V(!new)>(base: BranchState<T, V>, branches: seq<BranchState<T, V>>) {
    && (forall s :: HasStore(base, branches, s) ==> Inv(s))
    && (forall s, t :: HasStore(base, branches, s) && HasStore(base, branches, t) ==> Agree(s.versions, t.versions))
  }

  lemma HasStoreSnoc<T, V>(base: BranchState<T, V>, front: seq<BranchState<T, V>>, last: BranchState<T, V>)
    ensures forall s :: HasStore(base, front + [last], s) <==> HasStore(base, front, s) || last.store == Some(s)
  {
    var all := front + [last];
    assert all[|front|] == last && forall i :: 0 <= i < |front| ==> all[i] == front[i];
  }

  /** The merged store holds exactly the versions of all stores, keeps every lineage of each, and is sound. */
  lemma {:induction false} StoresClosedForm<T(!new), V(!new)>(
    base: BranchState<T, V>, branches: seq<BranchState<T, V>>, str: T -> string)
    requires StoresFit(base, branches)
    ensures var m := DeepFold(base, branches, str).store;
            && (m.Some? <==> exists s :: HasStore(base, branches, s))
            && (m.Some? ==>
                  && Inv(m.value)
                  && (forall v :: v in m.value.versions <==> exists s :: HasStore(base, branches, s) && v in s.versions)
                  && forall s, id :: HasStore(base, branches, s) && id in VersionIds(s.versions) ==>
                       Lineage(m.value.versions, id) == Lineage(s.versions, id))
  {
    hide DeepMerge, HasStore, Inv, Agree, Lineage;
    if branches == [] {
      OnlyBase(base);
    } else {
      var front, last := branches[..|branches| - 1], branches[|branches| - 1];
      assert branches == front + [last];
      HasStoreSnoc(base, front, last);
      StoresClosedForm(base, front, str);
      MergedVersioning(DeepFold(base, front, str), last, str);
      OneMoreStore(base, front, last, DeepFold(base, front, str).store);
    }
    LineagesKept(base, branches, DeepFold(base, branches, str).store);
  }

  lemma OnlyBase<T(!new), V(!new)>(base: BranchState<T, V>)
    ensures forall s :: HasStore(base, [], s) <==> base.store == Some(s)
  {
  }

  ghost predicate HoldsStores<T(!new), V(!new)>(
    base: BranchState<T, V>, branches: seq<BranchState<T, V>>, m: Option<Store>)
  {
    && (m.Some? <==> exists s :: HasStore(base, branches, s))
    && (m.Some? ==>
          && Inv(m.value)
          && forall v :: v in m.value.versions <==> exists s :: HasStore(base, branches, s) && v in s.versions)
  }

  lemma OneMoreStore<T(!new), V(!new)>(
    base: BranchState<T, V>, front: seq<BranchState<T, V>>, last: BranchState<T, V>, m: Option<Store>)
    requires StoresFit(base, front + [last]) && HoldsStores(base, front, m)
    ensures HoldsStores(base, front + [last], MergeStores(m, last.store))
  {
    hide HasStore, Inv, MergedVersions;
    HasStoreSnoc(base, front, last);
    if m.Some? && last.store.Some? {
      assert HasStore(base, front + [last], last.store.value);
      assert Agree(m.value.versions, last.store.value.versions);
      MergeHolds(m.value, last.store.value);
    }
  }

  lemma MergeHolds(left: Store, right: Store)
    requires Inv(left) && Inv(right) && Agree(left.versions, right.versions)
    ensures Inv(Merge(left, right))
    ensures forall v :: v in Merge(left, right).versions <==> v in left.versions || v in right.versions
  {
    hide History, Agree, Lineage;
    MergeKeepsHistory(left.versions, right.versions);
    MergeKeepsInv(left, right, 0);
  }

  lemma LineagesKept<T(!new), V(!new)>(base: BranchState<T, V>, branches: seq<BranchState<T, V>>, m: Option<Store>)
    requires StoresFit(base, branches) && HoldsStores(base, branches, m)
    ensures m.Some? ==>
              forall s, id :: HasStore(base, branches, s) && id in VersionIds(s.versions) ==>
                Lineage(m.value.versions, id) == Lineage(s.versions, id)
  {
    hide HasStore, Lineage, History, Agree;
    if m.Some? {
      forall s, id | HasStore(base, branches, s) && id in VersionIds(s.versions)
        ensures Lineage(m.value.versions, id) == Lineage(s.versions, id)
      {
        LineagesPreserved(s.versions, m.value.versions, id);
      }
    }
  }

  /** A later store has the say: branch i has one with the property, and no later branch has. */
  ghost predicate LastStore<T, V>(branches: seq<BranchState<T, V>>, i: int, has: Store -> bool) {
    && 0 <= i < |branches| && branches[i].store.Some? && has(branches[i].store.value)
    && forall j :: i < j < |branches| ==> branches[j].store.Some? ==> !has(branches[j].store.value)
  }

  /** Current version and branch name come from the last store that has one, and so does every entry of the branch
      table. */
  lemma {:induction false} StoreHeads<T(!new), V(!new)>(
    base: BranchState<T, V>, branches: seq<BranchState<T, V>>, str: T -> string, i: nat, name: string)
    requires i < |branches| && branches[i].store.Some?
    ensures var m, s := DeepFold(base, branches, str).store, branches[i].store.value;
            && m.Some?
            && (LastStore(branches, i, (t: Store) => t.current.Some?) ==> m.value.current == s.current)
            && (LastStore(branches, i, (t: Store) => t.branch != "") ==> m.value.branch == s.branch)
            && (LastStore(branches, i, (t: Store) => name in t.branches) ==>
                  name in m.value.branches && m.value.branches[name] == s.branches[name])
  {
    hide DeepMerge, MergedVersions;
    var n := |branches| - 1;
    var front := branches[..n];
    MergedVersioning(DeepFold(base, front, str), branches[n], str);
    if i < n {
      StoreHeads(base, front, str, i, name);
      assert forall j :: 0 <= j < n ==> front[j] == branches[j];
    }
  }

  // ------------------------------------------------------------ strict merging

  const STRICT: set<ScalarField> := {PlanScalar, StepScalar, ResultScalar, CritiqueScalar}

  predicate Both<T, V>(b: BranchState<T, V>, c: BranchState<T, V>, f: ScalarField) {
    f in STRICT && f in b.scalars && f in c.scalars
  }

  /** Base and branches agree on the flag, the query, and on every strict scalar that more than one of them has. */
  ghost predicate Unanimous<T, V>(base: BranchState<T, V>, branches: seq<BranchState<T, V>>) {
    && (forall b :: b in branches ==> b.shouldStop == base.shouldStop && b.query == base.query)
    && (forall f, b, c :: b in [base] + branches && c in [base] + branches && Both(b, c, f) ==>
          b.scalars[f] == c.scalars[f])
  }

  lemma UnanimousFront<T, V>(base: BranchState<T, V>, front: seq<BranchState<T, V>>, last: BranchState<T, V>)
    requires Unanimous(base, front + [last])
    ensures Unanimous(base, front)
  {
    assert forall b :: b in front ==> b in front + [last];
    assert forall b :: b in [base] + front ==> b in [base] + (front + [last]);
  }

  /** u holds a strict scalar if and only if base or a branch does, and with the value of each that does. */
  ghost predicate Common<T, V>(all: seq<BranchState<T, V>>, u: BranchState<T, V>) {
    && (forall f :: f in STRICT && f in u.scalars ==> exists b :: b in all && Both(b, u, f))
    && (forall f, b :: b in all && f in STRICT && f in b.scalars ==> f in u.scalars && u.scalars[f] == b.scalars[f])
  }

  lemma CommonSnoc<T, V>(
    all: seq<BranchState<T, V>>, last: BranchState<T, V>, u: BranchState<T, V>, w: BranchState<T, V>)
    requires Common(all, u) && w.scalars == u.scalars + last.scalars
    requires forall f :: Both(u, last, f) ==> u.scalars[f] == last.scalars[f]
    ensures Common(all + [last], w)
  {
    var more := all + [last];
    assert more[|all|] == last && forall b :: b in more <==> b in all || b == last;
    forall f | f in STRICT && f in w.scalars ensures exists b :: b in more && Both(b, w, f) {
      if f in last.scalars {
        assert last in more && Both(last, w, f);
      } else {
        var b :| b in all && Both(b, u, f);
        assert b in more && Both(b, w, f);
      }
    }
    forall f, b | b in more && f in STRICT && f in b.scalars ensures f in w.scalars && w.scalars[f] == b.scalars[f] {
      if f in last.scalars && b != last { assert Both(u, last, f); }
    }
  }

  lemma CommonAgrees<T, V>(
    base: BranchState<T, V>, front: seq<BranchState<T, V>>, last: BranchState<T, V>, u: BranchState<T, V>)
    requires Unanimous(base, front + [last]) && Common([base] + front, u)
    ensures forall f :: Both(u, last, f) ==> u.scalars[f] == last.scalars[f]
  {
    var all := [base] + (front + [last]);
    assert all == ([base] + front) + [last];
    forall f | Both(u, last, f) ensures u.scalars[f] == last.scalars[f] {
      var b :| b in [base] + front && Both(b, u, f);
      assert b in all && last in all && Both(b, last, f);
    }
  }

  /** What the pairwise check compares the next branch with. */
  lemma {:induction false} UnanimousFold<T(!new), V>(
    base: BranchState<T, V>, branches: seq<BranchState<T, V>>, str: T -> string)
    requires Unanimous(base, branches)
    ensures var m := DeepFold(base, branches, str);
            m.shouldStop == base.shouldStop && m.query == base.query && Common([base] + branches, m)
  {
    hide DeepMerge, Unanimous, Common;
    if branches == [] {
      assert [base] + branches == [base];
      CommonAlone(base);
    } else {
      var front, last := branches[..|branches| - 1], branches[|branches| - 1];
      assert branches == front + [last] && [base] + branches == ([base] + front) + [last];
      UnanimousFront(base, front, last);
      UnanimousFold(base, front, str);
      var u := DeepFold(base, front, str);
      MergedMaps(u, last, str);
      MergedControl(u, last, str);
      UnanimousFlags(base, front, last);
      CommonAgrees(base, front, last, u);
      CommonSnoc([base] + front, last, u, DeepMerge(u, last, str));
    }
  }

  lemma CommonAlone<T, V>(base: BranchState<T, V>)
    ensures Common([base], base)
  {
    assert base in [base];
    forall f | f in STRICT && f in base.scalars ensures exists b :: b in [base] && Both(b, base, f) {
      assert Both(base, base, f);
    }
  }

  lemma UnanimousFlags<T, V>(base: BranchState<T, V>, front: seq<BranchState<T, V>>, last: BranchState<T, V>)
    requires Unanimous(base, front + [last])
    ensures last.shouldStop == base.shouldStop && last.query == base.query
  {
    assert last in front + [last];
  }

  /** The strict strategy refuses exactly when base and branches are not unanimous; otherwise it is the deep merge. A
      conflict over the plan state is never reported. */
  lemma {:induction false} StrictMergeIff<T(!new), V>(
    base: BranchState<T, V>, branches: seq<BranchState<T, V>>, p: Printer<T>)
    ensures FoldMerge(base, branches, FailOnConflict, p) ==
            if Unanimous(base, branches) then Some(DeepFold(base, branches, p.dumped)) else None
  {
    hide DeepMerge, Unanimous, Common;
    if branches == [] {
      assert Unanimous(base, []) by { UnanimousAlone(base); }
    } else {
      var front, last := branches[..|branches| - 1], branches[|branches| - 1];
      assert branches == front + [last];
      StrictMergeIff(base, front, p);
      if Unanimous(base, branches) { UnanimousFront(base, front, last); }
      if Unanimous(base, front) {
        UnanimousFold(base, front, p.dumped);
        var u := DeepFold(base, front, p.dumped);
        if Unanimous(base, branches) {
          UnanimousFlags(base, front, last);
          CommonAgrees(base, front, last, u);
        }
        if !Conflicts(u, last) { NoConflict(base, front, last, u); }
      }
    }
  }

  lemma UnanimousAlone<T, V>(base: BranchState<T, V>)
    ensures Unanimous(base, [])
  {
  }

  lemma NoConflict<T, V>(
    base: BranchState<T, V>, front: seq<BranchState<T, V>>, last: BranchState<T, V>, u: BranchState<T, V>)
    requires Unanimous(base, front) && u.shouldStop == base.shouldStop && u.query == base.query
    requires Common([base] + front, u) && !Conflicts(u, last)
    ensures Unanimous(base, front + [last])
  {
    var all, before := [base] + (front + [last]), [base] + front;
    assert all == before + [last];
    assert forall b :: b in front + [last] <==> b in front || b == last;
    forall f, b, c | b in all && c in all && Both(b, c, f) ensures b.scalars[f] == c.scalars[f] {
      AgreeThrough(before, last, u, f, b, c);
    }
  }

  lemma AgreeThrough<T, V>(
    all: seq<BranchState<T, V>>, last: BranchState<T, V>, u: BranchState<T, V>, f: ScalarField, b: BranchState<T, V>,
    c: BranchState<T, V>)
    requires Common(all, u) && !Conflicts(u, last)
    requires b in all + [last] && c in all + [last] && Both(b, c, f)
    ensures b.scalars[f] == c.scalars[f]
  {
    assert forall x :: x in all + [last] <==> x in all || x == last;
    if b in all || c in all {
      assert f in u.scalars;
      if f in last.scalars { assert u.scalars[f] == last.scalars[f]; }
    }
  }
}
