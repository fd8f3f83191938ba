/** Sequences without repetition and the stable sort behind Python's `sorted`. */
module Sequences {

  datatype Option<+T> = None | Some(value: T)

  ghost predicate NoDup<T>(xs: seq<T>) {
    forall i, j :: 0 <= i < j < |xs| ==> xs[i] != xs[j]
  }

  function Map<A, B>(f: A -> B, xs: seq<A>): (ys: seq<B>)
    ensures |ys| == |xs| && forall i :: 0 <= i < |xs| ==> ys[i] == f(xs[i])
  {
    seq(|xs|, i requires 0 <= i < |xs| => f(xs[i]))
  }

  function SetOf<T>(xs: seq<T>): set<T> {
    set x | x in xs
  }

  lemma NonEmpty(s: set<int>)
    requires s != {}
    ensures exists x :: x in s
  {
    assert (forall x :: x !in s) ==> s == {};
  }

  /** The integers lo, lo+1, ..., hi-1. */
  function Range(lo: int, hi: int): (r: seq<int>)
    requires lo <= hi
    ensures |r| == hi - lo && forall i :: 0 <= i < |r| ==> r[i] == lo + i
  {
    seq(hi - lo, i => lo + i)
  }

  // ---------------------------------------------------------------- filtering

  function Filter<T(!new)>(p: T -> bool, xs: seq<T>): (ys: seq<T>)
    ensures forall y :: y in ys <==> y in xs && p(y)
  {
    if xs == [] then []
    else if p(xs[0]) then [xs[0]] + Filter(p, xs[1..])
    else Filter(p, xs[1..])
  }

  lemma FilterConcat<T(!new)>(p: T -> bool, xs: seq<T>, ys: seq<T>)
    ensures Filter(p, xs + ys) == Filter(p, xs) + Filter(p, ys)
  {
    if xs == [] {
      assert xs + ys == ys;
    } else {
      assert (xs + ys)[1..] == xs[1..] + ys;
      FilterConcat(p, xs[1..], ys);
    }
  }

  // ------------------------------------------------------------------ sorting

  function Insert<T>(x: T, xs: seq<T>, key: T -> int): seq<T> {
    if xs == [] || key(x) <= key(xs[0]) then [x] + xs
    else [xs[0]] + Insert(x, xs[1..], key)
  }

  /** Stable: an element is put before the later ones with the same key. */
  function SortBy<T>(xs: seq<T>, key: T -> int): (ys: seq<T>) {
    if xs == [] then [] else Insert(xs[0], SortBy(xs[1..], key), key)
  }

  ghost predicate SortedBy<T>(xs: seq<T>, key: T -> int) {
    forall i, j :: 0 <= i < j < |xs| ==> key(xs[i]) <= key(xs[j])
  }

  ghost predicate DistinctKeys<T>(xs: seq<T>, key: T -> int) {
    forall i, j :: 0 <= i < j < |xs| ==> key(xs[i]) != key(xs[j])
  }

  lemma {:induction false} InsertMultiset<T>(x: T, xs: seq<T>, key: T -> int)
    ensures multiset(Insert(x, xs, key)) == multiset{x} + multiset(xs)
  {
    if xs != [] && key(x) > key(xs[0]) {
      InsertMultiset(x, xs[1..], key);
      assert xs == [xs[0]] + xs[1..];
    }
  }

  lemma {:induction false} InsertSorted<T>(x: T, xs: seq<T>, key: T -> int)
    requires SortedBy(xs, key)
    ensures SortedBy(Insert(x, xs, key), key)
  {
    if xs != [] && key(x) > key(xs[0]) {
      var rest := Insert(x, xs[1..], key);
      InsertSorted(x, xs[1..], key);
      InsertMultiset(x, xs[1..], key);
      HeadBelow(x, xs, rest, key);
    }
  }

  lemma HeadBelow<T>(x: T, xs: seq<T>, rest: seq<T>, key: T -> int)
    requires SortedBy(xs, key) && xs != [] && key(x) > key(xs[0])
    requires multiset(rest) == multiset{x} + multiset(xs[1..])
    ensures forall y :: y in rest ==> key(xs[0]) <= key(y)
  {
    forall y | y in rest ensures key(xs[0]) <= key(y) {
      assert y in multiset(rest);
      if y != x { assert y in xs[1..]; }
    }
  }

  lemma {:induction false} SortByIsPermutation<T>(xs: seq<T>, key: T -> int)
    ensures multiset(SortBy(xs, key)) == multiset(xs)
    ensures |SortBy(xs, key)| == |xs|
  {
    if xs != [] {
      SortByIsPermutation(xs[1..], key);
      InsertMultiset(xs[0], SortBy(xs[1..], key), key);
      assert xs == [xs[0]] + xs[1..];
    }
    assert |multiset(SortBy(xs, key))| == |SortBy(xs, key)| && |multiset(xs)| == |xs|;
  }

  lemma {:induction false} SortByIsSorted<T>(xs: seq<T>, key: T -> int)
    ensures SortedBy(SortBy(xs, key), key)
  {
    if xs != [] {
      SortByIsSorted(xs[1..], key);
      InsertSorted(xs[0], SortBy(xs[1..], key), key);
    }
  }

  lemma SameMembers<T>(xs: seq<T>, ys: seq<T>)
    requires multiset(xs) == multiset(ys)
    ensures forall x :: x in xs <==> x in ys
    ensures |xs| == |ys|
  {
    assert forall x :: x in xs <==> x in multiset(xs);
    assert forall x :: x in ys <==> x in multiset(ys);
    assert |multiset(xs)| == |xs| && |multiset(ys)| == |ys|;
  }

  /** Distinctness of keys is a property of the multiset. */
  lemma DistinctKeysPermutation<T>(xs: seq<T>, ys: seq<T>, key: T -> int)
    requires multiset(xs) == multiset(ys) && DistinctKeys(xs, key)
    ensures DistinctKeys(ys, key)
  {
    SameMembers(xs, ys);
    forall i, j | 0 <= i < j < |ys| ensures key(ys[i]) != key(ys[j]) {
      if key(ys[i]) == key(ys[j]) {
        assert ys[i] in ys && ys[j] in ys;
        var a :| 0 <= a < |xs| && xs[a] == ys[i];
        var b :| 0 <= b < |xs| && xs[b] == ys[j];
        assert a == b;
        TwiceInMultiset(ys, i, j);
        OnceInMultiset(xs, a, key);
      }
    }
  }

  lemma TwiceInMultiset<T>(ys: seq<T>, i: nat, j: nat)
    requires i < j < |ys| && ys[i] == ys[j]
    ensures multiset(ys)[ys[i]] >= 2
  {
    assert ys == ys[..j] + [ys[j]] + ys[j + 1..];
    assert ys[i] in ys[..j];
    assert multiset(ys) == multiset(ys[..j]) + multiset{ys[j]} + multiset(ys[j + 1..]);
  }

  lemma OnceInMultiset<T>(xs: seq<T>, a: nat, key: T -> int)
    requires a < |xs| && DistinctKeys(xs, key)
    ensures multiset(xs)[xs[a]] == 1
  {
    assert xs == xs[..a] + [xs[a]] + xs[a + 1..];
    assert xs[a] !in xs[..a] && xs[a] !in xs[a + 1..];
    assert multiset(xs) == multiset(xs[..a]) + multiset{xs[a]} + multiset(xs[a + 1..]);
  }

  lemma TailMultiset<T>(xs: seq<T>)
    requires xs != []
    ensures multiset(xs[1..]) == multiset(xs) - multiset{xs[0]}
  {
    assert xs == [xs[0]] + xs[1..];
  }

  lemma SortedHead<T>(xs: seq<T>, ys: seq<T>, key: T -> int)
    requires multiset(xs) == multiset(ys) && xs != []
    requires SortedBy(xs, key) && SortedBy(ys, key) && DistinctKeys(xs, key)
    ensures ys != [] && xs[0] == ys[0]
  {
    SameMembers(xs, ys);
    assert xs[0] in ys && ys[0] in xs;
    var a :| 0 <= a < |xs| && xs[a] == ys[0];
    var b :| 0 <= b < |ys| && ys[b] == xs[0];
    assert key(xs[0]) <= key(xs[a]) && key(ys[0]) <= key(ys[b]);
  }

  /** A sorted arrangement with distinct keys is unique, so sorting forgets the input order. */
  lemma {:induction false} SortedUnique<T>(xs: seq<T>, ys: seq<T>, key: T -> int)
    requires multiset(xs) == multiset(ys)
    requires SortedBy(xs, key) && SortedBy(ys, key) && DistinctKeys(xs, key)
    ensures xs == ys
  {
    SameMembers(xs, ys);
    if xs != [] {
      SortedHead(xs, ys, key);
      TailMultiset(xs);
      TailMultiset(ys);
      SortedUnique(xs[1..], ys[1..], key);
    }
  }

  lemma SortByUnique<T>(xs: seq<T>, ys: seq<T>, key: T -> int)
    requires multiset(xs) == multiset(ys) && DistinctKeys(xs, key)
    ensures SortBy(xs, key) == SortBy(ys, key)
  {
    SortByIsPermutation(xs, key);
    SortByIsPermutation(ys, key);
    SortByIsSorted(xs, key);
    SortByIsSorted(ys, key);
    DistinctKeysPermutation(xs, SortBy(xs, key), key);
    SortedUnique(SortBy(xs, key), SortBy(ys, key), key);
  }

  /** A sequence that is already sorted by distinct keys is left alone. */
  lemma SortByIdentity<T>(xs: seq<T>, key: T -> int)
    requires SortedBy(xs, key) && DistinctKeys(xs, key)
    ensures SortBy(xs, key) == xs
  {
    SortByIsPermutation(xs, key);
    SortByIsSorted(xs, key);
    SortedUnique(xs, SortBy(xs, key), key);
  }

  // ---------------------------------------------------------------- sublists

  /** `out` holds the items of `src` at the ascending positions `at`. */
  ghost predicate SublistAt<T>(out: seq<T>, src: seq<T>, at: seq<nat>) {
    && |at| == |out|
    && (forall j :: 0 <= j < |at| ==> at[j] < |src| && out[j] == src[at[j]])
    && (forall j, k :: 0 <= j < k < |at| ==> at[j] < at[k])
  }

  lemma SublistKeepsOrder<T>(out: seq<T>, src: seq<T>, at: seq<nat>, key: T -> int)
    requires SublistAt(out, src, at)
    ensures DistinctKeys(src, key) ==> DistinctKeys(out, key)
    ensures SortedBy(src, key) ==> SortedBy(out, key)
  {
  }

  lemma SublistSnoc<T>(out: seq<T>, front: seq<T>, last: T, at: seq<nat>)
    requires SublistAt(out, front, at)
    ensures SublistAt(out, front + [last], at)
    ensures SublistAt(out + [last], front + [last], at + [|front|])
  {
  }

  // -------------------------------------------------------------- pigeonhole

  /** A repetition-free sequence drawn from a finite set is no longer than the set. */
  lemma {:induction false} NoDupBound(xs: seq<int>, s: set<int>)
    requires NoDup(xs) && forall x :: x in xs ==> x in s
    ensures |xs| <= |s|
  {
    if xs != [] {
      var x, rest := xs[0], xs[1..];
      assert xs == [x] + rest;
      assert x !in rest;
      NoDupBound(rest, s - {x});
    }
  }
}
