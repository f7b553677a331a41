/** Stable sorting by a strict weak order, as list.sort and ORDER BY give it, and selection by id. */
module Sorting {

  /** Less is a strict weak order. */
  ghost predicate Ordering<T(!new)>(less: (T, T) -> bool) {
    && (forall x, y :: less(x, y) ==> !less(y, x))
    && (forall x, y, z :: !less(y, x) && !less(z, y) ==> !less(z, x))
  }

  ghost predicate Sorted<T>(xs: seq<T>, less: (T, T) -> bool) {
    forall i, j :: 0 <= i < j < |xs| ==> !less(xs[j], xs[i])
  }

  /** Insert x behind everything that is not greater. */
  function Insert<T>(xs: seq<T>, x: T, less: (T, T) -> bool): seq<T> {
    if xs != [] && less(x, xs[|xs| - 1]) then Insert(xs[..|xs| - 1], x, less) + [xs[|xs| - 1]] else xs + [x]
  }

  function Sort<T>(xs: seq<T>, less: (T, T) -> bool): seq<T> {
    if xs == [] then [] else Insert(Sort(xs[..|xs| - 1], less), xs[|xs| - 1], less)
  }

  lemma {:induction false} InsertPermutes<T>(xs: seq<T>, x: T, less: (T, T) -> bool)
    ensures multiset(Insert(xs, x, less)) == multiset(xs) + multiset{x}
  {
    if xs != [] && less(x, xs[|xs| - 1]) {
      InsertPermutes(xs[..|xs| - 1], x, less);
      assert xs == xs[..|xs| - 1] + [xs[|xs| - 1]];
    }
  }

  lemma {:induction false} InsertSorts<T(!new)>(xs: seq<T>, x: T, less: (T, T) -> bool)
    requires Ordering(less) && Sorted(xs, less)
    ensures Sorted(Insert(xs, x, less), less)
  {
    if xs != [] && less(x, xs[|xs| - 1]) {
      var front, last := xs[..|xs| - 1], xs[|xs| - 1];
      InsertSorts(front, x, less);
      InsertPermutes(front, x, less);
      var r := Insert(front, x, less);
      forall i | 0 <= i < |r| ensures !less(last, r[i]) {
        assert r[i] in multiset(r);
        if r[i] != x {
          assert r[i] in front;
          var k :| 0 <= k < |front| && front[k] == r[i];
          assert xs[k] == r[i];
        }
      }
    }
  }

  /** Sorting loses and invents nothing. */
  lemma {:induction false} SortPermutes<T>(xs: seq<T>, less: (T, T) -> bool)
    ensures multiset(Sort(xs, less)) == multiset(xs)
    ensures |Sort(xs, less)| == |xs|
    ensures forall x :: x in Sort(xs, less) <==> x in xs
  {
    if xs != [] {
      SortPermutes(xs[..|xs| - 1], less);
      InsertPermutes(Sort(xs[..|xs| - 1], less), xs[|xs| - 1], less);
      assert xs == xs[..|xs| - 1] + [xs[|xs| - 1]];
    }
    assert |Sort(xs, less)| == |multiset(Sort(xs, less))| == |multiset(xs)| == |xs|;
    assert forall x :: x in Sort(xs, less) <==> x in multiset(Sort(xs, less));
    assert forall x :: x in xs <==> x in multiset(xs);
  }

  lemma {:induction false} SortSorts<T(!new)>(xs: seq<T>, less: (T, T) -> bool)
    requires Ordering(less)
    ensures Sorted(Sort(xs, less), less)
  {
    if xs != [] {
      SortSorts(xs[..|xs| - 1], less);
      InsertSorts(Sort(xs[..|xs| - 1], less), xs[|xs| - 1], less);
    }
  }

  predicate NoDuplicates<T(==)>(xs: seq<T>) {
    forall i, j :: 0 <= i < j < |xs| ==> xs[i] != xs[j]
  }

  /** Duplicate-freedom is a property of the contents. */
  lemma {:induction false} NoDuplicatesByCount<T>(xs: seq<T>)
    ensures NoDuplicates(xs) <==> forall x :: multiset(xs)[x] <= 1
  {
    if NoDuplicates(xs) {
      forall x ensures multiset(xs)[x] <= 1 { CountOfOnce(xs, x); }
    }
    if i, j :| 0 <= i < j < |xs| && xs[i] == xs[j] { CountOfTwice(xs, i, j); }
  }

  lemma CountOfTwice<T>(xs: seq<T>, i: nat, j: nat)
    requires i < j < |xs| && xs[i] == xs[j]
    ensures multiset(xs)[xs[i]] >= 2
  {
    assert xs == xs[..j] + xs[j..];
    assert xs[i] == xs[..j][i] && xs[i] in xs[..j];
    assert xs[j] == xs[j..][0] && xs[j] in xs[j..];
  }

  lemma {:induction false} CountOfOnce<T>(xs: seq<T>, x: T)
    requires NoDuplicates(xs)
    ensures multiset(xs)[x] <= 1
  {
    if xs != [] {
      var front := xs[..|xs| - 1];
      CountOfOnce(front, x);
      assert xs == front + [xs[|xs| - 1]];
      if x == xs[|xs| - 1] { assert x !in front; }
    }
  }

  lemma SortKeepsDistinct<T>(xs: seq<T>, less: (T, T) -> bool)
    requires NoDuplicates(xs)
    ensures NoDuplicates(Sort(xs, less))
  {
    SortPermutes(xs, less);
    NoDuplicatesByCount(xs);
    NoDuplicatesByCount(Sort(xs, less));
  }

  /** No two different elements of xs tie. */
  ghost predicate NoTies<T>(xs: seq<T>, less: (T, T) -> bool) {
    forall i, j :: 0 <= i < |xs| && 0 <= j < |xs| && !less(xs[i], xs[j]) && !less(xs[j], xs[i]) ==> xs[i] == xs[j]
  }

  lemma LastAgrees<T(!new)>(xs: seq<T>, ys: seq<T>, less: (T, T) -> bool)
    requires Sorted(xs, less) && Sorted(ys, less) && NoTies(xs, less)
    requires multiset(xs) == multiset(ys) && xs != [] && ys != []
    ensures xs[|xs| - 1] == ys[|ys| - 1]
  {
    var x, y := xs[|xs| - 1], ys[|ys| - 1];
    assert x in multiset(ys) && y in multiset(xs);
    var i :| 0 <= i < |ys| && ys[i] == x;
    var j :| 0 <= j < |xs| && xs[j] == y;
    assert x == y || !less(y, x);
    assert x == y || !less(x, y);
  }

  lemma Front<T>(xs: seq<T>)
    requires xs != []
    ensures xs == xs[..|xs| - 1] + [xs[|xs| - 1]]
    ensures multiset(xs[..|xs| - 1]) == multiset(xs) - multiset{xs[|xs| - 1]}
  {
    assert xs == xs[..|xs| - 1] + [xs[|xs| - 1]];
  }

  /** Two sorted lists with the same contents are the same list when no two of the contents tie. */
  lemma {:induction false} SortedUnique<T(!new)>(xs: seq<T>, ys: seq<T>, less: (T, T) -> bool)
    requires Sorted(xs, less) && Sorted(ys, less) && NoTies(xs, less)
    requires multiset(xs) == multiset(ys)
    ensures xs == ys
    decreases |xs|
  {
    assert |xs| == |multiset(xs)| == |multiset(ys)| == |ys|;
    if xs != [] {
      LastAgrees(xs, ys, less);
      Front(xs);
      Front(ys);
      SortedUnique(xs[..|xs| - 1], ys[..|ys| - 1], less);
    }
  }

  /** The ids of the rows a predicate selects, in id order. */
  function Select<T>(rows: seq<T>, p: T -> bool): (r: seq<nat>)
    ensures forall i :: i in r <==> 0 <= i < |rows| && p(rows[i])
    ensures forall i :: 0 <= i < |r| ==> r[i] < |rows|
    ensures forall i, j :: 0 <= i < j < |r| ==> r[i] < r[j]
    ensures (forall i :: 0 <= i < |rows| ==> !p(rows[i])) ==> r == []
  {
    if rows == [] then []
    else
      var front := Select(rows[..|rows| - 1], p);
      assert forall i :: 0 <= i < |front| ==> front[i] in front;
      if p(rows[|rows| - 1]) then front + [|rows| - 1] else front
  }

  /** In order of a number given to each, ties as they stood. */
  function SortBy(ids: seq<nat>, at: nat -> int): (r: seq<nat>)
    requires NoDuplicates(ids)
    ensures NoDuplicates(r) && forall i :: i in r <==> i in ids
    ensures forall k, l :: 0 <= k < l < |r| ==> at(r[k]) <= at(r[l])
  {
    var less := (i: nat, j: nat) => at(i) < at(j);
    SortPermutes(ids, less);
    SortSorts(ids, less);
    SortKeepsDistinct(ids, less);
    Sort(ids, less)
  }

  /** The positions of the rows with the property, in order of a number given to each, ties in order of position. */
  function SelectBy<T>(rows: seq<T>, p: T -> bool, at: nat -> int): (ids: seq<nat>)
    ensures forall i :: i in ids <==> 0 <= i < |rows| && p(rows[i])
    ensures forall k :: 0 <= k < |ids| ==> ids[k] < |rows|
    ensures NoDuplicates(ids)
    ensures forall k, l :: 0 <= k < l < |ids| ==> at(ids[k]) <= at(ids[l])
  {
    var ids := SortBy(Select(rows, p), at);
    assert forall k :: 0 <= k < |ids| ==> ids[k] in ids;
    ids
  }

  /** The listed numbers with a property. */
  function Where(ids: seq<nat>, p: nat -> bool): set<nat> {
    set i | i in ids && p(i)
  }

  lemma WhereOneMore(front: seq<nat>, last: nat, p: nat -> bool)
    requires last !in front
    ensures |Where(front + [last], p)| == |Where(front, p)| + if p(last) then 1 else 0
  {
    assert Where(front + [last], p) == Where(front, p) + if p(last) then {last} else {};
  }
}
