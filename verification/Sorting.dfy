/**
 Sorting by a comparison, as `sort_unstable_by` promises it: the result is a sorted permutation
 and nothing is said about the order of elements that compare equal.
 */
module Sorting {

  ghost predicate Total<T(!new)>(leq: (T, T) -> bool) {
    forall a, b :: leq(a, b) || leq(b, a)
  }

  ghost predicate Transitive<T(!new)>(leq: (T, T) -> bool) {
    forall a, b, c :: leq(a, b) && leq(b, c) ==> leq(a, c)
  }

  ghost predicate SortedBy<T>(xs: seq<T>, leq: (T, T) -> bool) {
    forall i, j :: 0 <= i < j < |xs| ==> leq(xs[i], xs[j])
  }

  ghost predicate SortedPermutation<T>(xs: seq<T>, ys: seq<T>, leq: (T, T) -> bool) {
    multiset(ys) == multiset(xs) && SortedBy(ys, leq)
  }

  /** Puts an element behind those that are not after it. */
  function Insert<T(!new)>(xs: seq<T>, x: T, leq: (T, T) -> bool): seq<T> {
    if xs == [] || leq(xs[|xs| - 1], x) then xs + [x]
    else Insert(xs[..|xs| - 1], x, leq) + [xs[|xs| - 1]]
  }

  lemma {:induction false} InsertPermutes<T(!new)>(xs: seq<T>, x: T, leq: (T, T) -> bool)
    ensures multiset(Insert(xs, x, leq)) == multiset(xs + [x])
  {
    if xs != [] && !leq(xs[|xs| - 1], x) {
      var front, last := xs[..|xs| - 1], xs[|xs| - 1];
      InsertPermutes(front, x, leq);
      assert xs == front + [last];
    }
  }

  lemma AppendSorted<T(!new)>(xs: seq<T>, x: T, leq: (T, T) -> bool)
    requires SortedBy(xs, leq)
    requires forall y :: y in xs ==> leq(y, x)
    ensures SortedBy(xs + [x], leq)
  {}

  lemma {:induction false} InsertSorts<T(!new)>(xs: seq<T>, x: T, leq: (T, T) -> bool)
    requires Total(leq) && Transitive(leq) && SortedBy(xs, leq)
    ensures SortedPermutation(xs + [x], Insert(xs, x, leq), leq)
  {
    InsertPermutes(xs, x, leq);
    if xs == [] {
    } else if leq(xs[|xs| - 1], x) {
      LastIsGreatest(xs, leq);
      AppendSorted(xs, x, leq);
    } else {
      var front, last := xs[..|xs| - 1], xs[|xs| - 1];
      InsertSorts(front, x, leq);
      SameElements(Insert(front, x, leq), front + [x]);
      AppendSorted(Insert(front, x, leq), last, leq);
    }
  }

  lemma LastIsGreatest<T(!new)>(xs: seq<T>, leq: (T, T) -> bool)
    requires Total(leq) && SortedBy(xs, leq) && xs != []
    ensures forall y :: y in xs ==> leq(y, xs[|xs| - 1])
  {}

  /** One of the sorted permutations; nothing here depends on which. */
  function Sort<T(!new)>(xs: seq<T>, leq: (T, T) -> bool): (ys: seq<T>)
    requires Total(leq) && Transitive(leq)
    ensures SortedPermutation(xs, ys, leq)
  {
    if xs == [] then []
    else
      var sorted := Sort(xs[..|xs| - 1], leq);
      assert xs == xs[..|xs| - 1] + [xs[|xs| - 1]];
      InsertSorts(sorted, xs[|xs| - 1], leq);
      Insert(sorted, xs[|xs| - 1], leq)
  }

  ghost function Elements<T>(xs: seq<T>): set<T> {
    set x | x in xs
  }

  lemma ElementsConcat<T>(a: seq<T>, b: seq<T>)
    ensures Elements(a + b) == Elements(a) + Elements(b)
  {}

  lemma SameElements<T>(xs: seq<T>, ys: seq<T>)
    requires multiset(xs) == multiset(ys)
    ensures |xs| == |ys|
    ensures forall x :: x in xs <==> x in ys
  {
    assert |xs| == |multiset(xs)| && |ys| == |multiset(ys)|;
    assert forall x :: x in xs <==> x in multiset(xs);
  }

  lemma {:induction false} SubsetSize<T>(a: set<T>, b: set<T>)
    requires a <= b
    ensures |a| <= |b|
    decreases a
  {
    if a != {} {
      var x :| x in a;
      SubsetSize(a - {x}, b - {x});
    }
  }

  lemma LeastFirst<T>(xs: seq<T>, y: T, leq: (T, T) -> bool)
    requires SortedBy(xs, leq) && y in xs
    ensures xs[0] == y || leq(xs[0], y)
  {
    var i :| 0 <= i < |xs| && xs[i] == y;
  }

  lemma DropFirst<T>(xs: seq<T>)
    requires xs != []
    ensures multiset(xs[1..]) == multiset(xs) - multiset{xs[0]}
  {
    assert xs == [xs[0]] + xs[1..];
  }

  /** Sorted permutations of one multiset agree when no two of its elements tie. */
  lemma {:induction false} SortedIsUnique<T>(xs: seq<T>, ys: seq<T>, leq: (T, T) -> bool)
    requires multiset(xs) == multiset(ys)
    requires SortedBy(xs, leq) && SortedBy(ys, leq)
    requires forall a, b :: a in xs && b in xs && leq(a, b) && leq(b, a) ==> a == b
    ensures xs == ys
  {
    SameElements(xs, ys);
    if xs != [] {
      LeastFirst(xs, ys[0], leq);
      LeastFirst(ys, xs[0], leq);
      DropFirst(xs);
      DropFirst(ys);
      SortedIsUnique(xs[1..], ys[1..], leq);
      assert xs == [xs[0]] + xs[1..] && ys == [ys[0]] + ys[1..];
    }
  }

  // Sequences without duplicates

  ghost predicate Distinct<T>(xs: seq<T>) {
    forall i, j :: 0 <= i < j < |xs| ==> xs[i] != xs[j]
  }

  lemma {:induction false} CountedTwice<T>(xs: seq<T>, i: nat, j: nat)
    requires i < j < |xs| && xs[i] == xs[j]
    ensures multiset(xs)[xs[i]] >= 2
  {
    assert xs == xs[..j] + [xs[j]] + xs[j + 1..];
    assert xs[i] in xs[..j];
  }

  lemma {:induction false} CountedOnce<T>(xs: seq<T>, x: T)
    requires Distinct(xs)
    ensures multiset(xs)[x] == if x in xs then 1 else 0
  {
    if xs != [] {
      var front, last := xs[..|xs| - 1], xs[|xs| - 1];
      assert xs == front + [last];
      CountedOnce(front, x);
      assert forall i :: 0 <= i < |front| ==> front[i] == xs[i] && xs[i] != last;
    }
  }

  lemma AtMostOnceDistinct<T(!new)>(xs: seq<T>)
    requires forall x :: multiset(xs)[x] <= 1
    ensures Distinct(xs)
  {
    forall i, j | 0 <= i < j < |xs|
      ensures xs[i] != xs[j]
    {
      if xs[i] == xs[j] {
        CountedTwice(xs, i, j);
      }
    }
  }

  lemma DistinctPermutes<T(!new)>(xs: seq<T>, ys: seq<T>)
    requires Distinct(xs) && multiset(xs) == multiset(ys)
    ensures Distinct(ys)
  {
    forall x
      ensures multiset(ys)[x] <= 1
    {
      CountedOnce(xs, x);
    }
    AtMostOnceDistinct(ys);
  }

  lemma SameSetPermutes<T(!new)>(xs: seq<T>, ys: seq<T>)
    requires Distinct(xs) && Distinct(ys)
    requires forall x :: x in xs <==> x in ys
    ensures multiset(xs) == multiset(ys)
  {
    forall x
      ensures multiset(xs)[x] == multiset(ys)[x]
    {
      CountedOnce(xs, x);
      CountedOnce(ys, x);
    }
  }

  ghost predicate Antisymmetric<T>(xs: seq<T>, leq: (T, T) -> bool) {
    forall i, j :: 0 <= i < |xs| && 0 <= j < |xs| && leq(xs[i], xs[j]) && leq(xs[j], xs[i]) ==> xs[i] == xs[j]
  }

  /** Only one sorted sequence without duplicates has a given set of elements. */
  lemma SortedSetIsUnique<T(!new)>(xs: seq<T>, ys: seq<T>, leq: (T, T) -> bool)
    requires Distinct(xs) && Distinct(ys) && forall x :: x in xs <==> x in ys
    requires SortedBy(xs, leq) && SortedBy(ys, leq) && Antisymmetric(xs, leq)
    ensures xs == ys
  {
    SameSetPermutes(xs, ys);
    SortedIsUnique(xs, ys, leq);
  }
}
