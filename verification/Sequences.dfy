/** Lists without duplicates, the removal of an element, and concatenation */
module Sequences {
  predicate NoDup<T(==)>(xs: seq<T>) {
    forall i, j :: 0 <= i < j < |xs| ==> xs[i] != xs[j]
  }

  /** The list without the first occurrence of the element */
  function RemoveFirst<T(==)>(xs: seq<T>, x: T): (r: seq<T>)
  {
    if xs == [] then []
    else if xs[0] == x then xs[1..]
    else [xs[0]] + RemoveFirst(xs[1..], x)
  }

  lemma {:induction false} RemoveFirstFacts<T>(xs: seq<T>, x: T)
    requires NoDup(xs)
    ensures NoDup(RemoveFirst(xs, x))
    ensures forall y :: y in RemoveFirst(xs, x) <==> y in xs && y != x
    ensures |RemoveFirst(xs, x)| == if x in xs then |xs| - 1 else |xs|
  {
    if xs != [] && xs[0] != x {
      RemoveFirstFacts(xs[1..], x);
      assert xs == [xs[0]] + xs[1..];
      assert xs[0] !in xs[1..];
      NoDupCons(xs[0], RemoveFirst(xs[1..], x));
    }
  }

  lemma {:induction false} NoDupCons<T>(x: T, xs: seq<T>)
    requires NoDup(xs) && x !in xs
    ensures NoDup([x] + xs)
  {
    forall i, j | 0 <= i < j < |[x] + xs|
      ensures ([x] + xs)[i] != ([x] + xs)[j]
    {
      assert xs[j - 1] in xs;
    }
  }

  /** The removal by a loop that has found the element, or the end */
  lemma {:induction false} RemoveFirstAt<T>(xs: seq<T>, x: T, k: nat)
    requires k <= |xs| && x !in xs[..k]
    ensures k < |xs| && xs[k] == x ==> RemoveFirst(xs, x) == xs[..k] + xs[k + 1..]
    ensures k == |xs| ==> RemoveFirst(xs, x) == xs
    decreases k
  {
    if k > 0 {
      assert xs[0] in xs[..k];
      assert xs[1..][..k - 1] == xs[..k][1..];
      RemoveFirstAt(xs[1..], x, k - 1);
      assert xs == [xs[0]] + xs[1..];
    }
  }

  /** The parts of a list, one behind the other */
  function Concat<T>(parts: seq<seq<T>>): (xs: seq<T>)
  {
    if parts == [] then [] else parts[0] + Concat(parts[1..])
  }

  lemma {:induction false} ConcatSnoc<T>(parts: seq<seq<T>>, p: seq<T>)
    ensures Concat(parts + [p]) == Concat(parts) + p
  {
    if parts == [] {
      assert [p][1..] == [];
    } else {
      assert (parts + [p])[1..] == parts[1..] + [p];
      ConcatSnoc(parts[1..], p);
    }
  }
}
