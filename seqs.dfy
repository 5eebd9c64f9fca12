/** Sequence helpers shared by the pipeline modules: list lookups and sums. */
module Seqs {

  /** No element occurs twice. */
  predicate Distinct<T(==)>(xs: seq<T>) {
    forall i, j :: 0 <= i < j < |xs| ==> xs[i] != xs[j]
  }

  /** `order` lists every element of `keys` exactly once: a Python dict's iteration order. */
  predicate Enumerates<T(==)>(order: seq<T>, keys: set<T>) {
    Distinct(order) && (set k | k in order) == keys
  }

  /** Python's `list.index`: the first position of `x`. */
  function IndexOf<T(==)>(xs: seq<T>, x: T): (i: nat)
    requires x in xs
    ensures i < |xs| && xs[i] == x
    ensures forall j :: 0 <= j < i ==> xs[j] != x
  {
    if xs[0] == x then 0 else 1 + IndexOf(xs[1..], x)
  }

  /** In a duplicate-free list the position of an element is its only one. */
  lemma IndexOfDistinct<T>(xs: seq<T>, i: nat)
    requires Distinct(xs) && i < |xs|
    ensures IndexOf(xs, xs[i]) == i
  {
  }

  /** Appending an element leaves the positions of the elements already present alone. */
  lemma {:induction false} IndexOfAppend<T>(xs: seq<T>, y: T, x: T)
    requires x in xs + [y]
    ensures IndexOf(xs + [y], x) == if x in xs then IndexOf(xs, x) else |xs|
  {
    if xs != [] && xs[0] != x {
      assert (xs + [y])[1..] == xs[1..] + [y];
      IndexOfAppend(xs[1..], y, x);
    }
  }

  function Sum(xs: seq<real>): real {
    if xs == [] then 0.0 else Sum(xs[..|xs| - 1]) + xs[|xs| - 1]
  }

  lemma {:induction false} SumAppend(xs: seq<real>, x: real)
    ensures Sum(xs + [x]) == Sum(xs) + x
  {
    assert (xs + [x])[..|xs|] == xs;
  }

  /** Adding `h` to one slot adds `h` to the sum. */
  lemma {:induction false} SumAddAt(xs: seq<real>, i: nat, h: real)
    requires i < |xs|
    ensures Sum(xs[i := xs[i] + h]) == Sum(xs) + h
  {
    var n := |xs|;
    if i == n - 1 {
      assert xs[i := xs[i] + h][..n - 1] == xs[..n - 1];
    } else {
      SumAddAt(xs[..n - 1], i, h);
      assert xs[i := xs[i] + h][..n - 1] == xs[..n - 1][i := xs[i] + h];
    }
  }

  lemma {:induction false} SumConcat(xs: seq<real>, ys: seq<real>)
    ensures Sum(xs + ys) == Sum(xs) + Sum(ys)
    decreases |ys|
  {
    if ys == [] {
      assert xs + ys == xs;
    } else {
      var n := |ys|;
      SumConcat(xs, ys[..n - 1]);
      assert (xs + ys)[..|xs + ys| - 1] == xs + ys[..n - 1];
    }
  }

  /** The sum does not depend on the order of the elements. */
  lemma {:induction false} SumPermutation(xs: seq<real>, ys: seq<real>)
    requires multiset(xs) == multiset(ys)
    ensures Sum(xs) == Sum(ys)
    decreases |xs|
  {
    if xs == [] {
      assert |ys| == |multiset(ys)| == 0;
    } else {
      var n := |xs|;
      var x := xs[n - 1];
      assert x in multiset(ys);
      var j :| 0 <= j < |ys| && ys[j] == x;
      var rest := ys[..j] + ys[j + 1..];
      assert ys == ys[..j] + [x] + ys[j + 1..];
      assert xs == xs[..n - 1] + [x];
      calc {
        multiset(xs[..n - 1]);
        multiset(xs) - multiset{x};
        multiset(ys) - multiset{x};
        { assert multiset(ys) == multiset(ys[..j]) + multiset{x} + multiset(ys[j + 1..]); }
        multiset(rest);
      }
      SumPermutation(xs[..n - 1], rest);
      SumConcat(ys[..j] + [x], ys[j + 1..]);
      SumConcat(ys[..j], ys[j + 1..]);
      SumAppend(ys[..j], x);
    }
  }

  /** A sequence with the multiset of a duplicate-free one is duplicate-free. */
  lemma DistinctPermutation<T>(xs: seq<T>, ys: seq<T>)
    requires Distinct(xs) && multiset(xs) == multiset(ys)
    ensures Distinct(ys)
  {
    forall i, j | 0 <= i < j < |ys| ensures ys[i] != ys[j] {
      if ys[i] == ys[j] {
        assert ys == ys[..i] + [ys[i]] + ys[i + 1..j] + [ys[j]] + ys[j + 1..];
        assert multiset(ys)[ys[i]] >= 2;
        DistinctCount(xs, ys[i]);
      }
    }
  }

  lemma {:induction false} DistinctCount<T>(xs: seq<T>, x: T)
    requires Distinct(xs)
    ensures multiset(xs)[x] <= 1
  {
    if xs != [] {
      var n := |xs|;
      assert xs == xs[..n - 1] + [xs[n - 1]];
      DistinctCount(xs[..n - 1], x);
      if xs[n - 1] == x {
        assert x !in xs[..n - 1];
      }
    }
  }
}
