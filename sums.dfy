/**
 * Summation over a sequence of values, the one computation both reducers perform.
 * The lemmas state what lets the framework split and reorder reducer input freely:
 * the sum of a concatenation is the sum of the parts, and any permutation has the
 * same sum.
 */
module Sums {

  /** The sum of f over xs, accumulated left to right as the reducers' loops do. */
  function SumBy<T>(xs: seq<T>, f: T -> int): int
  {
    if xs == [] then 0 else SumBy(xs[..|xs| - 1], f) + f(xs[|xs| - 1])
  }

  function Id(x: int): int { x }

  /** The plain sum of a sequence of integers. */
  function Sum(xs: seq<int>): int
  {
    SumBy(xs, Id)
  }

  lemma {:induction false} SumByAppend<T>(a: seq<T>, b: seq<T>, f: T -> int)
    ensures SumBy(a + b, f) == SumBy(a, f) + SumBy(b, f)
  {
    if b == [] {
      assert a + b == a;
    } else {
      var b' := b[..|b| - 1];
      assert (a + b)[..|a + b| - 1] == a + b';
      SumByAppend(a, b', f);
    }
  }

  /** Summing after moving element k to the end gives the same total. */
  lemma {:induction false} SumByRemove<T>(xs: seq<T>, k: nat, f: T -> int)
    requires k < |xs|
    ensures SumBy(xs, f) == SumBy(xs[..k] + xs[k + 1..], f) + f(xs[k])
  {
    assert xs == xs[..k] + ([xs[k]] + xs[k + 1..]);
    SumByAppend(xs[..k], [xs[k]] + xs[k + 1..], f);
    SumByAppend([xs[k]], xs[k + 1..], f);
    SumByAppend(xs[..k], xs[k + 1..], f);
    assert [xs[k]][..0] == [];
  }

  /** The sum does not depend on the order of the values. */
  lemma {:induction false} SumByPermutation<T>(a: seq<T>, b: seq<T>, f: T -> int)
    requires multiset(a) == multiset(b)
    ensures SumBy(a, f) == SumBy(b, f)
    decreases |a|
  {
    if a == [] {
      assert |b| == |multiset(b)| == 0;
    } else {
      var x := a[|a| - 1];
      var a' := a[..|a| - 1];
      assert a == a' + [x];
      assert x in multiset(b);
      var k :| 0 <= k < |b| && b[k] == x;
      var b' := b[..k] + b[k + 1..];
      assert b == b[..k] + [x] + b[k + 1..];
      assert multiset(b) == multiset(b[..k]) + multiset{x} + multiset(b[k + 1..]);
      assert multiset(a) == multiset(a') + multiset{x};
      assert multiset(b') == multiset(b[..k]) + multiset(b[k + 1..]);
      assert multiset(a') == multiset(a) - multiset{x};
      assert multiset(b') == multiset(b) - multiset{x};
      SumByPermutation(a', b', f);
      SumByRemove(b, k, f);
    }
  }

  /** When f is c on every element, the sum is c times the length. */
  lemma {:induction false} SumByConstant<T>(xs: seq<T>, f: T -> int, c: int)
    requires forall i :: 0 <= i < |xs| ==> f(xs[i]) == c
    ensures SumBy(xs, f) == c * |xs|
  {
    if xs != [] {
      SumByConstant(xs[..|xs| - 1], f, c);
    }
  }
}
