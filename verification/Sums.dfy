/** Sums over a sequence, for measures that add up what the parts of a system have left to do. */
module Sums {

  function Sum<T>(xs: seq<T>, f: T -> nat): nat {
    if xs == [] then 0 else f(xs[0]) + Sum(xs[1..], f)
  }

  /** Replacing one element changes the sum by the difference it makes. */
  lemma {:induction false} SumOfUpdate<T>(xs: seq<T>, f: T -> nat, i: nat, x: T)
    requires i < |xs|
    ensures Sum(xs[i := x], f) + f(xs[i]) == Sum(xs, f) + f(x)
  {
    var ys := xs[i := x];
    if i == 0 {
      assert ys[1..] == xs[1..];
    } else {
      assert ys[1..] == xs[1..][i - 1 := x];
      SumOfUpdate(xs[1..], f, i - 1, x);
    }
  }

  lemma {:induction false} SumIsBounded<T>(xs: seq<T>, f: T -> nat, bound: nat)
    requires forall i :: 0 <= i < |xs| ==> f(xs[i]) <= bound
    ensures Sum(xs, f) <= bound * |xs|
  {
    if xs != [] {
      SumIsBounded(xs[1..], f, bound);
    }
  }

  /** A positive sum has a positive part. */
  lemma {:induction false} SomePart<T>(xs: seq<T>, f: T -> nat) returns (i: nat)
    requires Sum(xs, f) > 0
    ensures i < |xs| && f(xs[i]) > 0
  {
    if f(xs[0]) > 0 {
      i := 0;
    } else {
      i := SomePart(xs[1..], f);
      i := i + 1;
    }
  }
}
