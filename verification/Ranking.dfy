/** Ranking the threads of a system: the sum of what each one may still do. */
module Ranking {

  function Sum<T>(rank: T -> nat, xs: seq<T>): nat {
    if xs == [] then 0 else rank(xs[0]) + Sum(rank, xs[1..])
  }

  /** One thread moves on. */
  lemma {:induction false} SumUpdate<T>(rank: T -> nat, xs: seq<T>, i: nat, x: T)
    requires i < |xs|
    ensures Sum(rank, xs[i := x]) == Sum(rank, xs) - rank(xs[i]) + rank(x)
  {
    if i == 0 {
      assert xs[0 := x][1..] == xs[1..];
    } else {
      assert xs[i := x][1..] == xs[1..][i - 1 := x];
      SumUpdate(rank, xs[1..], i - 1, x);
    }
  }

  lemma {:induction false} SumBound<T>(rank: T -> nat, xs: seq<T>, bound: nat)
    requires forall j :: 0 <= j < |xs| ==> rank(xs[j]) <= bound
    ensures Sum(rank, xs) <= bound * |xs|
  {
    if xs != [] { SumBound(rank, xs[1..], bound); }
  }

  /** Every thread is ranked at most `more` higher. */
  lemma {:induction false} SumRise<T>(rank: T -> nat, xs: seq<T>, ys: seq<T>, more: nat)
    requires |xs| == |ys| && forall j :: 0 <= j < |xs| ==> rank(ys[j]) <= rank(xs[j]) + more
    ensures Sum(rank, ys) <= Sum(rank, xs) + more * |xs|
  {
    if xs != [] { SumRise(rank, xs[1..], ys[1..], more); }
  }
}
