/** Sums of weights over sequences. */
module Sums {

  ghost function Total<T>(xs: seq<T>, w: T -> nat): nat {
    if xs == [] then 0 else Total(xs[..|xs| - 1], w) + w(xs[|xs| - 1])
  }

  lemma {:induction false} TotalAppend<T>(xs: seq<T>, x: T, w: T -> nat)
    ensures Total(xs + [x], w) == Total(xs, w) + w(x)
  {
    assert (xs + [x])[..|xs|] == xs;
  }

  lemma {:induction false} TotalConcat<T>(xs: seq<T>, ys: seq<T>, w: T -> nat)
    ensures Total(xs + ys, w) == Total(xs, w) + Total(ys, w)
    decreases |ys|
  {
    if ys == [] {
      assert xs + ys == xs;
    } else {
      TotalConcat(xs, ys[..|ys| - 1], w);
      assert (xs + ys)[..|xs + ys| - 1] == xs + ys[..|ys| - 1];
    }
  }

  lemma {:induction false} TotalHead<T>(xs: seq<T>, w: T -> nat)
    requires xs != []
    ensures Total(xs, w) == w(xs[0]) + Total(xs[1..], w)
  {
    assert xs == [xs[0]] + xs[1..];
    TotalConcat([xs[0]], xs[1..], w);
    assert Total([xs[0]], w) == w(xs[0]);
  }

  lemma {:induction false} TotalUpdate<T>(xs: seq<T>, i: nat, x: T, w: T -> nat)
    requires i < |xs|
    ensures Total(xs[i := x], w) + w(xs[i]) == Total(xs, w) + w(x)
    decreases |xs|
  {
    var front := xs[..|xs| - 1];
    if i == |xs| - 1 {
      assert xs[i := x][..|xs| - 1] == front;
    } else {
      TotalUpdate(front, i, x, w);
      assert xs[i := x][..|xs| - 1] == front[i := x];
    }
  }

  lemma {:induction false} TotalCovers<T>(xs: seq<T>, i: nat, w: T -> nat)
    requires i < |xs|
    ensures w(xs[i]) <= Total(xs, w)
    decreases |xs|
  {
    if i < |xs| - 1 { TotalCovers(xs[..|xs| - 1], i, w); }
  }

  /** Sequences with the same weights position by position. */
  lemma {:induction false} TotalSame<S, T>(xs: seq<S>, ys: seq<T>, v: S -> nat, w: T -> nat)
    requires |xs| == |ys| && forall i | 0 <= i < |xs| :: v(xs[i]) == w(ys[i])
    ensures Total(xs, v) == Total(ys, w)
    decreases |xs|
  {
    if xs != [] {
      TotalSame(xs[..|xs| - 1], ys[..|ys| - 1], v, w);
    }
  }

  lemma {:induction false} TotalZero<T>(xs: seq<T>, w: T -> nat)
    requires forall i | 0 <= i < |xs| :: w(xs[i]) == 0
    ensures Total(xs, w) == 0
    decreases |xs|
  {
    if xs != [] { TotalZero(xs[..|xs| - 1], w); }
  }

  lemma {:induction false} ZeroTotal<T>(xs: seq<T>, w: T -> nat, i: nat)
    requires Total(xs, w) == 0 && i < |xs|
    ensures w(xs[i]) == 0
  {
    TotalCovers(xs, i, w);
  }
}
