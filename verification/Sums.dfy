/** Totals over sequences, used to state what a protocol conserves. */
module Sums {
  function Total(xs: seq<int>): int {
    if xs == [] then 0 else xs[0] + Total(xs[1..])
  }

  lemma {:induction false} TotalUpdate(xs: seq<int>, i: nat, x: int)
    requires i < |xs|
    ensures Total(xs[i := x]) == Total(xs) - xs[i] + x
  {
    if i == 0 {
      assert xs[i := x][1..] == xs[1..];
    } else {
      assert xs[i := x][1..] == xs[1..][i - 1 := x];
      TotalUpdate(xs[1..], i - 1, x);
    }
  }

  lemma {:induction false} TotalBounds(xs: seq<int>, top: nat)
    requires forall i :: 0 <= i < |xs| ==> 0 <= xs[i] <= top
    ensures 0 <= Total(xs) <= top * |xs|
  {
    if xs != [] {
      TotalBounds(xs[1..], top);
    }
  }

  lemma {:induction false} TotalZero(xs: seq<int>)
    requires forall i :: 0 <= i < |xs| ==> xs[i] == 0
    ensures Total(xs) == 0
  {
    if xs != [] {
      TotalZero(xs[1..]);
    }
  }

  lemma {:induction false} TotalNonNegative(xs: seq<int>)
    requires forall i :: 0 <= i < |xs| ==> 0 <= xs[i]
    ensures 0 <= Total(xs)
  {
    if xs != [] {
      TotalNonNegative(xs[1..]);
    }
  }

  lemma TotalAtLeast(xs: seq<int>, i: nat)
    requires i < |xs| && forall j :: 0 <= j < |xs| ==> 0 <= xs[j]
    ensures xs[i] <= Total(xs)
  {
    TotalUpdate(xs, i, 0);
    TotalNonNegative(xs[i := 0]);
  }

  lemma TotalZeroIff(xs: seq<int>)
    requires forall i :: 0 <= i < |xs| ==> 0 <= xs[i]
    ensures Total(xs) == 0 <==> forall i :: 0 <= i < |xs| ==> xs[i] == 0
  {
    if Total(xs) == 0 {
      forall i | 0 <= i < |xs|
        ensures xs[i] == 0
      {
        TotalAtLeast(xs, i);
      }
    } else if forall i :: 0 <= i < |xs| ==> xs[i] == 0 {
      TotalZero(xs);
    }
  }
}
