/** Sums of integer sequences, accumulated from the left as Python's `sum` does. */
module Sums {
  /** `sum(xs)` */
  function SumOf(xs: seq<int>): int
  {
    if xs == [] then 0 else SumOf(xs[..|xs| - 1]) + xs[|xs| - 1]
  }

  /** Changing one element changes the sum by the difference. */
  lemma {:induction false} SumOfUpdate(xs: seq<int>, b: nat, v: int)
    requires b < |xs|
    ensures SumOf(xs[b := v]) == SumOf(xs) - xs[b] + v
  {
    if b < |xs| - 1 {
      assert xs[b := v][..|xs| - 1] == xs[..|xs| - 1][b := v];
      SumOfUpdate(xs[..|xs| - 1], b, v);
    } else {
      assert xs[b := v][..|xs| - 1] == xs[..|xs| - 1];
    }
  }

  /** A sequence of zeros sums to zero. */
  lemma {:induction false} SumOfZeros(n: nat)
    ensures SumOf(seq(n, _ => 0)) == 0
  {
    if n > 0 {
      assert seq(n, _ => 0)[..n - 1] == seq(n - 1, _ => 0);
      SumOfZeros(n - 1);
    }
  }

  /** Appending an element adds it to the sum. */
  lemma SumOfSnoc(xs: seq<int>, x: int)
    ensures SumOf(xs + [x]) == SumOf(xs) + x
  {
    assert (xs + [x])[..|xs|] == xs;
  }
}
