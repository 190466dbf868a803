/** Sums of a weight over a sequence of concurrent participants.  The protocol
    proofs change one participant at a time, so the lemma they need is what
    replacing a single element does to the sum. */
module Sums {

  /** Total weight of all elements. */
  function Sum<T>(xs: seq<T>, w: T -> int): int {
    if xs == [] then 0 else w(xs[0]) + Sum(xs[1..], w)
  }

  lemma {:induction false} SumUpdate<T>(xs: seq<T>, i: nat, v: T, w: T -> int)
    requires i < |xs|
    ensures Sum(xs[i := v], w) == Sum(xs, w) - w(xs[i]) + w(v)
  {
    if i == 0 {
      assert xs[i := v][1..] == xs[1..];
    } else {
      assert xs[i := v][1..] == xs[1..][i - 1 := v];
      SumUpdate(xs[1..], i - 1, v, w);
    }
  }

  lemma {:induction false} SumSnoc<T>(xs: seq<T>, x: T, w: T -> int)
    ensures Sum(xs + [x], w) == Sum(xs, w) + w(x)
  {
    if xs == [] {
      assert xs + [x] == [x];
    } else {
      assert (xs + [x])[1..] == xs[1..] + [x];
      SumSnoc(xs[1..], x, w);
    }
  }

  /** A weight that is pointwise smaller has the smaller sum. */
  lemma {:induction false} SumMonotone<T>(xs: seq<T>, lo: T -> int, hi: T -> int)
    requires forall k :: 0 <= k < |xs| ==> lo(xs[k]) <= hi(xs[k])
    ensures Sum(xs, lo) <= Sum(xs, hi)
  {
    if xs != [] {
      SumMonotone(xs[1..], lo, hi);
    }
  }

  /** If a non-negative weight is positive somewhere then the sum is at least that weight. */
  lemma {:induction false} SumAtLeast<T>(xs: seq<T>, i: nat, w: T -> int)
    requires i < |xs|
    requires forall k :: 0 <= k < |xs| ==> w(xs[k]) >= 0
    ensures Sum(xs, w) >= w(xs[i])
  {
    SumNonNegative(xs[1..], w);
    if i > 0 {
      SumAtLeast(xs[1..], i - 1, w);
    }
  }

  /** The same for two different elements. */
  lemma {:induction false} SumAtLeastTwo<T>(xs: seq<T>, i: nat, j: nat, w: T -> int)
    requires i < j < |xs|
    requires forall k :: 0 <= k < |xs| ==> w(xs[k]) >= 0
    ensures Sum(xs, w) >= w(xs[i]) + w(xs[j])
  {
    if i == 0 {
      SumAtLeast(xs[1..], j - 1, w);
    } else {
      SumAtLeastTwo(xs[1..], i - 1, j - 1, w);
    }
  }

  lemma {:induction false} SumNonNegative<T>(xs: seq<T>, w: T -> int)
    requires forall k :: 0 <= k < |xs| ==> w(xs[k]) >= 0
    ensures Sum(xs, w) >= 0
  {
    if xs != [] {
      SumNonNegative(xs[1..], w);
    }
  }

  /** A sum in which every weight is zero is zero. */
  lemma {:induction false} SumZero<T>(xs: seq<T>, w: T -> int)
    requires forall k :: 0 <= k < |xs| ==> w(xs[k]) == 0
    ensures Sum(xs, w) == 0
  {
    if xs != [] {
      SumZero(xs[1..], w);
    }
  }
}
