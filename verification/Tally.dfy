/** Sums of an integer weight over the threads of a step system. */
module Tally {

  ghost function Sum<T>(xs: seq<T>, w: T -> int): int {
    if |xs| == 0 then 0 else Sum(xs[..|xs| - 1], w) + w(xs[|xs| - 1])
  }

  lemma {:induction false} SumUpdate<T>(xs: seq<T>, i: nat, x: T, w: T -> int)
    requires i < |xs|
    ensures Sum(xs[i := x], w) == Sum(xs, w) - w(xs[i]) + w(x)
  {
    var last := |xs| - 1;
    if i == last {
      assert xs[i := x][..last] == xs[..last];
    } else {
      SumUpdate(xs[..last], i, x, w);
      assert xs[i := x][..last] == xs[..last][i := x];
    }
  }

  lemma {:induction false} SumAppend<T>(xs: seq<T>, x: T, w: T -> int)
    ensures Sum(xs + [x], w) == Sum(xs, w) + w(x)
  {
    assert (xs + [x])[..|xs|] == xs;
  }

  lemma {:induction false} SumBounds<T>(xs: seq<T>, w: T -> int, lo: int)
    requires lo <= 0
    requires forall i :: 0 <= i < |xs| ==> w(xs[i]) >= 0 || w(xs[i]) >= lo
    requires forall i, j :: 0 <= i < j < |xs| ==> w(xs[i]) >= 0 || w(xs[j]) >= 0
    ensures Sum(xs, w) >= lo
    ensures (forall i :: 0 <= i < |xs| ==> w(xs[i]) >= 0) ==> Sum(xs, w) >= 0
  {
    if |xs| > 0 {
      var init := xs[..|xs| - 1];
      SumBounds(init, w, lo);
    }
  }

  lemma {:induction false} SumZero<T>(xs: seq<T>, w: T -> int)
    requires forall i :: 0 <= i < |xs| ==> w(xs[i]) == 0
    ensures Sum(xs, w) == 0
  {
    if |xs| > 0 {
      SumZero(xs[..|xs| - 1], w);
    }
  }

  lemma {:induction false} SumLinear<T>(xs: seq<T>, a: T -> int, b: T -> int, c: T -> int)
    requires forall i :: 0 <= i < |xs| ==> a(xs[i]) == b(xs[i]) + c(xs[i])
    ensures Sum(xs, a) == Sum(xs, b) + Sum(xs, c)
  {
    if |xs| > 0 {
      SumLinear(xs[..|xs| - 1], a, b, c);
    }
  }

  /** A sum of zeros and ones counts the ones. */
  lemma {:induction false} SumCounts<T>(xs: seq<T>, w: T -> int, ones: set<int>)
    requires forall i :: i in ones ==> 0 <= i < |xs|
    requires forall i :: 0 <= i < |xs| ==> w(xs[i]) == if i in ones then 1 else 0
    ensures Sum(xs, w) == |ones|
  {
    if |xs| == 0 {
      forall i ensures i !in ones {
      }
    } else {
      var last := |xs| - 1;
      SumCounts(xs[..last], w, ones - {last});
      assert last in ones ==> ones == (ones - {last}) + {last};
      assert last !in ones ==> ones == ones - {last};
    }
  }
}
