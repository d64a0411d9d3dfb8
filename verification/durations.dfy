/**
  Audio durations, in seconds. The program reads them from MP3 files as
  floating-point numbers; here they are exact non-negative reals.
 */
module Durations {

  type Duration = r: real | 0.0 <= r

  /** The total of a sequence of durations, summed left to right. */
  function Sum(ds: seq<real>): real
  {
    if |ds| == 0 then 0.0 else ds[0] + Sum(ds[1..])
  }

  /** Sums split over concatenation. */
  lemma {:induction false} SumAppend(a: seq<real>, b: seq<real>)
    ensures Sum(a + b) == Sum(a) + Sum(b)
  {
    if |a| == 0 {
      assert a + b == b;
    } else {
      assert (a + b)[1..] == a[1..] + b;
      SumAppend(a[1..], b);
    }
  }

  /** A prefix sum grows by exactly the next element: the running total
      `now = now + lengths[i]` of a left-to-right loop. */
  lemma SumSnoc(ds: seq<real>, i: nat)
    requires i < |ds|
    ensures Sum(ds[..i + 1]) == Sum(ds[..i]) + ds[i]
  {
    assert ds[..i + 1] == ds[..i] + [ds[i]];
    SumAppend(ds[..i], [ds[i]]);
  }

  /** Durations never sum to a negative total. */
  lemma {:induction false} SumNonNegative(ds: seq<Duration>)
    ensures Sum(ds) >= 0.0
  {
    if |ds| > 0 {
      SumNonNegative(ds[1..]);
    }
  }

  /** Prefix sums of durations are monotone. */
  lemma PrefixSumMonotone(ds: seq<Duration>, i: nat, j: nat)
    requires i <= j <= |ds|
    ensures Sum(ds[..i]) <= Sum(ds[..j])
  {
    assert ds[..j] == ds[..i] + ds[i..j];
    SumAppend(ds[..i], ds[i..j]);
    SumNonNegative(ds[i..j]);
  }
}
