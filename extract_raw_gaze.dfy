/** Resampling of raw gaze rows onto a fixed tick
    (backend/app/utils/extractRawGaze.py, `find_closest_indices`). The
    spreadsheet reading of `gaze2npy` is outside the model; timestamps are
    whole milliseconds. */
module ExtractRawGaze {

  /** The tick, in milliseconds, `gaze2npy` resamples to (also the default
      of `find_closest_indices`). */
  const ResampleInterval: int := 40

  function Abs(v: int): nat { if v < 0 then -v else v }

  /** Python's `a // b`: floor division, also for a negative divisor. */
  function FloorDiv(a: int, b: int): (q: int)
    requires b != 0
    ensures b > 0 ==> q * b <= a < q * b + b
    ensures b < 0 ==> q * b >= a > q * b + b
  {
    if b > 0 then a / b else (-a) / (-b)
  }

  /** `max_i + 1`: how many ticks `range(max_i + 1)` visits. */
  function TickCount(ts: seq<int>, interval: int): nat
    requires |ts| > 0 && interval != 0
  {
    var maxI := FloorDiv(ts[|ts| - 1], interval);
    if maxI + 1 < 0 then 0 else maxI + 1
  }

  /** `k` is the earliest position whose timestamp is nearest to `target`. */
  predicate IsClosest(ts: seq<int>, target: int, k: int)
  {
    0 <= k < |ts|
    && (forall m :: 0 <= m < |ts| ==> Abs(ts[k] - target) <= Abs(ts[m] - target))
    && (forall m :: 0 <= m < k ==> Abs(ts[m] - target) > Abs(ts[k] - target))
  }

  /** `result` is what `find_closest_indices` returns: one position per
      tick `interval · i`, each the earliest nearest one. */
  predicate AreClosestIndices(ts: seq<int>, interval: int, result: seq<int>)
    requires |ts| > 0 && interval != 0
  {
    |result| == TickCount(ts, interval)
    && forall i :: 0 <= i < |result| ==> IsClosest(ts, interval * i, result[i])
  }

  /** The tie-break makes the chosen position unique. */
  lemma ClosestUnique(ts: seq<int>, target: int, k1: int, k2: int)
    requires IsClosest(ts, target, k1) && IsClosest(ts, target, k2)
    ensures k1 == k2
  {
    assert Abs(ts[k1] - target) == Abs(ts[k2] - target);
  }

  /** So the result is determined by the timestamps and the interval. */
  lemma ClosestIndicesUnique(ts: seq<int>, interval: int, r1: seq<int>, r2: seq<int>)
    requires |ts| > 0 && interval != 0
    requires AreClosestIndices(ts, interval, r1) && AreClosestIndices(ts, interval, r2)
    ensures r1 == r2
  {
    forall i | 0 <= i < |r1|
      ensures r1[i] == r2[i]
    {
      ClosestUnique(ts, interval * i, r1[i], r2[i]);
    }
  }

  /** The earliest nearest position to one target: argmin of `diffs`, then
      the least of the `candidates`. */
  method ClosestIndex(ts: seq<int>, target: int) returns (chosen: int)
    requires |ts| > 0
    ensures IsClosest(ts, target, chosen)
  {
    chosen := 0;
    for k := 1 to |ts|
      invariant 0 <= chosen < k
      invariant forall m :: 0 <= m < k ==> Abs(ts[chosen] - target) <= Abs(ts[m] - target)
      invariant forall m :: 0 <= m < chosen ==> Abs(ts[m] - target) > Abs(ts[chosen] - target)
    {
      if Abs(ts[k] - target) < Abs(ts[chosen] - target) {
        chosen := k;
      }
    }
  }

  /** `find_closest_indices(timestamps, interval)`. `timestamps.iloc[-1]`
      needs a non-empty series (its caller returns early on empty data) and
      `max_t // interval` a non-zero interval. */
  method FindClosestIndices(ts: seq<int>, interval: int) returns (result: seq<int>)
    requires |ts| > 0 && interval != 0
    ensures AreClosestIndices(ts, interval, result)
  {
    result := [];
    var maxT := ts[|ts| - 1];
    var maxI := FloorDiv(maxT, interval);
    var i := 0;
    while i < maxI + 1
      invariant 0 <= i && (i <= maxI + 1 || i == 0)
      invariant |result| == i
      invariant forall q :: 0 <= q < i ==> IsClosest(ts, interval * q, result[q])
    {
      var target := interval * i;
      var chosenIdx := ClosestIndex(ts, target);
      result := result + [chosenIdx];
      i := i + 1;
    }
  }

  /** Every entry is a valid position, and for a non-negative last stamp
      and a positive interval there are `floor(last / interval) + 1` ticks. */
  lemma ClosestIndicesShape(ts: seq<int>, interval: int, result: seq<int>)
    requires |ts| > 0 && interval > 0 && ts[|ts| - 1] >= 0
    requires AreClosestIndices(ts, interval, result)
    ensures |result| == ts[|ts| - 1] / interval + 1
    ensures forall i :: 0 <= i < |result| ==> 0 <= result[i] < |ts|
  {
  }

  predicate Ascending(ts: seq<int>)
  {
    forall a, b :: 0 <= a < b < |ts| ==> ts[a] <= ts[b]
  }

  /** On ascending timestamps a later target never picks an earlier
      position. */
  lemma ClosestMonotone(ts: seq<int>, t1: int, t2: int, k1: int, k2: int)
    requires Ascending(ts) && t1 <= t2
    requires IsClosest(ts, t1, k1) && IsClosest(ts, t2, k2)
    ensures k1 <= k2
  {
    assert Abs(ts[k1] - t1) <= Abs(ts[k2] - t1);
    assert Abs(ts[k2] - t2) <= Abs(ts[k1] - t2);
    var lo, hi := if k2 <= k1 then k2 else k1, if k2 <= k1 then k1 else k2;
    assert ts[lo] <= ts[hi];
  }

  /** With ascending timestamps (as `gaze2npy` sorts them) and a positive
      interval, the resampled positions never decrease. */
  lemma ClosestIndicesNonDecreasing(ts: seq<int>, interval: int, result: seq<int>)
    requires |ts| > 0 && interval > 0 && Ascending(ts)
    requires AreClosestIndices(ts, interval, result)
    ensures forall a, b :: 0 <= a <= b < |result| ==> result[a] <= result[b]
  {
    forall a, b | 0 <= a <= b < |result|
      ensures result[a] <= result[b]
    {
      assert interval * a <= interval * b;
      ClosestMonotone(ts, interval * a, interval * b, result[a], result[b]);
    }
  }

  /** The positions may repeat when samples are sparser than the interval:
      for stamps `[0, 100]` and tick 40 the ticks 0, 40 and 80 pick
      positions 0, 0 and 1. */
  lemma SparseSamplesRepeat(result: seq<int>)
    requires AreClosestIndices([0, 100], ResampleInterval, result)
    ensures result == [0, 0, 1]
  {
    var ts := [0, 100];
    assert TickCount(ts, ResampleInterval) == 3;
    assert IsClosest(ts, 0, 0);
    assert IsClosest(ts, 40, 0);
    assert IsClosest(ts, 80, 1);
    ClosestUnique(ts, 0, result[0], 0);
    ClosestUnique(ts, 40, result[1], 0);
    ClosestUnique(ts, 80, result[2], 1);
  }
}
