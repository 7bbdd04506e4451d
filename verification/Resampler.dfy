/** The one-pass resampler of the statistics page, down to the raw rows it charts. */
module Resampler {
  import opened Arith
  import opened Amounts
  import opened Charts

  datatype Point = Point(ts: int, amount: Bytes)

  ghost predicate Sorted(h: seq<Point>) {
    forall i, j :: 0 <= i < j < |h| ==> h[i].ts <= h[j].ts
  }

  /** The points of a history with lo <= ts < hi, summed. */
  function SumIn(h: seq<Point>, lo: int, hi: int, d: Direction): int {
    if h == [] then 0
    else
      var p := h[|h| - 1];
      SumIn(h[..|h| - 1], lo, hi, d) + if lo <= p.ts < hi then p.amount.In(d) else 0
  }

  function Bucket(h: seq<Point>, t: int, iv: int): Point {
    Point(t, Bytes(SumIn(h, t, t + iv, Up), SumIn(h, t, t + iv, Down)))
  }

  lemma {:induction false} SumInPrefix(h: seq<Point>, n: nat, lo: int, hi: int, d: Direction)
    requires n <= |h| && Sorted(h) && (n < |h| ==> h[n].ts >= hi)
    ensures SumIn(h[..n], lo, hi, d) == SumIn(h, lo, hi, d)
  {
    if n < |h| {
      SumInPrefix(h[..|h| - 1], n, lo, hi, d);
      assert h[..|h| - 1][..n] == h[..n];
    } else {
      assert h[..n] == h;
    }
  }

  lemma {:induction false} SumInNone(h: seq<Point>, lo: int, hi: int, d: Direction)
    requires forall i :: 0 <= i < |h| ==> !(lo <= h[i].ts < hi)
    ensures SumIn(h, lo, hi, d) == 0
  {
    if h != [] { SumInNone(h[..|h| - 1], lo, hi, d); }
  }

  lemma SumInSnoc(h: seq<Point>, n: nat, lo: int, hi: int, d: Direction)
    requires n < |h|
    ensures SumIn(h[..n + 1], lo, hi, d)
         == SumIn(h[..n], lo, hi, d) + if lo <= h[n].ts < hi then h[n].amount.In(d) else 0
  {
    assert h[..n + 1][..n] == h[..n];
  }

  /** One pass over a time-sorted history; every bucket [t, t + interval) gets exactly
      the sum of its points. */
  method Resample(history: seq<Point>, start: int, end: int) returns (result: seq<Point>)
    requires Sorted(history)
    ensures var iv := IntervalFor(end - start);
      && |result| == (if end <= start then 0 else (end - start - 1) / iv + 1)
      && forall i :: 0 <= i < |result| ==> result[i] == Bucket(history, start + i * iv, iv)
  {
    hide IntervalFor, SumIn;
    var interval := IntervalFor(end - start);
    result := [];
    var inputIdx := 0;
    var t := start;
    while t < end
      invariant t == start + |result| * interval
      invariant t <= end - 1 + interval || |result| == 0
      invariant 0 <= inputIdx <= |history|
      invariant forall i :: 0 <= i < inputIdx ==> history[i].ts < t
      invariant forall i :: 0 <= i < |result| ==> result[i] == Bucket(history, start + i * interval, interval)
      decreases end - t
    {
      var bucketEnd := t + interval;
      var up, down := 0, 0;
      SumInNone(history[..inputIdx], t, bucketEnd, Up);
      SumInNone(history[..inputIdx], t, bucketEnd, Down);
      while inputIdx < |history|
        invariant 0 <= inputIdx <= |history|
        invariant forall i :: 0 <= i < inputIdx ==> history[i].ts < bucketEnd
        invariant up == SumIn(history[..inputIdx], t, bucketEnd, Up)
        invariant down == SumIn(history[..inputIdx], t, bucketEnd, Down)
      {
        var p := history[inputIdx];
        if p.ts >= bucketEnd {
          break;
        }
        SumInSnoc(history, inputIdx, t, bucketEnd, Up);
        SumInSnoc(history, inputIdx, t, bucketEnd, Down);
        if p.ts >= t {
          up := up + p.amount.up;
          down := down + p.amount.down;
        }
        inputIdx := inputIdx + 1;
      }
      SumInPrefix(history, inputIdx, t, bucketEnd, Up);
      SumInPrefix(history, inputIdx, t, bucketEnd, Down);
      result := result + [Point(t, Bytes(up, down))];
      MulStep(|result| - 1, interval);
      t := t + interval;
    }
    GridCount(start, end - 1, interval, |result|);
  }

  // ---------- what the whole result counts ----------

  function Total(result: seq<Point>, d: Direction): int {
    if result == [] then 0
    else Total(result[..|result| - 1], d) + result[|result| - 1].amount.In(d)
  }

  lemma {:induction false} SumInSplit(h: seq<Point>, lo: int, mid: int, hi: int, d: Direction)
    requires lo <= mid <= hi
    ensures SumIn(h, lo, hi, d) == SumIn(h, lo, mid, d) + SumIn(h, mid, hi, d)
  {
    if h != [] { SumInSplit(h[..|h| - 1], lo, mid, hi, d); }
  }

  lemma {:induction false} TotalIsRange(h: seq<Point>, start: int, iv: int, result: seq<Point>, d: Direction)
    requires iv > 0
    requires forall i :: 0 <= i < |result| ==> result[i] == Bucket(h, start + i * iv, iv)
    ensures |result| * iv >= 0
    ensures Total(result, d) == SumIn(h, start, start + |result| * iv, d)
  {
    MulMono(0, |result|, iv);
    if result == [] {
      SumInNone(h, start, start, d);
    } else {
      var n := |result| - 1;
      TotalIsRange(h, start, iv, result[..n], d);
      MulStep(n, iv);
      SumInSplit(h, start, start + n * iv, start + n * iv + iv, d);
    }
  }

  /** Every point with start <= ts < end is counted exactly once; a point at the very end
      is counted exactly when the interval does not divide the range. */
  lemma ResampleCounts(h: seq<Point>, start: int, end: int, result: seq<Point>, d: Direction)
    requires start < end && forall i :: 0 <= i < |h| ==> h[i].ts <= end
    requires var iv := IntervalFor(end - start);
      && |result| == (end - start - 1) / iv + 1
      && forall i :: 0 <= i < |result| ==> result[i] == Bucket(h, start + i * iv, iv)
    ensures Total(result, d) == SumIn(h, start, end, d)
      + if (end - start) % IntervalFor(end - start) == 0 then 0 else SumIn(h, end, end + 1, d)
  {
    hide IntervalFor, SumIn;
    var iv, n := IntervalFor(end - start), |result|;
    TotalIsRange(h, start, iv, result, d);
    var stop := start + n * iv;
    Euclid(end - start - 1, iv);
    MulStep(n - 1, iv);
    assert end <= stop < end + iv;
    SumInSplit(h, start, end, stop, d);
    if stop == end {
      ModOfMultiple(n, iv);
      SumInNone(h, end, end, d);
    } else {
      DivIs(end - start, iv, n - 1);
      SumInSplit(h, end, end + 1, stop, d);
      SumInNone(h, end + 1, stop, d);
    }
  }

  // ---------- the history query ----------

  function At(ts: int): Key -> bool { (k: Key) => k.ts == ts }

  /** SELECT ts, SUM(uplink), SUM(downlink) WHERE ts BETWEEN start AND end GROUP BY ts ORDER BY ts. */
  ghost predicate IsGlobalTraffic(t: Table, start: int, end: int, h: seq<Point>) {
    && (forall i, j :: 0 <= i < j < |h| ==> h[i].ts < h[j].ts)
    && (forall i :: 0 <= i < |h| ==> start <= h[i].ts <= end)
    && (forall i :: 0 <= i < |h| ==> h[i].amount == Bytes(SumWhere(t, At(h[i].ts), Up), SumWhere(t, At(h[i].ts), Down)))
    && (forall k :: k in t && start <= k.ts <= end ==> exists i :: 0 <= i < |h| && h[i].ts == k.ts)
  }

  function Among(h: seq<Point>, lo: int, hi: int): Key -> bool {
    (k: Key) => lo <= k.ts < hi && exists i :: 0 <= i < |h| && h[i].ts == k.ts
  }

  lemma {:induction false} SumInIsRows(t: Table, h: seq<Point>, lo: int, hi: int, d: Direction)
    requires forall i, j :: 0 <= i < j < |h| ==> h[i].ts < h[j].ts
    requires forall i :: 0 <= i < |h| ==>
      h[i].amount == Bytes(SumWhere(t, At(h[i].ts), Up), SumWhere(t, At(h[i].ts), Down))
    ensures SumIn(h, lo, hi, d) == SumWhere(t, Among(h, lo, hi), d)
  {
    hide SumWhere;
    if h == [] {
      SumWhereNothing(t, Among(h, lo, hi), d);
    } else {
      var init, p := h[..|h| - 1], h[|h| - 1];
      SumInIsRows(t, init, lo, hi, d);
      forall k: Key
        ensures Among(h, lo, hi)(k) == (Among(init, lo, hi)(k) || (lo <= k.ts < hi && k.ts == p.ts))
      {
        if lo <= k.ts < hi && k.ts == p.ts { assert h[|h| - 1].ts == k.ts; }
        if Among(init, lo, hi)(k) {
          var i :| 0 <= i < |init| && init[i].ts == k.ts;
          assert h[i].ts == k.ts;
        }
      }
      if lo <= p.ts < hi {
        SumWhereSplit(t, Among(h, lo, hi), Among(init, lo, hi), At(p.ts), d);
      } else {
        SumWhereSame(t, Among(h, lo, hi), Among(init, lo, hi), d);
      }
    }
  }

  function RowsIn(start: int, end: int, b: int, iv: int): Key -> bool {
    (k: Key) => start <= k.ts <= end && b <= k.ts < b + iv
  }

  /** Each resampled bucket is the sum of the raw rows in [t, t + iv) within the range. */
  lemma BucketIsRows(t: Table, start: int, end: int, h: seq<Point>, b: int, iv: int, d: Direction)
    requires IsGlobalTraffic(t, start, end, h)
    ensures Bucket(h, b, iv).amount.In(d) == SumWhere(t, RowsIn(start, end, b, iv), d)
  {
    hide SumWhere;
    SumInIsRows(t, h, b, b + iv, d);
    SumWhereSame(t, Among(h, b, b + iv), RowsIn(start, end, b, iv), d);
  }
}
