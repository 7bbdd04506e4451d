/** Charts over the traffic tables: bucket sums, the cumulative dashboard grid and the
    one-pass resampler of the statistics page. */
module Charts {
  import opened Arith
  import opened Amounts

  function IntervalFor(diff: int): (iv: int)
    ensures iv > 0
  {
    if diff <= 1800 then 60
    else if diff <= 3600 then 120
    else if diff <= 21600 then 900
    else if diff <= 86400 then 3600
    else if diff <= 604800 then 21600
    else 86400
  }

  // ---------- bucket queries ----------

  function Between(lo: int, hi: int): Key -> bool { (k: Key) => lo <= k.ts <= hi }

  function InSlot(start: int, end: int, iv: int, b: int): Key -> bool
    requires iv > 0
  {
    (k: Key) => start <= k.ts <= end && k.ts / iv * iv == b
  }

  function Slots(t: Table, start: int, end: int, iv: int): set<int>
    requires iv > 0
  {
    set k | k in t && start <= k.ts <= end :: k.ts / iv * iv
  }

  ghost function SlotSum(t: Table, start: int, end: int, iv: int, b: int): Bytes
    requires iv > 0
  {
    Bytes(SumWhere(t, InSlot(start, end, iv, b), Up), SumWhere(t, InSlot(start, end, iv, b), Down))
  }

  ghost predicate IsBuckets(t: Table, start: int, end: int, iv: int, out: map<int, Bytes>)
    requires iv > 0
  {
    && out.Keys == Slots(t, start, end, iv)
    && forall b :: b in out ==> out[b] == SlotSum(t, start, end, iv, b)
  }

  /** SELECT (ts / iv) * iv, SUM(uplink), SUM(downlink) WHERE ts BETWEEN start AND end
      GROUP BY 1, accumulated row by row in no particular order. */
  method QueryBuckets(t: Table, start: int, end: int, interval: int) returns (out: map<int, Bytes>)
    ensures IsBuckets(t, start, end, if interval <= 0 then 60 else interval, out)
  {
    hide SlotSum, Slots;
    var iv := if interval <= 0 then 60 else interval;
    out := map[];
    var pending := t.Keys;
    ghost var done: Table := map[];
    NoRowsNoSlots(start, end, iv);
    while pending != {}
      invariant pending <= t.Keys
      invariant done.Keys == t.Keys - pending
      invariant forall k :: k in done ==> done[k] == t[k]
      invariant IsBuckets(done, start, end, iv, out)
      decreases pending
    {
      var k :| k in pending;
      pending := pending - {k};
      SlotsStep(done, start, end, iv, k, t[k]);
      SlotSumStep(done, start, end, iv, k, t[k]);
      if start <= k.ts <= end {
        var b := k.ts / iv * iv;
        if b !in out { NoSlotNoSum(done, start, end, iv, b); }
        out := out[b := (if b in out then out[b] else ZERO).Plus(t[k])];
      }
      done := done[k := t[k]];
    }
    assert done == t;
  }

  lemma NoRowsNoSlots(start: int, end: int, iv: int)
    requires iv > 0
    ensures Slots(map[], start, end, iv) == {}
  {
  }

  lemma SlotsStep(done: Table, start: int, end: int, iv: int, k: Key, v: Bytes)
    requires iv > 0 && k !in done
    ensures Slots(done[k := v], start, end, iv)
         == Slots(done, start, end, iv) + (if start <= k.ts <= end then {k.ts / iv * iv} else {})
  {
    var more := done[k := v];
    forall b | b in Slots(more, start, end, iv)
      ensures b in Slots(done, start, end, iv) + (if start <= k.ts <= end then {k.ts / iv * iv} else {})
    {
      var x :| x in more && start <= x.ts <= end && x.ts / iv * iv == b;
      assert x == k || x in done;
    }
    forall b | b in Slots(done, start, end, iv)
      ensures b in Slots(more, start, end, iv)
    {
      var x :| x in done && start <= x.ts <= end && x.ts / iv * iv == b;
      assert x in more;
    }
    assert k in more;
  }

  lemma SlotSumStep(done: Table, start: int, end: int, iv: int, k: Key, v: Bytes)
    requires iv > 0 && k !in done
    ensures forall b :: SlotSum(done[k := v], start, end, iv, b)
              == if start <= k.ts <= end && k.ts / iv * iv == b then SlotSum(done, start, end, iv, b).Plus(v)
                 else SlotSum(done, start, end, iv, b)
  {
    hide SumWhere;
    forall b
      ensures SlotSum(done[k := v], start, end, iv, b)
           == if start <= k.ts <= end && k.ts / iv * iv == b then SlotSum(done, start, end, iv, b).Plus(v)
              else SlotSum(done, start, end, iv, b)
    {
      SumWherePut(done, k, v, InSlot(start, end, iv, b), Up);
      SumWherePut(done, k, v, InSlot(start, end, iv, b), Down);
    }
  }

  lemma NoSlotNoSum(t: Table, start: int, end: int, iv: int, b: int)
    requires iv > 0 && b !in Slots(t, start, end, iv)
    ensures SlotSum(t, start, end, iv, b) == ZERO
  {
    assert forall k :: k in t && start <= k.ts <= end ==> k.ts / iv * iv in Slots(t, start, end, iv);
    SumWhereNothing(t, InSlot(start, end, iv, b), Up);
    SumWhereNothing(t, InSlot(start, end, iv, b), Down);
  }

  // ---------- dashboard grid ----------

  datatype ChartPoint = ChartPoint(ts: int, upSB: int, downSB: int, upWG: int, downWG: int)

  function GridStart(start: int, iv: int): int
    requires iv > 0
  {
    Quo(start, iv) * iv
  }

  /** Everything in range up to and including the bucket that starts at t. */
  ghost function PointAt(sb: Table, wg: Table, start: int, end: int, iv: int, t: int): ChartPoint {
    var p := UpTo(start, end, t + iv);
    ChartPoint(t, SumWhere(sb, p, Up), SumWhere(sb, p, Down), SumWhere(wg, p, Up), SumWhere(wg, p, Down))
  }

  function UpTo(start: int, end: int, limit: int): Key -> bool {
    (k: Key) => start <= k.ts <= end && k.ts < limit
  }

  lemma GridStartIs(start: int, iv: int)
    requires iv > 0
    ensures GridStart(start, iv) % iv == 0
    ensures if start >= 0 then GridStart(start, iv) <= start else GridStart(start, iv) <= 0
  {
    ModOfMultiple(Quo(start, iv), iv);
    if start >= 0 {
      Euclid(start, iv);
    } else {
      Euclid(-start, iv);
      MulMono(0, -start / iv, iv);
      MulMono(Quo(start, iv), 0, iv);
    }
  }

  /** The bucket of a row in range is the start of a grid step, so the grid visits it once. */
  lemma SlotOnGrid(ts: nat, start: int, end: int, iv: int) returns (i: nat)
    requires iv > 0 && start <= ts <= end
    ensures ts / iv * iv == GridStart(start, iv) + i * iv <= end
  {
    var q, s := ts / iv, Quo(start, iv);
    Euclid(ts, iv);
    if start >= 0 {
      DivMono(start, ts, iv);
    } else {
      DivMono(0, -start, iv);
      DivMono(0, ts, iv);
    }
    i := q - s;
    MulSum(s, i, iv);
  }

  /** The rows of one grid step are exactly the rows of its bucket. */
  lemma GridStepSum(t: Table, start: int, end: int, iv: int, g: int, out: map<int, Bytes>, d: Direction)
    requires iv > 0 && g % iv == 0 && IsBuckets(t, start, end, iv, out)
    ensures SumWhere(t, UpTo(start, end, g + iv), d)
         == SumWhere(t, UpTo(start, end, g), d) + (if g in out then out[g] else ZERO).In(d)
  {
    if g !in out { NoSlotNoSum(t, start, end, iv, g); }
    hide SumWhere;
    forall k: Key
      ensures k.ts / iv * iv == g <==> g <= k.ts < g + iv
    {
      SlotIsInterval(k.ts, iv, g);
    }
    SumWhereSplit(t, UpTo(start, end, g + iv), UpTo(start, end, g), InSlot(start, end, iv, g), d);
  }

  lemma SlotIsInterval(ts: nat, iv: int, g: int)
    requires iv > 0 && g % iv == 0
    ensures ts / iv * iv == g <==> g <= ts < g + iv
  {
    Euclid(ts, iv);
    Euclid(g, iv);
    if g <= ts < g + iv { DivIs(ts, iv, g / iv); }
  }

  /** The chart of the dashboard.  A side that is switched off or whose query fails has no
      buckets; the two tables are the sing-box samples and the WireGuard differences. */
  method CumulativeChart(sb: Table, wg: Table, sbOk: bool, wgOk: bool, start: int, end: int)
    returns (chart: seq<ChartPoint>, totals: ChartPoint)
    ensures var iv, grid := IntervalFor(end - start), GridStart(start, IntervalFor(end - start));
      && |chart| == (if end < grid then 0 else (end - grid) / iv + 1)
      && (forall i :: 0 <= i < |chart| ==>
            chart[i] == PointAt(if sbOk then sb else map[], if wgOk then wg else map[], start, end, iv, grid + i * iv))
    ensures var all := Between(start, end); var s, w := if sbOk then sb else map[], if wgOk then wg else map[];
      totals ==
        ChartPoint(end, SumWhere(s, all, Up), SumWhere(s, all, Down), SumWhere(w, all, Up), SumWhere(w, all, Down))
    ensures chart != [] ==> chart[|chart| - 1].(ts := end) == totals
  {
    hide SumWhere, IsBuckets, IntervalFor, Quo;
    var interval := IntervalFor(end - start);
    ghost var s, w := if sbOk then sb else map[], if wgOk then wg else map[];
    var sbBuckets := QueryBuckets(if sbOk then sb else map[], start, end, interval);
    var wgBuckets := QueryBuckets(if wgOk then wg else map[], start, end, interval);
    chart := [];
    var accUpSB, accDownSB, accUpWG, accDownWG := 0, 0, 0, 0;
    var grid := Quo(start, interval) * interval;
    var t := grid;
    GridStartIs(start, interval);
    NothingBeforeGrid(s, start, end, interval);
    NothingBeforeGrid(w, start, end, interval);
    while t <= end
      invariant t == grid + |chart| * interval && t % interval == 0
      invariant t <= end + interval || |chart| == 0
      invariant chart != [] ==> chart[|chart| - 1] == ChartPoint(t - interval, accUpSB, accDownSB, accUpWG, accDownWG)
      invariant accUpSB == SumWhere(s, UpTo(start, end, t), Up) && accDownSB == SumWhere(s, UpTo(start, end, t), Down)
      invariant accUpWG == SumWhere(w, UpTo(start, end, t), Up) && accDownWG == SumWhere(w, UpTo(start, end, t), Down)
      invariant forall i :: 0 <= i < |chart| ==> chart[i] == PointAt(s, w, start, end, interval, grid + i * interval)
      decreases end - t
    {
      var sbStat := if t in sbBuckets then sbBuckets[t] else ZERO;
      var wgStat := if t in wgBuckets then wgBuckets[t] else ZERO;
      GridStepSum(s, start, end, interval, t, sbBuckets, Up);
      GridStepSum(s, start, end, interval, t, sbBuckets, Down);
      GridStepSum(w, start, end, interval, t, wgBuckets, Up);
      GridStepSum(w, start, end, interval, t, wgBuckets, Down);
      accUpSB, accDownSB := accUpSB + sbStat.up, accDownSB + sbStat.down;
      accUpWG, accDownWG := accUpWG + wgStat.up, accDownWG + wgStat.down;
      chart := chart + [ChartPoint(t, accUpSB, accDownSB, accUpWG, accDownWG)];
      ModPlus(t, interval);
      MulStep(|chart| - 1, interval);
      t := t + interval;
    }
    GridCount(grid, end, interval, |chart|);
    EverythingUpTo(s, start, end, t);
    EverythingUpTo(w, start, end, t);
    totals := ChartPoint(end, accUpSB, accDownSB, accUpWG, accDownWG);
  }

  lemma NothingBeforeGrid(t: Table, start: int, end: int, iv: int)
    requires iv > 0
    ensures forall d :: SumWhere(t, UpTo(start, end, GridStart(start, iv)), d) == 0
  {
    GridStartIs(start, iv);
    hide GridStart;
    forall d
      ensures SumWhere(t, UpTo(start, end, GridStart(start, iv)), d) == 0
    {
      SumWhereNothing(t, UpTo(start, end, GridStart(start, iv)), d);
    }
  }

  lemma EverythingUpTo(t: Table, start: int, end: int, limit: int)
    requires end < limit
    ensures forall d :: SumWhere(t, UpTo(start, end, limit), d) == SumWhere(t, Between(start, end), d)
  {
    forall d
      ensures SumWhere(t, UpTo(start, end, limit), d) == SumWhere(t, Between(start, end), d)
    {
      SumWhereSame(t, UpTo(start, end, limit), Between(start, end), d);
    }
  }

  lemma GridCount(grid: int, end: int, iv: int, n: nat)
    requires iv > 0 && end < grid + n * iv && (grid + n * iv <= end + iv || n == 0)
    ensures n == if end < grid then 0 else (end - grid) / iv + 1
  {
    if n > 0 {
      MulStep(n - 1, iv);
      MulMono(0, n - 1, iv);
      DivIs(end - grid, iv, n - 1);
    }
  }

  /** How fine a chart is: its steps divide a day and do not get finer as the range grows; up to a
      week there are at most 32 points, beyond half an hour at least 5, beyond a week one a day. */
  lemma ChartSize(start: int, end: int)
    requires 0 <= start <= end
    ensures
      var diff, iv := end - start, IntervalFor(end - start);
      var points := (end - GridStart(start, iv)) / iv + 1;
      && 86400 % iv == 0 && points >= 1
      && (diff <= 604800 ==> points <= 32)
      && (1800 < diff ==> points >= 5)
      && (604800 < diff ==> iv == 86400)
      && forall shorter :: shorter <= diff ==> IntervalFor(shorter) <= iv
  {
    var iv := IntervalFor(end - start);
    var g := GridStart(start, iv);
    Euclid(start, iv);
    assert g <= start < g + iv;
    var n := (end - g) / iv;
    Euclid(end - g, iv);
    assert n * iv <= end - g < n * iv + iv;
  }

  /** The cumulative series never falls. */
  lemma ChartNeverFalls(sb: Table, wg: Table, start: int, end: int, iv: int, t: int, later: int)
    requires AllNonNegative(sb) && AllNonNegative(wg) && t <= later
    ensures var a, b := PointAt(sb, wg, start, end, iv, t), PointAt(sb, wg, start, end, iv, later);
      a.upSB <= b.upSB && a.downSB <= b.downSB && a.upWG <= b.upWG && a.downWG <= b.downWG
  {
    hide SumWhere;
    UpToGrows(sb, start, end, t + iv, later + iv, Up);
    UpToGrows(sb, start, end, t + iv, later + iv, Down);
    UpToGrows(wg, start, end, t + iv, later + iv, Up);
    UpToGrows(wg, start, end, t + iv, later + iv, Down);
  }

  lemma UpToGrows(t: Table, start: int, end: int, a: int, b: int, d: Direction)
    requires AllNonNegative(t) && a <= b
    ensures SumWhere(t, UpTo(start, end, a), d) <= SumWhere(t, UpTo(start, end, b), d)
  {
    hide SumWhere;
    var rest := (k: Key) => start <= k.ts <= end && a <= k.ts < b;
    SumWhereSplit(t, UpTo(start, end, b), UpTo(start, end, a), rest, d);
    SumWhereNonNegative(t, rest, d);
  }
}
