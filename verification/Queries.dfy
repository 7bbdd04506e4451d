/** The two ordered queries as loops: rows picked one after another, in the order they are
    returned. */
module Queries {
  import opened Amounts
  import opened Charts
  import opened WgTraffic
  import opened Resampler

  // ---------- top totals ----------

  /** The total of one peer in range, from its counters. */
  function Steps(wg: map<Name, Series>, p: Name, start: int, end: int): Bytes {
    var s := Within(RowsOf(wg, p), start, end);
    Bytes(PosSum(s, Up), PosSum(s, Down))
  }

  lemma StepsAreTotals(wg: map<Name, Series>, p: Name, start: int, end: int)
    requires Ordered(wg)
    ensures Steps(wg, p, start, end) == PeerTotal(wg, p, start, end)
  {
    hide SumWhere, PosSum, DiffRows;
    WithinTimes(RowsOf(wg, p), start, end);
    DiffRowsSum(p, Within(RowsOf(wg, p), start, end), Up);
    DiffRowsSum(p, Within(RowsOf(wg, p), start, end), Down);
  }

  function TotalOf(wg: map<Name, Series>, p: Name, start: int, end: int): int {
    var b := Steps(wg, p, start, end);
    b.up + b.down
  }

  /** A peer with the largest total. */
  method Largest(wg: map<Name, Series>, peers: set<Name>, start: int, end: int) returns (p: Name)
    requires peers != {}
    ensures p in peers && forall q :: q in peers ==> TotalOf(wg, q, start, end) <= TotalOf(wg, p, start, end)
  {
    hide TotalOf;
    p :| p in peers;
    var todo := peers - {p};
    while todo != {}
      invariant todo <= peers && p in peers
      invariant forall q :: q in peers - todo ==> TotalOf(wg, q, start, end) <= TotalOf(wg, p, start, end)
    {
      var q :| q in todo;
      todo := todo - {q};
      if TotalOf(wg, q, start, end) > TotalOf(wg, p, start, end) { p := q; }
    }
  }

  function Listed(res: seq<TrafficTotal>): set<Name> { set i | 0 <= i < |res| :: res[i].peer }

  lemma ListedSnoc(res: seq<TrafficTotal>, r: TrafficTotal)
    ensures Listed(res + [r]) == Listed(res) + {r.peer}
  {
    var all := res + [r];
    assert all[|res|] == r;
    assert forall i :: 0 <= i < |res| ==> all[i] == res[i];
  }

  /** The rows so far: the largest totals, falling, of peers no longer to do. */
  ghost predicate Picked(wg: map<Name, Series>, all: set<Name>, todo: set<Name>, start: int, end: int,
        res: seq<TrafficTotal>)
  {
    && todo <= all && Listed(res) == all - todo && |res| + |todo| == |all|
    && (forall i :: 0 <= i < |res| ==> res[i].amount == Steps(wg, res[i].peer, start, end))
    && (forall i, j :: 0 <= i < j < |res| ==> res[i].peer != res[j].peer && res[i].Total() >= res[j].Total())
    && (forall i, q :: 0 <= i < |res| && q in todo ==> res[i].Total() >= TotalOf(wg, q, start, end))
  }

  lemma PickedOne(wg: map<Name, Series>, all: set<Name>, todo: set<Name>, start: int, end: int,
        res: seq<TrafficTotal>, p: Name)
    requires Picked(wg, all, todo, start, end, res) && p in todo
    requires forall q :: q in todo ==> TotalOf(wg, q, start, end) <= TotalOf(wg, p, start, end)
    ensures Picked(wg, all, todo - {p}, start, end, res + [TrafficTotal(p, Steps(wg, p, start, end))])
  {
    hide Steps, Listed;
    var r := TrafficTotal(p, Steps(wg, p, start, end));
    assert r.Total() == TotalOf(wg, p, start, end);
    ListedSnoc(res, r);
    forall i | 0 <= i < |res| ensures res[i].peer != p { ListedHas(res, i); }
    assert forall i :: 0 <= i < |res| ==> (res + [r])[i] == res[i];
  }

  lemma ListedHas(res: seq<TrafficTotal>, i: nat)
    requires i < |res|
    ensures res[i].peer in Listed(res)
  {
  }

  lemma NothingPicked(wg: map<Name, Series>, all: set<Name>, start: int, end: int)
    ensures Picked(wg, all, all, start, end, [])
  {
  }

  method TopTotals(wg: map<Name, Series>, start: int, end: int, limit: int) returns (res: seq<TrafficTotal>)
    requires Ordered(wg)
    ensures IsTopTotals(wg, start, end, limit, res)
  {
    hide Picked, Steps, TotalOf;
    var all := Active(wg, start, end);
    var todo := all;
    res := [];
    NothingPicked(wg, all, start, end);
    while todo != {} && (limit < 0 || |res| < limit)
      invariant Picked(wg, all, todo, start, end, res)
      invariant limit < 0 || |res| <= limit
      decreases |todo|
    {
      var p := Largest(wg, todo, start, end);
      PickedOne(wg, all, todo, start, end, res, p);
      res := res + [TrafficTotal(p, Steps(wg, p, start, end))];
      todo := todo - {p};
    }
    PickedIsTop(wg, all, todo, start, end, limit, res);
  }

  lemma PickedIsTop(wg: map<Name, Series>, all: set<Name>, todo: set<Name>, start: int, end: int, limit: int,
        res: seq<TrafficTotal>)
    requires Ordered(wg) && all == Active(wg, start, end) && Picked(wg, all, todo, start, end, res)
    requires (todo == {} && (limit < 0 || |res| <= limit)) || |res| == limit
    ensures IsTopTotals(wg, start, end, limit, res)
  {
    hide PeerTotal, Active, Steps, Ordered;
    forall p { StepsAreTotals(wg, p, start, end); }
    forall i | 0 <= i < |res| { ListedHas(res, i); }
    forall p | p in all && p !in todo ensures exists i :: 0 <= i < |res| && res[i].peer == p {
      assert p in Listed(res);
    }
  }

  // ---------- traffic of all users by time ----------

  lemma SomeTime(times: set<int>)
    requires times != {}
    ensures exists x: int :: x in times
  {
    assert (forall x: int :: x !in times) ==> times == {};
  }

  method Least(times: set<int>) returns (m: int)
    requires times != {}
    ensures m in times && forall x: int :: x in times ==> m <= x
  {
    SomeTime(times);
    m :| m in times;
    var todo := times - {m};
    while todo != {}
      invariant todo <= times && m in times
      invariant forall x: int :: x in times && x !in todo ==> m <= x
      decreases |todo|
    {
      SomeTime(todo);
      var x :| x in todo;
      todo := todo - {x};
      if x < m { m := x; }
    }
  }

  /** With buckets of one second, the rows of a bucket are those of its time. */
  lemma SecondBuckets(t: Table, start: int, end: int, b: int)
    requires start <= b <= end
    ensures SlotSum(t, start, end, 1, b) == Bytes(SumWhere(t, At(b), Up), SumWhere(t, At(b), Down))
  {
    SumWhereSame(t, InSlot(start, end, 1, b), At(b), Up);
    SumWhereSame(t, InSlot(start, end, 1, b), At(b), Down);
    hide SumWhere;
  }

  lemma SecondSlots(t: Table, start: int, end: int, b: int)
    ensures b in Slots(t, start, end, 1) <==> exists k :: k in t && start <= k.ts <= end && k.ts == b
  {
    forall k: Key ensures k.ts / 1 * 1 == k.ts { }
  }

  /** The points so far: those of the smallest times, in order. */
  ghost predicate Smallest(out: map<int, Bytes>, todo: set<int>, h: seq<Point>) {
    && todo <= out.Keys
    && (forall b: int :: b in out && b !in todo ==> exists i :: 0 <= i < |h| && h[i].ts == b)
    && (forall i, j :: 0 <= i < j < |h| ==> h[i].ts < h[j].ts)
    && (forall i, b: int :: 0 <= i < |h| && b in todo ==> h[i].ts < b)
    && (forall i :: 0 <= i < |h| ==> h[i].ts in out && h[i].amount == out[h[i].ts])
  }

  lemma SmallestNext(out: map<int, Bytes>, todo: set<int>, h: seq<Point>, b: int)
    requires Smallest(out, todo, h) && b in todo && forall x: int :: x in todo ==> b <= x
    ensures Smallest(out, todo - {b}, h + [Point(b, out[b])])
  {
    var all := h + [Point(b, out[b])];
    assert all[|h|].ts == b && forall i :: 0 <= i < |h| ==> all[i] == h[i];
    forall x: int | x in out && x !in todo - {b} ensures exists i :: 0 <= i < |all| && all[i].ts == x {
      if x != b {
        var i :| 0 <= i < |h| && h[i].ts == x;
        assert all[i].ts == x;
      }
    }
  }

  method GlobalTraffic(t: Table, start: int, end: int) returns (h: seq<Point>)
    ensures IsGlobalTraffic(t, start, end, h)
  {
    hide SumWhere, IsBuckets, Smallest;
    var out := QueryBuckets(t, start, end, 1);
    var todo := out.Keys;
    h := [];
    NothingSmaller(out);
    while todo != {}
      invariant todo <= out.Keys && Smallest(out, todo, h)
      decreases |todo|
    {
      var b := Least(todo);
      SmallestNext(out, todo, h, b);
      h := h + [Point(b, out[b])];
      todo := todo - {b};
    }
    SmallestIsGlobal(t, start, end, out, h);
  }

  lemma NothingSmaller(out: map<int, Bytes>)
    ensures Smallest(out, out.Keys, [])
  {
  }

  lemma SmallestIsGlobal(t: Table, start: int, end: int, out: map<int, Bytes>, h: seq<Point>)
    requires IsBuckets(t, start, end, 1, out) && Smallest(out, {}, h)
    ensures IsGlobalTraffic(t, start, end, h)
  {
    hide SumWhere, SlotSum, Slots, At;
    forall i | 0 <= i < |h|
      ensures start <= h[i].ts <= end
      ensures h[i].amount == Bytes(SumWhere(t, At(h[i].ts), Up), SumWhere(t, At(h[i].ts), Down))
    {
      SecondSlots(t, start, end, h[i].ts);
      SecondBuckets(t, start, end, h[i].ts);
    }
    forall k | k in t && start <= k.ts <= end ensures exists i :: 0 <= i < |h| && h[i].ts == k.ts {
      SecondSlots(t, start, end, k.ts);
      assert k.ts in out;
    }
  }
}
