/** WireGuard traffic queries: cumulative counters per peer, ordered by time, and the
    differences the window-function queries take from them.  Uplink is tx, downlink rx. */
module WgTraffic {
  import opened Common
  import opened Amounts
  import opened Store
  import opened Charts

  datatype WgRow = WgRow(ts: nat, counter: Bytes)

  type Series = seq<WgRow>

  ghost predicate StrictTimes(s: Series) {
    forall i, j :: 0 <= i < j < |s| ==> s[i].ts < s[j].ts
  }

  /** Difference to the previous row: zero for the first row and for a reset counter. */
  function Diff(prev: WgRow, cur: WgRow): Bytes {
    Bytes(Positive(prev.counter.up, cur.counter.up), Positive(prev.counter.down, cur.counter.down))
  }

  /** Sum of the positive differences between neighbouring rows. */
  function PosSum(s: Series, d: Direction): int {
    if |s| < 2 then 0
    else PosSum(s[..|s| - 1], d) + Positive(s[|s| - 2].counter.In(d), s[|s| - 1].counter.In(d))
  }

  /** WHERE ts >= start AND ts <= end. */
  function Within(s: Series, start: int, end: int): Series {
    if s == [] then []
    else
      var r := s[|s| - 1];
      Within(s[..|s| - 1], start, end) + if start <= r.ts <= end then [r] else []
  }

  /** The rows in range are all of them, in their order. */
  lemma {:induction false} WithinFiltered(s: Series, start: int, end: int)
    ensures Filtered(Within(s, start, end), s, (r: WgRow) => start <= r.ts <= end)
  {
    if s == [] {
      NothingFiltered((r: WgRow) => start <= r.ts <= end);
    } else {
      var init, r := s[..|s| - 1], s[|s| - 1];
      WithinFiltered(init, start, end);
      FilteredOne(Within(init, start, end), init, (r: WgRow) => start <= r.ts <= end, r);
      assert Within(init, start, end) + [] == Within(init, start, end);
      assert init + [r] == s;
    }
  }

  lemma PosSumSnoc(s: Series, r: WgRow, d: Direction)
    ensures PosSum(s + [r], d)
         == PosSum(s, d) + if s == [] then 0 else Positive(s[|s| - 1].counter.In(d), r.counter.In(d))
  {
    assert (s + [r])[..|s|] == s;
  }

  /** Joining two stretches adds the one step between them. */
  lemma {:induction false} PosSumJoin(a: Series, b: Series, d: Direction)
    ensures PosSum(a + b, d) == PosSum(a, d) + PosSum(b, d)
      + if a == [] || b == [] then 0 else Positive(a[|a| - 1].counter.In(d), b[0].counter.In(d))
  {
    hide Positive, PosSum;
    PosSumNothing(d);
    if b == [] {
      assert a + b == a;
    } else {
      var init, r := b[..|b| - 1], b[|b| - 1];
      PosSumJoin(a, init, d);
      assert a + b == a + init + [r] && b == init + [r];
      PosSumSnoc(a + init, r, d);
      PosSumSnoc(init, r, d);
      assert init != [] ==> (a + init)[|a + init| - 1] == init[|init| - 1] && b[0] == init[0];
    }
  }

  // ---------- the difference rows of the queries ----------

  /** The diffs of one peer, one row per sample. */
  function DiffRows(p: Name, s: Series): Table {
    if s == [] then map[]
    else
      var r := s[|s| - 1];
      DiffRows(p, s[..|s| - 1])[Key(p, r.ts) := if |s| == 1 then ZERO else Diff(s[|s| - 2], r)]
  }

  function RowsOf(wg: map<Name, Series>, p: Name): Series {
    if p in wg then wg[p] else []
  }

  /** The diffs CTE restricted to the listed peers and the range. */
  function Diffs(wg: map<Name, Series>, peers: seq<Name>, start: int, end: int): Table {
    if peers == [] then map[]
    else
      var p := peers[|peers| - 1];
      Diffs(wg, peers[..|peers| - 1], start, end) + DiffRows(p, Within(RowsOf(wg, p), start, end))
  }

  lemma {:induction false} WithinTimes(s: Series, start: int, end: int)
    ensures forall r :: r in Within(s, start, end) ==> r in s && start <= r.ts <= end
    ensures StrictTimes(s) ==> StrictTimes(Within(s, start, end))
  {
    if s != [] {
      WithinTimes(s[..|s| - 1], start, end);
      var w := Within(s[..|s| - 1], start, end);
      forall i | 0 <= i < |w| && StrictTimes(s)
        ensures w[i].ts < s[|s| - 1].ts
      {
        assert w[i] in s[..|s| - 1];
      }
    }
  }

  lemma {:induction false} DiffRowsKeys(p: Name, s: Series)
    ensures forall k :: k in DiffRows(p, s) ==> k.user == p && exists i :: 0 <= i < |s| && s[i].ts == k.ts
  {
    if s != [] {
      var init := s[..|s| - 1];
      DiffRowsKeys(p, init);
      forall k | k in DiffRows(p, s)
        ensures k.user == p && exists i :: 0 <= i < |s| && s[i].ts == k.ts
      {
        if k == Key(p, s[|s| - 1].ts) {
          assert s[|s| - 1].ts == k.ts;
        } else {
          var i :| 0 <= i < |init| && init[i].ts == k.ts;
          assert s[i].ts == k.ts;
        }
      }
    }
  }

  /** A peer's difference rows add up to its positive steps. */
  lemma {:induction false} DiffRowsSum(p: Name, s: Series, d: Direction)
    requires StrictTimes(s)
    ensures SumWhere(DiffRows(p, s), ForUser(p), d) == PosSum(s, d)
  {
    hide SumWhere;
    if s == [] {
      SumWhereNothing(DiffRows(p, s), ForUser(p), d);
    } else {
      var init, r := s[..|s| - 1], s[|s| - 1];
      DiffRowsSum(p, init, d);
      DiffRowsKeys(p, init);
      var k := Key(p, r.ts);
      forall x | x in DiffRows(p, init)
        ensures x.ts < r.ts
      {
        var i :| 0 <= i < |init| && init[i].ts == x.ts;
        assert s[i].ts < r.ts;
      }
      SumWherePut(DiffRows(p, init), k, if |s| == 1 then ZERO else Diff(s[|s| - 2], r), ForUser(p), d);
    }
  }

  ghost predicate Ordered(wg: map<Name, Series>) {
    forall p :: p in wg ==> StrictTimes(wg[p])
  }

  /** A listed peer's difference rows in range add up to its positive steps in range. */
  lemma {:induction false} DiffsSum(wg: map<Name, Series>, peers: seq<Name>, start: int, end: int, p: Name,
        d: Direction)
    requires Ordered(wg)
    ensures SumWhere(Diffs(wg, peers, start, end), ForUser(p), d)
         == if p in peers then PosSum(Within(RowsOf(wg, p), start, end), d) else 0
  {
    hide SumWhere;
    if peers == [] {
      SumWhereNothing(Diffs(wg, peers, start, end), ForUser(p), d);
    } else {
      var init, q := peers[..|peers| - 1], peers[|peers| - 1];
      var before, rows := Diffs(wg, init, start, end), DiffRows(q, Within(RowsOf(wg, q), start, end));
      DiffsSum(wg, init, start, end, p, d);
      assert p in peers <==> p == q || p in init;
      DiffRowsKeys(q, Within(RowsOf(wg, q), start, end));
      if p == q {
        DiffsOfPeer(wg, init, start, end, p);
        SameUserRows(before + rows, rows, p, d);
        WithinTimes(RowsOf(wg, p), start, end);
        DiffRowsSum(p, Within(RowsOf(wg, p), start, end), d);
      } else {
        SameUserRows(before + rows, before, p, d);
      }
    }
  }

  /** Two tables with the same rows for a user have the same sum for that user. */
  lemma SameUserRows(t: Table, u: Table, p: Name, d: Direction)
    requires forall k: Key :: k.user == p ==> (k in t <==> k in u) && (k in t ==> t[k] == u[k])
    ensures SumWhere(t, ForUser(p), d) == SumWhere(u, ForUser(p), d)
  {
    assert Select(t, ForUser(p)) == Select(u, ForUser(p));
    SumAgree(Select(t, ForUser(p)), t, u, d);
  }

  /** Listing a peer twice adds nothing: its rows are its own difference rows. */
  lemma {:induction false} DiffsOfPeer(wg: map<Name, Series>, peers: seq<Name>, start: int, end: int, p: Name)
    ensures forall k: Key :: k.user == p && k in Diffs(wg, peers, start, end) ==>
              k in DiffRows(p, Within(RowsOf(wg, p), start, end))
  {
    if peers != [] {
      var q := peers[|peers| - 1];
      DiffsOfPeer(wg, peers[..|peers| - 1], start, end, p);
      DiffRowsKeys(q, Within(RowsOf(wg, q), start, end));
    }
  }

  // ---------- buckets, totals, first-to-last ----------

  /** Sum over the rows of a bucket query, in the order listed. */
  function SumListed(out: map<int, Bytes>, bs: seq<int>, d: Direction): int
    requires forall i :: 0 <= i < |bs| ==> bs[i] in out
  {
    if bs == [] then 0
    else SumListed(out, bs[..|bs| - 1], d) + out[bs[|bs| - 1]].In(d)
  }

  ghost predicate Lists(bs: seq<int>, keys: set<int>) {
    && (forall i :: 0 <= i < |bs| ==> bs[i] in keys)
    && (forall b :: b in keys ==> b in bs)
    && (forall i, j :: 0 <= i < j < |bs| ==> bs[i] != bs[j])
  }

  function InSlots(start: int, end: int, iv: int, bs: seq<int>): Key -> bool
    requires iv > 0
  {
    (k: Key) => start <= k.ts <= end && k.ts / iv * iv in bs
  }

  lemma {:induction false} SumListedIs(t: Table, start: int, end: int, iv: int, out: map<int, Bytes>, bs: seq<int>,
        d: Direction)
    requires iv > 0 && IsBuckets(t, start, end, iv, out)
    requires forall i :: 0 <= i < |bs| ==> bs[i] in out
    requires forall i, j :: 0 <= i < j < |bs| ==> bs[i] != bs[j]
    ensures SumListed(out, bs, d) == SumWhere(t, InSlots(start, end, iv, bs), d)
  {
    hide SumWhere;
    if bs == [] {
      SumWhereNothing(t, InSlots(start, end, iv, bs), d);
    } else {
      var init, b := bs[..|bs| - 1], bs[|bs| - 1];
      SumListedIs(t, start, end, iv, out, init, d);
      SumWhereSplit(t, InSlots(start, end, iv, bs), InSlots(start, end, iv, init), InSlot(start, end, iv, b), d);
    }
  }

  /** Summing the buckets of a range, whatever the interval, gives the rows of the range. */
  lemma BucketsSumToRange(t: Table, start: int, end: int, iv: int, out: map<int, Bytes>, bs: seq<int>, d: Direction)
    requires iv > 0 && IsBuckets(t, start, end, iv, out) && Lists(bs, out.Keys)
    ensures SumListed(out, bs, d) == SumWhere(t, Between(start, end), d)
  {
    SumListedIs(t, start, end, iv, out, bs, d);
    forall k | k in t && start <= k.ts <= end
      ensures k.ts / iv * iv in bs
    {
      assert k.ts / iv * iv in Slots(t, start, end, iv);
    }
    SumWhereSame(t, InSlots(start, end, iv, bs), Between(start, end), d);
  }

  datatype TrafficTotal = TrafficTotal(peer: Name, amount: Bytes) {
    function Total(): int { amount.up + amount.down }
  }

  function Active(wg: map<Name, Series>, start: int, end: int): set<Name> {
    set p | p in wg && Within(wg[p], start, end) != []
  }

  /** The top-totals query: one row per peer with samples in range, by falling total,
      cut at the limit (SQLite reads a negative limit as none). */
  ghost predicate IsTopTotals(wg: map<Name, Series>, start: int, end: int, limit: int, res: seq<TrafficTotal>) {
    var all := Active(wg, start, end);
    && (forall i :: 0 <= i < |res| ==> res[i].peer in all)
    && (forall i :: 0 <= i < |res| ==> res[i].amount == PeerTotal(wg, res[i].peer, start, end))
    && (forall i, j :: 0 <= i < j < |res| ==> res[i].peer != res[j].peer && res[i].Total() >= res[j].Total())
    && |res| == (if 0 <= limit < |all| then limit else |all|)
    && (forall p, i :: p in all && (forall j :: 0 <= j < |res| ==> res[j].peer != p) && 0 <= i < |res| ==>
          res[i].Total() >= PeerTotal(wg, p, start, end).up + PeerTotal(wg, p, start, end).down)
    && (limit < 0 || |all| <= limit ==> forall p :: p in all ==> exists i :: 0 <= i < |res| && res[i].peer == p)
  }

  /** SUM(dx), SUM(dr) of the peer's own difference rows. */
  ghost function PeerTotal(wg: map<Name, Series>, p: Name, start: int, end: int): Bytes {
    var rows := DiffRows(p, Within(RowsOf(wg, p), start, end));
    Bytes(SumWhere(rows, ForUser(p), Up), SumWhere(rows, ForUser(p), Down))
  }

  lemma DiffsOfOne(wg: map<Name, Series>, p: Name, start: int, end: int)
    ensures Diffs(wg, [p], start, end) == DiffRows(p, Within(RowsOf(wg, p), start, end))
  {
    assert [p][..0] == [];
    assert Diffs(wg, [], start, end) == map[];
  }

  /** All difference rows of a peer are its own and lie in range. */
  lemma DiffRowsInRange(p: Name, s: Series, start: int, end: int, d: Direction)
    requires StrictTimes(s) && forall r :: r in s ==> start <= r.ts <= end
    ensures SumWhere(DiffRows(p, s), Between(start, end), d) == PosSum(s, d)
  {
    hide SumWhere;
    DiffRowsKeys(p, s);
    forall k | k in DiffRows(p, s)
      ensures Between(start, end)(k) == ForUser(p)(k)
    {
      var i :| 0 <= i < |s| && s[i].ts == k.ts;
      assert s[i] in s;
    }
    SumWhereSame(DiffRows(p, s), Between(start, end), ForUser(p), d);
    DiffRowsSum(p, s, d);
  }

  /** For one peer, the buckets of a range sum to its entry in the top totals, and both
      are the positive steps of its counters in range. */
  lemma BucketsAgreeWithTotals(wg: map<Name, Series>, p: Name, start: int, end: int, iv: int,
                               out: map<int, Bytes>, bs: seq<int>, limit: int, res: seq<TrafficTotal>, d: Direction)
    requires Ordered(wg) && iv > 0
    requires IsBuckets(Diffs(wg, [p], start, end), start, end, iv, out) && Lists(bs, out.Keys)
    requires IsTopTotals(wg, start, end, limit, res) && (limit < 0 || |Active(wg, start, end)| <= limit)
    ensures SumListed(out, bs, d) == PosSum(Within(RowsOf(wg, p), start, end), d)
    ensures p in Active(wg, start, end) ==>
              exists i :: 0 <= i < |res| && res[i].peer == p && res[i].amount.In(d) == SumListed(out, bs, d)
    ensures p !in Active(wg, start, end) ==> SumListed(out, bs, d) == 0
  {
    hide SumWhere, IsBuckets, SumListed, PosSum, DiffRows;
    var s := Within(RowsOf(wg, p), start, end);
    WithinTimes(RowsOf(wg, p), start, end);
    DiffsOfOne(wg, p, start, end);
    BucketsSumToRange(DiffRows(p, s), start, end, iv, out, bs, d);
    DiffRowsInRange(p, s, start, end, d);
    DiffRowsSum(p, s, d);
    if p in Active(wg, start, end) {
      var i :| 0 <= i < |res| && res[i].peer == p;
      assert res[i].amount.In(d) == SumWhere(DiffRows(p, s), ForUser(p), d);
    } else {
      PosSumNothing(d);
    }
  }

  lemma PosSumNothing(d: Direction)
    ensures PosSum([], d) == 0
  {
  }

  /** GetWGTrafficDelta: last minus first row in range, not below zero. */
  function FirstToLast(s: Series, d: Direction): int {
    if s == [] then 0 else Positive(s[0].counter.In(d), s[|s| - 1].counter.In(d))
  }

  predicate Rising(s: Series, d: Direction) {
    |s| < 2 || (Rising(s[..|s| - 1], d) && s[|s| - 2].counter.In(d) <= s[|s| - 1].counter.In(d))
  }

  predicate Falling(s: Series, d: Direction) {
    |s| < 2 || (Falling(s[..|s| - 1], d) && s[|s| - 2].counter.In(d) >= s[|s| - 1].counter.In(d))
  }

  lemma {:induction false} PosSumBounds(s: Series, d: Direction)
    requires s != []
    ensures PosSum(s, d) >= 0 && PosSum(s, d) >= s[|s| - 1].counter.In(d) - s[0].counter.In(d)
    ensures PosSum(s, d) == 0 <==> Falling(s, d)
    ensures PosSum(s, d) == s[|s| - 1].counter.In(d) - s[0].counter.In(d) <==> Rising(s, d)
  {
    if |s| > 1 {
      PosSumBounds(s[..|s| - 1], d);
    }
  }

  /** The bucketed total is at least the first-to-last delta, and equals it exactly when
      the counter never falls in range or never rises in range. */
  lemma TotalVersusFirstToLast(s: Series, d: Direction)
    ensures PosSum(s, d) >= FirstToLast(s, d)
    ensures PosSum(s, d) == FirstToLast(s, d) <==> Rising(s, d) || Falling(s, d)
  {
    if s != [] { PosSumBounds(s, d); }
  }

  lemma {:induction false} WithinNothing(s: Series, start: int, end: int)
    requires forall r :: r in s ==> r.ts < start
    ensures Within(s, start, end) == []
  {
    if s != [] {
      assert s[|s| - 1] in s;
      WithinNothing(s[..|s| - 1], start, end);
    }
  }

  lemma {:induction false} WithinSplit(s: Series, start: int, mid: int, end: int)
    requires StrictTimes(s) && start <= mid + 1 && mid <= end
    ensures Within(s, start, end) == Within(s, start, mid) + Within(s, mid + 1, end)
  {
    if s != [] {
      var init, r := s[..|s| - 1], s[|s| - 1];
      WithinSplit(init, start, mid, end);
      var a, b := Within(init, start, mid), Within(init, mid + 1, end);
      var x: Series, y: Series := if start <= r.ts <= mid then [r] else [], if mid + 1 <= r.ts <= end then [r] else [];
      if r.ts <= mid { WithinNothing(init, mid + 1, end); }
      Regroup(a, b, x, y);
    }
  }

  lemma Regroup(a: Series, b: Series, x: Series, y: Series)
    requires b == [] || x == []
    ensures a + b + (x + y) == (a + x) + (b + y)
  {
  }

  /** Splitting a range loses exactly the positive step across the cut. */
  lemma SplitLosesCrossing(s: Series, start: int, mid: int, end: int, d: Direction)
    requires StrictTimes(s) && start <= mid + 1 && mid <= end
    ensures var left, right := Within(s, start, mid), Within(s, mid + 1, end);
      PosSum(Within(s, start, end), d) == PosSum(left, d) + PosSum(right, d)
        + if left == [] || right == [] then 0 else Positive(left[|left| - 1].counter.In(d), right[0].counter.In(d))
  {
    WithinSplit(s, start, mid, end);
    PosSumJoin(Within(s, start, mid), Within(s, mid + 1, end), d);
  }
}
