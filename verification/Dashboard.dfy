/** The dashboard chart over the tables it is drawn from: samples on the sing-box side, the
    differences of the listed peers' counters on the WireGuard side. */
module Dashboard {
  import opened Amounts
  import opened Store
  import opened Charts
  import opened WgTraffic

  /** The positive steps in range of every listed peer, each peer once. */
  function ListedSteps(wg: map<Name, Series>, peers: seq<Name>, start: int, end: int, d: Direction): int {
    if peers == [] then 0
    else
      var init, p := peers[..|peers| - 1], peers[|peers| - 1];
      ListedSteps(wg, init, start, end, d) + if p in init then 0 else PosSum(Within(RowsOf(wg, p), start, end), d)
  }

  function Others(p: Name): Key -> bool { (k: Key) => k.user != p }

  lemma {:induction false} DiffsInRange(wg: map<Name, Series>, peers: seq<Name>, start: int, end: int)
    ensures forall k :: k in Diffs(wg, peers, start, end) ==> start <= k.ts <= end && k.user in peers
  {
    if peers != [] {
      var p := peers[|peers| - 1];
      DiffsInRange(wg, peers[..|peers| - 1], start, end);
      WithinTimes(RowsOf(wg, p), start, end);
      DiffRowsKeys(p, Within(RowsOf(wg, p), start, end));
      hide DiffRows, Within, RowsOf;
    }
  }

  /** The rows in range are one peer's and the others'. */
  lemma SplitByPeer(t: Table, start: int, end: int, p: Name, d: Direction)
    requires forall k :: k in t ==> start <= k.ts <= end
    ensures SumWhere(t, Between(start, end), d) == SumWhere(t, ForUser(p), d) + SumWhere(t, Others(p), d)
  {
    SumWhereSplit(t, Between(start, end), ForUser(p), Others(p), d);
  }

  lemma OthersStay(t: Table, u: Table, p: Name, d: Direction)
    requires forall k :: k in u ==> k.user == p
    ensures SumWhere(t + u, Others(p), d) == SumWhere(t, Others(p), d)
  {
    assert Select(t + u, Others(p)) == Select(t, Others(p));
    SumAgree(Select(t, Others(p)), t, t + u, d);
  }

  /** The difference rows of a range add up to the positive steps of the listed peers. */
  lemma {:induction false} ListedStepsSum(wg: map<Name, Series>, peers: seq<Name>, start: int, end: int, d: Direction)
    requires Ordered(wg)
    ensures SumWhere(Diffs(wg, peers, start, end), Between(start, end), d) == ListedSteps(wg, peers, start, end, d)
  {
    hide SumWhere, PosSum, Within, RowsOf, DiffRows, Ordered;
    if peers == [] {
      SumWhereNothing(map[], Between(start, end), d);
    } else {
      var init, p := peers[..|peers| - 1], peers[|peers| - 1];
      var before, rows := Diffs(wg, init, start, end), DiffRows(p, Within(RowsOf(wg, p), start, end));
      var all := before + rows;
      assert Diffs(wg, peers, start, end) == all;
      ListedStepsSum(wg, init, start, end, d);
      DiffsInRange(wg, init, start, end);
      DiffsInRange(wg, peers, start, end);
      SplitByPeer(before, start, end, p, d);
      SplitByPeer(all, start, end, p, d);
      DiffRowsKeys(p, Within(RowsOf(wg, p), start, end));
      OthersStay(before, rows, p, d);
      DiffsSum(wg, init, start, end, p, d);
      DiffsSum(wg, peers, start, end, p, d);
    }
  }

  /** Both sides of the chart: each point sums the rows in buckets up to it, and the final
      WireGuard totals are the positive steps in range of the listed peers. */
  method DashboardChart(sb: Table, wg: map<Name, Series>, peers: seq<Name>, start: int, end: int,
                        singbox: bool, wireguard: bool, sbOk: bool, wgOk: bool)
    returns (chart: seq<ChartPoint>, totals: ChartPoint)
    requires Ordered(wg)
    ensures
      var iv, grid := IntervalFor(end - start), GridStart(start, IntervalFor(end - start));
      var s := if singbox && sbOk then sb else map[];
      var w := if wireguard && wgOk then Diffs(wg, peers, start, end) else map[];
      && |chart| == (if end < grid then 0 else (end - grid) / iv + 1)
      && (forall i :: 0 <= i < |chart| ==> chart[i] == PointAt(s, w, start, end, iv, grid + i * iv))
    ensures totals.upWG == if wireguard && wgOk then ListedSteps(wg, peers, start, end, Up) else 0
    ensures totals.downWG == if wireguard && wgOk then ListedSteps(wg, peers, start, end, Down) else 0
    ensures totals.upSB == if singbox && sbOk then SumWhere(sb, Between(start, end), Up) else 0
    ensures totals.downSB == if singbox && sbOk then SumWhere(sb, Between(start, end), Down) else 0
  {
    hide PointAt, SumWhere, GridStart, IntervalFor, ListedSteps, Diffs;
    var rows := Diffs(wg, peers, start, end);
    chart, totals := CumulativeChart(sb, rows, singbox && sbOk, wireguard && peers != [] && wgOk, start, end);
    NoListedPeers(wg, start, end);
    ListedStepsSum(wg, peers, start, end, Up);
    ListedStepsSum(wg, peers, start, end, Down);
    SumWhereNothing(map[], Between(start, end), Up);
    SumWhereNothing(map[], Between(start, end), Down);
  }

  lemma NoListedPeers(wg: map<Name, Series>, start: int, end: int)
    ensures Diffs(wg, [], start, end) == map[]
  {
  }
}
