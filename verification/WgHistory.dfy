/** From the WireGuard readings of a whole history to what the bucket query shows of them. */
module WgHistory {
  import opened Amounts
  import opened Charts
  import opened WgTraffic
  import opened WgSampler

  ghost predicate Increasing(ks: seq<WgTick>) {
    forall i, j :: 0 <= i < j < |ks| ==> ks[i].now < ks[j].now
  }

  /** Stored rows have strictly increasing times, none later than the last tick. */
  lemma {:induction false} StoredTimes(ks: seq<WgTick>, p: Name)
    requires Deviceful(ks) && Increasing(ks)
    ensures StrictTimes(Stored(ks, p))
    ensures forall r :: r in Stored(ks, p) ==> exists i :: 0 <= i < |ks| && ks[i].now == r.ts
  {
    if ks != [] {
      var last := |ks| - 1;
      var init := ks[..last];
      StoredTimes(init, p);
      StepStores(ks, p);
      NowRows(ks[last], p);
      hide Run, ReadingsNow, Stored;
      forall r | r in Stored(ks, p) ensures exists i :: 0 <= i < |ks| && ks[i].now == r.ts {
        if r in Stored(init, p) {
          var i :| 0 <= i < |init| && init[i].now == r.ts;
          assert ks[i].now == r.ts;
        } else {
          assert ks[last].now == r.ts;
        }
      }
      assert forall r :: r in Stored(init, p) ==> r.ts < ks[last].now;
    }
  }

  lemma NowRows(k: WgTick, p: Name)
    ensures forall r :: r in ReadingsNow(k, p) ==> r.ts == k.now
  {
    hide Only;
  }

  lemma {:induction false} WithinAll(s: Series, start: int, end: int)
    requires forall i :: 0 <= i < |s| ==> start <= s[i].ts <= end
    ensures Within(s, start, end) == s
  {
    if s != [] {
      WithinAll(s[..|s| - 1], start, end);
    }
  }

  /** Change filter, tables and bucket query together: when no row was lost, the buckets of a
      range that covers the history add up to the positive steps of all readings. */
  lemma BucketsShowHistory(ks: seq<WgTick>, p: Name, start: int, end: int, iv: int, out: map<int, Bytes>,
        bs: seq<int>, d: Direction)
    requires Deviceful(ks) && Increasing(ks) && LosesNothing(ks)
    requires forall i :: 0 <= i < |ks| ==> start <= ks[i].now <= end
    requires iv > 0 && IsBuckets(Diffs(Run(ks).rows, [p], start, end), start, end, iv, out) && Lists(bs, out.Keys)
    ensures SumListed(out, bs, d) == PosSum(Readings(ks, p), d)
  {
    hide IsBuckets, SumListed, Lists, Run, Readings, LosesNothing, Deviceful, Increasing, PosSum, StrictTimes;
    StoredTimes(ks, p);
    FilterPreservesSum(ks, p, d);
    var s := Stored(ks, p);
    assert forall i :: 0 <= i < |s| ==> s[i] in s;
    WithinAll(s, start, end);
    var t := Diffs(Run(ks).rows, [p], start, end);
    DiffsOfOne(Run(ks).rows, p, start, end);
    BucketsSumToRange(t, start, end, iv, out, bs, d);
    DiffRowsInRange(p, s, start, end, d);
  }
}
