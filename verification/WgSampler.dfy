/** The WireGuard sampler: a reading is stored only when it differs from the one before. */
module WgSampler {
  import opened Common
  import opened Amounts
  import opened WgTraffic

  datatype Stat = Stat(peer: Name, counter: Bytes)

  /** One sampler run: the readings in the order the device map yields them, and the insert
      statement that fails, if any. */
  datatype WgTick = WgTick(now: nat, stats: Option<seq<Stat>>, failAt: int)

  datatype WgState = WgState(last: map<Name, Bytes>, rows: map<Name, Series>)

  datatype Scanned = Scanned(last: map<Name, Bytes>, samples: seq<Stat>)

  const CAP := 5000

  function ScanStat(acc: Scanned, st: Stat): Scanned {
    Scanned(acc.last[st.peer := st.counter],
            if st.peer in acc.last && acc.last[st.peer] == st.counter then acc.samples else acc.samples + [st])
  }

  function Scan(last: map<Name, Bytes>, stats: seq<Stat>): Scanned {
    if stats == [] then Scanned(last, [])
    else ScanStat(Scan(last, stats[..|stats| - 1]), stats[|stats| - 1])
  }

  function Append(rows: map<Name, Series>, now: nat, samples: seq<Stat>): map<Name, Series> {
    if samples == [] then rows
    else
      var before, s := Append(rows, now, samples[..|samples| - 1]), samples[|samples| - 1];
      before[s.peer := RowsOf(before, s.peer) + [WgRow(now, s.counter)]]
  }

  function Capped(samples: seq<Stat>): seq<Stat> {
    if |samples| > CAP then samples[..CAP] else samples
  }

  function WgStep(st: WgState, k: WgTick): WgState {
    if k.stats.None? then st
    else
      var acc := Scan(st.last, k.stats.value);
      var ok := acc.samples == [] || !(0 <= k.failAt <= |Capped(acc.samples)|);
      WgState(acc.last, if ok then Append(st.rows, k.now, Capped(acc.samples)) else st.rows)
  }

  class Sampler {
    var wgLast: map<Name, Bytes>
    var rows: map<Name, Series>

    function Snapshot(): WgState reads this { WgState(wgLast, rows) }

    constructor ()
      ensures Snapshot() == WgState(map[], map[])
    {
      wgLast, rows := map[], map[];
    }

    /** One transaction of at most 5000 rows; statement failAt fails, the commit last. */
    method InsertWGSamples(batch: seq<Stat>, now: nat, failAt: int) returns (ok: bool)
      modifies this`rows
      ensures ok == (batch == [] || !(0 <= failAt <= |Capped(batch)|))
      ensures rows == if ok then Append(old(rows), now, Capped(batch)) else old(rows)
      ensures ok && |batch| <= 5000 ==> rows == Append(old(rows), now, batch)
      ensures ok && |batch| > 5000 ==> rows == Append(old(rows), now, batch[..5000])
    {
      if |batch| == 0 {
        return true;
      }
      var samples := batch;
      if |samples| > CAP {
        samples := samples[..CAP];
      }
      var tx := rows;
      for i := 0 to |samples|
        invariant tx == Append(rows, now, samples[..i])
        invariant !(0 <= failAt < i)
      {
        if failAt == i {
          return false;
        }
        assert samples[..i + 1][..i] == samples[..i];
        var s := samples[i];
        tx := tx[s.peer := RowsOf(tx, s.peer) + [WgRow(now, s.counter)]];
      }
      assert samples[..|samples|] == samples;
      if failAt == |samples| {
        return false;
      }
      rows := tx;
      return true;
    }

    method RunSample(k: WgTick)
      modifies this
      ensures Snapshot() == WgStep(old(Snapshot()), k)
    {
      if k.stats.None? {
        return;
      }
      var stats := k.stats.value;
      var samples: seq<Stat> := [];
      for i := 0 to |stats|
        invariant Scanned(wgLast, samples) == Scan(old(wgLast), stats[..i])
        invariant rows == old(rows)
      {
        var st := stats[i];
        assert stats[..i + 1][..i] == stats[..i];
        var hasChanged := false;
        if st.peer !in wgLast {
          hasChanged := true;
        } else if st.counter.down != wgLast[st.peer].down || st.counter.up != wgLast[st.peer].up {
          hasChanged := true;
        }
        if hasChanged {
          samples := samples + [st];
        }
        wgLast := wgLast[st.peer := st.counter];
      }
      assert stats[..|stats|] == stats;
      if |samples| > 0 {
        var _ := InsertWGSamples(samples, k.now, k.failAt);
      }
    }
  }

  // ---------- one run ----------

  /** The device map has one entry per peer. */
  ghost predicate OneEach(stats: seq<Stat>) {
    forall i, j :: 0 <= i < j < |stats| ==> stats[i].peer != stats[j].peer
  }

  /** The entries of a list that belong to one peer. */
  function Only(stats: seq<Stat>, p: Name): seq<Bytes> {
    if stats == [] then []
    else
      var s := stats[|stats| - 1];
      Only(stats[..|stats| - 1], p) + if s.peer == p then [s.counter] else []
  }

  lemma {:induction false} OnlyNone(stats: seq<Stat>, p: Name)
    requires forall i :: 0 <= i < |stats| ==> stats[i].peer != p
    ensures Only(stats, p) == []
  {
    if stats != [] { OnlyNone(stats[..|stats| - 1], p); }
  }

  lemma {:induction false} OnlyOnce(stats: seq<Stat>, p: Name)
    requires OneEach(stats)
    ensures |Only(stats, p)| <= 1
  {
    if stats != [] {
      var init, s := stats[..|stats| - 1], stats[|stats| - 1];
      if s.peer == p {
        forall i | 0 <= i < |init|
          ensures init[i].peer != p
        {
          assert stats[i].peer != s.peer;
        }
        OnlyNone(init, p);
      } else {
        OnlyOnce(init, p);
      }
    }
  }

  lemma OnlySnoc(stats: seq<Stat>, s: Stat, p: Name)
    ensures Only(stats + [s], p) == Only(stats, p) + if s.peer == p then [s.counter] else []
  {
    assert (stats + [s])[..|stats|] == stats;
  }

  /** What a scan remembers and stores for one peer. */
  lemma {:induction false} ScanOnly(last: map<Name, Bytes>, stats: seq<Stat>, p: Name)
    requires |Only(stats, p)| <= 1
    ensures var acc, mine := Scan(last, stats), Only(stats, p);
      && (p in acc.last <==> p in last || mine != [])
      && (p in acc.last ==> acc.last[p] == if mine == [] then last[p] else mine[0])
      && Only(acc.samples, p) == if mine == [] || (p in last && last[p] == mine[0]) then [] else mine
  {
    if stats != [] {
      var init, s := stats[..|stats| - 1], stats[|stats| - 1];
      ScanOnly(last, init, p);
      OnlySnoc(Scan(last, init).samples, s, p);
    }
  }

  /** The cap keeps a peer's single sample or drops it. */
  lemma {:induction false} OnlyCapped(samples: seq<Stat>, n: nat, p: Name)
    requires n <= |samples|
    ensures Only(samples[..n], p) <= Only(samples, p)
  {
    if n < |samples| {
      OnlyCapped(samples[..|samples| - 1], n, p);
      assert samples[..|samples| - 1][..n] == samples[..n];
    } else {
      assert samples[..n] == samples;
    }
  }

  lemma OnlyKept(samples: seq<Stat>, p: Name)
    ensures Only(Capped(samples), p) <= Only(samples, p)
    ensures |samples| <= CAP ==> Capped(samples) == samples
  {
    OnlyCapped(samples, if |samples| > CAP then CAP else |samples|, p);
    assert samples[..|samples|] == samples;
  }

  function Rows(now: nat, cs: seq<Bytes>): Series {
    seq(|cs|, i requires 0 <= i < |cs| => WgRow(now, cs[i]))
  }

  lemma {:induction false} AppendOnly(rows: map<Name, Series>, now: nat, samples: seq<Stat>, p: Name)
    ensures RowsOf(Append(rows, now, samples), p) == RowsOf(rows, p) + Rows(now, Only(samples, p))
  {
    if samples == [] {
      assert RowsOf(rows, p) + Rows(now, []) == RowsOf(rows, p);
    } else {
      var init, s := samples[..|samples| - 1], samples[|samples| - 1];
      AppendOnly(rows, now, init, p);
      assert s.peer == p ==> Rows(now, Only(samples, p)) == Rows(now, Only(init, p)) + [WgRow(now, s.counter)];
    }
  }

  // ---------- runs ----------

  function Run(ks: seq<WgTick>): WgState {
    if ks == [] then WgState(map[], map[]) else WgStep(Run(ks[..|ks| - 1]), ks[|ks| - 1])
  }

  function Stored(ks: seq<WgTick>, p: Name): Series { RowsOf(Run(ks).rows, p) }

  function ReadingsNow(k: WgTick, p: Name): Series {
    if k.stats.None? then [] else Rows(k.now, Only(k.stats.value, p))
  }

  /** Every reading a peer ever had, stored or not. */
  function Readings(ks: seq<WgTick>, p: Name): Series {
    if ks == [] then [] else Readings(ks[..|ks| - 1], p) + ReadingsNow(ks[|ks| - 1], p)
  }

  ghost predicate Deviceful(ks: seq<WgTick>) {
    forall i :: 0 <= i < |ks| && ks[i].stats.Some? ==> OneEach(ks[i].stats.value)
  }

  /** The last run inserted everything it wanted to. */
  predicate InsertedAll(ks: seq<WgTick>)
    requires ks != []
  {
    var k := ks[|ks| - 1];
    k.stats.Some? ==>
      k.failAt < 0 && |Scan(Run(ks[..|ks| - 1]).last, k.stats.value).samples| <= CAP
  }

  predicate LosesNothing(ks: seq<WgTick>) {
    ks == [] || (LosesNothing(ks[..|ks| - 1]) && InsertedAll(ks))
  }

  /** What one run adds: nothing, or the one reading it had for the peer; nothing is
      dropped unless it repeats the last reading or the insert was cut or failed. */
  lemma StepStores(ks: seq<WgTick>, p: Name)
    requires ks != [] && Deviceful(ks)
    ensures var init, new_ := ks[..|ks| - 1], ReadingsNow(ks[|ks| - 1], p); var last := Run(init).last;
      && |new_| <= 1
      && (p in Run(ks).last <==> p in last || new_ != [])
      && (p in Run(ks).last ==> Run(ks).last[p] == if new_ == [] then last[p] else new_[0].counter)
      && (Stored(ks, p) == Stored(init, p) || Stored(ks, p) == Stored(init, p) + new_)
      && (InsertedAll(ks) && new_ != [] && !(p in last && last[p] == new_[0].counter) ==>
            Stored(ks, p) == Stored(init, p) + new_)
      && (p in last && new_ != [] && last[p] == new_[0].counter ==> Stored(ks, p) == Stored(init, p))
  {
    hide Scan, Append, Only, Capped;
    var init, k := ks[..|ks| - 1], ks[|ks| - 1];
    var st := Run(init);
    if k.stats.Some? {
      OnlyOnce(k.stats.value, p);
      ScanOnly(st.last, k.stats.value, p);
      var samples := Scan(st.last, k.stats.value).samples;
      OnlyKept(samples, p);
      AppendOnly(st.rows, k.now, Capped(samples), p);
      var kept := Rows(k.now, Only(Capped(samples), p));
      assert kept == [] || kept == ReadingsNow(k, p);
      assert Stored(init, p) + [] == Stored(init, p);
    }
  }

  /** The cache holds the newest reading, whether or not it was stored. */
  lemma {:induction false} LastIsNewest(ks: seq<WgTick>, p: Name)
    requires Deviceful(ks)
    ensures var r, st := Readings(ks, p), Run(ks);
      (p in st.last <==> r != []) && (r != [] ==> st.last[p] == r[|r| - 1].counter)
  {
    hide Run, ReadingsNow, Stored, OneEach, InsertedAll;
    NothingYet(p);
    if ks != [] {
      var init := ks[..|ks| - 1];
      LastIsNewest(init, p);
      StepStores(ks, p);
      ReadingsStep(ks, p);
      hide Readings;
      var r, new_ := Readings(init, p), ReadingsNow(ks[|ks| - 1], p);
      assert new_ != [] ==> (r + new_)[|r|] == new_[0];
    }
  }

  lemma NothingYet(p: Name)
    ensures Readings([], p) == [] && Run([]).last == map[]
  {
  }

  lemma ReadingsStep(ks: seq<WgTick>, p: Name)
    requires ks != []
    ensures Readings(ks, p) == Readings(ks[..|ks| - 1], p) + ReadingsNow(ks[|ks| - 1], p)
  {
    hide ReadingsNow;
  }

  // ---------- subsequences ----------

  /** a is b with some rows left out. */
  ghost predicate Thinned(a: Series, b: Series) {
    if a == [] then true
    else if b == [] then false
    else Thinned(a, b[..|b| - 1]) || (a[|a| - 1] == b[|b| - 1] && Thinned(a[..|a| - 1], b[..|b| - 1]))
  }

  lemma ThinnedSnoc(a: Series, b: Series, r: WgRow)
    requires Thinned(a, b)
    ensures Thinned(a, b + [r]) && Thinned(a + [r], b + [r])
  {
    assert (a + [r])[..|a|] == a && (b + [r])[..|b|] == b;
  }

  lemma Triangle(a: int, b: int, c: int)
    ensures Positive(a, c) <= Positive(a, b) + Positive(b, c)
  {
  }

  /** Leaving rows out never raises the sum of positive steps. */
  lemma {:induction false} ThinningNeverRaises(a: Series, b: Series, d: Direction)
    requires Thinned(a, b) && a != []
    ensures PosSum(a, d) + Positive(a[|a| - 1].counter.In(d), b[|b| - 1].counter.In(d)) <= PosSum(b, d)
    decreases |b|
  {
    var b', y := b[..|b| - 1], b[|b| - 1].counter.In(d);
    if Thinned(a, b') {
      ThinningNeverRaises(a, b', d);
      Triangle(a[|a| - 1].counter.In(d), b'[|b'| - 1].counter.In(d), y);
    } else {
      var a' := a[..|a| - 1];
      if a' != [] {
        ThinningNeverRaises(a', b', d);
        Triangle(a'[|a'| - 1].counter.In(d), b'[|b'| - 1].counter.In(d), y);
      } else if b' != [] {
        PosSumBounds(b', d);
      }
    }
  }

  /** A thinned rising series is rising and stays at or below its end. */
  lemma {:induction false} ThinnedRises(a: Series, b: Series, d: Direction)
    requires Thinned(a, b) && Rising(b, d)
    ensures Rising(a, d)
    ensures a != [] ==> a[|a| - 1].counter.In(d) <= b[|b| - 1].counter.In(d)
    decreases |b|
  {
    if a != [] {
      var b' := b[..|b| - 1];
      if Thinned(a, b') { ThinnedRises(a, b', d); } else { ThinnedRises(a[..|a| - 1], b', d); }
    }
  }

  // ---------- accounting over runs ----------

  lemma {:induction false} StoredIsThinned(ks: seq<WgTick>, p: Name)
    requires Deviceful(ks)
    ensures Thinned(Stored(ks, p), Readings(ks, p))
  {
    if ks != [] {
      var init, new_ := ks[..|ks| - 1], ReadingsNow(ks[|ks| - 1], p);
      StoredIsThinned(init, p);
      StepStores(ks, p);
      hide Run, ReadingsNow, Stored;
      if new_ == [] {
        assert Readings(ks, p) == Readings(init, p);
        assert Stored(init, p) + new_ == Stored(init, p);
      } else {
        assert new_ == [new_[0]];
        ThinnedSnoc(Stored(init, p), Readings(init, p), new_[0]);
      }
    }
  }

  /** Whatever the cap, failed inserts and the change filter drop, the stored rows never
      add up to more than the full reading sequence. */
  lemma StoredNeverRaises(ks: seq<WgTick>, p: Name, d: Direction)
    requires Deviceful(ks)
    ensures PosSum(Stored(ks, p), d) <= PosSum(Readings(ks, p), d)
  {
    StoredIsThinned(ks, p);
    if Stored(ks, p) != [] {
      ThinningNeverRaises(Stored(ks, p), Readings(ks, p), d);
    } else if Readings(ks, p) != [] {
      PosSumBounds(Readings(ks, p), d);
    }
  }

  /** The stored rows stand for the readings: same sum, same newest counter. */
  predicate Represents(s: Series, r: Series, d: Direction) {
    && PosSum(s, d) == PosSum(r, d)
    && (s == [] <==> r == [])
    && (r != [] ==> s[|s| - 1].counter == r[|r| - 1].counter)
  }

  /** A new reading is stored, or it repeats the newest one. */
  lemma RepresentsStep(s: Series, r: Series, x: WgRow, d: Direction)
    requires Represents(s, r, d)
    ensures Represents(s + [x], r + [x], d)
    ensures r != [] && r[|r| - 1].counter == x.counter ==> Represents(s, r + [x], d)
  {
    PosSumSnoc(s, x, d);
    PosSumSnoc(r, x, d);
  }

  /** The change filter alone loses nothing: storing only changed readings preserves the
      sum of positive steps of the full reading sequence. */
  lemma {:induction false} FilterPreservesSum(ks: seq<WgTick>, p: Name, d: Direction)
    requires Deviceful(ks) && LosesNothing(ks)
    ensures Represents(Stored(ks, p), Readings(ks, p), d)
  {
    if ks != [] {
      var init, now := ks[..|ks| - 1], ReadingsNow(ks[|ks| - 1], p);
      FilterPreservesSum(init, p, d);
      StepStores(ks, p);
      LastIsNewest(init, p);
      assert Readings(ks, p) == Readings(init, p) + now;
      hide Run, ReadingsNow, Stored, InsertedAll, Represents, Readings;
      if now == [] {
        assert Readings(init, p) + now == Readings(init, p) && Stored(init, p) + now == Stored(init, p);
      } else {
        assert now == [now[0]];
        RepresentsStep(Stored(init, p), Readings(init, p), now[0], d);
      }
    }
  }

  /** For counters that never fall, keeping the first and the last reading is enough. */
  lemma EndsSuffice(ks: seq<WgTick>, p: Name, d: Direction)
    requires Deviceful(ks) && Rising(Readings(ks, p), d)
    requires var s, r := Stored(ks, p), Readings(ks, p);
      s != [] && r != [] && s[0].counter == r[0].counter && s[|s| - 1].counter == r[|r| - 1].counter
    ensures PosSum(Stored(ks, p), d) == PosSum(Readings(ks, p), d)
  {
    StoredIsThinned(ks, p);
    ThinnedRises(Stored(ks, p), Readings(ks, p), d);
    PosSumBounds(Stored(ks, p), d);
    PosSumBounds(Readings(ks, p), d);
  }
}
