/** The store object: transactions over the two tables, each of which commits or
    leaves them untouched, and the maintenance pass that runs them. */
module Database {
  import opened Amounts
  import opened Store

  /** Retention and aggregation settings of the panel configuration. */
  datatype Maintenance = Maintenance(
    retentionEnabled: bool, retentionDays: int, aggregationEnabled: bool, aggregationDays: int)

  const DAY: int := 24 * 3600

  class Database {
    var raw: Table
    var daily: Table

    function State(): Tables reads this { Tables(raw, daily) }

    constructor ()
      ensures State() == Tables(map[], map[])
    {
      raw, daily := map[], map[];
    }

    method AddSample(s: Sample, execOk: bool) returns (ok: bool)
      modifies this
      ensures ok == execOk
      ensures State() == if ok then old(State()).(raw := InsertOrIgnore(old(raw), s)) else old(State())
    {
      if execOk && s.At() !in raw {
        raw := raw[s.At() := s.amount];
      }
      return execOk;
    }

    /** Statement number failAt fails; |batch| stands for the commit itself. */
    method BulkInsert(batch: seq<Sample>, failAt: int) returns (ok: bool)
      modifies this
      ensures ok == (batch == [] || !(0 <= failAt <= |batch|))
      ensures State() == if ok then old(State()).(raw := Inserted(old(raw), batch)) else old(State())
    {
      if |batch| == 0 {
        return true;
      }
      var tx := raw;
      for i := 0 to |batch|
        invariant tx == Inserted(raw, batch[..i])
        invariant raw == old(raw) && daily == old(daily)
        invariant !(0 <= failAt < i)
      {
        if failAt == i {
          return false;
        }
        assert batch[..i + 1][..i] == batch[..i];
        if batch[i].At() !in tx {
          tx := tx[batch[i].At() := batch[i].amount];
        }
      }
      assert batch[..|batch|] == batch;
      if failAt == |batch| {
        return false;
      }
      raw := tx;
      return true;
    }

    /** DELETE FROM samples WHERE ts < cutoff. */
    method PruneOlderThan(cutoff: int, execOk: bool) returns (deleted: int, ok: bool)
      modifies this
      ensures ok == execOk
      ensures State() == if ok then Pruned(old(State()), cutoff) else old(State())
      ensures ok ==> deleted == |old(raw)| - |raw|
    {
      if !execOk {
        return 0, false;
      }
      deleted := |raw|;
      raw := Keep(raw, Kept(cutoff));
      deleted := deleted - |raw|;
      return deleted, true;
    }

    /** Aggregates, upserts and deletes in one transaction; the upsert of some group,
        the delete or the commit may fail, which rolls everything back. */
    method CompressOldSamples(cutoff: int, failAt: int) returns (deleted: int, ok: bool)
      modifies this
      ensures failAt < 0 || Groups(old(raw), cutoff) == {} ==> ok
      ensures State() == if ok then RolledUp(old(State()), cutoff) else old(State())
      ensures ok ==> deleted == |old(raw)| - |raw|
    {
      hide Upserted, Groups, GroupSum;
      var agg := QueryGroups(raw, cutoff);
      if |agg| == 0 {
        NoGroupsNoRollup(State(), cutoff);
        return 0, true;
      }
      var tx;
      tx, ok := Upsert(daily, agg, failAt);
      if !ok {
        return 0, false;
      }
      UpsertIs(State(), cutoff, agg, tx);
      deleted := |raw|;
      raw := Keep(raw, Kept(cutoff));
      daily := tx;
      deleted := deleted - |raw|;
    }

    /** One maintenance pass: prune, then roll up what is left. */
    method Maintain(now: int, m: Maintenance, pruneOk: bool, compressFailAt: int) returns (compressed: bool)
      modifies this
      ensures compressFailAt < 0 ==> compressed
      ensures State() == Maintained(old(State()), now, m, pruneOk, compressed)
      ensures raw == Keep(old(raw), Stays(now, m, pruneOk, compressed))
      ensures forall p: Key -> bool, d ::
        SumWhere(daily, p, d)
          == SumWhere(old(daily), p, d) + SumWhere(old(raw), Aged(now, m, pruneOk, compressed, p), d)
    {
      hide RolledUp, Groups, Pruned, SumWhere, Keep, Stays, Aged;
      if m.retentionEnabled && m.retentionDays > 0 {
        var _, _ := PruneOlderThan(now - m.retentionDays * DAY, pruneOk);
      }
      compressed := true;
      if m.aggregationEnabled && m.aggregationDays > 0 {
        var _, done := CompressOldSamples(now - m.aggregationDays * DAY, compressFailAt);
        compressed := done;
      }
      assert State() == Maintained(old(State()), now, m, pruneOk, compressed);
      hide Maintained;
      MaintainedRows(old(State()), now, m, pruneOk, compressed);
      forall p: Key -> bool, d
        ensures SumWhere(daily, p, d)
             == SumWhere(old(daily), p, d) + SumWhere(old(raw), Aged(now, m, pruneOk, compressed, p), d)
      {
        MaintainedGains(old(State()), now, m, pruneOk, compressed, p, d);
      }
    }
  }

  /** INSERT .. ON CONFLICT DO UPDATE for every aggregated row, in no particular order.
      Statement number failAt fails; later numbers stand for the delete and the commit. */
  method Upsert(daily: Table, agg: Table, failAt: int) returns (tx: Table, ok: bool)
    ensures ok == (failAt < 0)
    ensures ok ==> tx.Keys == daily.Keys + agg.Keys
    ensures ok ==> forall g :: g in tx ==> tx[g] == if g !in agg then daily[g] else Cell(daily, g).Plus(agg[g])
  {
    tx := daily;
    var groups := agg.Keys;
    var step := 0;
    while groups != {}
      invariant groups <= agg.Keys && (failAt < 0 || step <= failAt)
      invariant tx.Keys == daily.Keys + (agg.Keys - groups)
      invariant forall g :: g in tx ==>
        tx[g] == if g in groups || g !in agg then daily[g] else Cell(daily, g).Plus(agg[g])
      decreases groups
    {
      if failAt == step {
        return daily, false;
      }
      var g :| g in groups;
      tx := tx[g := if g in tx then tx[g].Plus(agg[g]) else agg[g]];
      groups := groups - {g};
      step := step + 1;
    }
    ok := failAt < 0;
  }

  /** SELECT user, bucket, SUM(uplink), SUM(downlink) WHERE ts < cutoff GROUP BY user, bucket,
      accumulated row by row in no particular order. */
  method QueryGroups(raw: Table, cutoff: int) returns (agg: Table)
    ensures agg.Keys == Groups(raw, cutoff)
    ensures forall g :: g in agg ==> agg[g] == GroupSum(raw, cutoff, g)
  {
    hide GroupSum, BucketOf, Groups;
    agg := map[];
    var pending := raw.Keys;
    ghost var done: Table := map[];
    NoRowsNoGroups(cutoff);
    while pending != {}
      invariant pending <= raw.Keys
      invariant done.Keys == raw.Keys - pending
      invariant forall k :: k in done ==> done[k] == raw[k]
      invariant agg.Keys == Groups(done, cutoff)
      invariant forall g :: g in agg ==> agg[g] == GroupSum(done, cutoff, g)
      decreases pending
    {
      var k :| k in pending;
      pending := pending - {k};
      GroupsStep(done, cutoff, k, raw[k]);
      GroupSumStep(done, cutoff, k, raw[k]);
      if k.ts < cutoff {
        var g := BucketOf(k);
        if g !in agg { NoGroupNoSum(done, cutoff, g); }
        agg := agg[g := Cell(agg, g).Plus(raw[k])];
      }
      done := done[k := raw[k]];
    }
    assert done == raw;
  }

  lemma GroupsStep(done: Table, cutoff: int, k: Key, v: Bytes)
    requires k !in done
    ensures Groups(done[k := v], cutoff) == Groups(done, cutoff) + (if k.ts < cutoff then {BucketOf(k)} else {})
  {
    hide BucketOf;
    var more := done[k := v];
    if k.ts < cutoff {
      assert done == Without(more, k);
      GroupsMove(more, cutoff, k);
    } else {
      assert forall x :: x in more && x.ts < cutoff <==> x in done && x.ts < cutoff;
    }
  }

  lemma GroupSumStep(done: Table, cutoff: int, k: Key, v: Bytes)
    requires k !in done
    ensures forall g :: GroupSum(done[k := v], cutoff, g)
              == if k.ts < cutoff && BucketOf(k) == g then GroupSum(done, cutoff, g).Plus(v)
                 else GroupSum(done, cutoff, g)
  {
    hide SumWhere, BucketOf;
    forall g
      ensures GroupSum(done[k := v], cutoff, g)
           == if k.ts < cutoff && BucketOf(k) == g then GroupSum(done, cutoff, g).Plus(v) else GroupSum(done, cutoff, g)
    {
      SumWherePut(done, k, v, RolledInto(cutoff, Is(g)), Up);
      SumWherePut(done, k, v, RolledInto(cutoff, Is(g)), Down);
    }
  }

  lemma NoRowsNoGroups(cutoff: int)
    ensures Groups(map[], cutoff) == {}
  {
  }

  lemma HasGroup(raw: Table, cutoff: int, k: Key)
    requires k in raw && k.ts < cutoff
    ensures BucketOf(k) in Groups(raw, cutoff)
  {
  }

  lemma NoGroupsNoRollup(t: Tables, cutoff: int)
    requires Groups(t.raw, cutoff) == {}
    ensures RolledUp(t, cutoff) == t
  {
    forall k | k in t.raw
      ensures cutoff <= k.ts
    {
      if k.ts < cutoff { HasGroup(t.raw, cutoff, k); }
    }
    NothingOld(t, cutoff, Is(Key(Name(""), 0)), Up);
  }

  lemma UpsertIs(t: Tables, cutoff: int, agg: Table, daily: Table)
    requires agg.Keys == Groups(t.raw, cutoff)
    requires forall g :: g in agg ==> agg[g] == GroupSum(t.raw, cutoff, g)
    requires daily.Keys == t.daily.Keys + agg.Keys
    requires forall g :: g in daily ==> daily[g] == if g !in agg then t.daily[g] else Cell(t.daily, g).Plus(agg[g])
    ensures daily == Upserted(t, cutoff)
  {
    hide SumWhere, Groups, GroupSum;
    forall g | g in daily
      ensures daily[g] == Upserted(t, cutoff)[g]
    {
      if g !in agg { NoGroupNoSum(t.raw, cutoff, g); }
    }
  }

  ghost function Maintained(t: Tables, now: int, m: Maintenance, pruneOk: bool, compressOk: bool): Tables {
    var t' := if m.retentionEnabled && m.retentionDays > 0 && pruneOk
              then Pruned(t, now - m.retentionDays * DAY) else t;
    if m.aggregationEnabled && m.aggregationDays > 0 && compressOk
    then RolledUp(t', now - m.aggregationDays * DAY) else t'
  }

  /** Rows a pass rolls up into buckets with p: older than the aggregation cutoff, and not pruned
      before. */
  function Aged(now: int, m: Maintenance, pruneOk: bool, compressOk: bool, p: Key -> bool): Key -> bool {
    (k: Key) =>
      m.aggregationEnabled && m.aggregationDays > 0 && compressOk && k.ts < now - m.aggregationDays * 86400 &&
      (m.retentionEnabled && m.retentionDays > 0 && pruneOk ==> now - m.retentionDays * 86400 <= k.ts) &&
      p(BucketOf(k))
  }

  /** Rows a pass leaves as they are: at or after each cutoff that is enabled and reached. */
  function Stays(now: int, m: Maintenance, pruneOk: bool, compressOk: bool): Key -> bool {
    (k: Key) =>
      (m.retentionEnabled && m.retentionDays > 0 && pruneOk ==> now - m.retentionDays * 86400 <= k.ts) &&
      (m.aggregationEnabled && m.aggregationDays > 0 && compressOk ==> now - m.aggregationDays * 86400 <= k.ts)
  }

  lemma MaintainedRows(t: Tables, now: int, m: Maintenance, pruneOk: bool, compressOk: bool)
    ensures Maintained(t, now, m, pruneOk, compressOk).raw == Keep(t.raw, Stays(now, m, pruneOk, compressOk))
  {
    hide Upserted;
  }

  /** What a pass adds to the rolled-up table: exactly the rows between the two cutoffs. */
  lemma MaintainedGains(t: Tables, now: int, m: Maintenance, pruneOk: bool, compressOk: bool, p: Key -> bool,
        d: Direction)
    ensures SumWhere(Maintained(t, now, m, pruneOk, compressOk).daily, p, d)
         == SumWhere(t.daily, p, d) + SumWhere(t.raw, Aged(now, m, pruneOk, compressOk, p), d)
  {
    hide SumWhere, RolledUp, BucketOf;
    var aged := Aged(now, m, pruneOk, compressOk, p);
    if m.aggregationEnabled && m.aggregationDays > 0 && compressOk {
      var cutoff, kept := now - m.aggregationDays * 86400, Kept(now - m.retentionDays * 86400);
      if m.retentionEnabled && m.retentionDays > 0 && pruneOk {
        DailyAfter(Pruned(t, now - m.retentionDays * 86400), cutoff, p, d);
        SumWhereKeep(t.raw, kept, RolledInto(cutoff, p), aged, d);
      } else {
        DailyAfter(t, cutoff, p, d);
        SumWhereSame(t.raw, RolledInto(cutoff, p), aged, d);
      }
    } else {
      SumWhereNothing(t.raw, aged, d);
    }
  }

  /** Rows a pass throws away: raw, of a selected bucket, older than the retention cutoff. */
  function Expired(now: int, m: Maintenance, p: Key -> bool): Key -> bool {
    (k: Key) => m.retentionEnabled && m.retentionDays > 0 && k.ts < now - m.retentionDays * DAY && p(BucketOf(k))
  }

  /** A maintenance pass loses exactly the raw rows older than the retention cutoff,
      in every bucket, whether or not the rollup goes through. */
  lemma MaintenanceLosesExpired(t: Tables, now: int, m: Maintenance, compressOk: bool, p: Key -> bool, d: Direction)
    ensures Held(t, p, d)
         == Held(Maintained(t, now, m, true, compressOk), p, d) + SumWhere(t.raw, Expired(now, m, p), d)
  {
    hide SumWhere, RolledUp;
    var cutoff := now - m.retentionDays * DAY;
    if m.retentionEnabled && m.retentionDays > 0 {
      SumWhereLose(t.raw, Kept(cutoff), Bucketed(p), Expired(now, m, p), d);
    } else {
      SumWhereNothing(t.raw, Expired(now, m, p), d);
    }
    RollupConserves(Maintained(t, now, m, true, false), now - m.aggregationDays * DAY, p, d);
  }
}
