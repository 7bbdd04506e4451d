/** The log-based calculator: each growth of the inbound counters is shared equally
    among the users seen in the log, one row per user. */
module Calculator {
  import opened Arith
  import opened Common
  import opened Amounts
  import opened Store
  import opened Database

  /** One call of process: counters (None when they cannot be read), the users active
      in the log, the clock, and the users whose insert fails. */
  datatype Tick = Tick(reading: Option<Bytes>, users: seq<Name>, now: nat, failing: set<Name>)

  datatype CalcState = CalcState(lastUplink: int, lastDownlink: int, initialized: bool, raw: Table)

  /** A counter that went backwards was reset: the new reading is all new traffic. */
  function Fresh(prev: int, cur: int): int {
    if cur - prev < 0 then cur else cur - prev
  }

  function Share(delta: Bytes, count: nat): Bytes
    requires count > 0
  {
    Bytes(Quo(delta.up, count), Quo(delta.down, count))
  }

  function Distributed(raw: Table, users: seq<Name>, now: nat, share: Bytes, failing: set<Name>): Table {
    if users == [] then raw
    else
      var u := users[|users| - 1];
      var before := Distributed(raw, users[..|users| - 1], now, share, failing);
      if u in failing then before else InsertOrIgnore(before, Sample(u, now, share))
  }

  function CalcStep(st: CalcState, k: Tick): CalcState {
    if k.reading.None? then st
    else
      var cur := k.reading.value;
      var delta := Bytes(Fresh(st.lastUplink, cur.up), Fresh(st.lastDownlink, cur.down));
      var next := CalcState(cur.up, cur.down, true, st.raw);
      if !st.initialized || (delta.up == 0 && delta.down == 0) || k.users == [] then next
      else next.(raw := Distributed(st.raw, k.users, k.now, Share(delta, |k.users|), k.failing))
  }

  class Calculator {
    var lastUplink: int
    var lastDownlink: int
    var initialized: bool
    const db: Database

    function Snapshot(): CalcState reads this, db { CalcState(lastUplink, lastDownlink, initialized, db.raw) }

    constructor (db: Database)
      ensures this.db == db && Snapshot() == CalcState(0, 0, false, db.raw)
    {
      this.db := db;
      lastUplink, lastDownlink, initialized := 0, 0, false;
    }

    method Process(k: Tick)
      modifies this, db
      ensures Snapshot() == CalcStep(old(Snapshot()), k)
      ensures db.daily == old(db.daily)
    {
      if k.reading.None? {
        return;
      }
      var up, down := k.reading.value.up, k.reading.value.down;
      if !initialized {
        lastUplink, lastDownlink, initialized := up, down, true;
        return;
      }
      var deltaUp, deltaDown := up - lastUplink, down - lastDownlink;
      if deltaUp < 0 { deltaUp := up; }
      if deltaDown < 0 { deltaDown := down; }
      lastUplink, lastDownlink := up, down;
      if deltaUp == 0 && deltaDown == 0 {
        return;
      }
      if |k.users| == 0 {
        return;
      }
      var count := |k.users|;
      var share := Bytes(Quo(deltaUp, count), Quo(deltaDown, count));
      for i := 0 to |k.users|
        invariant db.raw == Distributed(old(db.raw), k.users[..i], k.now, share, k.failing)
        invariant db.daily == old(db.daily)
        invariant lastUplink == up && lastDownlink == down && initialized
      {
        var u := k.users[i];
        assert k.users[..i + 1][..i] == k.users[..i];
        var _ := db.AddSample(Sample(u, k.now, share), u !in k.failing);
      }
      assert k.users[..|k.users|] == k.users;
    }
  }

  // ---------- one distribution ----------

  /** Rows lost to failing or ignored inserts only make the stored sum smaller. */
  lemma {:induction false} DistributedAtMost(raw: Table, users: seq<Name>, now: nat, share: Bytes, failing: set<Name>,
        d: Direction)
    requires NonNegative(share)
    ensures SumWhere(Distributed(raw, users, now, share, failing), Every(), d)
         <= SumWhere(raw, Every(), d) + |users| * share.In(d)
  {
    hide SumWhere;
    if users != [] {
      var init, u := users[..|users| - 1], users[|users| - 1];
      var before := Distributed(raw, init, now, share, failing);
      DistributedAtMost(raw, init, now, share, failing, d);
      SumWherePut(before, Key(u, now), share, Every(), d);
      assert |users| * share.In(d) == |init| * share.In(d) + share.In(d);
    }
  }

  ghost predicate Distinct(users: seq<Name>) {
    forall i, j :: 0 <= i < j < |users| ==> users[i] != users[j]
  }

  /** Different users, a fresh time and working inserts: every share is stored. */
  lemma {:induction false} DistributedExactly(raw: Table, users: seq<Name>, now: nat, share: Bytes, d: Direction)
    requires Distinct(users)
    requires forall k :: k in raw ==> k.ts < now
    ensures SumWhere(Distributed(raw, users, now, share, {}), Every(), d)
         == SumWhere(raw, Every(), d) + |users| * share.In(d)
    ensures forall k :: k in Distributed(raw, users, now, share, {}) ==>
              k.ts < now || (k.ts == now && k.user in users)
  {
    hide SumWhere;
    if users != [] {
      var init, u := users[..|users| - 1], users[|users| - 1];
      var before := Distributed(raw, init, now, share, {});
      DistributedExactly(raw, init, now, share, d);
      assert u !in init;
      SumWherePut(before, Key(u, now), share, Every(), d);
      assert |users| * share.In(d) == |init| * share.In(d) + share.In(d);
    }
  }

  // ---------- runs ----------

  function Run(raw: Table, ks: seq<Tick>): CalcState {
    if ks == [] then CalcState(0, 0, false, raw)
    else CalcStep(Run(raw, ks[..|ks| - 1]), ks[|ks| - 1])
  }

  /** The newest counters a run could read. */
  function Newest(ks: seq<Tick>): Option<Bytes> {
    if ks == [] then None
    else if ks[|ks| - 1].reading.Some? then ks[|ks| - 1].reading
    else Newest(ks[..|ks| - 1])
  }

  /** What the last tick of a run measured: growth since the newest earlier counters. */
  function Measure(ks: seq<Tick>, d: Direction): int
    requires ks != []
  {
    var prev, cur := Newest(ks[..|ks| - 1]), ks[|ks| - 1].reading;
    if prev.Some? && cur.Some? then Fresh(prev.value.In(d), cur.value.In(d)) else 0
  }

  function Measured(ks: seq<Tick>, d: Direction): int {
    if ks == [] then 0 else Measured(ks[..|ks| - 1], d) + Measure(ks, d)
  }

  /** Growth measured while the log showed nobody. */
  function Dropped(ks: seq<Tick>, d: Direction): int {
    if ks == [] then 0
    else Dropped(ks[..|ks| - 1], d) + if ks[|ks| - 1].users == [] then Measure(ks, d) else 0
  }

  /** What equal shares leave over at the last tick: less than one byte per user. */
  function Remainder(ks: seq<Tick>, d: Direction): (r: int)
    requires ks != []
    ensures r == 0 || 0 < r < |ks[|ks| - 1].users|
  {
    var users := ks[|ks| - 1].users;
    if users == [] then 0 else Measure(ks, d) % |users|
  }

  function Remainders(ks: seq<Tick>, d: Direction): int {
    if ks == [] then 0 else Remainders(ks[..|ks| - 1], d) + Remainder(ks, d)
  }

  ghost predicate Counters(ks: seq<Tick>) {
    forall i :: 0 <= i < |ks| && ks[i].reading.Some? ==> NonNegative(ks[i].reading.value)
  }

  /** The calculator's own fields are the newest counters of the run. */
  lemma {:induction false} FieldsAreNewest(raw: Table, ks: seq<Tick>)
    ensures var st := Run(raw, ks);
      && (st.initialized <==> Newest(ks).Some?)
      && (st.initialized ==> Newest(ks).value == Bytes(st.lastUplink, st.lastDownlink))
  {
    if ks != [] { FieldsAreNewest(raw, ks[..|ks| - 1]); }
  }

  ghost function Stored(raw: Table, d: Direction): int { SumWhere(raw, Every(), d) }

  /** One step in terms of what was measured, independent of the calculator's fields. */
  lemma StepMeasures(raw: Table, ks: seq<Tick>, delta: Bytes)
    requires ks != [] && Counters(ks)
    requires delta == Bytes(Measure(ks, Up), Measure(ks, Down))
    ensures NonNegative(delta)
    ensures var init, k := ks[..|ks| - 1], ks[|ks| - 1];
      Run(raw, ks).raw
        == if delta == ZERO || k.users == [] then Run(raw, init).raw
           else Distributed(Run(raw, init).raw, k.users, k.now, Share(delta, |k.users|), k.failing)
  {
    var init, k := ks[..|ks| - 1], ks[|ks| - 1];
    FieldsAreNewest(raw, init);
    hide Distributed;
    if k.reading.Some? { assert NonNegative(k.reading.value); }
  }

  lemma ShareOut(n: nat, m: int)
    requires n > 0 && m >= 0
    ensures n * (m / n) == m - m % n <= m && m / n >= 0
  {
  }

  /** Over every run the bytes stored never exceed the bytes measured. */
  lemma {:induction false} StoredAtMostMeasured(raw: Table, ks: seq<Tick>, d: Direction)
    requires Counters(ks)
    ensures Stored(Run(raw, ks).raw, d) <= Stored(raw, d) + Measured(ks, d)
  {
    if ks != [] {
      var init, k := ks[..|ks| - 1], ks[|ks| - 1];
      var delta := Bytes(Measure(ks, Up), Measure(ks, Down));
      StoredAtMostMeasured(raw, init, d);
      StepMeasures(raw, ks, delta);
      hide Run, Measure, Distributed, SumWhere;
      if k.users != [] {
        ShareOut(|k.users|, delta.up);
        ShareOut(|k.users|, delta.down);
        DistributedAtMost(Run(raw, init).raw, k.users, k.now, Share(delta, |k.users|), k.failing, d);
      }
    }
  }

  /** Inserts work, the users of a tick differ, and times strictly increase. */
  ghost predicate Lossless(raw: Table, ks: seq<Tick>) {
    && (forall k :: k in raw ==> forall i :: 0 <= i < |ks| ==> k.ts < ks[i].now)
    && (forall i :: 0 <= i < |ks| ==> ks[i].failing == {} && Distinct(ks[i].users))
    && (forall i, j :: 0 <= i < j < |ks| ==> ks[i].now < ks[j].now)
  }

  /** Then the shortfall is exactly the growth dropped for lack of users plus one
      remainder per tick. */
  lemma {:induction false} ShortfallExactly(raw: Table, ks: seq<Tick>, d: Direction)
    requires Counters(ks) && Lossless(raw, ks)
    ensures Stored(Run(raw, ks).raw, d) + Dropped(ks, d) + Remainders(ks, d) == Stored(raw, d) + Measured(ks, d)
    ensures forall k :: k in Run(raw, ks).raw ==> k in raw || (ks != [] && k.ts <= ks[|ks| - 1].now)
  {
    if ks != [] {
      var init, k := ks[..|ks| - 1], ks[|ks| - 1];
      var delta := Bytes(Measure(ks, Up), Measure(ks, Down));
      ShortfallExactly(raw, init, d);
      StepMeasures(raw, ks, delta);
      hide Run, Measure, Distributed, SumWhere;
      if k.users != [] {
        ShareOut(|k.users|, delta.up);
        ShareOut(|k.users|, delta.down);
        DistributedExactly(Run(raw, init).raw, k.users, k.now, Share(delta, |k.users|), d);
      }
    }
  }

  // ---------- who is charged ----------

  /** The users of a tick differ, and times strictly increase; inserts may fail. */
  ghost predicate FreshTimes(raw: Table, ks: seq<Tick>) {
    && (forall k :: k in raw ==> forall i :: 0 <= i < |ks| ==> k.ts < ks[i].now)
    && (forall i :: 0 <= i < |ks| ==> Distinct(ks[i].users))
    && (forall i, j :: 0 <= i < j < |ks| ==> ks[i].now < ks[j].now)
  }

  /** At a fresh time every user listed gets one share, unless its insert fails. */
  lemma {:induction false} DistributedFor(raw: Table, users: seq<Name>, now: nat, share: Bytes, failing: set<Name>,
        u: Name, d: Direction)
    requires Distinct(users)
    requires forall k :: k in raw ==> k.ts < now
    ensures SumWhere(Distributed(raw, users, now, share, failing), ForUser(u), d)
         == SumWhere(raw, ForUser(u), d) + if u in users && u !in failing then share.In(d) else 0
    ensures forall k :: k in Distributed(raw, users, now, share, failing) ==>
              k.ts < now || (k.ts == now && k.user in users)
  {
    hide SumWhere;
    if users != [] {
      var init, x := users[..|users| - 1], users[|users| - 1];
      var before := Distributed(raw, init, now, share, failing);
      DistributedFor(raw, init, now, share, failing, u, d);
      assert x !in init && (u in users <==> u == x || u in init);
      SumWherePut(before, Key(x, now), share, ForUser(u), d);
    }
  }

  /** What a run charges a user: at each tick that lists it, an equal share of the growth
      measured. */
  function Charged(ks: seq<Tick>, u: Name, d: Direction): int {
    if ks == [] then 0
    else
      var k := ks[|ks| - 1];
      Charged(ks[..|ks| - 1], u, d) +
      if u in k.users && u !in k.failing then Measure(ks, d) / |k.users| else 0
  }

  /** The last tick of a run charges its users, each the same, and nobody else. */
  lemma StepCharges(raw: Table, ks: seq<Tick>, u: Name, d: Direction)
    requires ks != [] && Counters(ks) && Distinct(ks[|ks| - 1].users)
    requires forall k :: k in Run(raw, ks[..|ks| - 1]).raw ==> k.ts < ks[|ks| - 1].now
    ensures
      var k := ks[|ks| - 1];
      SumWhere(Run(raw, ks).raw, ForUser(u), d) == SumWhere(Run(raw, ks[..|ks| - 1]).raw, ForUser(u), d) +
        if u in k.users && u !in k.failing then Measure(ks, d) / |k.users| else 0
    ensures forall k :: k in Run(raw, ks).raw ==> k.ts <= ks[|ks| - 1].now
  {
    var init, k := ks[..|ks| - 1], ks[|ks| - 1];
    var delta := Bytes(Measure(ks, Up), Measure(ks, Down));
    StepMeasures(raw, ks, delta);
    hide Run, Measure, Distributed, SumWhere;
    if k.users != [] {
      DistributedFor(Run(raw, init).raw, k.users, k.now, Share(delta, |k.users|), k.failing, u, d);
    }
  }

  /** Over every run, a user holds what it held and what it was charged. */
  lemma {:induction false} ChargedExactly(raw: Table, ks: seq<Tick>, u: Name, d: Direction)
    requires Counters(ks) && FreshTimes(raw, ks)
    ensures SumWhere(Run(raw, ks).raw, ForUser(u), d) == SumWhere(raw, ForUser(u), d) + Charged(ks, u, d)
    ensures forall k :: k in Run(raw, ks).raw ==> k in raw || (ks != [] && k.ts <= ks[|ks| - 1].now)
  {
    hide SumWhere, Measure;
    if ks != [] {
      var init := ks[..|ks| - 1];
      ChargedExactly(raw, init, u, d);
      assert init != [] ==> init[|init| - 1] == ks[|init| - 1];
      hide Run;
      StepCharges(raw, ks, u, d);
    }
  }

  // ---------- what is measured ----------

  function Oldest(ks: seq<Tick>): Option<Bytes> {
    if ks == [] then None
    else if Oldest(ks[..|ks| - 1]).Some? then Oldest(ks[..|ks| - 1])
    else ks[|ks| - 1].reading
  }

  /** The counters that resets took away: each as it was last read before it fell. */
  function Reset(ks: seq<Tick>, d: Direction): int {
    if ks == [] then 0
    else
      var prev, cur := Newest(ks[..|ks| - 1]), ks[|ks| - 1].reading;
      Reset(ks[..|ks| - 1], d) +
      if prev.Some? && cur.Some? && cur.value.In(d) < prev.value.In(d) then prev.value.In(d) else 0
  }

  /** Over every run, what is measured is last minus first reading, and what resets took away:
      without a reset, exactly last minus first. */
  lemma {:induction false} MeasuredExactly(ks: seq<Tick>, d: Direction)
    ensures Newest(ks).Some? <==> Oldest(ks).Some?
    ensures Newest(ks).None? ==> Reset(ks, d) == 0
    ensures Measured(ks, d) ==
      if Newest(ks).None? then 0 else Newest(ks).value.In(d) - Oldest(ks).value.In(d) + Reset(ks, d)
  {
    if ks != [] { MeasuredExactly(ks[..|ks| - 1], d); }
  }
}
