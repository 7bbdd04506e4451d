/** The statistics sampler: cumulative per-user counters become deltas, deltas become rows.
    The reference is the history of readings a user had, not the sampler's own state. */
module Sampler {
  import opened Common
  import opened Amounts
  import opened Store
  import opened Database

  /** users and stats are None when loading or querying them fails; failAt is the
      insert statement that fails, if any (the commit comes after the last row). */
  datatype Event =
    | SampleOnce(now: nat, users: Option<seq<Name>>, stats: Option<map<Name, Bytes>>, failAt: int)
    | SetPaused(paused: bool)
    | Compress(cutoff: int, ok: bool)
    | Prune(cutoff: int, ok: bool)

  datatype State = State(last: map<Name, Bytes>, paused: bool, tables: Tables)

  /** A user missing from the answer reads as zero. */
  function Reading(stats: map<Name, Bytes>, u: Name): Bytes {
    if u in stats then stats[u] else ZERO
  }

  function Growth(prev: Bytes, cur: Bytes): (g: Bytes)
    ensures NonNegative(g)
  {
    Bytes(Positive(prev.up, cur.up), Positive(prev.down, cur.down))
  }

  function Delta(last: map<Name, Bytes>, u: Name, cur: Bytes): Bytes {
    if u in last then Growth(last[u], cur) else ZERO
  }

  /** The loop over users: the counters seen last, and the batch built so far. */
  datatype Scanned = Scanned(seen: map<Name, Bytes>, batch: seq<Sample>)

  function ScanUser(acc: Scanned, now: nat, u: Name, cur: Bytes): Scanned {
    var g := Delta(acc.seen, u, cur);
    Scanned(acc.seen[u := cur], if g == ZERO then acc.batch else acc.batch + [Sample(u, now, g)])
  }

  function Scan(last: map<Name, Bytes>, now: nat, users: seq<Name>, stats: map<Name, Bytes>): Scanned {
    if users == [] then Scanned(last, [])
    else
      var u := users[|users| - 1];
      ScanUser(Scan(last, now, users[..|users| - 1], stats), now, u, Reading(stats, u))
  }

  function OnlyActive(last: map<Name, Bytes>, users: seq<Name>): map<Name, Bytes> {
    map u | u in last && u in users :: last[u]
  }

  predicate Effective(paused: bool, e: Event) {
    e.SampleOnce? && !paused && e.users.Some? && e.users.value != [] && e.stats.Some?
  }

  ghost function Step(st: State, e: Event): State {
    match e
    case SetPaused(p) => st.(paused := p)
    case Compress(cutoff, ok) => if ok then st.(tables := RolledUp(st.tables, cutoff)) else st
    case Prune(cutoff, ok) => if ok then st.(tables := Pruned(st.tables, cutoff)) else st
    case SampleOnce(now, users, stats, failAt) =>
      if !Effective(st.paused, e) then st
      else
        var Scanned(seen, batch) := Scan(st.last, now, users.value, stats.value);
        var ok := batch == [] || !(0 <= failAt <= |batch|);
        State(OnlyActive(seen, users.value), st.paused,
              if ok then st.tables.(raw := Inserted(st.tables.raw, batch)) else st.tables)
  }

  class StatsSampler {
    var last: map<Name, Bytes>
    var paused: bool
    const db: Database

    function Snapshot(): State reads this, db { State(last, paused, db.State()) }

    constructor (db: Database)
      ensures this.db == db && last == map[] && !paused
    {
      this.db := db;
      last, paused := map[], false;
    }

    method SetPaused(p: bool)
      modifies this`paused
      ensures Snapshot() == Step(old(Snapshot()), Event.SetPaused(p))
    {
      paused := p;
    }

    method SampleOnce(now: nat, users: Option<seq<Name>>, stats: Option<map<Name, Bytes>>, failAt: int)
      modifies this`last, db
      ensures Snapshot() == Step(old(Snapshot()), Event.SampleOnce(now, users, stats, failAt))
      ensures old(paused) || users.None? || users.value == [] || stats.None? ==> Snapshot() == old(Snapshot())
    {
      if paused || users.None? || |users.value| == 0 || stats.None? {
        return;
      }
      var names := users.value;
      var batch: seq<Sample> := [];
      for i := 0 to |names|
        invariant Scanned(last, batch) == Scan(old(last), now, names[..i], stats.value)
        invariant paused == old(paused) && db.State() == old(db.State())
      {
        var u, cur := names[i], Reading(stats.value, names[i]);
        assert names[..i + 1][..i] == names[..i];
        if u in last {
          var du, dd := cur.up - last[u].up, cur.down - last[u].down;
          if du < 0 { du := 0; }
          if dd < 0 { dd := 0; }
          if du > 0 || dd > 0 {
            batch := batch + [Sample(u, now, Bytes(du, dd))];
          }
        }
        last := last[u := cur];
      }
      assert names[..|names|] == names;
      PruneLast(names);
      if |batch| == 0 {
        return;
      }
      var _ := db.BulkInsert(batch, failAt);
    }

    /** Forgets the counters of users that are no longer active. */
    method PruneLast(names: seq<Name>)
      modifies this`last
      ensures last == OnlyActive(old(last), names)
    {
      var pending := last.Keys;
      while pending != {}
        invariant pending <= old(last).Keys
        invariant last == map u | u in old(last) && (u in pending || u in names) :: old(last)[u]
        decreases pending
      {
        var u :| u in pending;
        pending := pending - {u};
        if u !in names {
          last := map x | x in last && x != u :: last[x];
        }
      }
    }
  }

  // ---------- one scan ----------

  /** The counters a scan leaves behind. */
  lemma {:induction false} ScanSeen(last: map<Name, Bytes>, now: nat, users: seq<Name>, stats: map<Name, Bytes>,
        u: Name)
    ensures var seen := Scan(last, now, users, stats).seen;
      && (u in seen <==> u in users || u in last)
      && (u in seen ==> seen[u] == if u in users then Reading(stats, u) else last[u])
  {
    if users != [] {
      ScanSeen(last, now, users[..|users| - 1], stats, u);
      assert u in users <==> u == users[|users| - 1] || u in users[..|users| - 1];
    }
  }

  lemma BatchBytesSnoc(batch: seq<Sample>, s: Sample, u: Name, d: Direction)
    ensures BatchBytes(batch + [s], u, d) == BatchBytes(batch, u, d) + if s.user == u then s.amount.In(d) else 0
  {
    assert (batch + [s])[..|batch|] == batch;
  }

  /** What a scan offers to one user: its growth, once. */
  lemma {:induction false} ScanOffers(last: map<Name, Bytes>, now: nat, users: seq<Name>, stats: map<Name, Bytes>,
        u: Name, d: Direction)
    ensures NonNegativeRows(Scan(last, now, users, stats).batch)
    ensures BatchBytes(Scan(last, now, users, stats).batch, u, d)
         == if u in users then Delta(last, u, Reading(stats, u)).In(d) else 0
  {
    if users != [] {
      var init, x := users[..|users| - 1], users[|users| - 1];
      var acc := Scan(last, now, init, stats);
      assert u in users <==> u == x || u in init;
      ScanOffers(last, now, init, stats, u, d);
      ScanSeen(last, now, init, stats, u);
      BatchBytesSnoc(acc.batch, Sample(x, now, Delta(acc.seen, x, Reading(stats, x))), u, d);
    }
  }

  ghost predicate OneRowPerUser(batch: seq<Sample>, now: nat) {
    && (forall i :: 0 <= i < |batch| ==> batch[i].ts == now)
    && (forall i, j :: 0 <= i < j < |batch| ==> batch[i].user != batch[j].user)
  }

  /** The rows of one batch are at the sample time and belong to different users. */
  lemma {:induction false} ScanRows(last: map<Name, Bytes>, now: nat, users: seq<Name>, stats: map<Name, Bytes>)
    ensures OneRowPerUser(Scan(last, now, users, stats).batch, now)
    ensures forall s :: s in Scan(last, now, users, stats).batch ==> s.user in users
  {
    if users != [] {
      var init, x := users[..|users| - 1], users[|users| - 1];
      ScanRows(last, now, init, stats);
      ScanSeen(last, now, init, stats, x);
      assert forall y :: y in init ==> y in users;
    }
  }

  lemma RowsAreFresh(raw: Table, batch: seq<Sample>, now: nat)
    requires OneRowPerUser(batch, now)
    ensures forall k :: k in Inserted(raw, batch) && k !in raw ==> k.ts == now
    ensures (forall k :: k in raw ==> k.ts < now) ==> FreshRows(raw, batch)
  {
    InsertedKeys(raw, batch);
    forall i, j | 0 <= i < j < |batch|
      ensures batch[i].At() != batch[j].At()
    {
      assert batch[i].user != batch[j].user;
    }
  }

  // ---------- runs ----------

  ghost function Run(t: Tables, es: seq<Event>): State {
    if es == [] then State(map[], false, t)
    else Step(Run(t, es[..|es| - 1]), es[|es| - 1])
  }

  function PausedAfter(es: seq<Event>): bool {
    if es == [] then false
    else if es[|es| - 1].SetPaused? then es[|es| - 1].paused
    else PausedAfter(es[..|es| - 1])
  }

  datatype Observation = Seen(counter: Bytes) | Absent

  function Observed(e: Event, u: Name): Observation
    requires e.SampleOnce? && e.users.Some? && e.stats.Some?
  {
    if u in e.users.value then Seen(Reading(e.stats.value, u)) else Absent
  }

  /** What the effective samples of a run saw of one user. */
  function History(es: seq<Event>, u: Name): seq<Observation> {
    if es == [] then []
    else
      var init, e := es[..|es| - 1], es[|es| - 1];
      if Effective(PausedAfter(init), e) then History(init, u) + [Observed(e, u)] else History(init, u)
  }

  function StepBetween(a: Observation, b: Observation, d: Direction): int {
    if a.Seen? && b.Seen? then Positive(a.counter.In(d), b.counter.In(d)) else 0
  }

  /** Sum of the positive steps of a history; a gap starts a new baseline. */
  function PositiveSteps(h: seq<Observation>, d: Direction): int {
    if |h| < 2 then 0
    else PositiveSteps(h[..|h| - 1], d) + StepBetween(h[|h| - 2], h[|h| - 1], d)
  }

  lemma HistorySnoc(init: seq<Event>, e: Event, u: Name)
    ensures History(init + [e], u)
         == if Effective(PausedAfter(init), e) then History(init, u) + [Observed(e, u)] else History(init, u)
  {
    assert (init + [e])[..|init|] == init;
  }

  lemma PositiveStepsSnoc(h: seq<Observation>, o: Observation, d: Direction)
    ensures PositiveSteps(h + [o], d) == PositiveSteps(h, d) + if h == [] then 0 else StepBetween(h[|h| - 1], o, d)
  {
    assert (h + [o])[..|h|] == h;
  }

  /** The remembered counter is the user's newest observation. */
  lemma {:induction false} LastIsNewest(t: Tables, es: seq<Event>, u: Name)
    ensures var h, st := History(es, u), Run(t, es);
      && st.paused == PausedAfter(es)
      && (u in st.last <==> h != [] && h[|h| - 1].Seen?)
      && (u in st.last ==> st.last[u] == h[|h| - 1].counter)
  {
    if es != [] {
      var init, e := es[..|es| - 1], es[|es| - 1];
      LastIsNewest(t, init, u);
      if Effective(PausedAfter(init), e) {
        ScanSeen(Run(t, init).last, e.now, e.users.value, e.stats.value, u);
      }
    }
  }

  function BatchOf(st: State, e: Event): seq<Sample>
    requires Effective(st.paused, e)
  {
    Scan(st.last, e.now, e.users.value, e.stats.value).batch
  }

  /** An effective sample offers a user exactly the newest step of the history. */
  lemma NewestStep(t: Tables, init: seq<Event>, e: Event, u: Name, d: Direction)
    requires Effective(Run(t, init).paused, e)
    ensures NonNegativeRows(BatchOf(Run(t, init), e))
    ensures PositiveSteps(History(init + [e], u), d)
         == PositiveSteps(History(init, u), d) + BatchBytes(BatchOf(Run(t, init), e), u, d)
  {
    hide BatchBytes, Scan, History, PositiveSteps, Run, NonNegativeRows, PausedAfter;
    var st, h := Run(t, init), History(init, u);
    LastIsNewest(t, init, u);
    ScanOffers(st.last, e.now, e.users.value, e.stats.value, u, d);
    HistorySnoc(init, e, u);
    PositiveStepsSnoc(h, Observed(e, u), d);
  }

  // ---------- accounting over runs ----------

  ghost function HeldBy(t: Tables, u: Name, d: Direction): int { Held(t, ForUser(u), d) }

  lemma HeldByIs(t: Tables, u: Name, d: Direction)
    ensures HeldBy(t, u, d) == SumWhere(t.raw, ForUser(u), d) + SumWhere(t.daily, ForUser(u), d)
  {
    hide SumWhere;
    forall k
      ensures Bucketed(ForUser(u))(k) == ForUser(u)(k)
    {
      assert BucketOf(k).user == k.user;
    }
    SumWhereSame(t.raw, Bucketed(ForUser(u)), ForUser(u), d);
  }

  lemma SampleAtMost(st: State, e: Event, u: Name, d: Direction)
    requires Effective(st.paused, e) && AllNonNegative(st.tables.raw) && NonNegativeRows(BatchOf(st, e))
    ensures AllNonNegative(Step(st, e).tables.raw)
    ensures HeldBy(Step(st, e).tables, u, d) <= HeldBy(st.tables, u, d) + BatchBytes(BatchOf(st, e), u, d)
  {
    hide SumWhere, HeldBy, Scan;
    HeldByIs(st.tables, u, d);
    HeldByIs(Step(st, e).tables, u, d);
    InsertedAtMost(st.tables.raw, BatchOf(st, e), u, d);
    BatchNonNegative(BatchOf(st, e), u, d);
  }

  lemma {:induction false} BatchNonNegative(batch: seq<Sample>, u: Name, d: Direction)
    requires NonNegativeRows(batch)
    ensures BatchBytes(batch, u, d) >= 0
  {
    if batch != [] { BatchNonNegative(batch[..|batch| - 1], u, d); }
  }

  lemma OtherAtMost(st: State, e: Event, u: Name, d: Direction)
    requires !Effective(st.paused, e) && AllNonNegative(st.tables.raw)
    ensures AllNonNegative(Step(st, e).tables.raw)
    ensures HeldBy(Step(st, e).tables, u, d) <= HeldBy(st.tables, u, d)
  {
    hide SumWhere, Upserted, HeldBy;
    match e
    case SetPaused(_) =>
    case SampleOnce(_, _, _, _) =>
    case Compress(cutoff, ok) =>
      RollupKeepsUser(st.tables, cutoff, u, d);
    case Prune(cutoff, _) =>
      PruneAtMost(st.tables, cutoff, u, d);
  }

  lemma RollupKeepsUser(t: Tables, cutoff: int, u: Name, d: Direction)
    ensures HeldBy(RolledUp(t, cutoff), u, d) == HeldBy(t, u, d)
  {
    hide Held;
    RollupConserves(t, cutoff, ForUser(u), d);
  }

  lemma PruneAtMost(t: Tables, cutoff: int, u: Name, d: Direction)
    requires AllNonNegative(t.raw)
    ensures HeldBy(Pruned(t, cutoff), u, d) <= HeldBy(t, u, d)
  {
    hide SumWhere, HeldBy;
    var gone := And(Older(cutoff), ForUser(u));
    HeldByIs(t, u, d);
    HeldByIs(Pruned(t, cutoff), u, d);
    SumWhereLose(t.raw, Kept(cutoff), ForUser(u), gone, d);
    SumWhereNonNegative(t.raw, gone, d);
  }

  /** Over every run - pauses, resets, failed or ignored inserts, rollups, prunes - the
      bytes held for a user never exceed the positive steps of that user's readings. */
  lemma {:induction false} HeldAtMostMeasured(t: Tables, es: seq<Event>, u: Name, d: Direction)
    requires AllNonNegative(t.raw)
    ensures AllNonNegative(Run(t, es).tables.raw)
    ensures HeldBy(Run(t, es).tables, u, d) <= HeldBy(t, u, d) + PositiveSteps(History(es, u), d)
  {
    if es != [] {
      var init, e := es[..|es| - 1], es[|es| - 1];
      assert es == init + [e];
      HeldAtMostMeasured(t, init, u, d);
      HistorySnoc(init, e, u);
      LastIsNewest(t, init, u);
      assert Run(t, es) == Step(Run(t, init), e);
      hide Run, Step, History, HeldBy, PositiveSteps, AllNonNegative, NonNegativeRows;
      if Effective(Run(t, init).paused, e) {
        NewestStep(t, init, e, u, d);
        SampleAtMost(Run(t, init), e, u, d);
      } else {
        OtherAtMost(Run(t, init), e, u, d);
      }
    }
  }

  /** Nothing is lost: the inserts of effective samples go through, their times strictly
      increase past every row stored at the start, and nothing is pruned. */
  ghost predicate Lossless(t: Tables, es: seq<Event>) {
    es != [] ==>
      var init, e := es[..|es| - 1], es[|es| - 1];
      && Lossless(t, init)
      && !(e.Prune? && e.ok)
      && (Effective(PausedAfter(init), e) ==> Inserts(Run(t, init), e) && LaterThan(t, init, e.now))
  }

  /** No statement of the sample's own batch fails, nor its commit. */
  ghost predicate Inserts(st: State, e: Event) {
    Effective(st.paused, e) ==> BatchOf(st, e) == [] || !(0 <= e.failAt <= |BatchOf(st, e)|)
  }

  ghost predicate LaterThan(t: Tables, es: seq<Event>, now: int) {
    && (forall k :: k in t.raw ==> k.ts < now)
    && (forall i :: 0 <= i < |es| && Effective(PausedAfter(es[..i]), es[i]) ==> es[i].now < now)
  }

  lemma {:induction false} PausedIs(t: Tables, es: seq<Event>)
    ensures Run(t, es).paused == PausedAfter(es)
  {
    if es != [] { PausedIs(t, es[..|es| - 1]); }
  }

  /** Every raw row dates from the start or from a sample of the run. */
  lemma {:induction false} RowsAreOlder(t: Tables, es: seq<Event>, now: int)
    requires LaterThan(t, es, now)
    ensures forall k :: k in Run(t, es).tables.raw ==> k.ts < now
  {
    if es != [] {
      var init, e := es[..|es| - 1], es[|es| - 1];
      var st := Run(t, init);
      PausedIs(t, init);
      forall i | 0 <= i < |init| && Effective(PausedAfter(init[..i]), init[i])
        ensures init[i].now < now
      {
        assert es[i] == init[i] && es[..i] == init[..i];
      }
      RowsAreOlder(t, init, now);
      assert Run(t, es) == Step(st, e);
      hide Run, RolledUp;
      if Effective(st.paused, e) {
        BatchTimes(st, e);
      } else if e.Compress? {
        RollupRaw(st.tables, e.cutoff);
      }
    }
  }

  lemma BatchTimes(st: State, e: Event)
    requires Effective(st.paused, e)
    ensures forall k :: k in Step(st, e).tables.raw && k !in st.tables.raw ==> k.ts == e.now
  {
    ScanRows(st.last, e.now, e.users.value, e.stats.value);
    RowsAreFresh(st.tables.raw, BatchOf(st, e), e.now);
  }

  lemma RollupRaw(t: Tables, cutoff: int)
    ensures RolledUp(t, cutoff).raw == Keep(t.raw, Kept(cutoff))
  {
  }

  /** When nothing is lost, the bytes held are exactly the positive steps measured. */
  lemma {:induction false} HeldIsMeasured(t: Tables, es: seq<Event>, u: Name, d: Direction)
    requires Lossless(t, es)
    ensures HeldBy(Run(t, es).tables, u, d) == HeldBy(t, u, d) + PositiveSteps(History(es, u), d)
  {
    if es != [] {
      var init, e := es[..|es| - 1], es[|es| - 1];
      assert es == init + [e];
      HeldIsMeasured(t, init, u, d);
      HistorySnoc(init, e, u);
      LastIsNewest(t, init, u);
      var st := Run(t, init);
      assert Run(t, es) == Step(st, e);
      hide Run, History, HeldBy, PositiveSteps, NonNegativeRows, RolledUp;
      if Effective(st.paused, e) {
        NewestStep(t, init, e, u, d);
        RowsAreOlder(t, init, e.now);
        SampleExactly(st, e, u, d);
      } else if e.Compress? {
        RollupKeepsUser(st.tables, e.cutoff, u, d);
      }
    }
  }

  lemma SampleExactly(st: State, e: Event, u: Name, d: Direction)
    requires Effective(st.paused, e) && Inserts(st, e)
    requires forall k :: k in st.tables.raw ==> k.ts < e.now
    ensures HeldBy(Step(st, e).tables, u, d) == HeldBy(st.tables, u, d) + BatchBytes(BatchOf(st, e), u, d)
  {
    hide SumWhere, HeldBy;
    HeldByIs(st.tables, u, d);
    HeldByIs(Step(st, e).tables, u, d);
    ScanRows(st.last, e.now, e.users.value, e.stats.value);
    RowsAreFresh(st.tables.raw, BatchOf(st, e), e.now);
    InsertedExactly(st.tables.raw, BatchOf(st, e), u, d);
  }

  // ---------- the positive steps themselves ----------

  /** The observations without the gaps. */
  function Present(h: seq<Observation>): seq<Observation> {
    if h == [] then []
    else if h[|h| - 1].Absent? then Present(h[..|h| - 1])
    else Present(h[..|h| - 1]) + [h[|h| - 1]]
  }

  /** Gaps only lose steps: a history never counts more than its readings alone would. */
  lemma {:induction false} GapsOnlyLose(h: seq<Observation>, d: Direction)
    ensures PositiveSteps(h, d) <= PositiveSteps(Present(h), d)
    ensures h != [] && h[|h| - 1].Seen? ==> Present(h) != [] && Present(h)[|Present(h)| - 1] == h[|h| - 1]
  {
    hide PositiveSteps, Positive, Present;
    if h == [] {
      PresentNothing();
    } else {
      var init, o := h[..|h| - 1], h[|h| - 1];
      assert h == init + [o];
      GapsOnlyLose(init, d);
      PositiveStepsSnoc(init, o, d);
      PositiveStepsSnoc(Present(init), o, d);
      StepsNotNegative(o, d);
      PresentSnoc(init, o);
    }
  }

  lemma PresentNothing()
    ensures Present([]) == []
  {
  }

  lemma PresentSnoc(h: seq<Observation>, o: Observation)
    ensures Present(h + [o]) == if o.Absent? then Present(h) else Present(h) + [o]
  {
    assert (h + [o])[..|h|] == h;
  }

  lemma StepsNotNegative(o: Observation, d: Direction)
    ensures forall a :: StepBetween(a, o, d) >= 0
  {
  }

  ghost predicate NeverDecreases(h: seq<Observation>, d: Direction) {
    && (forall i :: 0 <= i < |h| ==> h[i].Seen?)
    && (forall i :: 0 < i < |h| ==> h[i - 1].counter.In(d) <= h[i].counter.In(d))
  }

  /** Without gaps or resets the positive steps telescope to last minus first reading. */
  lemma {:induction false} StepsTelescope(h: seq<Observation>, d: Direction)
    requires h != [] && NeverDecreases(h, d)
    ensures PositiveSteps(h, d) == h[|h| - 1].counter.In(d) - h[0].counter.In(d)
  {
    if |h| > 1 {
      StepsTelescope(h[..|h| - 1], d);
    }
  }

  /** A lossless run over growing counters holds exactly last minus first reading. */
  lemma HeldTelescopes(t: Tables, es: seq<Event>, u: Name, d: Direction)
    requires Lossless(t, es)
    requires History(es, u) != [] && NeverDecreases(History(es, u), d)
    ensures var h := History(es, u);
      HeldBy(Run(t, es).tables, u, d) - HeldBy(t, u, d) == h[|h| - 1].counter.In(d) - h[0].counter.In(d)
  {
    HeldIsMeasured(t, es, u, d);
    StepsTelescope(History(es, u), d);
  }
}
