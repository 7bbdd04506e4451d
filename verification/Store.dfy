/** The traffic tables of the statistics database: raw samples and the 8-hour
    rollup, with the transactions that change them and the combined report. */
module Store {
  import opened Amounts

  datatype Sample = Sample(user: Name, ts: nat, amount: Bytes) {
    function At(): Key { Key(user, ts) }
  }

  datatype Tables = Tables(raw: Table, daily: Table)

  const BUCKET: nat := 8 * 3600

  /** The 8-hour bucket a row is rolled up into. */
  function BucketOf(k: Key): Key { Key(k.user, k.ts / BUCKET * BUCKET) }

  // ---------- selections ----------

  function ForUser(u: Name): Key -> bool { (k: Key) => k.user == u }

  function InRange(u: Name, start: int, end: int): Key -> bool {
    (k: Key) => k.user == u && start <= k.ts <= end
  }

  function Older(cutoff: int): Key -> bool { (k: Key) => k.ts < cutoff }

  function Kept(cutoff: int): Key -> bool { (k: Key) => cutoff <= k.ts }

  function And(p: Key -> bool, q: Key -> bool): Key -> bool { (k: Key) => p(k) && q(k) }

  /** Rows older than the cutoff whose bucket satisfies p. */
  function RolledInto(cutoff: int, p: Key -> bool): Key -> bool {
    (k: Key) => k.ts < cutoff && p(BucketOf(k))
  }

  function Bucketed(p: Key -> bool): Key -> bool { (k: Key) => p(BucketOf(k)) }

  function Every(): Key -> bool { (k: Key) => true }

  function Is(g: Key): Key -> bool { (k: Key) => k == g }

  // ---------- inserts ----------

  /** INSERT OR IGNORE under the unique index on (user, ts). */
  function InsertOrIgnore(raw: Table, s: Sample): Table {
    if s.At() in raw then raw else raw[s.At() := s.amount]
  }

  function Inserted(raw: Table, batch: seq<Sample>): Table {
    if batch == [] then raw
    else InsertOrIgnore(Inserted(raw, batch[..|batch| - 1]), batch[|batch| - 1])
  }

  /** What a batch offers to one user. */
  function BatchBytes(batch: seq<Sample>, u: Name, d: Direction): int {
    if batch == [] then 0
    else
      var s := batch[|batch| - 1];
      BatchBytes(batch[..|batch| - 1], u, d) + if s.user == u then s.amount.In(d) else 0
  }

  ghost predicate FreshRows(raw: Table, batch: seq<Sample>) {
    && (forall i :: 0 <= i < |batch| ==> batch[i].At() !in raw)
    && (forall i, j :: 0 <= i < j < |batch| ==> batch[i].At() != batch[j].At())
  }

  ghost predicate NonNegativeRows(batch: seq<Sample>) {
    forall i :: 0 <= i < |batch| ==> NonNegative(batch[i].amount)
  }

  lemma {:induction false} InsertedKeys(raw: Table, batch: seq<Sample>)
    ensures Inserted(raw, batch).Keys == raw.Keys + set i | 0 <= i < |batch| :: batch[i].At()
  {
    if batch != [] {
      InsertedKeys(raw, batch[..|batch| - 1]);
      forall i | 0 <= i < |batch|
        ensures batch[i].At() in Inserted(raw, batch)
      {
        if i < |batch| - 1 { assert batch[i] == batch[..|batch| - 1][i]; }
      }
    }
  }

  /** Sample i is the first of a batch with this key. */
  ghost predicate FirstFor(batch: seq<Sample>, k: Key, i: int) {
    0 <= i < |batch| && batch[i].At() == k && forall j :: 0 <= j < i ==> batch[j].At() != k
  }

  /** A batch changes no row that was there, and of several rows with one new key the first counts. */
  lemma {:induction false} InsertedKeepsFirst(raw: Table, batch: seq<Sample>, k: Key)
    ensures k in raw ==> k in Inserted(raw, batch) && Inserted(raw, batch)[k] == raw[k]
    ensures k !in raw ==> (k in Inserted(raw, batch) <==> exists i :: FirstFor(batch, k, i))
    ensures k !in raw ==> forall i :: FirstFor(batch, k, i) ==> Inserted(raw, batch)[k] == batch[i].amount
  {
    if batch != [] {
      var init, s := batch[..|batch| - 1], batch[|batch| - 1];
      InsertedKeepsFirst(raw, init, k);
      assert forall i :: 0 <= i < |init| ==> init[i] == batch[i];
      assert forall i :: i < |init| ==> (FirstFor(batch, k, i) <==> FirstFor(init, k, i));
      assert FirstFor(batch, k, |init|) <==> s.At() == k && forall j :: 0 <= j < |init| ==> init[j].At() != k;
      if s.At() == k && k !in Inserted(raw, init) && k !in raw {
        FirstOrNone(init, k);
        assert FirstFor(batch, k, |init|);
      }
    }
  }

  lemma FirstOrNone(batch: seq<Sample>, k: Key)
    ensures (exists i :: FirstFor(batch, k, i)) || forall j :: 0 <= j < |batch| ==> batch[j].At() != k
  {
    var i := 0;
    while i < |batch| && batch[i].At() != k
      invariant 0 <= i <= |batch| && forall j :: 0 <= j < i ==> batch[j].At() != k
    {
      i := i + 1;
    }
    if i < |batch| { assert FirstFor(batch, k, i); }
  }

  /** A batch never adds more to a user than it offers, ignored rows included. */
  lemma {:induction false} InsertedAtMost(raw: Table, batch: seq<Sample>, u: Name, d: Direction)
    requires AllNonNegative(raw) && NonNegativeRows(batch)
    ensures AllNonNegative(Inserted(raw, batch))
    ensures SumWhere(Inserted(raw, batch), ForUser(u), d) <= SumWhere(raw, ForUser(u), d) + BatchBytes(batch, u, d)
  {
    if batch != [] {
      var init, s := batch[..|batch| - 1], batch[|batch| - 1];
      InsertedAtMost(raw, init, u, d);
      SumWherePut(Inserted(raw, init), s.At(), s.amount, ForUser(u), d);
    }
  }

  /** With fresh, distinct keys nothing is ignored. */
  lemma {:induction false} InsertedExactly(raw: Table, batch: seq<Sample>, u: Name, d: Direction)
    requires FreshRows(raw, batch)
    ensures SumWhere(Inserted(raw, batch), ForUser(u), d) == SumWhere(raw, ForUser(u), d) + BatchBytes(batch, u, d)
  {
    hide SumWhere;
    if batch != [] {
      var init, s := batch[..|batch| - 1], batch[|batch| - 1];
      InsertedExactly(raw, init, u, d);
      InsertedKeys(raw, init);
      assert s.At() !in Inserted(raw, init);
      SumWherePut(Inserted(raw, init), s.At(), s.amount, ForUser(u), d);
    }
  }

  // ---------- rollup ----------

  function Groups(raw: Table, cutoff: int): set<Key> {
    set k | k in raw && k.ts < cutoff :: BucketOf(k)
  }

  /** One row of the aggregate query: the sum over the old rows of a group. */
  ghost function GroupSum(raw: Table, cutoff: int, g: Key): Bytes {
    Bytes(SumWhere(raw, RolledInto(cutoff, Is(g)), Up), SumWhere(raw, RolledInto(cutoff, Is(g)), Down))
  }

  /** The upsert: every group's sum is added to its daily row. */
  ghost function Upserted(t: Tables, cutoff: int): Table {
    map g | g in t.daily.Keys + Groups(t.raw, cutoff) :: Cell(t.daily, g).Plus(GroupSum(t.raw, cutoff, g))
  }

  ghost function RolledUp(t: Tables, cutoff: int): Tables {
    Tables(Keep(t.raw, Kept(cutoff)), Upserted(t, cutoff))
  }

  function Pruned(t: Tables, cutoff: int): Tables {
    t.(raw := Keep(t.raw, Kept(cutoff)))
  }

  /** Moving a single old row into its bucket. */
  function MoveRow(t: Tables, k: Key): Tables
    requires k in t.raw
  {
    Tables(Without(t.raw, k), t.daily[BucketOf(k) := Cell(t.daily, BucketOf(k)).Plus(t.raw[k])])
  }

  lemma GroupsMove(raw: Table, cutoff: int, k: Key)
    requires k in raw && k.ts < cutoff
    ensures Groups(raw, cutoff) == Groups(Without(raw, k), cutoff) + {BucketOf(k)}
  {
    var rest := Without(raw, k);
    forall g | g in Groups(raw, cutoff)
      ensures g in Groups(rest, cutoff) + {BucketOf(k)}
    {
      var x :| x in raw && x.ts < cutoff && BucketOf(x) == g;
      assert x == k || x in rest;
    }
  }

  lemma CellMoves(t: Tables, cutoff: int, k: Key, g: Key)
    requires k in t.raw && k.ts < cutoff
    ensures Cell(t.daily, g).Plus(GroupSum(t.raw, cutoff, g))
         == Cell(MoveRow(t, k).daily, g).Plus(GroupSum(MoveRow(t, k).raw, cutoff, g))
  {
    hide SumWhere, BucketOf;
    SumWhereDrop(t.raw, k, RolledInto(cutoff, Is(g)), Up);
    SumWhereDrop(t.raw, k, RolledInto(cutoff, Is(g)), Down);
  }

  lemma MovedKeys(t: Tables, cutoff: int, k: Key)
    requires k in t.raw && k.ts < cutoff
    ensures Upserted(MoveRow(t, k), cutoff).Keys == Upserted(t, cutoff).Keys
  {
    hide SumWhere, GroupSum, Cell, BucketOf, Bytes.Plus;
    GroupsMove(t.raw, cutoff, k);
    var m := MoveRow(t, k);
    assert m.daily.Keys == t.daily.Keys + {BucketOf(k)} && m.raw == Without(t.raw, k);
  }

  lemma UpsertedMoves(t: Tables, cutoff: int, k: Key)
    requires k in t.raw && k.ts < cutoff
    ensures Upserted(MoveRow(t, k), cutoff) == Upserted(t, cutoff)
  {
    hide SumWhere, GroupSum, Cell, Groups, BucketOf, Bytes.Plus;
    var m := MoveRow(t, k);
    MovedKeys(t, cutoff, k);
    hide MoveRow;
    forall g | g in Upserted(t, cutoff)
      ensures Upserted(t, cutoff)[g] == Upserted(m, cutoff)[g]
    {
      CellMoves(t, cutoff, k, g);
    }
  }

  lemma MoveRowFirst(t: Tables, cutoff: int, k: Key)
    requires k in t.raw && k.ts < cutoff
    ensures RolledUp(MoveRow(t, k), cutoff) == RolledUp(t, cutoff)
  {
    hide Upserted;
    UpsertedMoves(t, cutoff, k);
    assert Keep(MoveRow(t, k).raw, Kept(cutoff)) == Keep(t.raw, Kept(cutoff));
  }

  /** The rollup adds to any selection of buckets exactly the old rows that fall into it. */
  lemma {:induction false} DailyAfter(t: Tables, cutoff: int, p: Key -> bool, d: Direction)
    ensures SumWhere(RolledUp(t, cutoff).daily, p, d)
         == SumWhere(t.daily, p, d) + SumWhere(t.raw, RolledInto(cutoff, p), d)
    decreases |Select(t.raw, Older(cutoff))|
  {
    hide SumWhere, RolledUp, BucketOf;
    var pending := Select(t.raw, Older(cutoff));
    if pending == {} {
      NothingOld(t, cutoff, p, d);
    } else {
      var k :| k in pending;
      var m := MoveRow(t, k);
      assert Select(m.raw, Older(cutoff)) == pending - {k};
      DailyAfter(m, cutoff, p, d);
      MoveRowFirst(t, cutoff, k);
      SumWhereDrop(t.raw, k, RolledInto(cutoff, p), d);
      SumWherePut(t.daily, BucketOf(k), Cell(t.daily, BucketOf(k)).Plus(t.raw[k]), p, d);
    }
  }

  lemma NothingOld(t: Tables, cutoff: int, p: Key -> bool, d: Direction)
    requires Select(t.raw, Older(cutoff)) == {}
    ensures RolledUp(t, cutoff) == t
    ensures SumWhere(t.raw, RolledInto(cutoff, p), d) == 0
  {
    hide SumWhere;
    assert forall k :: k in t.raw ==> k !in Select(t.raw, Older(cutoff));
    SumWhereNothing(t.raw, RolledInto(cutoff, p), d);
    assert Keep(t.raw, Kept(cutoff)) == t.raw;
    assert Groups(t.raw, cutoff) == {};
    hide Groups, GroupSum, Bytes.Plus, Keep;
    forall g | g in t.daily
      ensures Upserted(t, cutoff)[g] == t.daily[g]
    {
      NothingAdded(t, cutoff, g);
    }
    assert Upserted(t, cutoff) == t.daily;
  }

  lemma NothingAdded(t: Tables, cutoff: int, g: Key)
    requires forall k :: k in t.raw ==> cutoff <= k.ts
    ensures g in t.daily ==> Cell(t.daily, g).Plus(GroupSum(t.raw, cutoff, g)) == t.daily[g]
  {
    hide SumWhere;
    SumWhereNothing(t.raw, RolledInto(cutoff, Is(g)), Up);
    SumWhereNothing(t.raw, RolledInto(cutoff, Is(g)), Down);
  }

  /** What both tables hold for a selection of buckets. */
  ghost function Held(t: Tables, p: Key -> bool, d: Direction): int {
    SumWhere(t.raw, Bucketed(p), d) + SumWhere(t.daily, p, d)
  }

  /** A rollup moves bytes between the tables and loses none, bucket by bucket and
      user by user: p may pick any set of (user, bucket) pairs. */
  lemma RollupConserves(t: Tables, cutoff: int, p: Key -> bool, d: Direction)
    ensures Held(RolledUp(t, cutoff), p, d) == Held(t, p, d)
  {
    hide SumWhere, Upserted;
    DailyAfter(t, cutoff, p, d);
    SumWhereLose(t.raw, Kept(cutoff), Bucketed(p), RolledInto(cutoff, p), d);
  }

  /** Rolling up twice is rolling up once, at the later cutoff. */
  lemma RollupTwice(t: Tables, c: int, d: int)
    ensures RolledUp(RolledUp(t, c), d) == RolledUp(t, if c < d then d else c)
  {
    hide Upserted;
    assert Keep(RolledUp(t, c).raw, Kept(d)) == Keep(t.raw, Kept(if c < d then d else c));
    UpsertedTwice(t, c, d);
  }

  lemma UpsertedTwice(t: Tables, c: int, d: int)
    ensures Upserted(RolledUp(t, c), d) == Upserted(t, if c < d then d else c)
  {
    hide SumWhere, GroupSum, Groups, BucketOf, Keep, Cell, RolledUp, Bytes.Plus;
    KeysTwice(t, c, d);
    forall g | g in Upserted(t, if c < d then d else c)
      ensures Upserted(RolledUp(t, c), d)[g] == Upserted(t, if c < d then d else c)[g]
    {
      CellTwice(t, c, d, g);
    }
  }

  lemma KeysTwice(t: Tables, c: int, d: int)
    ensures Upserted(RolledUp(t, c), d).Keys == Upserted(t, if c < d then d else c).Keys
  {
    hide SumWhere, GroupSum, Groups, BucketOf, Keep, Cell, Bytes.Plus;
    GroupsUnion(t.raw, c, d);
  }

  lemma CellTwice(t: Tables, c: int, d: int, g: Key)
    ensures Cell(RolledUp(t, c).daily, g).Plus(GroupSum(RolledUp(t, c).raw, d, g))
         == Cell(t.daily, g).Plus(GroupSum(t.raw, if c < d then d else c, g))
  {
    hide SumWhere, GroupSum, Groups, BucketOf, Keep;
    GroupSumAdds(t.raw, c, d, g);
    if g !in RolledUp(t, c).daily { NoGroupNoSum(t.raw, c, g); }
  }

  lemma GroupsUnion(raw: Table, c: int, d: int)
    ensures Groups(raw, if c < d then d else c) == Groups(raw, c) + Groups(Keep(raw, Kept(c)), d)
  {
    var m := if c < d then d else c;
    forall g | g in Groups(raw, m)
      ensures g in Groups(raw, c) + Groups(Keep(raw, Kept(c)), d)
    {
      var x :| x in raw && x.ts < m && BucketOf(x) == g;
      assert x.ts < c || x in Keep(raw, Kept(c));
    }
  }

  lemma GroupSumAdds(raw: Table, c: int, d: int, g: Key)
    ensures GroupSum(raw, if c < d then d else c, g)
         == GroupSum(raw, c, g).Plus(GroupSum(Keep(raw, Kept(c)), d, g))
  {
    hide SumWhere, BucketOf;
    SumAdds(raw, c, d, g, Up);
    SumAdds(raw, c, d, g, Down);
  }

  lemma SumAdds(raw: Table, c: int, d: int, g: Key, dir: Direction)
    ensures SumWhere(raw, RolledInto(if c < d then d else c, Is(g)), dir)
         == SumWhere(raw, RolledInto(c, Is(g)), dir) + SumWhere(Keep(raw, Kept(c)), RolledInto(d, Is(g)), dir)
  {
    hide SumWhere, BucketOf;
    var m := if c < d then d else c;
    var later := (k: Key) => c <= k.ts < d && BucketOf(k) == g;
    SumWhereKeep(raw, Kept(c), RolledInto(d, Is(g)), later, dir);
    SumWhereSplit(raw, RolledInto(m, Is(g)), RolledInto(c, Is(g)), later, dir);
  }

  lemma NoGroupNoSum(raw: Table, cutoff: int, g: Key)
    requires g !in Groups(raw, cutoff)
    ensures GroupSum(raw, cutoff, g) == ZERO
  {
    assert forall k :: k in raw && k.ts < cutoff ==> BucketOf(k) in Groups(raw, cutoff);
    SumWhereNothing(raw, RolledInto(cutoff, Is(g)), Up);
    SumWhereNothing(raw, RolledInto(cutoff, Is(g)), Down);
  }

  ghost function RolledUpAll(t: Tables, cutoffs: seq<int>): Tables {
    if cutoffs == [] then t else RolledUp(RolledUpAll(t, cutoffs[..|cutoffs| - 1]), cutoffs[|cutoffs| - 1])
  }

  ghost predicate IsMax(m: int, s: seq<int>) {
    m in s && forall i :: 0 <= i < |s| ==> s[i] <= m
  }

  /** Any sequence of rollups equals the one rollup at its largest cutoff. */
  lemma {:induction false} RollupsCollapse(t: Tables, cutoffs: seq<int>, m: int)
    requires IsMax(m, cutoffs)
    ensures RolledUpAll(t, cutoffs) == RolledUp(t, m)
  {
    hide RolledUp;
    var init, c := cutoffs[..|cutoffs| - 1], cutoffs[|cutoffs| - 1];
    if init == [] {
      assert m == c;
    } else {
      var n := MaxOf(init);
      RollupsCollapse(t, init, n);
      RollupTwice(t, n, c);
      assert m == if n < c then c else n by {
        assert m in init || m == c;
      }
    }
  }

  lemma {:induction false} MaxOf(s: seq<int>) returns (m: int)
    requires s != []
    ensures IsMax(m, s)
  {
    if |s| == 1 {
      m := s[0];
    } else {
      m := MaxOf(s[1..]);
      m := if m < s[0] then s[0] else m;
    }
  }

  // ---------- combined report ----------

  /** Rows of the report: rolled-up rows and raw rows of the user inside [start, end]. */
  function Report(t: Tables, u: Name, start: int, end: int): (Table, Table) {
    (Keep(t.daily, InRange(u, start, end)), Keep(t.raw, InRange(u, start, end)))
  }

  ghost function ReportTotal(t: Tables, u: Name, start: int, end: int, d: Direction): int {
    var (daily, raw) := Report(t, u, start, end);
    SumWhere(daily, Every(), d) + SumWhere(raw, Every(), d)
  }

  lemma ReportTotalIs(t: Tables, u: Name, start: int, end: int, d: Direction)
    ensures ReportTotal(t, u, start, end, d)
         == SumWhere(t.daily, InRange(u, start, end), d) + SumWhere(t.raw, InRange(u, start, end), d)
  {
    hide SumWhere;
    SumWhereKeep(t.daily, InRange(u, start, end), Every(), InRange(u, start, end), d);
    SumWhereKeep(t.raw, InRange(u, start, end), Every(), InRange(u, start, end), d);
  }

  function CeilBucket(ts: int): int { (ts + BUCKET - 1) / BUCKET * BUCKET }

  function LastOfBucket(ts: int): int { ts / BUCKET * BUCKET + BUCKET - 1 }

  lemma BucketInRange(ts: nat, start: int, end: int)
    ensures start <= ts / BUCKET * BUCKET <= end <==> CeilBucket(start) <= ts <= LastOfBucket(end)
  {
    var b, s, e := ts / BUCKET, (start + BUCKET - 1) / BUCKET, end / BUCKET;
    assert start <= b * BUCKET <==> s <= b;
    assert b * BUCKET <= end <==> b <= e;
  }

  /** Rows that a report counts once those older than the cutoff have been rolled up. */
  function CountedAfter(cutoff: int, u: Name, start: int, end: int): Key -> bool {
    (k: Key) => k.user == u && if k.ts < cutoff then CeilBucket(start) <= k.ts <= LastOfBucket(end)
                               else start <= k.ts <= end
  }

  /** After a rollup the report counts an old row exactly when its time lies in
      [ceil(start), floor(end) + 28799], and a row still raw exactly when in [start, end]. */
  lemma ReportAfterRollup(t: Tables, cutoff: int, u: Name, start: int, end: int, d: Direction)
    ensures ReportTotal(RolledUp(t, cutoff), u, start, end, d)
         == SumWhere(t.daily, InRange(u, start, end), d) + SumWhere(t.raw, CountedAfter(cutoff, u, start, end), d)
  {
    hide SumWhere, Upserted;
    var p := InRange(u, start, end);
    ReportTotalIs(RolledUp(t, cutoff), u, start, end, d);
    DailyAfter(t, cutoff, p, d);
    forall k: Key
      ensures p(BucketOf(k)) == InRange(u, CeilBucket(start), LastOfBucket(end))(k)
    {
      BucketInRange(k.ts, start, end);
    }
    SumWhereKeep(t.raw, Kept(cutoff), p, And(Kept(cutoff), p), d);
    SumWhereSplit(t.raw, CountedAfter(cutoff, u, start, end), RolledInto(cutoff, p), And(Kept(cutoff), p), d);
  }

  ghost predicate ReportStable(u: Name, start: int, end: int) {
    forall t, cutoff, d :: ReportTotal(RolledUp(t, cutoff), u, start, end, d) == ReportTotal(t, u, start, end, d)
  }

  /** The range ends on bucket boundaries, timestamps being non-negative. */
  predicate Aligned(start: int, end: int) {
    (start <= 0 || start % 28800 == 0) && (end + 1) % 28800 == 0
  }

  /** No rollup ever changes the report of a range, whatever the tables hold, exactly
      when the range is aligned (or holds no timestamp at all). */
  lemma ReportStableExactly(u: Name, start: int, end: int)
    ensures ReportStable(u, start, end) <==> Aligned(start, end) || end < start || end < 0
  {
    hide SumWhere, RolledUp, ReportTotal;
    if Aligned(start, end) || end < start || end < 0 {
      forall t, cutoff, d
        ensures ReportTotal(RolledUp(t, cutoff), u, start, end, d) == ReportTotal(t, u, start, end, d)
      {
        AlignedReport(t, cutoff, u, start, end, d);
      }
    } else if start > 0 && start % BUCKET != 0 {
      OneRowReport(u, start, end, start);
    } else {
      OneRowReport(u, start, end, end + 1);
    }
  }

  lemma AlignedStart(start: int)
    ensures start % BUCKET == 0 ==> CeilBucket(start) == start
    ensures start <= 0 ==> CeilBucket(start) <= 0
  {
  }

  lemma AlignedEnd(end: int)
    ensures (end + 1) % BUCKET == 0 ==> LastOfBucket(end) == end
    ensures end < 0 ==> LastOfBucket(end) < 0
  {
  }

  lemma AlignedCounts(ts: nat, start: int, end: int)
    requires Aligned(start, end) || end < start || end < 0
    ensures CeilBucket(start) <= ts <= LastOfBucket(end) <==> start <= ts <= end
  {
    hide CeilBucket, LastOfBucket;
    AlignedStart(start);
    AlignedEnd(end);
    if end < start { BucketInRange(ts, start, end); }
  }

  lemma AlignedReport(t: Tables, cutoff: int, u: Name, start: int, end: int, d: Direction)
    requires Aligned(start, end) || end < start || end < 0
    ensures ReportTotal(RolledUp(t, cutoff), u, start, end, d) == ReportTotal(t, u, start, end, d)
  {
    hide SumWhere, RolledUp, ReportTotal;
    ReportAfterRollup(t, cutoff, u, start, end, d);
    ReportTotalIs(t, u, start, end, d);
    forall k: Key
      ensures CountedAfter(cutoff, u, start, end)(k) == InRange(u, start, end)(k)
    {
      AlignedCounts(k.ts, start, end);
    }
    SumWhereSame(t.raw, CountedAfter(cutoff, u, start, end), InRange(u, start, end), d);
  }

  /** A single raw row at ts enters or leaves the report when it is rolled up. */
  lemma OneRowReport(u: Name, start: int, end: int, ts: nat)
    requires (start <= ts <= end) != (CeilBucket(start) <= ts <= LastOfBucket(end))
    ensures !ReportStable(u, start, end)
  {
    hide SumWhere, RolledUp, ReportTotal;
    var k, v := Key(u, ts), Bytes(1, 1);
    var t := Tables(map[k := v], map[]);
    ReportTotalIs(t, u, start, end, Up);
    ReportAfterRollup(t, ts + 1, u, start, end, Up);
    SumWhereOneRow(k, v, InRange(u, start, end), Up);
    SumWhereOneRow(k, v, CountedAfter(ts + 1, u, start, end), Up);
    assert ReportTotal(RolledUp(t, ts + 1), u, start, end, Up) != ReportTotal(t, u, start, end, Up);
  }
}
