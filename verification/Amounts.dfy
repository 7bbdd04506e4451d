/** Byte amounts, tables of amounts keyed by (user, timestamp), and sums over
    selected rows, taken in either direction. */
module Amounts {
  datatype Direction = Up | Down

  datatype Bytes = Bytes(up: int, down: int) {
    function In(d: Direction): int { if d == Up then up else down }
    function Plus(o: Bytes): Bytes { Bytes(up + o.up, down + o.down) }
  }

  const ZERO := Bytes(0, 0)

  /** A user name, compared as a whole. */
  datatype Name = Name(text: string)

  datatype Key = Key(user: Name, ts: nat)

  type Table = map<Key, Bytes>

  /** The value of a cell, a missing row reading as zero. */
  function Cell(t: Table, k: Key): Bytes {
    if k in t then t[k] else ZERO
  }

  /** Growth of a counter; none when it went backwards. */
  function Positive(prev: int, cur: int): int {
    if cur - prev < 0 then 0 else cur - prev
  }

  ghost predicate NonNegative(b: Bytes) { 0 <= b.up && 0 <= b.down }

  ghost predicate AllNonNegative(t: Table) {
    forall k :: k in t ==> NonNegative(t[k])
  }

  /** The rows of t whose key satisfies q. */
  function Keep(t: Table, q: Key -> bool): Table {
    map k | k in t && q(k) :: t[k]
  }

  function Without(t: Table, k: Key): Table {
    map x | x in t && x != k :: t[x]
  }

  ghost function SumOver(ks: set<Key>, t: Table, d: Direction): int
    requires ks <= t.Keys
  {
    if ks == {} then 0
    else
      var k :| k in ks;
      t[k].In(d) + SumOver(ks - {k}, t, d)
  }

  ghost function Select(t: Table, p: Key -> bool): set<Key> {
    set k | k in t && p(k)
  }

  /** SELECT SUM(uplink) or SUM(downlink) FROM t WHERE p, with NULL read as 0. */
  ghost function SumWhere(t: Table, p: Key -> bool, d: Direction): int {
    SumOver(Select(t, p), t, d)
  }

  lemma {:induction false} SumStep(ks: set<Key>, t: Table, k: Key, d: Direction)
    requires ks <= t.Keys && k in ks
    ensures SumOver(ks, t, d) == t[k].In(d) + SumOver(ks - {k}, t, d)
  {
    var c :| c in ks && SumOver(ks, t, d) == t[c].In(d) + SumOver(ks - {c}, t, d);
    if c != k {
      SumStep(ks - {c}, t, k, d);
      SumStep(ks - {k}, t, c, d);
      assert ks - {c} - {k} == ks - {k} - {c};
    }
  }

  lemma {:induction false} SumAgree(ks: set<Key>, t: Table, u: Table, d: Direction)
    requires ks <= t.Keys && ks <= u.Keys
    requires forall k :: k in ks ==> t[k] == u[k]
    ensures SumOver(ks, t, d) == SumOver(ks, u, d)
  {
    if ks != {} {
      var k :| k in ks;
      SumStep(ks, t, k, d);
      SumStep(ks, u, k, d);
      SumAgree(ks - {k}, t, u, d);
    }
  }

  lemma {:induction false} SumUnion(a: set<Key>, b: set<Key>, t: Table, d: Direction)
    requires a <= t.Keys && b <= t.Keys && a !! b
    ensures SumOver(a + b, t, d) == SumOver(a, t, d) + SumOver(b, t, d)
  {
    if a == {} {
      assert a + b == b;
    } else {
      var k :| k in a;
      SumStep(a, t, k, d);
      SumStep(a + b, t, k, d);
      assert a + b - {k} == (a - {k}) + b;
      SumUnion(a - {k}, b, t, d);
    }
  }

  lemma {:induction false} SumNonNegative(ks: set<Key>, t: Table, d: Direction)
    requires ks <= t.Keys && AllNonNegative(t)
    ensures SumOver(ks, t, d) >= 0
  {
    if ks != {} {
      var k :| k in ks;
      SumStep(ks, t, k, d);
      SumNonNegative(ks - {k}, t, d);
    }
  }

  lemma SumWhereNonNegative(t: Table, p: Key -> bool, d: Direction)
    requires AllNonNegative(t)
    ensures SumWhere(t, p, d) >= 0
  {
    SumNonNegative(Select(t, p), t, d);
  }

  lemma SumWhereNothing(t: Table, p: Key -> bool, d: Direction)
    requires forall k :: k in t ==> !p(k)
    ensures SumWhere(t, p, d) == 0
  {
    assert Select(t, p) == {};
  }

  lemma SumWhereSame(t: Table, p: Key -> bool, q: Key -> bool, d: Direction)
    requires forall k :: k in t ==> p(k) == q(k)
    ensures SumWhere(t, p, d) == SumWhere(t, q, d)
  {
    assert Select(t, p) == Select(t, q);
  }

  /** If q and r partition the rows selected by p, the sum splits. */
  lemma SumWhereSplit(t: Table, p: Key -> bool, q: Key -> bool, r: Key -> bool, d: Direction)
    requires forall k :: k in t ==> p(k) == (q(k) || r(k)) && !(q(k) && r(k))
    ensures SumWhere(t, p, d) == SumWhere(t, q, d) + SumWhere(t, r, d)
  {
    assert Select(t, p) == Select(t, q) + Select(t, r);
    SumUnion(Select(t, q), Select(t, r), t, d);
  }

  lemma SumWhereKeep(t: Table, q: Key -> bool, p: Key -> bool, r: Key -> bool, d: Direction)
    requires forall k :: k in t ==> r(k) == (p(k) && q(k))
    ensures SumWhere(Keep(t, q), p, d) == SumWhere(t, r, d)
  {
    assert Select(Keep(t, q), p) == Select(t, r);
    SumAgree(Select(t, r), Keep(t, q), t, d);
  }

  /** Keeping the rows with q loses exactly the rows selected by r. */
  lemma SumWhereLose(t: Table, q: Key -> bool, p: Key -> bool, r: Key -> bool, d: Direction)
    requires forall k :: k in t ==> r(k) == (p(k) && !q(k))
    ensures SumWhere(t, p, d) == SumWhere(Keep(t, q), p, d) + SumWhere(t, r, d)
  {
    var both := (k: Key) => p(k) && q(k);
    SumWhereKeep(t, q, p, both, d);
    SumWhereSplit(t, p, both, r, d);
  }

  /** Writing one cell changes a sum by that cell's change. */
  lemma SumWherePut(t: Table, k: Key, v: Bytes, p: Key -> bool, d: Direction)
    ensures SumWhere(t[k := v], p, d) == SumWhere(t, p, d) + if p(k) then v.In(d) - Cell(t, k).In(d) else 0
  {
    var u := t[k := v];
    var rest := Select(t, p) - {k};
    assert rest == Select(u, p) - {k};
    SumAgree(rest, t, u, d);
    if p(k) {
      SumStep(Select(u, p), u, k, d);
      if k in t { SumStep(Select(t, p), t, k, d); } else { assert rest == Select(t, p); }
    } else {
      assert Select(u, p) == rest == Select(t, p);
    }
  }

  lemma SumWhereDrop(t: Table, k: Key, p: Key -> bool, d: Direction)
    requires k in t
    ensures SumWhere(t, p, d) == SumWhere(Without(t, k), p, d) + if p(k) then t[k].In(d) else 0
  {
    hide SumWhere;
    var u := Without(t, k);
    assert u[k := t[k]] == t;
    SumWherePut(u, k, t[k], p, d);
  }

  lemma SumWhereOneRow(k: Key, v: Bytes, p: Key -> bool, d: Direction)
    ensures SumWhere(map[k := v], p, d) == if p(k) then v.In(d) else 0
  {
    var none: Table := map[];
    SumWhereNothing(none, p, d);
    assert none[k := v] == map[k := v];
    SumWherePut(none, k, v, p, d);
  }
}
