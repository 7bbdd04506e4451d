/** Runs of the peer handlers over the configuration file itself: every operation loads the
    text the previous one saved. */
module WgRuns {
  import opened Common
  import opened Ascii
  import opened Ipv4
  import opened Ipv4Text
  import opened Lines
  import opened WgConfig
  import opened WgFile
  import opened WgRoundTrip
  import opened WgBlocks
  import opened WgLined
  import opened WgLimits
  import opened WgPeers
  import opened WgHandlers

  // ---------- lists of peers ----------

  ghost predicate GoodPeers(ps: seq<Peer>) { DistinctKeys(ps) && DistinctAddresses(ps) }

  /** The peers `qs` fit beside `ps`: distinct among themselves and from those. */
  ghost predicate Clear(ps: seq<Peer>, qs: seq<Peer>) {
    GoodPeers(qs) && forall i, j :: 0 <= i < |ps| && 0 <= j < |qs| ==> Apart(ps[i], qs[j])
  }

  predicate Apart(p: Peer, q: Peer) {
    p.publicKey != q.publicKey && (PrimaryAddr(p).Some? ==> PrimaryAddr(p) != PrimaryAddr(q))
  }

  lemma GoodMeansApart(ps: seq<Peer>)
    ensures GoodPeers(ps) <==> forall i, j :: 0 <= i < j < |ps| ==> Apart(ps[i], ps[j])
  {
    hide PrimaryAddr;
  }

  lemma SamePeersGood(a: seq<Peer>, b: seq<Peer>)
    requires SamePeers(a, b)
    ensures GoodPeers(a) <==> GoodPeers(b)
  {
    hide EntryAddr, First;
    assert forall i :: 0 <= i < |a| ==> PrimaryAddr(a[i]) == PrimaryAddr(b[i]);
  }

  lemma SplicedGoodIf(a: seq<Peer>, s: seq<Peer>, b: seq<Peer>)
    requires GoodPeers(a + b) && Clear(a + b, s)
    ensures GoodPeers(a + s + b)
  {
    hide Apart, DistinctKeys, DistinctAddresses;
    var all, rest := a + s + b, a + b;
    GoodMeansApart(all);
    GoodMeansApart(rest);
    GoodMeansApart(s);
    ApartBothWays();
    hide GoodPeers;
    forall i, j | 0 <= i < j < |all| ensures Apart(all[i], all[j]) {
      if |a| <= i < |a| + |s| {
        if j < |a| + |s| { assert Apart(s[i - |a|], s[j - |a|]); } else { assert Apart(rest[j - |s|], s[i - |a|]); }
      } else if |a| <= j < |a| + |s| {
        assert Apart(rest[i], s[j - |a|]);
      } else {
        assert Apart(rest[if i < |a| then i else i - |s|], rest[if j < |a| then j else j - |s|]);
      }
    }
  }

  lemma SplicedGoodOnlyIf(a: seq<Peer>, s: seq<Peer>, b: seq<Peer>)
    requires GoodPeers(a + s + b)
    ensures Clear(a + b, s)
  {
    hide Apart, DistinctKeys, DistinctAddresses;
    var all, rest := a + s + b, a + b;
    GoodMeansApart(all);
    GoodMeansApart(s);
    ApartBothWays();
    hide GoodPeers;
    forall i, j | 0 <= i < j < |s| ensures Apart(s[i], s[j]) { assert Apart(all[|a| + i], all[|a| + j]); }
    forall i, j | 0 <= i < |rest| && 0 <= j < |s| ensures Apart(rest[i], s[j]) {
      if i < |a| { assert Apart(all[i], all[|a| + j]); } else { assert Apart(all[|a| + j], all[i + |s|]); }
    }
  }

  /** Peers put between others keep the list good exactly when they fit beside those. */
  lemma SplicedGood(a: seq<Peer>, s: seq<Peer>, b: seq<Peer>)
    requires GoodPeers(a + b)
    ensures GoodPeers(a + s + b) <==> Clear(a + b, s)
  {
    hide GoodPeers, Clear;
    if Clear(a + b, s) { SplicedGoodIf(a, s, b); }
    if GoodPeers(a + s + b) { SplicedGoodOnlyIf(a, s, b); }
  }

  lemma ApartBothWays()
    ensures forall p, q :: Apart(p, q) ==> Apart(q, p)
  {
    hide PrimaryAddr;
  }

  // ---------- one save ----------

  /** For peers with any text in their fields, of any length: a save is read back with distinct
      keys and addresses exactly when the peers its blocks spell are distinct. */
  lemma SavedGoodExactly(c: Config, derive: Derive)
    requires LoadableInterface(c.iface)
    ensures Good(Load(Print(c), derive)) <==> (Short(InterfaceLines(c.iface)) ==> GoodPeers(Seen(c.peers)))
  {
    hide Load, Print, Seen, LoadableInterface, InterfaceLines, PrimaryAddr;
    LoadSees(c, derive);
  }

  /** Without newlines in the fields and with short lines, keys and addresses survive the save and
      the next load. */
  lemma SavedStaysGood(c: Config, derive: Derive)
    requires Good(c) && LoadableInterface(c.iface) && ShortConfig(c) && AllLined(c.peers)
    ensures Good(Load(Print(c), derive))
  {
    hide Load, Print, Seen, LoadableInterface, InterfaceLines, PrimaryAddr, LinedPeer, AllShort, AllSlim;
    SavedGoodExactly(c, derive);
    LinedSeen(c.peers);
    SamePeersGood(Seen(c.peers), c.peers);
  }

  // ---------- blocks that are cut ----------

  /** The first block with a line that is too long is cut before its key, and an earlier peer has
      no key either. */
  ghost predicate KeylessTwice(ps: seq<Peer>) {
    exists j, k :: 0 <= j < k < |ps| && AllShort(ps[..k]) && CutBeforeKey(ps[k]) && ps[j].publicKey == ""
  }

  lemma {:induction false} SeenStops(ps: seq<Peer>, k: nat)
    requires k < |ps| && AllShort(ps[..k]) && !Short(BlockLines(ps[k]))
    ensures Seen(ps) == Seen(ps[..k]) + Spelled(ps[k])
  {
    hide Spelled, Short, BlockLines;
    var init := ps[..|ps| - 1];
    if k < |init| {
      assert init[..k] == ps[..k];
      SeenStops(init, k);
      assert !AllShort(init) by { assert init[k] == ps[k]; }
    }
  }

  lemma FirstLong(ps: seq<Peer>) returns (k: nat)
    ensures k <= |ps| && AllShort(ps[..k]) && (k < |ps| ==> !Short(BlockLines(ps[k])))
  {
    hide Short, BlockLines;
    k := 0;
    while k < |ps| && Short(BlockLines(ps[k]))
      invariant k <= |ps| && AllShort(ps[..k])
      decreases |ps| - k
    {
      AllShortSnoc(ps[..k], ps[k]);
      assert ps[..k] + [ps[k]] == ps[..k + 1];
      k := k + 1;
    }
  }

  /** Which peers with distinct keys and addresses are read back so, when no field has a newline:
      the cut block at most adds a peer without a key. */
  lemma LinedGoodExactly(ps: seq<Peer>)
    requires GoodPeers(ps) && AllLined(ps)
    ensures GoodPeers(Seen(ps)) <==> !KeylessTwice(ps)
  {
    hide GoodPeers, LinedPeer, Spelled, Seen, Short, BlockLines, Slim, InBlock, CutBeforeKey, PrimaryAddr;
    var k := FirstLong(ps);
    if k == |ps| {
      assert ps[..k] == ps;
      LinedSeen(ps);
      SamePeersGood(Seen(ps), ps);
      NeverCut(ps);
    } else {
      SeenStops(ps, k);
      LinedSeen(ps[..k]);
      LinedSpells(ps[k]);
      CutIsFirst(ps, k);
      CutAtExactly(ps, k, Spelled(ps[k])[0]);
      SamePeersGood(Seen(ps), ps[..k] + [Spelled(ps[k])[0]]);
    }
  }

  lemma CutIsLong(p: Peer)
    requires LinedPeer(p) && CutBeforeKey(p)
    ensures !Short(BlockLines(p))
  {
    SlimIsShort(p);
  }

  lemma NeverCut(ps: seq<Peer>)
    requires AllLined(ps) && AllShort(ps)
    ensures !KeylessTwice(ps)
  {
    hide LinedPeer, Short, BlockLines, CutBeforeKey;
    forall k | 0 <= k < |ps| ensures !CutBeforeKey(ps[k]) {
      if CutBeforeKey(ps[k]) { CutIsLong(ps[k]); }
    }
  }

  lemma CutIsFirst(ps: seq<Peer>, k: nat)
    requires AllLined(ps) && k < |ps| && AllShort(ps[..k]) && !Short(BlockLines(ps[k]))
    ensures KeylessTwice(ps) <==> CutBeforeKey(ps[k]) && exists j :: 0 <= j < k && ps[j].publicKey == ""
  {
    hide LinedPeer, Short, BlockLines, CutBeforeKey;
    forall i | 0 <= i < |ps| && AllShort(ps[..i]) && CutBeforeKey(ps[i]) ensures i == k {
      CutIsLong(ps[i]);
      assert forall j :: 0 <= j < i ==> ps[..i][j] == ps[j];
      assert forall j :: 0 <= j < k ==> ps[..k][j] == ps[j];
    }
  }

  /** One cut peer behind good ones. */
  lemma CutAtExactly(ps: seq<Peer>, k: nat, r: Peer)
    requires GoodPeers(ps) && k < |ps| && InBlock(ps[k], r)
    requires r.publicKey == if CutBeforeKey(ps[k]) then "" else ps[k].publicKey
    ensures GoodPeers(ps[..k] + [r]) <==> !(CutBeforeKey(ps[k]) && exists j :: 0 <= j < k && ps[j].publicKey == "")
  {
    hide CutBeforeKey, PrimaryAddr, DistinctKeys, DistinctAddresses;
    var all := ps[..k] + [r];
    GoodMeansApart(ps);
    GoodMeansApart(all);
    NoAddress();
    assert all[k] == r && forall i :: 0 <= i < k ==> all[i] == ps[i];
    forall i | 0 <= i < k ensures Apart(all[i], all[k]) <==> ps[i].publicKey != r.publicKey {
      assert Apart(ps[i], ps[k]);
      AddressOf(ps[k], r);
    }
    hide Apart, GoodPeers, InBlock;
    assert (forall i, j :: 0 <= i < j < |all| ==> Apart(all[i], all[j])) <==>
      forall i :: 0 <= i < k ==> Apart(all[i], all[k]) by {
      forall i, j | 0 <= i < j < k ensures Apart(all[i], all[j]) { assert Apart(ps[i], ps[j]); }
    }
    KeysDiffer(ps, k);
  }

  lemma KeysDiffer(ps: seq<Peer>, k: nat)
    requires k < |ps| && forall i, j :: 0 <= i < j < |ps| ==> Apart(ps[i], ps[j])
    ensures forall i :: 0 <= i < k ==> ps[i].publicKey != ps[k].publicKey
  {
    hide PrimaryAddr;
    assert forall i :: 0 <= i < k ==> Apart(ps[i], ps[k]);
  }

  lemma NoAddress()
    ensures forall p: Peer :: p.allowedIPs == "" ==> PrimaryAddr(p).None?
  {
    SplitOne("", ',');
    assert Trim("") == "";
  }

  lemma AddressOf(p: Peer, r: Peer)
    requires InBlock(p, r)
    ensures PrimaryAddr(r).Some? ==> PrimaryAddr(r) == PrimaryAddr(p)
  {
    hide EntryAddr, First, LoadablePeer;
    if r.allowedIPs == "" {
      NoAddress();
      hide PrimaryAddr;
    }
  }

  // ---------- one operation ----------

  predicate IsFirst(ps: seq<Peer>, key: string, m: nat) {
    m < |ps| && ps[m].publicKey == key && forall j :: 0 <= j < m ==> ps[j].publicKey != key
  }

  /** What is read back of `p` written between the loaded peers `a` and `b` is distinct: the peers
      behind a line that is too long are lost. */
  ghost predicate Fitting(a: seq<Peer>, p: Peer, b: seq<Peer>) {
    if !AllShort(a) then !KeylessTwice(a)
    else if !Short(BlockLines(p)) then Clear(a, Spelled(p))
    else if AllShort(b) then Clear(a + b, Spelled(p))
    else GoodPeers(a + Spelled(p) + Seen(b))
  }

  /** What the request spells fits beside the other peers of the configuration. */
  ghost predicate Harmless(c: Config, op: Op) {
    Short(InterfaceLines(c.iface)) ==>
      match op
      case Create(req, pub, priv) =>
        forall p :: Created(c, req, pub, priv, p) ==> Fitting(c.peers, p, [])
      case Update(key, u) =>
        forall m: nat, nets :: IsFirst(c.peers, key, m) && UpdateAllowed(c, key, u, nets) ==>
          Fitting(c.peers[..m], Updated(c.peers[m], Rewritten(u, nets)), c.peers[m + 1..])
      case Delete(key) => !KeylessTwice(OtherPeers(c.peers, key))
  }

  lemma CurrentIsLined(content: Option<string>, derive: Derive)
    ensures var c := Current(content, derive);
      LoadableInterface(c.iface) && AllLined(c.peers) && forall i :: 0 <= i < |c.peers| ==> LoadablePeer(c.peers[i])
  {
    hide Load, LoadableInterface, LoadablePeer, LinedPeer;
    var c := Current(content, derive);
    assert Loadable(c) by {
      if content.Some? { LoadIsLoadable(content.value, derive); } else { EmptyIsLoadable(); }
    }
    LoadedIsLined(c);
  }

  lemma EmptyIsLoadable()
    ensures Loadable(Config(NO_INTERFACE, []))
  {
  }

  lemma {:induction false} SeenBehindLong(a: seq<Peer>, b: seq<Peer>)
    requires !AllShort(a)
    ensures Seen(a + b) == Seen(a)
  {
    hide Spelled, AllShort;
    if b == [] {
      assert a + b == a;
    } else {
      var init := b[..|b| - 1];
      SeenBehindLong(a, init);
      assert (a + b)[..|a + b| - 1] == a + init;
      AllShortAppend(a, init);
    }
  }

  lemma SeenOne(p: Peer)
    ensures Seen([p]) == Spelled(p)
    ensures AllShort([p]) <==> Short(BlockLines(p))
  {
    hide Spelled, Short, BlockLines;
    assert [p][..0] == [] && [] + Spelled(p) == Spelled(p);
    assert [p][0] == p;
  }

  /** What is read back of a list with one peer that may spell anything. */
  lemma SeenAround(a: seq<Peer>, p: Peer, b: seq<Peer>)
    ensures !AllShort(a) ==> Seen(a + [p] + b) == Seen(a)
    ensures AllShort(a) && !Short(BlockLines(p)) ==> Seen(a + [p] + b) == Seen(a) + Spelled(p)
    ensures AllShort(a) && Short(BlockLines(p)) ==> Seen(a + [p] + b) == Seen(a) + Spelled(p) + Seen(b)
  {
    hide AllShort, Spelled, Seen, Short, BlockLines;
    SeenOne(p);
    AllShortAppend(a, [p]);
    if AllShort(a) {
      SeenAppend(a, [p]);
    } else {
      SeenBehindLong(a, [p]);
    }
    if AllShort(a + [p]) { SeenAppend(a + [p], b); } else { SeenBehindLong(a + [p], b); }
  }

  lemma GoodParts(a: seq<Peer>, b: seq<Peer>)
    requires GoodPeers(a + b)
    ensures GoodPeers(a) && GoodPeers(b)
  {
    hide Apart, DistinctKeys, DistinctAddresses;
    GoodMeansApart(a + b);
    GoodMeansApart(a);
    GoodMeansApart(b);
    hide GoodPeers;
    assert forall i :: 0 <= i < |a| ==> (a + b)[i] == a[i];
    assert forall i :: 0 <= i < |b| ==> (a + b)[|a| + i] == b[i];
    forall i, j | 0 <= i < j < |b| ensures Apart(b[i], b[j]) { assert Apart((a + b)[|a| + i], (a + b)[|a| + j]); }
    forall i, j | 0 <= i < j < |a| ensures Apart(a[i], a[j]) { assert Apart((a + b)[i], (a + b)[j]); }
  }

  lemma FittingExactly(a: seq<Peer>, p: Peer, b: seq<Peer>)
    requires AllLined(a) && AllLined(b) && GoodPeers(a + b)
    ensures GoodPeers(Seen(a + [p] + b)) <==> Fitting(a, p, b)
  {
    hide AllLined, AllShort, AllSlim, Seen, Spelled, Short, BlockLines, GoodPeers, Clear, KeylessTwice, SamePeers;
    SeenAround(a, p, b);
    GoodParts(a, b);
    LinedSeen(a);
    LinedSeen(b);
    if !AllShort(a) {
      LinedGoodExactly(a);
    } else if !Short(BlockLines(p)) {
      SameTogether(Seen(a), a, Spelled(p), [], []);
      SamePeersGood(Seen(a) + Spelled(p), a + Spelled(p));
      assert a + [] == a;
      SplicedGood(a, Spelled(p), []);
      assert a + Spelled(p) + [] == a + Spelled(p);
    } else if AllShort(b) {
      SameTogether(Seen(a), a, Spelled(p), Seen(b), b);
      SamePeersGood(Seen(a) + Spelled(p) + Seen(b), a + Spelled(p) + b);
      SplicedGood(a, Spelled(p), b);
    } else {
      SameTogether(Seen(a), a, Spelled(p), Seen(b), Seen(b));
      SamePeersGood(Seen(a) + Spelled(p) + Seen(b), a + Spelled(p) + Seen(b));
    }
  }

  lemma SameTogether(a: seq<Peer>, a': seq<Peer>, s: seq<Peer>, b: seq<Peer>, b': seq<Peer>)
    requires SamePeers(a, a') && (SamePeers(b, b') || b == b')
    ensures SamePeers(a + s + b, a' + s + b')
    ensures SamePeers(a + s, a' + s)
  {
  }

  lemma CreatedUnique(c: Config, req: CreateRequest, pub: string, priv: string, p: Peer, q: Peer)
    requires Created(c, req, pub, priv, p) && Created(c, req, pub, priv, q)
    ensures p == q
  {
    hide Assigned, Join, Shown;
    var m :| Assigned(c, req, m) && p == Peer(pub, priv, Join(Shown(m)), Trim(req.endpoint), RequestAlias(req), "", "");
    var n :| Assigned(c, req, n) && q == Peer(pub, priv, Join(Shown(n)), Trim(req.endpoint), RequestAlias(req), "", "");
    AssignedUnique(c, req, m, n);
  }

  /** The exact condition for one operation on the file, for every request and every loaded
      configuration: it is stated on these two alone. */
  lemma FileStepExactly(before: Option<string>, op: Op, c': Config, derive: Derive)
    requires Good(Current(before, derive)) && Step(Current(before, derive), op, c')
    ensures Good(Load(Print(c'), derive)) <==> Harmless(Current(before, derive), op)
  {
    hide Current, Load, Print, LoadableInterface, AllLined, Created, UpdateAllowed, Seen, Fitting;
    hide PrimaryAddr, LoadablePeer, Short, InterfaceLines;
    var c := Current(before, derive);
    CurrentIsLined(before, derive);
    SavedGoodExactly(c', derive);
    match op
    case Create(req, pub, priv) =>
      var p :| Created(c, req, pub, priv, p) && WithPeer(c.peers, p) == Some(c'.peers);
      assert c'.peers == c.peers + [p] + [] && c.peers + [] == c.peers;
      NobodyLined();
      FittingExactly(c.peers, p, []);
      forall q | Created(c, req, pub, priv, q) ensures q == p { CreatedUnique(c, req, pub, priv, p, q); }
    case Update(key, u) =>
      UpdateExactly(c, key, u, c');
    case Delete(key) =>
      DeleteGood(c, key);
      OthersLined(c.peers, key);
      LinedGoodExactly(c'.peers);
  }

  lemma NobodyLined()
    ensures AllLined([])
  {
  }

  lemma OthersLined(ps: seq<Peer>, key: string)
    requires AllLined(ps)
    ensures AllLined(OtherPeers(ps, key))
  {
    hide LinedPeer;
    OtherPeersAmong(ps, key);
    assert forall i :: 0 <= i < |OtherPeers(ps, key)| ==> OtherPeers(ps, key)[i] in ps;
  }

  lemma UpdateExactly(c: Config, key: string, u: Peer, c': Config)
    requires Good(c) && Step(c, Op.Update(key, u), c') && AllLined(c.peers)
    ensures (Short(InterfaceLines(c'.iface)) ==> GoodPeers(Seen(c'.peers))) <==> Harmless(c, Op.Update(key, u))
  {
    hide LinedPeer, Seen, Fitting, PrimaryAddr, Owners, Rewritten, Updated, Short, InterfaceLines;
    var nets: seq<IPNet> :|
      UpdateAllowed(c, key, u, nets) && c' == c.(peers := UpdatedPeers(c.peers, key, Rewritten(u, nets)));
    var m := FirstWithKey(c.peers, key);
    UpdatedFirst(c.peers, key, Rewritten(u, nets), m);
    var a, b, q := c.peers[..m], c.peers[m + 1..], Updated(c.peers[m], Rewritten(u, nets));
    assert c'.peers == a + [q] + b;
    LeftOutGood(c.peers, m);
    FittingExactly(a, q, b);
    forall n: nat | IsFirst(c.peers, key, n) ensures n == m { OneFirst(c.peers, key, m, n); }
    assert forall more :: UpdateAllowed(c, key, u, more) ==> more == nets;
  }

  lemma OneFirst(ps: seq<Peer>, key: string, m: nat, n: nat)
    requires IsFirst(ps, key, m) && IsFirst(ps, key, n)
    ensures m == n
  {
  }

  lemma FirstWithKey(ps: seq<Peer>, key: string) returns (m: nat)
    requires HasKey(ps, key)
    ensures IsFirst(ps, key, m)
  {
    m := 0;
    while ps[m].publicKey != key
      invariant m < |ps| && forall j :: 0 <= j < m ==> ps[j].publicKey != key
      decreases |ps| - m
    {
      m := m + 1;
    }
  }

  lemma LeftOutGood(ps: seq<Peer>, m: nat)
    requires GoodPeers(ps) && m < |ps|
    ensures GoodPeers(ps[..m] + ps[m + 1..])
  {
    hide PrimaryAddr;
    var rest := ps[..m] + ps[m + 1..];
    assert forall i :: 0 <= i < |rest| ==> rest[i] == ps[if i < m then i else i + 1];
  }

  // ---------- requests without newlines ----------

  /** No newline in a field that is written to the file; a generated or derived key is plain. */
  predicate CleanOp(op: Op) {
    match op
    case Create(req, pub, _) => '\n' !in RequestAlias(req) && '\n' !in Trim(req.endpoint) && Plain(pub)
    case Update(_, u) => '\n' !in u.alias && '\n' !in u.email && '\n' !in Trim(u.endpoint) && '\n' !in u.presharedKey
    case Delete(_) => true
  }

  lemma CreatedIsLined(c: Config, req: CreateRequest, pub: string, priv: string, p: Peer)
    requires Created(c, req, pub, priv, p) && CleanOp(Op.Create(req, pub, priv))
    ensures LinedPeer(p)
  {
    hide Assigned, Join, Shown, Trim, Trimmed;
    CreatedAddress(c, req, pub, priv, p);
  }

  lemma UpdatedIsLined(c: Config, key: string, u: Peer, nets: seq<IPNet>, q: Peer)
    requires UpdateAllowed(c, key, u, nets) && CleanOp(Op.Update(key, u)) && LinedPeer(q)
    requires '\n' !in q.alias && '\n' !in q.email
    ensures LinedPeer(Updated(q, Rewritten(u, nets)))
  {
    hide Join, Shown, Trim, Nets, SplitAt, Owners, Trimmed;
    NetsAreNetworks(SplitAt(u.allowedIPs, ','));
    JoinText(nets);
  }

  /** A clean operation on a loaded configuration leaves no newline in any field. */
  lemma StepIsLined(before: Option<string>, op: Op, c': Config, derive: Derive)
    requires CleanOp(op) && Step(Current(before, derive), op, c')
    ensures LoadableInterface(c'.iface) && AllLined(c'.peers)
  {
    hide Current, CleanOp, LinedPeer, LoadableInterface, LoadablePeer, Created, UpdateAllowed;
    var c := Current(before, derive);
    CurrentIsLined(before, derive);
    match op {
      case Create(req, pub, priv) =>
        var p :| Created(c, req, pub, priv, p) && WithPeer(c.peers, p) == Some(c'.peers);
        CreatedIsLined(c, req, pub, priv, p);
        NoConflicts(c.peers, p);
      case Update(key, u) =>
        var nets: seq<IPNet> :|
          UpdateAllowed(c, key, u, nets) && c' == c.(peers := UpdatedPeers(c.peers, key, Rewritten(u, nets)));
        var m := UpdatedAt(c.peers, key, Rewritten(u, nets));
        CurrentNames(before, derive, m);
        UpdatedIsLined(c, key, u, nets, c.peers[m]);
      case Delete(key) =>
        OtherPeersAmong(c.peers, key);
        assert forall i :: 0 <= i < |c'.peers| ==> c'.peers[i] in c'.peers;
    }
  }

  lemma CurrentNames(before: Option<string>, derive: Derive, m: nat)
    requires m < |Current(before, derive).peers|
    ensures '\n' !in Current(before, derive).peers[m].alias && '\n' !in Current(before, derive).peers[m].email
  {
    hide Load, LoadableInterface, Trimmed;
    LoadIsLoadable(before.value, derive);
    assert Current(before, derive).peers[m] in Current(before, derive).peers;
  }

  /** For requests without newlines, of any length: what the next load sees stays good exactly when
      no block is cut before its key behind a peer without one. */
  lemma CleanStepExactly(before: Option<string>, op: Op, c': Config, derive: Derive)
    requires CleanOp(op) && Good(Current(before, derive)) && Step(Current(before, derive), op, c')
    ensures Good(Load(Print(c'), derive)) <==> (Short(InterfaceLines(c'.iface)) ==> !KeylessTwice(c'.peers))
  {
    hide Current, Load, Print, CleanOp, Step, AllLined, LoadableInterface, Seen, KeylessTwice, Short, InterfaceLines;
    StepIsLined(before, op, c', derive);
    StepKeepsGood(Current(before, derive), op, c');
    SavedGoodExactly(c', derive);
    LinedGoodExactly(c'.peers);
  }

  /** So no such request, however long, does harm while every peer has a key. */
  lemma KeyedStepKeepsGood(before: Option<string>, op: Op, c': Config, derive: Derive)
    requires CleanOp(op) && Good(Current(before, derive)) && Step(Current(before, derive), op, c')
    requires forall i :: 0 <= i < |Current(before, derive).peers| ==> Current(before, derive).peers[i].publicKey != ""
    requires op.Create? ==> op.pub != ""
    ensures Good(Load(Print(c'), derive))
  {
    hide Current, Load, Print, CleanOp, Created, UpdateAllowed, Good, CutBeforeKey, AllShort, Short, InterfaceLines;
    CleanStepExactly(before, op, c', derive);
    var c := Current(before, derive);
    match op
    case Create(req, pub, priv) =>
      var p :| Created(c, req, pub, priv, p) && WithPeer(c.peers, p) == Some(c'.peers);
      CreatedHasKey(c, req, pub, priv, p);
    case Update(key, u) =>
      var nets :| UpdateAllowed(c, key, u, nets) && c' == c.(peers := UpdatedPeers(c.peers, key, Rewritten(u, nets)));
      var m := UpdatedAt(c.peers, key, Rewritten(u, nets));
    case Delete(key) =>
      OtherPeersAmong(c.peers, key);
      assert forall i :: 0 <= i < |c'.peers| ==> c'.peers[i] in c.peers;
  }

  lemma CreatedHasKey(c: Config, req: CreateRequest, pub: string, priv: string, p: Peer)
    requires Created(c, req, pub, priv, p)
    ensures p.publicKey == pub
  {
    hide Assigned, Join, Shown;
  }

  // ---------- requests of bounded length ----------

  /** No field of the request is long enough for a line the scanner refuses: every entry of an
      address list is printed with at most 20 characters. */
  predicate BoundedOp(op: Op) {
    match op
    case Create(req, pub, _) =>
      && |RequestAlias(req)| + 10 < 65536 && |Trim(req.endpoint)| + 11 < 65536 && |pub| + 12 < 65536
      && 20 * (|req.ip| + 1) + 13 < 65536
    case Update(_, u) =>
      && |u.alias| + 10 < 65536 && |u.email| + 10 < 65536 && |Trim(u.endpoint)| + 11 < 65536
      && |u.presharedKey| + 15 < 65536 && 20 * (|u.allowedIPs| + 1) + 13 < 65536
    case Delete(_) => true
  }

  lemma NetLength(net: IPNet)
    requires IsNetwork(net)
    ensures |ShowNet(net)| <= 18
  {
    assert Pow10(3) == 1000;
    hide Pow10, Utoa, Masked;
    UtoaLength(net.ip.a, 3);
    UtoaLength(net.ip.b, 3);
    UtoaLength(net.ip.c, 3);
    UtoaLength(net.ip.d, 3);
    SmallLength(net.bits);
  }

  lemma SmallLength(n: nat)
    requires n <= 32
    ensures |Utoa(n)| <= 2
  {
    assert Pow10(2) == 100;
    UtoaLength(n, 2);
  }

  lemma {:induction false} JoinLength(out: seq<string>)
    requires forall i :: 0 <= i < |out| ==> |out[i]| <= 18
    ensures |Join(out)| <= 20 * |out|
  {
    if |out| > 1 {
      JoinLength(out[1..]);
    }
  }

  lemma NetsLength(nets: seq<IPNet>)
    requires forall n :: n in nets ==> IsNetwork(n)
    ensures |Join(Shown(nets))| <= 20 * |nets|
  {
    hide IsNetwork, ShowNet, Join;
    forall i | 0 <= i < |nets| ensures |ShowNet(nets[i])| <= 18 {
      assert nets[i] in nets;
      NetLength(nets[i]);
    }
    JoinLength(Shown(nets));
  }

  lemma {:induction false} NetsCount(parts: seq<string>)
    ensures Nets(parts).Some? ==> |Nets(parts).value| <= |parts|
  {
    hide ParseEntry, Trim;
    if parts != [] { NetsCount(parts[..|parts| - 1]); }
  }

  lemma {:induction false} SplitCountAtMost(s: string, sep: char)
    ensures |SplitAt(s, sep)| <= |s| + 1
  {
    if s != [] { SplitCountAtMost(s[1..], sep); }
  }

  /** The printed list of a request is at most 20 times as long as the list, and one entry. */
  lemma ListLength(raw: string, nets: seq<IPNet>)
    requires Nets(SplitAt(raw, ',')) == Some(nets)
    ensures |Join(Shown(nets))| <= 20 * (|raw| + 1)
  {
    hide Nets, SplitAt, Join, Shown, IsNetwork;
    NetsAreNetworks(SplitAt(raw, ','));
    NetsCount(SplitAt(raw, ','));
    SplitCountAtMost(raw, ',');
    NetsLength(nets);
  }

  lemma CreatedIsSlim(c: Config, req: CreateRequest, pub: string, priv: string, p: Peer)
    requires Created(c, req, pub, priv, p) && BoundedOp(Op.Create(req, pub, priv))
    ensures Slim(p)
  {
    hide Join, Shown, Nets, SplitAt, Trim, UsedIPs, LowestFree, IsNetwork;
    var nets: seq<IPNet> :|
      Assigned(c, req, nets) && p == Peer(pub, priv, Join(Shown(nets)), Trim(req.endpoint), RequestAlias(req), "", "");
    if Trim(req.ip) == "" {
      var i :| LowestFree(AutoNet(c), AutoUsed(c), i) && nets == [IPNet(OffsetIn(AutoNet(c).ip, i), 32)];
      HostIsNetwork(nets[0].ip);
      NetsLength(nets);
    } else {
      ListLength(req.ip, nets);
    }
  }

  lemma HostIsNetwork(ip: IP)
    ensures IsNetwork(IPNet(ip, 32))
  {
    HostMask(ip);
  }

  lemma UpdatedIsSlim(c: Config, key: string, u: Peer, nets: seq<IPNet>, q: Peer)
    requires UpdateAllowed(c, key, u, nets) && BoundedOp(Op.Update(key, u)) && Slim(q)
    ensures Slim(Updated(q, Rewritten(u, nets)))
  {
    hide Join, Shown, Trim, Nets, SplitAt, Owners;
    ListLength(u.allowedIPs, nets);
  }

  /** A bounded request leaves every line short. */
  lemma StepIsShort(before: Option<string>, op: Op, c': Config, derive: Derive)
    requires CleanOp(op) && BoundedOp(op) && ShortConfig(Current(before, derive)) &&
      Step(Current(before, derive), op, c')
    ensures ShortConfig(c')
  {
    hide Current, CleanOp, BoundedOp, LinedPeer, LoadableInterface, LoadablePeer, Created, UpdateAllowed;
    hide Slim, AllShort, Short, InterfaceLines, Updated, Rewritten;
    var c := Current(before, derive);
    CurrentIsLined(before, derive);
    StepIsLined(before, op, c', derive);
    AllSlimIsShort(c.peers);
    AllSlimIsShort(c'.peers);
    match op {
      case Create(req, pub, priv) =>
        var p :| Created(c, req, pub, priv, p) && WithPeer(c.peers, p) == Some(c'.peers);
        CreatedIsSlim(c, req, pub, priv, p);
        NoConflicts(c.peers, p);
      case Update(key, u) =>
        var nets: seq<IPNet> :|
          UpdateAllowed(c, key, u, nets) && c' == c.(peers := UpdatedPeers(c.peers, key, Rewritten(u, nets)));
        var m := UpdatedAt(c.peers, key, Rewritten(u, nets));
        UpdatedIsSlim(c, key, u, nets, c.peers[m]);
      case Delete(key) =>
        OtherPeersAmong(c.peers, key);
        assert forall i :: 0 <= i < |c'.peers| ==> c'.peers[i] in c.peers;
    }
  }

  // ---------- runs ----------

  /** What a handler can do to the file: nothing, or save the result of a step. */
  ghost predicate FileStep(before: Option<string>, op: Op, after: Option<string>, derive: Derive) {
    after == before || exists c' :: Step(Current(before, derive), op, c') && after == Some(Print(c'))
  }

  /** The contents of the file before and after each operation. */
  ghost predicate IsFileRun(texts: seq<Option<string>>, ops: seq<Op>, derive: Derive) {
    && |texts| == |ops| + 1
    && forall k :: 0 <= k < |ops| ==> FileStep(texts[k], ops[k], texts[k + 1], derive)
  }

  lemma FileStepKeepsGood(before: Option<string>, op: Op, after: Option<string>, derive: Derive)
    requires FileStep(before, op, after, derive) && Good(Current(before, derive)) &&
      ShortConfig(Current(before, derive))
    requires CleanOp(op) && BoundedOp(op)
    ensures Good(Current(after, derive)) && ShortConfig(Current(after, derive))
  {
    hide Good, Step, Load, Print, CleanOp, BoundedOp, LinedPeer, LoadableInterface, ShortConfig;
    if after != before {
      var c' :| Step(Current(before, derive), op, c') && after == Some(Print(c'));
      StepIsLined(before, op, c', derive);
      StepIsShort(before, op, c', derive);
      StepKeepsGood(Current(before, derive), op, c');
      SavedStaysGood(c', derive);
      LoadedIsShort(c', derive);
    }
  }

  /** Over every run of requests of bounded length without newlines, from a good configuration with
      short lines: the peers a load sees keep pairwise distinct public keys and pairwise distinct
      primary addresses. */
  lemma {:induction false} FileRunsKeepGood(texts: seq<Option<string>>, ops: seq<Op>, derive: Derive)
    requires IsFileRun(texts, ops, derive) && Good(Current(texts[0], derive)) && ShortConfig(Current(texts[0], derive))
    requires forall k :: 0 <= k < |ops| ==> CleanOp(ops[k]) && BoundedOp(ops[k])
    ensures Good(Current(texts[|ops|], derive)) && ShortConfig(Current(texts[|ops|], derive))
  {
    hide FileStep, Good, Current, CleanOp, BoundedOp, ShortConfig;
    if ops != [] {
      var n := |ops| - 1;
      assert forall k :: 0 <= k < n ==> texts[..n + 1][k + 1] == texts[k + 1] && ops[..n][k] == ops[k];
      FileRunsKeepGood(texts[..n + 1], ops[..n], derive);
      FileStepKeepsGood(texts[n], ops[n], texts[n + 1], derive);
    }
  }

  /** For every run, whatever the requests: it is good throughout exactly when each request that
      changed the file was harmless for the configuration it met. */
  lemma {:induction false} FileRunsExactly(texts: seq<Option<string>>, ops: seq<Op>, derive: Derive)
    requires IsFileRun(texts, ops, derive) && Good(Current(texts[0], derive))
    ensures (forall k :: 0 <= k <= |ops| ==> Good(Current(texts[k], derive)))
       <==> (forall k :: 0 <= k < |ops| ==> texts[k + 1] == texts[k] || Harmless(Current(texts[k], derive), ops[k]))
  {
    hide FileStep, Good, Current, Harmless;
    if forall k :: 0 <= k < |ops| ==> texts[k + 1] == texts[k] || Harmless(Current(texts[k], derive), ops[k]) {
      GoodUpTo(texts, ops, |ops|, derive);
    }
    forall k | 0 <= k < |ops| && Good(Current(texts[k], derive)) && texts[k + 1] != texts[k]
      ensures Good(Current(texts[k + 1], derive)) <==> Harmless(Current(texts[k], derive), ops[k])
    {
      ChangedExactly(texts[k], ops[k], texts[k + 1], derive);
    }
  }

  lemma ChangedExactly(before: Option<string>, op: Op, after: Option<string>, derive: Derive)
    requires FileStep(before, op, after, derive) && Good(Current(before, derive)) && after != before
    ensures Good(Current(after, derive)) <==> Harmless(Current(before, derive), op)
  {
    hide Good, Step, Load, Print, Harmless;
    var c' :| Step(Current(before, derive), op, c') && after == Some(Print(c'));
    FileStepExactly(before, op, c', derive);
  }

  lemma {:induction false} GoodUpTo(texts: seq<Option<string>>, ops: seq<Op>, n: nat, derive: Derive)
    requires IsFileRun(texts, ops, derive) && Good(Current(texts[0], derive)) && n <= |ops|
    requires forall k :: 0 <= k < |ops| ==> texts[k + 1] == texts[k] || Harmless(Current(texts[k], derive), ops[k])
    ensures forall k :: 0 <= k <= n ==> Good(Current(texts[k], derive))
  {
    hide FileStep, Good, Current, Harmless;
    if n > 0 {
      GoodUpTo(texts, ops, n - 1, derive);
      if texts[n] != texts[n - 1] { ChangedExactly(texts[n - 1], ops[n - 1], texts[n], derive); }
    }
  }
}
