/** Create requests whose alias is longer than the scanner's line limit: the loader stops inside the
    new block. */
module WgLongLines {
  import opened Common
  import opened Ascii
  import opened Ipv4
  import opened Lines
  import opened WgConfig
  import opened WgFile
  import opened WgRoundTrip
  import opened WgBlocks
  import opened WgLined
  import opened WgLimits
  import opened WgPeers
  import opened WgHandlers
  import opened WgRuns
  import opened WgNewlines

  /** A request with an alias that is too long for one line of the file. */
  predicate LongAlias(op: Op) { op.Create? && CleanOp(op) && |RequestAlias(op.req)| + 10 >= 65536 }

  /** What is created is cut before its key, and nothing else of it is read. */
  lemma LongAliasSpells(c: Config, req: CreateRequest, pub: string, priv: string, p: Peer)
    requires Created(c, req, pub, priv, p) && LongAlias(Op.Create(req, pub, priv))
    ensures LinedPeer(p) && !Short(BlockLines(p)) && |Spelled(p)| == 1 && Spelled(p)[0].publicKey == ""
  {
    hide LinedPeer, Spelled, BlockLines, Short, InBlock, Assigned, Trim, Shown, Join, Plain;
    CreatedIsLined(c, req, pub, priv, p);
    SlimIsShort(p);
    LinedSpells(p);
  }

  /** From a good configuration with short lines in which every peer has a key: good still, but
      the last peer is read back without a key. */
  lemma LongAliasLeavesKeyless(before: Option<string>, op: Op, c': Config, derive: Derive)
    requires Good(Current(before, derive)) && ShortConfig(Current(before, derive)) && LongAlias(op)
    requires forall i :: 0 <= i < |Current(before, derive).peers| ==> Current(before, derive).peers[i].publicKey != ""
    requires Step(Current(before, derive), op, c') && op.pub != ""
    ensures var ps := Load(Print(c'), derive).peers;
      && Good(Load(Print(c'), derive)) && ShortConfig(Load(Print(c'), derive))
      && |ps| == |Current(before, derive).peers| + 1 && ps[|ps| - 1].publicKey == ""
  {
    hide Current, Load, Print, Good, LinedPeer, LoadableInterface, Spelled, Short, BlockLines, InterfaceLines;
    hide Seen, CleanOp, Created, LoadablePeer, AllSlim;
    var c := Current(before, derive);
    var p :| Created(c, op.req, op.pub, op.priv, p) && WithPeer(c.peers, p) == Some(c'.peers);
    KeyedStepKeepsGood(before, op, c', derive);
    StepIsLined(before, op, c', derive);
    LoadedIsShort(c', derive);
    CurrentIsLined(before, derive);
    LoadSees(c', derive);
    LongAliasSpells(c, op.req, op.pub, op.priv, p);
    assert c'.peers == c.peers + [p] + [];
    SeenAround(c.peers, p, []);
    LinedSeen(c.peers);
  }

  /** With a peer without a key loaded, the next such request loses the distinctness of keys. */
  lemma LongAliasLosesGood(before: Option<string>, op: Op, c': Config, k: nat, derive: Derive)
    requires Good(Current(before, derive)) && ShortConfig(Current(before, derive)) && LongAlias(op)
    requires k < |Current(before, derive).peers| && Current(before, derive).peers[k].publicKey == ""
    requires Step(Current(before, derive), op, c')
    ensures !Good(Load(Print(c'), derive))
  {
    hide Current, Load, Print, Good, LinedPeer, Spelled, Short, BlockLines, InterfaceLines, CleanOp, Created;
    hide GoodPeers, PrimaryAddr;
    var c := Current(before, derive);
    var p :| Created(c, op.req, op.pub, op.priv, p) && WithPeer(c.peers, p) == Some(c'.peers);
    LongAliasSpells(c, op.req, op.pub, op.priv, p);
    assert !Apart(c.peers[k], Spelled(p)[0]);
    FileStepExactly(before, op, c', derive);
  }

  // ---------- one file, two requests ----------

  /** What the file holds after the first of them, as it is loaded. */
  function WithKeyless(key: string): Config { OnePeer(key).(peers := OnePeer(key).peers + [NO_PEER]) }

  function LongText(): string { seq(65536, i => 'a') }

  lemma LongTextFacts()
    ensures LongText() != "" && |LongText()| + 10 >= 65536 && '\n' !in LongText()
  {
  }

  /** Only the header of the second block is read. */
  lemma HeaderOnly(alias: string, pub: string)
    requires LinedPeer(Added(alias, pub)) && |alias| + 10 >= MAX_LINE
    ensures Scanned(BlockLines(Added(alias, pub))) == ["[Peer]"]
  {
    var p := Added(alias, pub);
    hide LinedPeer, Shown, Join;
    LinedBlock(p);
    StartsWithHeader(p);
    ScannedWhich(PeerLines(p));
    AliasSecond(p);
    AliasLength(alias);
    hide PeerLines, BlockLines, Scanned, KeyLine;
    var got := Scanned(PeerLines(p));
    assert forall i :: 0 <= i < |got| ==> got[i] == PeerLines(p)[i] && |got[i]| < MAX_LINE;
    assert got == ["[Peer]"];
  }

  lemma FirstLoad(key: string, alias: string, pub: string, derive: Derive)
    requires Plain(key) && |key| <= 100 && LinedPeer(Added(alias, pub)) && |alias| + 10 >= MAX_LINE
    ensures Load(Print(OnePeer(key).(peers := OnePeer(key).peers + [Added(alias, pub)])), derive) == WithKeyless(key)
  {
    hide PeerLines, InterfaceLines, LinedPeer, Short, Scanned, Pieces, ApplyLines, ApplyLine, BlockLines;
    hide Fits, Unlines, SplitAt, Added, LoadablePeer, LoadableInterface;
    var c, p := OnePeer(key), Added(alias, pub);
    OnePeerLoads(key, derive);
    OnePeerFits(key);
    OnePeerFile(key, derive);
    ShortConfigFits(c);
    var a, b := InterfaceLines(c.iface), PeersLines(c.peers);
    var both := a + Pieces(b);
    NoNewlineInterface(c.iface);
    PiecesOfLines(a);
    PiecesAppend(a, b);
    PiecesAppend(a, PeersLines(c.peers + [p]));
    PeersPieces(c.peers, p);
    assert a + (Pieces(b) + BlockLines(p)) == both + BlockLines(p);
    SplitPieces(ConfigLines(c));
    SplitPieces(ConfigLines(c.(peers := c.peers + [p])));
    EmptyLineLast(START, both);
    EmptyLineLast(START, both + BlockLines(p));
    PeersSpell(START, c.peers);
    ShortAppend(a, Pieces(b));
    HeaderOnly(alias, pub);
    ScannedAppend(both, BlockLines(p));
    ScannedPrefix(both);
    ApplyAppend(START, both, ["[Peer]"]);
    var st := ApplyLines(START, both);
    HeaderApplies(st);
    ApplyOne(st, "[Peer]");
  }

  lemma KeylessHost(key: string, req: CreateRequest)
    requires req.ip == ""
    ensures Assigned(WithKeyless(key), req, [IPNet(IP(10, 100, 0, 2), 32)])
  {
    hide LowestFree, IsNetwork, Trim, UsedBy, First, InterfaceNet;
    var c, d := OnePeer(key), WithKeyless(key);
    SecondHost(key, req);
    NoNet(c);
    NoNet(d);
    NothingUsed(key);
    SecondIsLowest();
    assert d.peers[..1] == c.peers;
    assert c.peers[..0] == [];
    AutoNetIsNetwork(d);
    TrimmedStays("");
    assert UsedIPs(d) == UsedIPs(c) + UsedBy(First(""));
    assert AutoUsed(d) == {IP(10, 100, 0, 1)};
    assert OffsetIn(FALLBACK.ip, 2) == IP(10, 100, 0, 2);
  }

  /** A file with one peer, two accepted create requests with a long alias: after the first the
      file is read back with a peer that has no key, after the second with two of them. */
  lemma LongAliasExample(key: string, pub: string, other: string, derive: Derive)
    requires Plain(key) && Plain(pub) && Plain(other) && |key| <= 100
    requires key != "" && pub != "" && other != "" && key != pub && key != other
    ensures
      var req, before := CreateRequest(LongText(), "", "", ""), Some(Print(OnePeer(key)));
      Good(Current(before, derive)) &&
      exists c1, c2 ::
        Step(Current(before, derive), Op.Create(req, pub, ""), c1) && Good(Current(Some(Print(c1)), derive)) &&
        Step(Current(Some(Print(c1)), derive), Op.Create(req, other, ""), c2) && !Good(Current(Some(Print(c2)), derive))
  {
    hide Load, Print, Good, Assigned, Shown, Join, ShortConfig, LongText, Plain, LinedPeer;
    LongTextFacts();
    var req := CreateRequest(LongText(), "", "", "");
    var before, c := Some(Print(OnePeer(key))), OnePeer(key);
    OnePeerFile(key, derive);
    SecondHost(key, req);
    KeylessHost(key, req);
    TrimmedStays("");
    var p, q := Added(LongText(), pub), Added(LongText(), other);
    var op1, op2 := Op.Create(req, pub, ""), Op.Create(req, other, "");
    assert Created(c, req, pub, "", p);
    var c1 := c.(peers := c.peers + [p]);
    assert WithPeer(c.peers, p) == Some(c1.peers);
    LongAliasSpells(c, req, pub, "", p);
    FirstLoad(key, LongText(), pub, derive);
    LongAliasLeavesKeyless(before, op1, c1, derive);
    var d := WithKeyless(key);
    assert Current(Some(Print(c1)), derive) == d;
    assert Created(d, req, other, "", q);
    var c2 := d.(peers := d.peers + [q]);
    assert WithPeer(d.peers, q) == Some(c2.peers);
    LongAliasLosesGood(Some(Print(c1)), op2, c2, 1, derive);
  }
}
