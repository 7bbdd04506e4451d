/** Create requests whose alias holds line breaks: the block of one peer is read back as several. */
module WgNewlines {
  import opened Common
  import opened Ascii
  import opened Ipv4
  import opened Ipv4Text
  import opened Lines
  import opened WgConfig
  import opened WgFile
  import opened WgRoundTrip
  import opened WgBlocks
  import opened WgLined
  import opened WgLimits
  import opened WgPeers
  import opened WgHandlers
  import opened WgRuns

  /** An alias that closes the peer's block, writes one with the key, and opens another. */
  function Intruding(key: string): string {
    "x" + ['\n'] + ("[Peer]" + ['\n'] + (KeyLine("PublicKey", key) + ['\n'] + "[Peer]"))
  }

  function IntrudingLines(key: string): seq<string> {
    ["[Peer]", "# Alias = x", "[Peer]", KeyLine("PublicKey", key), "[Peer]"]
  }

  lemma SplitFirst(a: string, b: string)
    requires '\n' !in a
    ensures SplitAt(a + ['\n'] + b, '\n') == [a] + SplitAt(b, '\n')
  {
    SplitJoin(a + ['\n'], b, '\n');
    SplitLine(a);
    assert a + ['\n'] == a + "\n";
    hide SplitAt;
    assert "" + SplitAt(b, '\n')[0] == SplitAt(b, '\n')[0];
  }

  lemma AliasPieces(key: string)
    requires '\n' !in key
    ensures SplitAt("# " + KeyLine("Alias", Intruding(key)), '\n') ==
      ["# Alias = x", "[Peer]", KeyLine("PublicKey", key), "[Peer]"]
  {
    hide KeyLine, Intruding, SplitAt;
    var c := KeyLine("PublicKey", key) + ['\n'] + "[Peer]";
    var b := "[Peer]" + ['\n'] + c;
    AliasText(key, b);
    KeyLineOneLine("PublicKey", key);
    SplitFirst("# Alias = x", b);
    SplitFirst("[Peer]", c);
    SplitFirst(KeyLine("PublicKey", key), "[Peer]");
    SplitOne("[Peer]", '\n');
  }

  lemma AliasText(key: string, b: string)
    requires b == "[Peer]" + ['\n'] + (KeyLine("PublicKey", key) + ['\n'] + "[Peer]")
    ensures "# " + KeyLine("Alias", Intruding(key)) == "# Alias = x" + ['\n'] + b
  {
    assert KeyLine("Alias", Intruding(key)) == "Alias = " + Intruding(key);
    hide KeyLine;
  }

  lemma BlockStarts(p: Peer, key: string)
    requires '\n' !in key && p.alias == Intruding(key)
    ensures IntrudingLines(key) <= BlockLines(p)
  {
    hide KeyLine, SplitAt, PeerLines, Pieces;
    var alias := "# " + KeyLine("Alias", p.alias);
    assert p.alias != "" by { assert Intruding(key)[0] == 'x'; }
    AliasPieces(key);
    AliasSecond(p);
    var rest := PeerLines(p)[2..];
    assert PeerLines(p) == ["[Peer]"] + ([alias] + rest);
    PiecesAppend(["[Peer]"], [alias] + rest);
    PiecesAppend([alias], rest);
    OnePiece("[Peer]");
    SplitOne("[Peer]", '\n');
    OnePiece(alias);
  }

  lemma OnePiece(line: string)
    ensures Pieces([line]) == SplitAt(line, '\n')
  {
    hide SplitAt;
    assert [line][..0] == [];
  }

  lemma AliasSecond(p: Peer)
    requires p.alias != ""
    ensures |PeerLines(p)| >= 2 && PeerLines(p)[0] == "[Peer]" && PeerLines(p)[1] == "# " + KeyLine("Alias", p.alias)
  {
    hide KeyLine;
  }

  /** What is read up to the last line of the alias: two peers, the second with the key. */
  lemma IntruderRead(key: string)
    requires Plain(key)
    ensures var st := ApplyLines(START, IntrudingLines(key)); |st.peers| == 2 && st.peers[1].publicKey == key
  {
    hide ApplyLine, ApplyLines, KeyLine, Trimmed, Lower, Commented, Plain;
    var s0 := Header(START, "peer");
    HeaderApplies(START);
    ApplyOne(START, "[Peer]");
    AliasApplies(s0, "x");
    assert "# Alias = x" == "# " + KeyLine("Alias", "x") by { ShowAlias(); }
    var s1 := ApplyLine(s0, "# Alias = x");
    ApplyOne(s0, "# Alias = x");
    var s2 := Header(s1, "peer");
    HeaderApplies(s1);
    ApplyOne(s1, "[Peer]");
    PeerKeys();
    PeerKeyLine(s2, "PublicKey", key);
    var s3 := SetKey(s2, "publickey", key);
    HeaderApplies(s3);
    ApplyOne(s3, "[Peer]");
    Then(START, ["[Peer]"], s0, ["# Alias = x"], s1);
    Then(START, ["[Peer]"] + ["# Alias = x"], s1, ["[Peer]"], s2);
    Then(START, ["[Peer]"] + ["# Alias = x"] + ["[Peer]"], s2, [KeyLine("PublicKey", key)], s3);
    var four := ["[Peer]"] + ["# Alias = x"] + ["[Peer]"] + [KeyLine("PublicKey", key)];
    Then(START, four, s3, ["[Peer]"], Header(s3, "peer"));
    assert ["[Peer]"] + ["# Alias = x"] + ["[Peer]"] + [KeyLine("PublicKey", key)] + ["[Peer]"] == IntrudingLines(key);
  }

  lemma ShowAlias()
    ensures "# Alias = x" == "# " + KeyLine("Alias", "x")
  {
  }

  lemma IntruderSpelled(p: Peer, key: string)
    requires Plain(key) && |key| + 12 < MAX_LINE && p.alias == Intruding(key)
    ensures |Spelled(p)| >= 2 && Spelled(p)[1].publicKey == key
  {
    hide ApplyLines, BlockLines, IntrudingLines, Trimmed, Intruding, Scanned, Short;
    BlockStarts(p, key);
    IntruderRead(key);
    var ls, first := BlockLines(p), IntrudingLines(key);
    IntruderIsShort(key);
    assert ls == first + ls[|first|..];
    ScannedAppend(first, ls[|first|..]);
    var got := Scanned(ls);
    PeersStay(START, got, |first|);
    assert got[..|first|] == first;
  }

  lemma IntruderIsShort(key: string)
    requires |key| + 12 < MAX_LINE
    ensures Short(IntrudingLines(key))
  {
    KeyLength(key);
  }

  /** Wherever such a request is accepted although a peer has that key, the next load sees the
      key twice. */
  lemma NewlineLosesGood(before: Option<string>, req: CreateRequest, pub: string, priv: string, c': Config, k: nat,
        derive: Derive)
    requires Good(Current(before, derive)) && ShortConfig(Current(before, derive)) &&
      k < |Current(before, derive).peers|
    requires RequestAlias(req) == Intruding(Current(before, derive).peers[k].publicKey)
    requires Step(Current(before, derive), Op.Create(req, pub, priv), c')
    ensures !Good(Load(Print(c'), derive))
  {
    hide Current, Load, Print, Good, Intruding, LinedPeer, LoadableInterface, Spelled, Short, BlockLines;
    hide PrimaryAddr, RequestAlias, Assigned, InterfaceLines;
    var c := Current(before, derive);
    var p :| Created(c, req, pub, priv, p) && WithPeer(c.peers, p) == Some(c'.peers);
    CurrentIsLined(before, derive);
    KeyIsPlain(c.peers[k]);
    SlimIsShort(c.peers[k]);
    IntruderSpelled(p, c.peers[k].publicKey);
    assert !Apart(c.peers[k], Spelled(p)[1]);
    assert c.peers + [] == c.peers;
    FileStepExactly(before, Op.Create(req, pub, priv), c', derive);
  }

  lemma KeyIsPlain(p: Peer)
    requires LinedPeer(p)
    ensures Plain(p.publicKey)
  {
  }

  // ---------- one file, one request ----------

  function OnePeer(key: string): Config { Config(NO_INTERFACE.(address := "x"), [NO_PEER.(publicKey := key)]) }

  lemma OnePeerFile(key: string, derive: Derive)
    requires Plain(key) && |key| <= 100
    ensures Current(Some(Print(OnePeer(key))), derive) == OnePeer(key)
    ensures Good(OnePeer(key)) && ShortConfig(OnePeer(key))
  {
    hide Load, Print, PrimaryAddr, Fits, ShortConfig, Loadable;
    var c := OnePeer(key);
    OnePeerLoads(key, derive);
    OnePeerFits(key);
    LoadPrinted(c, derive);
    ShortConfigFits(c);
  }

  lemma OnePeerLoads(key: string, derive: Derive)
    requires Plain(key)
    ensures Loadable(OnePeer(key)) && Normal(OnePeer(key), derive) == OnePeer(key)
  {
    var c := OnePeer(key);
    assert StripComment("x") == "x";
    assert NormalPeers(c.peers) == c.peers;
  }

  lemma BareLines(a: string)
    ensures InterfaceLines(NO_INTERFACE.(address := a))
         == ["[Interface]"] + Optional(KeyLine("Address", a), a) + [""]
  {
    hide KeyLine;
  }

  lemma InterfaceFits()
    ensures forall l :: l in InterfaceLines(NO_INTERFACE.(address := "x")) ==> |l| < MAX_LINE
  {
    BareLines("x");
    hide InterfaceLines;
  }

  lemma PeerFits(p: Peer)
    requires |p.alias| <= 1000 && p.email == "" && |p.publicKey| <= 1000 && |p.allowedIPs| <= 1000
    requires p.endpoint == "" && p.presharedKey == ""
    ensures forall l :: l in PeerLines(p) ==> |l| < MAX_LINE
  {
  }

  lemma OnePeerFits(key: string)
    requires |key| <= 100
    ensures Fits(OnePeer(key))
  {
    var c := OnePeer(key);
    InterfaceFits();
    PeerFits(c.peers[0]);
    hide InterfaceLines, PeerLines;
    assert c.peers[..0] == [];
    assert PeersLines(c.peers) == PeerLines(c.peers[0]);
  }

  /** Automatic assignment falls back to 10.100.0.0/24, whose second host is free. */
  lemma SecondHost(key: string, req: CreateRequest)
    requires req.ip == ""
    ensures Assigned(OnePeer(key), req, [IPNet(IP(10, 100, 0, 2), 32)])
  {
    hide UsedIPs, InterfaceNet, LowestFree, IsNetwork, Trim, Nets, SplitAt;
    var c := OnePeer(key);
    NoNet(c);
    NothingUsed(key);
    AutoNetIsNetwork(c);
    TrimmedStays("");
    SecondIsLowest();
    assert AutoUsed(c) == {IP(10, 100, 0, 1)};
    assert OffsetIn(FALLBACK.ip, 2) == IP(10, 100, 0, 2);
  }

  lemma NoNet(c: Config)
    requires c.iface.address == "x"
    ensures InterfaceNet(c).None?
  {
    SplitOne("x", ',');
    TrimmedStays("x");
  }

  lemma NothingUsed(key: string)
    ensures UsedIPs(OnePeer(key)) == {}
  {
    var c := OnePeer(key);
    SplitOne("x", ',');
    SplitOne("", ',');
    SplitOne("x", '.');
    TrimmedStays("x");
    assert Trim("") == "";
    assert UpTo("x", '/') == "x";
    hide SplitAt, Trim;
    assert ParseIP("x") == None;
    assert UsedBy("") == {};
    assert c.peers[..0] == [];
    assert PeerUses(c.peers) == PeerUses([]) + UsedBy(First(""));
  }

  lemma SecondIsLowest()
    ensures LowestFree(FALLBACK, {IP(10, 100, 0, 1)}, 2)
  {
    Pow2Eight(8);
    assert OffsetIn(FALLBACK.ip, 1) == IP(10, 100, 0, 1);
  }

  /** The peer that a create request with automatic assignment adds. */
  function Added(alias: string, pub: string): Peer {
    Peer(pub, "", Join(Shown([IPNet(IP(10, 100, 0, 2), 32)])), "", alias, "", "")
  }

  /** Distinct keys in the file, one accepted create request with line breaks in its alias, and
      the key is in the next load twice. */
  lemma NewlineExample(key: string, pub: string, derive: Derive)
    requires Plain(key) && |key| <= 100 && key != pub
    ensures
      var before, req := Some(Print(OnePeer(key))), CreateRequest(Intruding(key), "", "", "");
      Good(Current(before, derive)) &&
      exists c' :: Step(Current(before, derive), Op.Create(req, pub, ""), c') && !Good(Current(Some(Print(c')), derive))
  {
    hide Load, Print, Good, Assigned, Shown, Join, ShortConfig, Intruding;
    var c, req := OnePeer(key), CreateRequest(Intruding(key), "", "", "");
    assert Intruding(key) != "" by { IntrudingText(key); }
    OnePeerFile(key, derive);
    SecondHost(key, req);
    TrimmedStays("");
    var p := Added(Intruding(key), pub);
    assert Created(c, req, pub, "", p);
    var c' := c.(peers := c.peers + [p]);
    assert WithPeer(c.peers, p) == Some(c'.peers);
    NewlineLosesGood(Some(Print(c)), req, pub, "", c', 0, derive);
  }

  lemma IntrudingText(key: string)
    ensures Intruding(key) != ""
  {
  }
}
