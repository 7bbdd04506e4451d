/** Saving and loading whatever the length of the lines: the scanner silently stops at a line of
    64 KiB or more. */
module WgLimits {
  import opened Ascii
  import opened Lines
  import opened WgConfig
  import opened WgRoundTrip
  import opened WgBlocks
  import opened WgLined

  // ---------- numbers ----------

  function Pow10(k: nat): nat { if k == 0 then 1 else 10 * Pow10(k - 1) }

  lemma {:induction false} UtoaLength(n: nat, k: nat)
    requires k >= 1 && n < Pow10(k)
    ensures |Utoa(n)| <= k
  {
    if n >= 10 { UtoaLength(n / 10, k - 1); }
  }

  lemma ItoaLength(n: int)
    requires IsInt64(n)
    ensures |Itoa(n)| <= 21
  {
    assert Pow10(4) == 10000;
    assert Pow10(8) == 10000 * Pow10(4);
    assert Pow10(12) == 10000 * Pow10(8);
    assert Pow10(16) == 10000 * Pow10(12);
    assert Pow10(20) == 10000 * Pow10(16);
    hide Pow10, Utoa;
    UtoaLength(if n < 0 then -n else n, 20);
  }

  // ---------- the interface section ----------

  /** Every printed line of the interface is short enough for the scanner. */
  predicate SlimInterface(i: Interface) {
    && |i.address| + 10 < MAX_LINE && |i.privateKey| + 13 < MAX_LINE && |i.postUp| + 9 < MAX_LINE
    && |i.postDown| + 11 < MAX_LINE && |i.dns| + 6 < MAX_LINE && |i.bindAddress| + 16 < MAX_LINE
  }

  lemma ShortNumber(key: string, n: int)
    requires IsInt64(n) && |key| <= 100
    ensures Short(Number(key, n))
  {
    ItoaLength(n);
    ShortOne(KeyLine(key, Itoa(n)));
  }

  lemma SlimInterfaceIsShort(i: Interface)
    requires LoadableInterface(i)
    ensures Short(InterfaceLines(i)) <==> SlimInterface(i)
  {
    assert |KeyLine("Address", i.address)| == |i.address| + 10;
    assert |KeyLine("PrivateKey", i.privateKey)| == |i.privateKey| + 13;
    assert |KeyLine("PostUp", i.postUp)| == |i.postUp| + 9;
    assert |KeyLine("PostDown", i.postDown)| == |i.postDown| + 11;
    assert |KeyLine("DNS", i.dns)| == |i.dns| + 6;
    assert |"# " + KeyLine("BindAddress", i.bindAddress)| == |i.bindAddress| + 16;
    ShortNumber("ListenPort", i.listenPort);
    ShortNumber("MTU", i.mtu);
    hide Short, KeyLine, Optional, Number;
    var a := Optional(KeyLine("Address", i.address), i.address);
    var k := Optional(KeyLine("PrivateKey", i.privateKey), i.privateKey);
    var u, d := Optional(KeyLine("PostUp", i.postUp), i.postUp), Optional(KeyLine("PostDown", i.postDown), i.postDown);
    var n := Optional(KeyLine("DNS", i.dns), i.dns);
    var b := Optional("# " + KeyLine("BindAddress", i.bindAddress), i.bindAddress);
    ShortOptional(KeyLine("Address", i.address), i.address);
    ShortOptional(KeyLine("PrivateKey", i.privateKey), i.privateKey);
    ShortOptional(KeyLine("PostUp", i.postUp), i.postUp);
    ShortOptional(KeyLine("PostDown", i.postDown), i.postDown);
    ShortOptional(KeyLine("DNS", i.dns), i.dns);
    ShortOptional("# " + KeyLine("BindAddress", i.bindAddress), i.bindAddress);
    ShortOne("[Interface]");
    ShortOne("");
    ShortAppend(["[Interface]"], a);
    ShortAppend(["[Interface]"] + a, k);
    ShortAppend(["[Interface]"] + a + k, Number("ListenPort", i.listenPort));
    ShortAppend(u, d);
    ShortAppend(u + d, Number("MTU", i.mtu));
    ShortAppend(u + d + Number("MTU", i.mtu), n);
    ShortAppend(b, [""]);
    ShortAppend(FirstLines(i), MiddleLines(i));
    ShortAppend(FirstLines(i) + MiddleLines(i), LastLines(i.bindAddress));
  }

  /** The lines of the section behind its header. */
  predicate IsInterfaceLine(i: Interface, l: string) {
    || l == "" || l == KeyLine("Address", i.address) || l == KeyLine("PrivateKey", i.privateKey)
    || l == KeyLine("ListenPort", Itoa(i.listenPort)) || l == KeyLine("PostUp", i.postUp)
    || l == KeyLine("PostDown", i.postDown) || l == KeyLine("MTU", Itoa(i.mtu)) || l == KeyLine("DNS", i.dns)
    || (i.bindAddress != "" && l == "# " + KeyLine("BindAddress", i.bindAddress))
  }

  lemma InterfaceHasLines(i: Interface)
    ensures var ls := InterfaceLines(i);
      ls != [] && ls[0] == "[Interface]" && forall j :: 1 <= j < |ls| ==> IsInterfaceLine(i, ls[j])
  {
    hide KeyLine, Itoa;
    FirstHasLines(i);
    MiddleHasLines(i);
    LastHasLines(i);
    hide FirstLines, MiddleLines, LastLines, IsInterfaceLine;
  }

  lemma FirstHasLines(i: Interface)
    ensures var ls := FirstLines(i);
      ls != [] && ls[0] == "[Interface]" && forall j :: 1 <= j < |ls| ==> IsInterfaceLine(i, ls[j])
  {
    hide KeyLine, Itoa;
  }

  lemma MiddleHasLines(i: Interface)
    ensures forall j :: 0 <= j < |MiddleLines(i)| ==> IsInterfaceLine(i, MiddleLines(i)[j])
  {
    hide KeyLine, Itoa;
  }

  lemma LastHasLines(i: Interface)
    ensures forall j :: 0 <= j < |LastLines(i.bindAddress)| ==> IsInterfaceLine(i, LastLines(i.bindAddress)[j])
  {
    hide KeyLine, Itoa;
  }

  /** Somewhere in the section: short fields, a plain address, and neither of the two fields that
      no printed line sets. */
  predicate InSection(r: Interface) {
    SlimInterface(r) && Plain(r.address) && r.bindAddress == "" && r.publicKey == ""
  }

  lemma StripShorter(value: string)
    ensures |StripComment(value)| <= |value|
  {
    var i := IndexOf(value, '#');
    if i < |value| { TrimShorter(value[..i]); }
  }

  lemma FieldStays(st: Loader, key: string, value: string)
    requires st.section == "interface" && InSection(st.iface) && KeyName(key) && OneLine(value)
    requires FieldOf(Lower(key)) in {Address, PrivateKey, ListenPort, PostUp, PostDown, Mtu, Dns}
    requires |key| ==
      (match FieldOf(Lower(key))
       case Address => 7 case PrivateKey => 10 case PostUp => 6 case PostDown => 8 case Dns => 3 case _ => |key|)
    requires |KeyLine(key, value)| < MAX_LINE
    ensures var t := ApplyLine(st, KeyLine(key, value)); t == st.(iface := t.iface) && InSection(t.iface)
  {
    hide ApplyLine, Lower, StripComment, FieldOf, KeyName, Plain, OneLine, Atoi;
    KeyLineSets(st, key, value);
    StripShorter(value);
    StrippedIsPlain(value);
  }

  lemma InterfaceLineStays(st: Loader, i: Interface, l: string)
    requires LoadableInterface(i) && IsInterfaceLine(i, l) && |l| < MAX_LINE
    requires st.section == "interface" && InSection(st.iface)
    ensures var t := ApplyLine(st, l); t == st.(iface := t.iface) && InSection(t.iface)
  {
    hide ApplyLine, Lower, FieldOf, KeyName, Trimmed, Itoa, InSection, KeyLine;
    InterfaceFields();
    ItoaPlain(i.listenPort);
    ItoaPlain(i.mtu);
    if l == "" {
      HeaderApplies(st);
    } else if i.bindAddress != "" && l == "# " + KeyLine("BindAddress", i.bindAddress) {
      BindStays(st, i.bindAddress);
    } else if l == KeyLine("Address", i.address) {
      FieldStays(st, "Address", i.address);
    } else if l == KeyLine("PrivateKey", i.privateKey) {
      FieldStays(st, "PrivateKey", i.privateKey);
    } else if l == KeyLine("ListenPort", Itoa(i.listenPort)) {
      NumberIsOneLine(i.listenPort);
      FieldStays(st, "ListenPort", Itoa(i.listenPort));
    } else if l == KeyLine("PostUp", i.postUp) {
      FieldStays(st, "PostUp", i.postUp);
    } else if l == KeyLine("PostDown", i.postDown) {
      FieldStays(st, "PostDown", i.postDown);
    } else if l == KeyLine("MTU", Itoa(i.mtu)) {
      NumberIsOneLine(i.mtu);
      FieldStays(st, "MTU", Itoa(i.mtu));
    } else {
      FieldStays(st, "DNS", i.dns);
    }
  }

  lemma NumberIsOneLine(n: int)
    ensures OneLine(Itoa(n))
  {
    ItoaPlain(n);
    hide Itoa, Trimmed;
    assert !IsDigit('\n');
  }

  /** No loader reads the comment of the bind address. */
  lemma BindStays(st: Loader, bind: string)
    requires st.section == "interface" && OneLine(bind) && bind != ""
    ensures ApplyLine(st, "# " + KeyLine("BindAddress", bind)) == st
  {
    CommentKeys();
    CommentLineApplies(st, "BindAddress", bind);
    CutKeyLine("BindAddress", bind);
    hide Cut, Trim, Lower, KeyLine, ApplyLine;
  }

  /** After any number of its lines, all short. */
  lemma {:induction false} SectionPrefix(i: Interface, n: nat)
    requires LoadableInterface(i) && 1 <= n <= |InterfaceLines(i)| && Short(InterfaceLines(i)[..n])
    ensures var t := ApplyLines(START, InterfaceLines(i)[..n]); t == InInterface(t.iface) && InSection(t.iface)
  {
    hide InterfaceLines, ApplyLine, ApplyLines, LoadableInterface, InSection;
    InterfaceHasLines(i);
    var ls := InterfaceLines(i);
    if n == 1 {
      assert ls[..1] == ["[Interface]"];
      HeaderApplies(START);
      ApplyOne(START, "[Interface]");
      StartInSection();
    } else {
      assert Short(ls[..n - 1]) by { assert forall j :: 0 <= j < n - 1 ==> ls[..n - 1][j] == ls[..n][j]; }
      SectionPrefix(i, n - 1);
      assert ls[..n] == ls[..n - 1] + [ls[n - 1]] && ls[..n][n - 1] == ls[n - 1];
      var s := ApplyLines(START, ls[..n - 1]);
      ApplyAppend(START, ls[..n - 1], [ls[n - 1]]);
      ApplyOne(s, ls[n - 1]);
      InterfaceLineStays(s, i, ls[n - 1]);
    }
  }

  lemma StartInSection()
    ensures InSection(NO_INTERFACE)
  {
  }

  /** The section, whole or cut. */
  lemma SectionRead(i: Interface)
    requires LoadableInterface(i)
    ensures var t := ApplyLines(START, Scanned(InterfaceLines(i))); t == InInterface(t.iface) && InSection(t.iface)
  {
    hide InterfaceLines, ApplyLines, LoadableInterface, InSection, Scanned;
    var ls := InterfaceLines(i);
    InterfaceHasLines(i);
    ScannedWhich(ls);
    var n := |Scanned(ls)|;
    assert ls[..n] == Scanned(ls);
    assert n >= 1;
    SectionPrefix(i, n);
  }

  // ---------- the whole file ----------

  /** Blocks of peers without newlines leave the interface alone. */
  lemma LinedKeepsInterface(st: Loader, p: Peer)
    requires LinedPeer(p)
    ensures ApplyLines(st, Scanned(BlockLines(p))).iface == st.iface
  {
    hide ApplyLines, PeerLines, LinedPeer, Scanned, InBlock;
    LinedBlock(p);
    StartsWithHeader(p);
    ScannedWhich(PeerLines(p));
    var n := |Scanned(PeerLines(p))|;
    assert PeerLines(p)[..n] == Scanned(PeerLines(p));
    BlockPrefix(st, p, n);
  }

  lemma {:induction false} PeersKeepInterface(st: Loader, ps: seq<Peer>)
    requires AllLined(ps)
    ensures ApplyLines(st, Scanned(Pieces(PeersLines(ps)))).iface == st.iface
  {
    hide LinedPeer, BlockLines, Short, Scanned, Pieces, PeersLines;
    if ps == [] {
      NoBlocks();
    } else {
      var init, p := ps[..|ps| - 1], ps[|ps| - 1];
      assert init + [p] == ps;
      hide ApplyLines;
      PeersKeepInterface(st, init);
      PeersPieces(init, p);
      var a := Pieces(PeersLines(init));
      ScannedAppend(a, BlockLines(p));
      ScannedPrefix(a);
      if Short(a) {
        ApplyAppend(st, a, Scanned(BlockLines(p)));
        LinedKeepsInterface(ApplyLines(st, a), p);
      }
    }
  }

  lemma NoBlocks()
    ensures Scanned(Pieces(PeersLines([]))) == []
  {
  }

  lemma InterfaceSeen(c: Config, derive: Derive)
    requires LoadableInterface(c.iface) && AllLined(c.peers)
    ensures var r := Load(Print(c), derive).iface; InSection(r.(publicKey := ""))
  {
    hide InterfaceLines, PeersLines, LoadableInterface, ApplyLines, Scanned, Flush, Short, Unlines, Pieces;
    hide SplitAt, AllLined, InSection;
    var a, b := InterfaceLines(c.iface), Pieces(PeersLines(c.peers));
    NoNewlineInterface(c.iface);
    PiecesOfLines(a);
    PiecesAppend(a, PeersLines(c.peers));
    SplitPieces(ConfigLines(c));
    EmptyLineLast(START, a + b);
    ScannedAppend(a, b);
    ScannedPrefix(a);
    SectionRead(c.iface);
    var st := ApplyLines(START, Scanned(a));
    if Short(a) {
      ApplyAppend(START, a, Scanned(b));
      PeersKeepInterface(st, c.peers);
    }
    assert st.iface.publicKey == "" by { NoPublicKey(st.iface); }
    assert st.iface.(publicKey := "") == st.iface;
  }

  lemma NoPublicKey(r: Interface)
    requires InSection(r)
    ensures r.publicKey == ""
  {
  }

  /** Every line of a save of the configuration is short enough for the scanner. */
  ghost predicate ShortConfig(c: Config) { Short(InterfaceLines(c.iface)) && AllShort(c.peers) }

  /** What is loaded from a save without newlines in its fields, cut or not, can be saved and
      read again in full. */
  lemma LoadedIsShort(c: Config, derive: Derive)
    requires LoadableInterface(c.iface) && AllLined(c.peers)
    ensures ShortConfig(Load(Print(c), derive))
  {
    hide Load, Print, LoadableInterface, LinedPeer, InterfaceLines, Short, BlockLines, Seen, Slim, LoadablePeer;
    var r := Load(Print(c), derive);
    LoadIsLoadable(Print(c), derive);
    InterfaceSeen(c, derive);
    SlimInterfaceIsShort(r.iface);
    LoadSees(c, derive);
    LinedSeen(c.peers);
    LoadedIsLined(r);
    AllSlimIsShort(r.peers);
  }

  lemma LoadedIsLined(c: Config)
    requires Loadable(c)
    ensures AllLined(c.peers) && forall i :: 0 <= i < |c.peers| ==> LoadablePeer(c.peers[i])
  {
    hide LoadablePeer, LinedPeer;
    forall i | 0 <= i < |c.peers| ensures LinedPeer(c.peers[i]) && LoadablePeer(c.peers[i]) {
      assert c.peers[i] in c.peers;
      LoadableIsLined(c.peers[i]);
    }
  }

  lemma ShortConfigFits(c: Config)
    requires Loadable(c)
    ensures ShortConfig(c) <==> Fits(c)
  {
    hide InterfaceLines, PeerLines, LoadablePeer, LoadableInterface, Short, AllShort, LinedPeer, Pieces;
    LoadedIsLined(c);
    NoNewlinePeers(c.peers);
    PiecesOfLines(PeersLines(c.peers));
    PeersSpell(START, c.peers);
    ShortAppend(InterfaceLines(c.iface), PeersLines(c.peers));
    ShortMembers(ConfigLines(c));
  }

  lemma ShortMembers(ls: seq<string>)
    ensures Short(ls) <==> forall l :: l in ls ==> |l| < MAX_LINE
  {
    assert forall i :: 0 <= i < |ls| ==> ls[i] in ls;
  }

  // ---------- round trips ----------

  /** A configuration survives a save and a load unchanged exactly when its lines are short
      enough, it has the loadable shape, and it has nothing a save leaves out: a bind address, a
      comment in the interface address, an email or private key of a peer, or another public key
      than the one derived. */
  lemma RoundTripExactly(c: Config, derive: Derive)
    ensures Load(Print(c), derive) == c <==>
      Fits(c) && Loadable(c) && c.iface.bindAddress == "" && '#' !in c.iface.address &&
      c.iface.publicKey == PublicKeyOf(c.iface.privateKey, derive) &&
      forall p :: p in c.peers ==> p.email == "" && p.privateKey == ""
  {
    hide Load, Print, Fits, LinedPeer, LoadableInterface, LoadablePeer, Normal, ShortConfig, PublicKeyOf;
    if Loadable(c) {
      if Fits(c) { LoadPrinted(c, derive); }
      LoadedIsLined(c);
      LoadedIsShort(c, derive);
      ShortConfigFits(c);
      NormalExactly(c, derive);
    }
    LoadIsLoadable(Print(c), derive);
  }

  lemma NormalExactly(c: Config, derive: Derive)
    requires Loadable(c)
    ensures Normal(c, derive) == c <==>
      c.iface.bindAddress == "" && '#' !in c.iface.address &&
      c.iface.publicKey == PublicKeyOf(c.iface.privateKey, derive) &&
      forall p :: p in c.peers ==> p.email == "" && p.privateKey == ""
  {
    hide PublicKeyOf, LoadablePeer, Trimmed;
    StrippedIsPlain(c.iface.address);
    if '#' !in c.iface.address { PlainStays(c.iface.address); }
    var ps, n := c.peers, NormalPeers(c.peers);
    assert n == ps <==> forall i :: 0 <= i < |ps| ==> n[i] == ps[i];
    assert forall i :: 0 <= i < |ps| ==> ps[i] in ps;
    hide StripComment;
  }

  /** What a save and a load keep of a loadable configuration with short lines, field by field. */
  lemma RoundTripFields(c: Config, derive: Derive)
    requires Loadable(c) && Fits(c)
    ensures
      var i, j := c.iface, Load(Print(c), derive).iface;
      && j.privateKey == i.privateKey && j.listenPort == i.listenPort && j.postUp == i.postUp
      && j.postDown == i.postDown && j.mtu == i.mtu && j.dns == i.dns && j.bindAddress == ""
      && ('#' !in i.address ==> j.address == i.address)
      && j.publicKey == if i.privateKey == "" || derive(i.privateKey).None? then "" else derive(i.privateKey).value
    ensures
      var ps, qs := c.peers, Load(Print(c), derive).peers;
      && |qs| == |ps|
      && forall k :: 0 <= k < |ps| ==>
           && qs[k].publicKey == ps[k].publicKey && qs[k].allowedIPs == ps[k].allowedIPs
           && qs[k].endpoint == ps[k].endpoint && qs[k].presharedKey == ps[k].presharedKey
           && qs[k].alias == (if ps[k].alias == "" then ps[k].email else ps[k].alias)
           && qs[k].email == "" && qs[k].privateKey == ""
  {
    LoadPrinted(c, derive);
    hide Load, Print, Fits, LoadablePeer, Trimmed;
    if '#' !in c.iface.address { PlainStays(c.iface.address); }
  }

  /** What is loaded from a save of a loaded configuration, cut or not, is its own normal form. */
  lemma LoadedIsNormal(c: Config, derive: Derive)
    requires Loadable(c)
    ensures Normal(Load(Print(c), derive), derive) == Load(Print(c), derive)
  {
    hide Load, Print, LoadableInterface, LoadablePeer, LinedPeer, Seen, Short, InterfaceLines, Trimmed;
    var r := Load(Print(c), derive);
    LoadedIsLined(c);
    InterfaceSeen(c, derive);
    PlainStays(r.iface.address);
    LoadIsLoadable(Print(c), derive);
    LoadSees(c, derive);
    LoadableSeen(c.peers);
    forall i | 0 <= i < |r.peers| ensures NormalPeer(r.peers[i]) == r.peers[i] { assert Nameless(r.peers[i]); }
    assert NormalPeers(r.peers) == r.peers;
  }

  /** Any file at all: after loading, saving and loading it, saving and loading it again changes
      nothing; if its lines are short enough when saved, all of its normal form is kept. */
  lemma SecondSaveChangesNothing(text: string, derive: Derive)
    ensures var once := Load(Print(Load(text, derive)), derive);
      && Load(Print(once), derive) == once
      && (Fits(Load(text, derive)) ==> once == Normal(Load(text, derive), derive))
  {
    hide Load, Print, Fits, Normal, Loadable, LinedPeer, ShortConfig, LoadablePeer;
    var c := Load(text, derive);
    LoadIsLoadable(text, derive);
    if Fits(c) { LoadPrinted(c, derive); }
    var once := Load(Print(c), derive);
    LoadIsLoadable(Print(c), derive);
    LoadedIsNormal(c, derive);
    LoadedIsLined(c);
    LoadableMeans(c);
    LoadedIsShort(c, derive);
    ShortConfigFits(once);
    NormalExactly(once, derive);
    RoundTripExactly(once, derive);
  }

  lemma LoadableMeans(c: Config)
    requires Loadable(c)
    ensures LoadableInterface(c.iface)
  {
  }
}
