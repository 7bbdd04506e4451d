/** Saving and loading the WireGuard configuration. */
module WgRoundTrip {
  import opened Common
  import opened Ascii
  import opened Lines
  import opened WgConfig

  // ---------- text and lines ----------

  lemma {:induction false} SplitUnlines(ls: seq<string>)
    requires forall l :: l in ls ==> '\n' !in l
    ensures SplitAt(Unlines(ls), '\n') == ls + [""]
  {
    hide SplitAt;
    if ls == [] {
      SplitNothing();
    } else {
      var init, l := ls[..|ls| - 1], ls[|ls| - 1];
      SplitUnlines(init);
      SplitLine(l);
      SplitJoin(Unlines(init), l + "\n", '\n');
      assert Unlines(ls) == Unlines(init) + (l + "\n");
      SeamOfLine(init, l);
    }
  }

  lemma SplitNothing()
    ensures SplitAt("", '\n') == [""]
  {
  }

  lemma SeamOfLine(init: seq<string>, l: string)
    ensures Seam(init + [""], [l, ""]) == init + [l] + [""]
  {
    assert "" + l == l;
    assert (init + [""])[..|init|] == init;
  }

  lemma SplitLine(l: string)
    requires '\n' !in l
    ensures SplitAt(l + "\n", '\n') == [l, ""]
  {
    SplitOne(l, '\n');
    SplitJoin(l, "\n", '\n');
    assert SplitAt("\n", '\n') == ["", ""];
    hide SplitAt;
    assert l + "" == l;
  }

  lemma {:induction false} ScannedAll(ls: seq<string>)
    requires forall l :: l in ls ==> |l| < MAX_LINE
    ensures Scanned(ls) == ls
  {
    if ls != [] { ScannedAll(ls[1..]); }
  }

  lemma {:induction false} ScannedSome(ls: seq<string>)
    ensures forall l :: l in Scanned(ls) ==> l in ls
  {
    if ls != [] { ScannedSome(ls[1..]); }
  }

  lemma {:induction false} ApplyAppend(st: Loader, a: seq<string>, b: seq<string>)
    ensures ApplyLines(st, a + b) == ApplyLines(ApplyLines(st, a), b)
  {
    if b == [] {
      assert a + b == a;
    } else {
      ApplyAppend(st, a, b[..|b| - 1]);
      assert (a + b)[..|a + b| - 1] == a + b[..|b| - 1];
    }
  }

  lemma ApplyOne(st: Loader, l: string)
    ensures ApplyLines(st, [l]) == ApplyLine(st, l)
  {
    assert [l][..0] == [];
  }

  // ---------- single lines ----------

  predicate IsLetter(c: char) { 'A' <= c <= 'Z' || 'a' <= c <= 'z' }

  ghost predicate KeyName(key: string) {
    key != [] && forall i :: 0 <= i < |key| ==> IsLetter(key[i])
  }

  lemma KeyNameFacts(key: string)
    requires KeyName(key)
    ensures Trimmed(key) && '=' !in key + " "
  {
    assert IsLetter(key[0]) && IsLetter(key[|key| - 1]);
  }

  /** Trimming a key line only affects the padding of an empty value. */
  lemma TrimKeyLine(key: string, value: string)
    requires KeyName(key) && OneLine(value)
    ensures Trim(KeyLine(key, value)) == if value == "" then key + " =" else KeyLine(key, value)
  {
    var l := KeyLine(key, value);
    assert IsLetter(l[0]);
    if value == "" {
      assert l == (key + " =") + " ";
      assert IsLetter((key + " =")[0]);
      TrimPadded(key + " =");
    } else {
      assert l[|l| - 1] == value[|value| - 1];
      TrimmedStays(l);
    }
  }

  function ValuePart(value: string): string { if value == "" then "" else " " + value }

  lemma TrimmedParts(key: string, value: string)
    requires KeyName(key) && OneLine(value)
    ensures Trim(KeyLine(key, value)) == (key + " ") + ['='] + ValuePart(value)
  {
    TrimKeyLine(key, value);
    if value == "" {
      assert key + " =" == (key + " ") + ['='] + "";
    }
  }

  lemma KeyedLine(st: Loader, raw: string, k: string, v: string)
    requires Trim(raw) == k + ['='] + v
    requires k != [] && IsLetter(k[0]) && '=' !in k
    ensures ApplyLine(st, raw) == KeyValue(st, k, v)
  {
    hide KeyValue, Trim, Cut;
    CutAt(k, v, '=');
    var line := k + ['='] + v;
    assert line[0] == k[0];
  }

  lemma KeyLineApplies(st: Loader, key: string, value: string)
    requires KeyName(key) && OneLine(value)
    ensures ApplyLine(st, KeyLine(key, value)) == KeyValue(st, key + " ", ValuePart(value))
  {
    TrimmedParts(key, value);
    KeyNameFacts(key);
    hide ApplyLine, KeyValue, Trim, KeyLine;
    assert IsLetter(key[0]) && (key + " ")[0] == key[0];
    KeyedLine(st, KeyLine(key, value), key + " ", ValuePart(value));
  }

  /** A printed value is set under its key, less an inline comment. */
  lemma KeyLineSets(st: Loader, key: string, value: string)
    requires KeyName(key) && OneLine(value) && (Plain(value) || st.section == "interface")
    ensures ApplyLine(st, KeyLine(key, value)) == SetKey(st, Lower(key), StripComment(value))
  {
    KeyLineApplies(st, key, value);
    KeyNameFacts(key);
    TrimPadded(key);
    TrimPadded(value);
    assert Trim("") == "";
  }

  lemma PlainStays(value: string)
    requires Plain(value)
    ensures StripComment(value) == value
  {
  }

  lemma CommentLineApplies(st: Loader, key: string, value: string)
    requires KeyName(key) && OneLine(value) && value != ""
    ensures ApplyLine(st, "# " + KeyLine(key, value)) == Commented(st, KeyLine(key, value))
  {
    var l := "# " + KeyLine(key, value);
    assert l[0] == '#' && l[|l| - 1] == value[|value| - 1];
    TrimmedStays(l);
    assert l[1..] == " " + KeyLine(key, value);
    TrimKeyLine(key, value);
    assert IsLetter(KeyLine(key, value)[0]) && KeyLine(key, value)[|key| + 2 + |value|] == value[|value| - 1];
    TrimPadded(KeyLine(key, value));
  }

  lemma CutKeyLine(key: string, value: string)
    requires KeyName(key) && OneLine(value)
    ensures Cut(KeyLine(key, value), '=') == Some((key + " ", " " + value))
    ensures Trim(key + " ") == key && Trim(" " + value) == value
  {
    KeyNameFacts(key);
    assert KeyLine(key, value) == (key + " ") + ['='] + (" " + value);
    CutAt(key + " ", " " + value, '=');
    TrimPadded(key);
    TrimPadded(value);
  }

  lemma Unbracketed(name: string)
    ensures var l := ['['] + name + [']']; l[1..|l| - 1] == name
  {
  }

  lemma HeaderApplies(st: Loader)
    ensures ApplyLine(st, "[Interface]") == Header(st, "interface")
    ensures ApplyLine(st, "[Peer]") == Header(st, "peer")
    ensures ApplyLine(st, "") == st
  {
    TrimmedStays("[Interface]");
    TrimmedStays("[Peer]");
    assert "[Interface]" == ['['] + "Interface" + [']'];
    assert "[Peer]" == ['['] + "Peer" + [']'];
    Unbracketed("Interface");
    Unbracketed("Peer");
    assert Lower("Interface") == "interface";
    assert Lower("Peer") == "peer";
    assert Trim("") == "";
  }

  // ---------- sections ----------

  lemma Then(st: Loader, a: seq<string>, mid: Loader, b: seq<string>, end: Loader)
    requires ApplyLines(st, a) == mid && ApplyLines(mid, b) == end
    ensures ApplyLines(st, a + b) == end
  {
    ApplyAppend(st, a, b);
  }

  /** The key names of the file, as the loader matches them. */
  lemma FirstKeys()
    ensures Lower("Address") == "address" && KeyName("Address")
    ensures Lower("PrivateKey") == "privatekey" && KeyName("PrivateKey")
    ensures Lower("ListenPort") == "listenport" && KeyName("ListenPort")
  {
  }

  lemma MiddleKeys()
    ensures Lower("PostUp") == "postup" && KeyName("PostUp")
    ensures Lower("PostDown") == "postdown" && KeyName("PostDown")
    ensures Lower("MTU") == "mtu" && KeyName("MTU")
    ensures Lower("DNS") == "dns" && KeyName("DNS")
  {
  }

  lemma CommentKeys()
    ensures Lower("BindAddress") == "bindaddress" && KeyName("BindAddress")
    ensures Lower("Alias") == "alias" && KeyName("Alias")
  {
  }

  lemma PeerKeys()
    ensures Lower("PublicKey") == "publickey" && KeyName("PublicKey")
    ensures Lower("AllowedIPs") == "allowedips" && KeyName("AllowedIPs")
    ensures Lower("Endpoint") == "endpoint" && KeyName("Endpoint")
    ensures Lower("PresharedKey") == "presharedkey" && KeyName("PresharedKey")
  {
  }

  /** An optional line sets its key; leaving it out leaves an unset key unset. */
  lemma OptionalSets(st: Loader, key: string, value: string)
    requires KeyName(key) && OneLine(value) && (Plain(value) || st.section == "interface")
    requires value == "" ==> SetKey(st, Lower(key), "") == st
    ensures ApplyLines(st, Optional(KeyLine(key, value), value)) == SetKey(st, Lower(key), StripComment(value))
  {
    if value != "" {
      ApplyOne(st, KeyLine(key, value));
      KeyLineSets(st, key, value);
    } else {
      PlainStays(value);
    }
  }

  lemma NumberSets(st: Loader, key: string, n: int)
    requires KeyName(key) && IsInt64(n)
    ensures ApplyLines(st, [KeyLine(key, Itoa(n))]) == SetKey(st, Lower(key), Itoa(n))
    ensures Atoi(Itoa(n)) == n
  {
    ItoaPlain(n);
    AtoiItoa(n);
    ApplyOne(st, KeyLine(key, Itoa(n)));
    KeyLineSets(st, key, Itoa(n));
    PlainStays(Itoa(n));
  }

  function InInterface(i: Interface): Loader { Loader("interface", None, i, []) }

  /** The field each printed key sets. */
  lemma InterfaceFields()
    ensures FieldOf(Lower("Address")) == Address && FieldOf(Lower("PrivateKey")) == PrivateKey
    ensures FieldOf(Lower("ListenPort")) == ListenPort && FieldOf(Lower("MTU")) == Mtu
    ensures FieldOf(Lower("PostUp")) == PostUp && FieldOf(Lower("PostDown")) == PostDown
    ensures FieldOf(Lower("DNS")) == Dns
    ensures KeyName("Address") && KeyName("PrivateKey") && KeyName("ListenPort") && KeyName("MTU")
    ensures KeyName("PostUp") && KeyName("PostDown") && KeyName("DNS")
  {
    FirstKeys();
    MiddleKeys();
  }

  lemma ApplyNone(st: Loader)
    ensures ApplyLines(st, []) == st
  {
  }

  lemma PortLine(st: Loader, n: int)
    requires IsInt64(n) && st.section == "interface" && st.iface.listenPort == 0
    ensures ApplyLines(st, Number("ListenPort", n)) == st.(iface := st.iface.(listenPort := n))
  {
    hide ApplyLines, KeyLine, Itoa, Atoi, Lower, KeyName, FieldOf;
    InterfaceFields();
    if n == 0 { ApplyNone(st); } else { NumberSets(st, "ListenPort", n); }
  }

  lemma MtuLine(st: Loader, n: int)
    requires IsInt64(n) && st.section == "interface" && st.iface.mtu == 0
    ensures ApplyLines(st, Number("MTU", n)) == st.(iface := st.iface.(mtu := n))
  {
    hide ApplyLines, KeyLine, Itoa, Atoi, Lower, KeyName, FieldOf;
    InterfaceFields();
    if n == 0 { ApplyNone(st); } else { NumberSets(st, "MTU", n); }
  }

  /** An optional interface line: what its field becomes. */
  lemma InterfaceLine(st: Loader, key: string, value: string, next: Interface)
    requires st.section == "interface" && KeyName(key) && OneLine(value)
    requires SetInterface(st.iface, Lower(key), StripComment(value)) == next
    requires value == "" ==> SetInterface(st.iface, Lower(key), "") == st.iface
    ensures ApplyLines(st, Optional(KeyLine(key, value), value)) == st.(iface := next)
  {
    hide SetInterface, ApplyLines, KeyLine, Optional, StripComment, Lower;
    OptionalSets(st, key, value);
  }

  /** Address to listen port. */
  lemma FirstApply(i: Interface)
    requires LoadableInterface(i)
    ensures ApplyLines(START, FirstLines(i))
         == InInterface(NO_INTERFACE.(
              address := StripComment(i.address), privateKey := i.privateKey, listenPort := i.listenPort))
  {
    hide ApplyLines, ApplyLine, KeyLine, Optional, StripComment, Number, Lower, FieldOf, KeyName;
    InterfaceFields();
    HeaderApplies(START);
    ApplyOne(START, "[Interface]");
    PlainStays(i.privateKey);
    PlainStays("");
    var s0 := InInterface(NO_INTERFACE);
    var s1 := InInterface(NO_INTERFACE.(address := StripComment(i.address)));
    var s2 := InInterface(s1.iface.(privateKey := i.privateKey));
    InterfaceLine(s0, "Address", i.address, s1.iface);
    InterfaceLine(s1, "PrivateKey", i.privateKey, s2.iface);
    PortLine(s2, i.listenPort);
    var a, b, c := Optional(KeyLine("Address", i.address), i.address),
                   Optional(KeyLine("PrivateKey", i.privateKey), i.privateKey), Number("ListenPort", i.listenPort);
    Then(START, ["[Interface]"], s0, a, s1);
    Then(START, ["[Interface]"] + a, s1, b, s2);
    Then(START, ["[Interface]"] + a + b, s2, c, InInterface(s2.iface.(listenPort := i.listenPort)));
  }

  /** Post-up to DNS. */
  lemma MiddleApply(st: Loader, i: Interface)
    requires LoadableInterface(i) && st.section == "interface"
    requires st.iface.postUp == st.iface.postDown == st.iface.dns == "" && st.iface.mtu == 0
    ensures ApplyLines(st, MiddleLines(i))
         == st.(iface := st.iface.(postUp := i.postUp, postDown := i.postDown, mtu := i.mtu, dns := i.dns))
  {
    hide ApplyLines, KeyLine, Optional, StripComment, Number, Lower, FieldOf, KeyName;
    InterfaceFields();
    PlainStays(i.postUp);
    PlainStays(i.postDown);
    PlainStays(i.dns);
    var s1 := st.(iface := st.iface.(postUp := i.postUp));
    var s2 := s1.(iface := s1.iface.(postDown := i.postDown));
    var s3 := s2.(iface := s2.iface.(mtu := i.mtu));
    var s4 := s3.(iface := s3.iface.(dns := i.dns));
    InterfaceLine(st, "PostUp", i.postUp, s1.iface);
    InterfaceLine(s1, "PostDown", i.postDown, s2.iface);
    MtuLine(s2, i.mtu);
    InterfaceLine(s3, "DNS", i.dns, s4.iface);
    var a, b := Optional(KeyLine("PostUp", i.postUp), i.postUp), Optional(KeyLine("PostDown", i.postDown), i.postDown);
    var c, d := Number("MTU", i.mtu), Optional(KeyLine("DNS", i.dns), i.dns);
    Then(st, a, s1, b, s2);
    Then(st, a + b, s2, c, s3);
    Then(st, a + b + c, s3, d, s4);
  }

  /** The bind address is printed as a comment no loader reads. */
  lemma LastApply(st: Loader, bind: string)
    requires OneLine(bind) && st.section == "interface"
    ensures ApplyLines(st, LastLines(bind)) == st
  {
    CommentKeys();
    HeaderApplies(st);
    ApplyOne(st, "");
    if bind != "" {
      CommentLineApplies(st, "BindAddress", bind);
      CutKeyLine("BindAddress", bind);
      ApplyOne(st, "# " + KeyLine("BindAddress", bind));
    }
    Then(st, Optional("# " + KeyLine("BindAddress", bind), bind), st, [""], st);
  }

  lemma InterfaceApplies(i: Interface)
    requires LoadableInterface(i)
    ensures ApplyLines(START, InterfaceLines(i))
         == InInterface(i.(address := StripComment(i.address), bindAddress := "", publicKey := ""))
  {
    var s1 := InInterface(NO_INTERFACE.(
      address := StripComment(i.address), privateKey := i.privateKey, listenPort := i.listenPort));
    var s2 := InInterface(i.(address := StripComment(i.address), bindAddress := "", publicKey := ""));
    FirstApply(i);
    MiddleApply(s1, i);
    LastApply(s2, i.bindAddress);
    hide ApplyLines, StripComment, FirstLines, MiddleLines, LastLines;
    Then(START, FirstLines(i), s1, MiddleLines(i), s2);
    Then(START, FirstLines(i) + MiddleLines(i), s2, LastLines(i.bindAddress), s2);
  }

  // ---------- peers ----------

  lemma AliasLine(st: Loader, alias: string)
    requires OneLine(alias) && st.section == "peer" && st.peer == Some(NO_PEER)
    ensures ApplyLines(st, Optional("# " + KeyLine("Alias", alias), alias)) ==
      st.(peer := Some(NO_PEER.(alias := alias)))
  {
    CommentKeys();
    if alias != "" {
      CommentLineApplies(st, "Alias", alias);
      CutKeyLine("Alias", alias);
      ApplyOne(st, "# " + KeyLine("Alias", alias));
    }
  }

  lemma PeerKeyLine(st: Loader, key: string, value: string)
    requires KeyName(key) && Plain(value)
    ensures ApplyLines(st, [KeyLine(key, value)]) == SetKey(st, Lower(key), value)
  {
    ApplyOne(st, KeyLine(key, value));
    KeyLineSets(st, key, value);
    PlainStays(value);
  }

  function InPeer(st: Loader, p: Peer): Loader { Loader("peer", Some(p), st.iface, Flush(st)) }

  /** One printed peer block starts a new peer and sets all that a load can know of it. */
  lemma PeerApplies(st: Loader, p: Peer)
    requires LoadablePeer(p)
    ensures ApplyLines(st, PeerLines(p)) == InPeer(st, NormalPeer(p))
  {
    PeerKeys();
    HeaderApplies(st);
    ApplyOne(st, "[Peer]");
    var s0 := InPeer(st, NO_PEER);
    AliasLine(s0, AliasOf(p));
    var s1 := InPeer(st, NO_PEER.(alias := AliasOf(p)));
    PeerKeyLine(s1, "PublicKey", p.publicKey);
    var s2 := InPeer(st, s1.peer.value.(publicKey := p.publicKey));
    PeerKeyLine(s2, "AllowedIPs", p.allowedIPs);
    var s3 := InPeer(st, s2.peer.value.(allowedIPs := p.allowedIPs));
    OptionalSets(s3, "Endpoint", p.endpoint);
    PlainStays(p.endpoint);
    var s4 := InPeer(st, s3.peer.value.(endpoint := p.endpoint));
    OptionalSets(s4, "PresharedKey", p.presharedKey);
    PlainStays(p.presharedKey);
    var s5 := InPeer(st, s4.peer.value.(presharedKey := p.presharedKey));
    HeaderApplies(s5);
    ApplyOne(s5, "");
    PeerBlock(st, p, s0, s1, s2, s3, s4, s5);
  }

  lemma PeerBlock(st: Loader, p: Peer, s0: Loader, s1: Loader, s2: Loader, s3: Loader, s4: Loader, s5: Loader)
    requires ApplyLines(st, ["[Peer]"]) == s0
    requires ApplyLines(s0, Optional("# " + KeyLine("Alias", AliasOf(p)), AliasOf(p))) == s1
    requires ApplyLines(s1, [KeyLine("PublicKey", p.publicKey)]) == s2
    requires ApplyLines(s2, [KeyLine("AllowedIPs", p.allowedIPs)]) == s3
    requires ApplyLines(s3, Optional(KeyLine("Endpoint", p.endpoint), p.endpoint)) == s4
    requires ApplyLines(s4, Optional(KeyLine("PresharedKey", p.presharedKey), p.presharedKey)) == s5
    requires ApplyLines(s5, [""]) == s5
    ensures ApplyLines(st, PeerLines(p)) == s5
  {
    var a := Optional("# " + KeyLine("Alias", AliasOf(p)), AliasOf(p));
    var b, c := [KeyLine("PublicKey", p.publicKey)], [KeyLine("AllowedIPs", p.allowedIPs)];
    var d := Optional(KeyLine("Endpoint", p.endpoint), p.endpoint);
    var e := Optional(KeyLine("PresharedKey", p.presharedKey), p.presharedKey);
    assert PeerLines(p) == ["[Peer]"] + a + b + c + d + e + [""];
    hide ApplyLines, KeyLine, Optional, PeerLines;
    Then(st, ["[Peer]"], s0, a, s1);
    Then(st, ["[Peer]"] + a, s1, b, s2);
    Then(st, ["[Peer]"] + a + b, s2, c, s3);
    Then(st, ["[Peer]"] + a + b + c, s3, d, s4);
    Then(st, ["[Peer]"] + a + b + c + d, s4, e, s5);
    Then(st, ["[Peer]"] + a + b + c + d + e, s5, [""], s5);
  }

  lemma {:induction false} PeersApply(st: Loader, ps: seq<Peer>)
    requires st.peer == None && st.peers == [] && forall p :: p in ps ==> LoadablePeer(p)
    ensures var end := ApplyLines(st, PeersLines(ps)); end.iface == st.iface && Flush(end) == NormalPeers(ps)
  {
    if ps != [] {
      var init, p := ps[..|ps| - 1], ps[|ps| - 1];
      assert NormalPeers(ps) == NormalPeers(init) + [NormalPeer(p)];
      hide ApplyLines, PeerLines, NormalPeer, NormalPeers, LoadablePeer;
      PeersApply(st, init);
      PeerApplies(ApplyLines(st, PeersLines(init)), p);
      ApplyAppend(st, PeersLines(init), PeerLines(p));
    }
  }

  // ---------- round trip ----------

  lemma KeyLineOneLine(key: string, value: string)
    requires '\n' !in key && '\n' !in value
    ensures '\n' !in KeyLine(key, value) && '\n' !in "# " + KeyLine(key, value)
  {
  }

  lemma NoNewlineInterface(i: Interface)
    requires LoadableInterface(i)
    ensures forall l :: l in InterfaceLines(i) ==> '\n' !in l
  {
    hide KeyLine, Itoa, Trimmed;
    ItoaPlain(i.listenPort);
    ItoaPlain(i.mtu);
    KeyLineOneLine("Address", i.address);
    KeyLineOneLine("PrivateKey", i.privateKey);
    KeyLineOneLine("ListenPort", Itoa(i.listenPort));
    KeyLineOneLine("PostUp", i.postUp);
    KeyLineOneLine("PostDown", i.postDown);
    KeyLineOneLine("MTU", Itoa(i.mtu));
    KeyLineOneLine("DNS", i.dns);
    KeyLineOneLine("BindAddress", i.bindAddress);
  }

  lemma NoNewlinePeer(p: Peer)
    requires LoadablePeer(p)
    ensures forall l :: l in PeerLines(p) ==> '\n' !in l
  {
    KeyLineOneLine("Alias", AliasOf(p));
    KeyLineOneLine("PublicKey", p.publicKey);
    KeyLineOneLine("AllowedIPs", p.allowedIPs);
    KeyLineOneLine("Endpoint", p.endpoint);
    KeyLineOneLine("PresharedKey", p.presharedKey);
    hide KeyLine;
  }

  lemma {:induction false} NoNewlinePeers(ps: seq<Peer>)
    requires forall p :: p in ps ==> LoadablePeer(p)
    ensures forall l :: l in PeersLines(ps) ==> '\n' !in l
  {
    if ps != [] {
      NoNewlinePeers(ps[..|ps| - 1]);
      NoNewlinePeer(ps[|ps| - 1]);
    }
  }

  /** Loading what was saved gives back the configuration in normal form. */
  lemma LoadPrinted(c: Config, derive: Derive)
    requires Loadable(c) && Fits(c)
    ensures Load(Print(c), derive) == Normal(c, derive)
  {
    var ls := ConfigLines(c);
    NoNewlineInterface(c.iface);
    NoNewlinePeers(c.peers);
    SplitUnlines(ls);
    ScannedAll(ls + [""]);
    InterfaceApplies(c.iface);
    var st := InInterface(c.iface.(address := StripComment(c.iface.address), bindAddress := "", publicKey := ""));
    PeersApply(st, c.peers);
    ApplyAppend(START, InterfaceLines(c.iface), PeersLines(c.peers));
    var end := ApplyLines(st, PeersLines(c.peers));
    HeaderApplies(end);
    ApplyOne(end, "");
    ApplyAppend(START, ls, [""]);
  }

  // ---------- what a load can produce ----------

  ghost predicate LoadableState(st: Loader) {
    && LoadableInterface(st.iface)
    && (st.peer.Some? ==> LoadablePeer(st.peer.value))
    && (forall p :: p in st.peers ==> LoadablePeer(p))
  }

  lemma CutParts(s: string, c: char)
    requires Cut(s, c).Some?
    ensures forall x :: x in Cut(s, c).value.0 || x in Cut(s, c).value.1 ==> x in s
  {
  }

  lemma TrimOneLine(s: string)
    requires '\n' !in s
    ensures OneLine(Trim(s))
  {
    TrimTrims(s);
  }

  lemma StrippedIsPlain(value: string)
    requires OneLine(value)
    ensures Plain(StripComment(value))
  {
    var i := IndexOf(value, '#');
    if i < |value| {
      assert '\n' !in value[..i] && '#' !in value[..i];
      TrimTrims(value[..i]);
    }
  }

  lemma CommentedLoadable(st: Loader, comment: string)
    requires LoadableState(st) && '\n' !in comment
    ensures LoadableState(Commented(st, comment)) && Commented(st, comment).section == st.section
  {
    if Cut(comment, '=').Some? {
      CutParts(comment, '=');
      TrimOneLine(Cut(comment, '=').value.1);
      hide Cut, Trim, Lower;
    }
  }

  lemma SetKeyLoadable(st: Loader, key: string, value: string)
    requires LoadableState(st) && Plain(value)
    ensures LoadableState(SetKey(st, key, value))
  {
    hide SetInterface, SetPeer, Plain, LoadableInterface, LoadablePeer;
  }

  lemma KeyValueLoadable(st: Loader, k: string, v: string)
    requires LoadableState(st) && '\n' !in v
    ensures LoadableState(KeyValue(st, k, v))
  {
    hide LoadableState, Trim, Lower, Plain, Commented, SetKey, StripComment;
    TrimOneLine(v);
    var value := Trim(v);
    StrippedIsPlain(value);
    var i := IndexOf(value, '#');
    if i < |value| && st.section == "peer" {
      assert '\n' !in value[i + 1..];
      TrimTrims(value[i + 1..]);
      assert '\n' !in Trim(value[i + 1..]);
      CommentedLoadable(st, Trim(value[i + 1..]));
      SetKeyLoadable(Commented(st, Trim(value[i + 1..])), Lower(Trim(k)), StripComment(value));
    } else {
      SetKeyLoadable(st, Lower(Trim(k)), StripComment(value));
    }
  }

  lemma LineLoadable(st: Loader, raw: string)
    requires LoadableState(st) && '\n' !in raw
    ensures LoadableState(ApplyLine(st, raw))
  {
    TrimOneLine(raw);
    var line := Trim(raw);
    if line != "" {
      if line[0] == '#' {
        assert '\n' !in line[1..];
        TrimTrims(line[1..]);
        assert '\n' !in Trim(line[1..]);
        CommentedLoadable(st, Trim(line[1..]));
      } else if !(line[0] == '[' && line[|line| - 1] == ']') && Cut(line, '=').Some? {
        CutParts(line, '=');
        KeyValueLoadable(st, Cut(line, '=').value.0, Cut(line, '=').value.1);
      }
      hide Trim, Cut, Commented, KeyValue, Lower;
    }
  }

  lemma {:induction false} LinesLoadable(st: Loader, ls: seq<string>)
    requires LoadableState(st) && forall l :: l in ls ==> '\n' !in l
    ensures LoadableState(ApplyLines(st, ls))
  {
    if ls != [] {
      LinesLoadable(st, ls[..|ls| - 1]);
      LineLoadable(ApplyLines(st, ls[..|ls| - 1]), ls[|ls| - 1]);
    }
  }

  /** Whatever the file holds, a load yields a configuration of the loadable shape. */
  lemma LoadIsLoadable(text: string, derive: Derive)
    ensures Loadable(Load(text, derive))
    ensures var i := Load(text, derive).iface; i.publicKey == PublicKeyOf(i.privateKey, derive)
  {
    var ls := SplitAt(text, '\n');
    NoSeparatorInside(text, '\n');
    ScannedSome(ls);
    LinesLoadable(START, ScanLines(text));
  }
}
