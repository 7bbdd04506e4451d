/** The peer handlers as the panel runs them: load the file, check, edit, save the file. */
module WgHandlers {
  import opened Common
  import opened Ascii
  import opened Lines
  import opened Ipv4
  import opened Ipv4Text
  import opened WgConfig
  import opened WgFile
  import opened WgPeers

  /** What loading the file yields; a missing file is an empty configuration. */
  function Current(content: Option<string>, derive: Derive): Config {
    if content.None? then Config(NO_INTERFACE, []) else Load(content.value, derive)
  }

  method AddUsedIP(used: set<IP>, cidr: string) returns (r: set<IP>)
    ensures r == used + UsedBy(cidr)
  {
    r := used;
    if cidr == "" {
      return;
    }
    var c := Trim(cidr);
    var host := c;
    var idx := IndexOf(host, '/');
    if idx < |host| {
      host := host[..idx];
    }
    assert host == UpTo(c, '/');
    host := Trim(host);
    var ip := ParseIP(host);
    if ip.Some? {
      r := r + {ip.value};
    }
    if '/' in c {
      var netblock := ParseCIDR(c);
      if netblock.Some? {
        r := r + {netblock.value.1.ip};
      }
    }
  }

  method CollectUsed(c: Config) returns (used: set<IP>)
    ensures used == UsedIPs(c)
  {
    hide First, UsedBy;
    used := AddUsedIP({}, First(c.iface.address));
    for i := 0 to |c.peers|
      invariant used == UsedBy(First(c.iface.address)) + PeerUses(c.peers[..i])
    {
      assert c.peers[..i + 1][..i] == c.peers[..i];
      used := AddUsedIP(used, First(c.peers[i].allowedIPs));
    }
    assert c.peers[..|c.peers|] == c.peers;
  }

  /** The address part of the create handler. */
  method AssignAddress(c: Config, req: CreateRequest) returns (res: Option<string>)
    ensures res.Some? ==> exists nets :: Assigned(c, req, nets) && res.value == Join(Shown(nets))
    ensures res.None? ==> forall nets :: !Assigned(c, req, nets)
  {
    hide UsableHost, LowestFree, OffsetIn, LastOffset;
    var used := CollectUsed(c);
    if Trim(req.ip) == "" {
      var net := AutoNet(c);
      var avoid := used;
      if InterfaceNet(c).None? {
        FallbackUses();
        avoid := AddUsedIP(avoid, "10.100.0.1/32");
      }
      AutoNetIsNetwork(c);
      var ip := FindAvailableIP(net, avoid);
      assert avoid == AutoUsed(c);
      if ip.None? {
        AutoExhausted(c, req);
        return None;
      }
      var i :| LowestFree(net, avoid, i) && ip.value == OffsetIn(net.ip, i);
      AutoAssigned(c, req, i);
      AutoText(ip.value);
      return Some(ShowIP(ip.value) + "/32");
    }
    var norm := NormalizeAllowedIPs(req.ip);
    if norm.Err? {
      return None;
    }
    ghost var nets := Nets(SplitAt(req.ip, ',')).value;
    NetsAreNetworks(SplitAt(req.ip, ','));
    NetRoundTrip(nets[0]);
    var netblock := ParseCIDR(norm.value.1);
    if netblock.Some? && netblock.value.1.ip in used {
      return None;
    }
    assert Assigned(c, req, nets);
    return Some(Join(norm.value.0));
  }

  lemma AutoAssigned(c: Config, req: CreateRequest, i: nat)
    requires Trim(req.ip) == "" && IsNetwork(AutoNet(c)) && LowestFree(AutoNet(c), AutoUsed(c), i)
    ensures Assigned(c, req, [IPNet(OffsetIn(AutoNet(c).ip, i), 32)])
  {
  }

  lemma AutoExhausted(c: Config, req: CreateRequest)
    requires Trim(req.ip) == "" && IsNetwork(AutoNet(c))
    requires forall i: nat ::
      1 <= i <= LastOffset(AutoNet(c).bits) ==> OffsetIn(AutoNet(c).ip, i) in AutoUsed(c)
    ensures forall nets :: !Assigned(c, req, nets)
  {
    hide AutoNet, AutoUsed, OffsetIn, LastOffset;
  }

  lemma AutoNetIsNetwork(c: Config)
    ensures IsNetwork(AutoNet(c))
  {
    BlockFallback();
  }

  lemma BlockFallback()
    ensures IsNetwork(FALLBACK)
  {
    FullMask(24);
    FullMask(16);
    FullMask(8);
    MaskedByteIs(0, 0);
    Pow2Eight(8);
  }

  lemma AutoText(ip: IP)
    ensures Join(Shown([IPNet(ip, 32)])) == ShowIP(ip) + "/32"
  {
    assert Utoa(32) == "32" by { assert Utoa(3) == "3"; }
  }

  lemma FallbackUses()
    ensures UsedBy("10.100.0.1/32") == {IP(10, 100, 0, 1)}
  {
    var ip := IP(10, 100, 0, 1);
    var net := IPNet(ip, 32);
    HostMask(ip);
    IPRoundTrip(ip);
    NetRoundTrip(net);
    AddressTextPlain(ShowNet(net));
    AddressTextPlain(ShowIP(ip));
    TrimmedStays(ShowNet(net));
    TrimmedStays(ShowIP(ip));
    ShowFallback();
    CutAt(ShowIP(ip), "32", '/');
  }

  lemma ShowFallback()
    ensures ShowNet(IPNet(IP(10, 100, 0, 1), 32)) == "10.100.0.1/32"
    ensures ShowIP(IP(10, 100, 0, 1)) == "10.100.0.1"
  {
    assert Utoa(1) == "1" && Utoa(0) == "0" && Utoa(3) == "3";
    assert Utoa(10) == "10";
    assert Utoa(100) == "100";
    assert Utoa(32) == "32";
  }

  lemma AssignedUnique(c: Config, req: CreateRequest, m: seq<IPNet>, n: seq<IPNet>)
    requires Assigned(c, req, m) && Assigned(c, req, n)
    ensures m == n
  {
    hide LastOffset, UsedIPs, AutoNet, OffsetIn, Nets;
    if Trim(req.ip) == "" {
      var net, used := AutoNet(c), AutoUsed(c);
      var i :| LowestFree(net, used, i) && m == [IPNet(OffsetIn(net.ip, i), 32)];
      var j :| LowestFree(net, used, j) && n == [IPNet(OffsetIn(net.ip, j), 32)];
      assert i == j;
    }
  }

  /** The handler's outcome: a performed step saved to the file, or an untouched file; with a
      working file system a request is refused only if no step is possible. */
  ghost predicate Outcome(before: Option<string>, after: Option<string>, derive: Derive, op: Op, ok: bool,
        fileOk: bool)
  {
    var c := Current(before, derive);
    && (ok ==> exists c' :: Step(c, op, c') && after == Some(Print(c')))
    && (!ok ==> after == before)
    && (!ok && fileOk ==> forall c' :: !Step(c, op, c'))
  }

  method HandleCreate(path: string, file: File, derive: Derive, req: CreateRequest, pub: string, priv: string,
                      openOk: bool, createOk: bool)
    returns (ok: bool)
    modifies file
    ensures
      var fileOk := openOk && createOk && path != "";
      Outcome(old(file.content), file.content, derive, Op.Create(req, pub, priv), ok, fileOk)
  {
    hide UsedIPs, Assigned, WithPeer, Load, Join, Print, Shown;
    ghost var op := Op.Create(req, pub, priv);
    var alias := if req.alias == "" then req.email else req.alias;
    if alias == "" {
      return false;
    }
    var loaded := LoadWireGuardConfig(path, file, openOk, derive);
    if loaded.None? {
      return false;
    }
    var wg := loaded.value;
    ghost var c := wg.Value();
    if wg.iface.address == "" {
      return false;
    }
    var allowed := AssignAddress(wg.Value(), req);
    if allowed.None? {
      return false;
    }
    var p := Peer(pub, priv, allowed.value, Trim(req.endpoint), alias, "", "");
    assert Created(c, req, pub, priv, p);
    OnlyCandidate(c, op, p);
    ok := wg.AddPeer(p, createOk);
    if ok {
      assert Step(c, op, wg.Value());
    }
  }

  /** A request determines the peer it would create. */
  lemma OnlyCandidate(c: Config, op: Op, p: Peer)
    requires op.Create? && Created(c, op.req, op.pub, op.priv, p)
    ensures forall c' :: Step(c, op, c') ==> WithPeer(c.peers, p) == Some(c'.peers)
  {
    hide Assigned, WithPeer;
    forall c' | Step(c, op, c')
      ensures WithPeer(c.peers, p) == Some(c'.peers)
    {
      var q :| Created(c, op.req, op.pub, op.priv, q) && WithPeer(c.peers, q) == Some(c'.peers);
      var m: seq<IPNet> :| Assigned(c, op.req, m) && p.allowedIPs == Join(Shown(m));
      var n: seq<IPNet> :| Assigned(c, op.req, n) && q.allowedIPs == Join(Shown(n));
      AssignedUnique(c, op.req, m, n);
      assert p == q;
    }
  }

  /** Address owners, recorded in order. */
  method CollectOwners(c: Config) returns (owners: map<IP, string>)
    ensures owners == Owners(c, |c.peers|)
  {
    hide EntryAddr;
    owners := map[];
    var first := EntryAddr(First(c.iface.address));
    if first.Some? {
      owners := owners[first.value := "interface"];
    }
    for i := 0 to |c.peers|
      invariant owners == Owners(c, i)
    {
      var a := EntryAddr(First(c.peers[i].allowedIPs));
      if a.Some? {
        owners := owners[a.value := c.peers[i].publicKey];
      }
    }
  }

  method HandleUpdate(path: string, file: File, derive: Derive, key: string, u: Peer, openOk: bool, createOk: bool)
    returns (ok: bool)
    modifies file
    ensures Outcome(old(file.content), file.content, derive, Op.Update(key, u), ok, openOk && createOk && path != "")
  {
    hide Load, Join, Print, Shown, Owners, UpdatedPeers, Nets, SplitAt, IsNetwork;
    ghost var op := Op.Update(key, u);
    if key == "" {
      return false;
    }
    var loaded := LoadWireGuardConfig(path, file, openOk, derive);
    if loaded.None? {
      return false;
    }
    var wg := loaded.value;
    ghost var c := wg.Value();
    var norm := NormalizeAllowedIPs(u.allowedIPs);
    if norm.Err? {
      return false;
    }
    ghost var nets := Nets(SplitAt(u.allowedIPs, ',')).value;
    NetsAreNetworks(SplitAt(u.allowedIPs, ','));
    NetRoundTrip(nets[0]);
    var owners := CollectOwners(wg.Value());
    var netblock := ParseCIDR(norm.value.1);
    if netblock.Some? && netblock.value.1.ip in owners && owners[netblock.value.1.ip] != key {
      return false;
    }
    assert UpdateAllowed(c, key, u, nets);
    ok := wg.UpdatePeer(key, u.(allowedIPs := Join(norm.value.0), endpoint := Trim(u.endpoint)), createOk);
    if ok {
      assert Step(c, op, wg.Value());
    }
  }

  method HandleDelete(path: string, file: File, derive: Derive, key: string, openOk: bool, createOk: bool)
    returns (ok: bool)
    modifies file
    ensures Outcome(old(file.content), file.content, derive, Op.Delete(key), ok, openOk && createOk && path != "")
    ensures ok <==>
      key != "" && HasKey(Current(old(file.content), derive).peers, key) && openOk && createOk && path != ""
    ensures var c := Current(old(file.content), derive);
      ok ==> exists ps ::
        Filtered(ps, c.peers, (q: Peer) => q.publicKey != key) && file.content == Some(Print(Config(c.iface, ps)))
  {
    hide Load, Print, OtherPeers, Filtered;
    if key == "" {
      return false;
    }
    var loaded := LoadWireGuardConfig(path, file, openOk, derive);
    if loaded.None? {
      return false;
    }
    var wg := loaded.value;
    ghost var c := wg.Value();
    ok := wg.RemovePeer(key, createOk);
    if ok {
      assert Step(c, Op.Delete(key), wg.Value());
    }
  }
}
