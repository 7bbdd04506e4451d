/** Creating, updating and deleting WireGuard peers: address bookkeeping, normalisation of
    allowed addresses, and what every run of these operations keeps. */
module WgPeers {
  import opened Common
  import opened Ascii
  import opened Lines
  import opened Ipv4
  import opened Ipv4Text
  import opened WgConfig
  import opened WgFile

  // ---------- addresses of an entry ----------

  /** The first entry of a comma-separated list. */
  function First(list: string): string { Trim(SplitAt(list, ',')[0]) }

  function UpTo(s: string, c: char): string { s[..IndexOf(s, c)] }

  function ToSet(o: Option<IP>): set<IP> { if o.Some? then {o.value} else {} }

  function NetworkOf(cidr: string): Option<IP> {
    var r := ParseCIDR(cidr);
    if r.Some? then Some(r.value.1.ip) else None
  }

  /** The host address of an entry and, for a prefix, its network address. */
  function UsedBy(cidr: string): set<IP> {
    if cidr == "" then {}
    else
      var c := Trim(cidr);
      ToSet(ParseIP(Trim(UpTo(c, '/')))) + if '/' in c then ToSet(NetworkOf(c)) else {}
  }

  /** The network address of the first allowed entry, a bare address counting as a /32. */
  function PrimaryAddr(p: Peer): Option<IP> { EntryAddr(First(p.allowedIPs)) }

  function EntryAddr(e: string): Option<IP> {
    if e == "" then None else NetworkOf(if '/' in e then e else e + "/32")
  }

  lemma PrimaryIsUsed(e: string)
    requires Trimmed(e) && EntryAddr(e).Some?
    ensures EntryAddr(e).value in UsedBy(e)
  {
    hide NetworkOf, ParseIP;
    TrimmedStays(e);
    if '/' !in e {
      BareNetwork(e);
      assert UpTo(e, '/') == e;
    }
  }

  /** A bare address is its own /32 network. */
  lemma BareNetwork(e: string)
    requires '/' !in e
    ensures NetworkOf(e + "/32") == ParseIP(e)
  {
    hide ParseIP, Value, AllDigits, Masked, IndexOf;
    CutAt(e, "32", '/');
    assert e + "/32" == e + ['/'] + "32";
    ThirtyTwo();
    if ParseIP(e).Some? { HostMask(ParseIP(e).value); }
  }

  lemma ThirtyTwo()
    ensures AllDigits("32") && Value("32") == 32
  {
    assert "32"[..1] == "3" && "3"[..0] == "";
    assert Value("3") == 3;
  }

  function PeerUses(ps: seq<Peer>): set<IP> {
    if ps == [] then {} else PeerUses(ps[..|ps| - 1]) + UsedBy(First(ps[|ps| - 1].allowedIPs))
  }

  function UsedIPs(c: Config): set<IP> { UsedBy(First(c.iface.address)) + PeerUses(c.peers) }

  lemma {:induction false} EveryPrimaryIsUsed(ps: seq<Peer>, k: nat)
    requires k < |ps| && PrimaryAddr(ps[k]).Some?
    ensures PrimaryAddr(ps[k]).value in PeerUses(ps)
  {
    if k == |ps| - 1 {
      TrimTrims(SplitAt(ps[k].allowedIPs, ',')[0]);
      PrimaryIsUsed(First(ps[k].allowedIPs));
    } else {
      EveryPrimaryIsUsed(ps[..|ps| - 1], k);
    }
  }

  // ---------- allowed addresses ----------

  function ParseEntry(p: string): Option<IPNet> {
    if '/' !in p then (match ParseIP(p) case Some(ip) => Some(IPNet(ip, 32)) case None => None)
    else (match ParseCIDR(p) case Some((_, net)) => Some(net) case None => None)
  }

  /** The networks listed, blanks skipped; None when some entry does not parse. */
  function Nets(parts: seq<string>): Option<seq<IPNet>> {
    if parts == [] then Some([])
    else
      var rest, p := Nets(parts[..|parts| - 1]), Trim(parts[|parts| - 1]);
      if rest.None? then None
      else if p == "" then rest
      else match ParseEntry(p)
        case Some(net) => Some(rest.value + [net])
        case None => None
  }

  function Shown(nets: seq<IPNet>): seq<string> {
    seq(|nets|, i requires 0 <= i < |nets| => ShowNet(nets[i]))
  }

  /** strings.Join(out, ", ") */
  function Join(out: seq<string>): string {
    if out == [] then "" else if |out| == 1 then out[0] else out[0] + ", " + Join(out[1..])
  }

  lemma {:induction false} NetsAreNetworks(parts: seq<string>)
    requires Nets(parts).Some?
    ensures forall n :: n in Nets(parts).value ==> IsNetwork(n)
  {
    if parts != [] {
      NetsAreNetworks(parts[..|parts| - 1]);
      var p := Trim(parts[|parts| - 1]);
      if '/' !in p && ParseIP(p).Some? { HostMask(ParseIP(p).value); }
    }
  }

  ghost predicate AddressTexts(out: seq<string>) {
    forall i :: 0 <= i < |out| ==> AddressText(out[i])
  }

  /** A joined list: first character of its first entry, last character of its last. */
  lemma {:induction false} JoinEnds(out: seq<string>)
    requires out != [] && AddressTexts(out)
    ensures var s := Join(out); s != "" && s[0] == out[0][0] && s[|s| - 1] == out[|out| - 1][|out[|out| - 1]| - 1]
  {
    if |out| > 1 { JoinEnds(out[1..]); }
  }

  lemma {:induction false} JoinChars(out: seq<string>)
    requires AddressTexts(out)
    ensures '\n' !in Join(out) && '#' !in Join(out)
  {
    if out != [] {
      AddressTextPlain(out[0]);
      JoinChars(out[1..]);
    }
  }

  lemma JoinPlain(out: seq<string>)
    requires out != [] && AddressTexts(out)
    ensures Plain(Join(out))
  {
    JoinEnds(out);
    JoinChars(out);
    AddressTextPlain(out[0]);
    AddressTextPlain(out[|out| - 1]);
  }

  /** The first piece of a list is what stands before its first comma. */
  lemma FirstOf(a: string, rest: string)
    requires Trimmed(a) && ',' !in a
    ensures First(a) == a && First(a + [','] + rest) == a
  {
    TrimmedStays(a);
    hide Trim;
    SplitOne(a, ',');
    SplitCons(a, rest, ',');
  }

  lemma JoinFirst(out: seq<string>)
    requires out != [] && AddressTexts(out)
    ensures First(Join(out)) == out[0]
  {
    hide First;
    AddressTextPlain(out[0]);
    if |out| == 1 {
      FirstOf(out[0], "");
    } else {
      var rest := " " + Join(out[1..]);
      assert Join(out) == out[0] + [','] + rest;
      FirstOf(out[0], rest);
    }
  }

  lemma JoinText(nets: seq<IPNet>)
    requires nets != [] && forall n :: n in nets ==> IsNetwork(n)
    ensures First(Join(Shown(nets))) == ShowNet(nets[0])
    ensures Plain(Join(Shown(nets)))
  {
    hide ShowNet, First, Join, Plain, AddressText;
    var out := Shown(nets);
    forall i | 0 <= i < |out|
      ensures AddressText(out[i])
    {
      NetRoundTrip(nets[i]);
    }
    JoinFirst(out);
    JoinPlain(out);
  }

  /** Text written for a list of networks names the first one as its primary address. */
  lemma PrimaryOfJoined(p: Peer, nets: seq<IPNet>)
    requires nets != [] && forall n :: n in nets ==> IsNetwork(n)
    requires p.allowedIPs == Join(Shown(nets))
    ensures PrimaryAddr(p) == Some(nets[0].ip)
  {
    JoinText(nets);
    NetRoundTrip(nets[0]);
  }

  /** One entry: a bare address is rewritten as a /32 before it is parsed. */
  method NormalizeEntry(entry: string) returns (net: Option<IPNet>)
    ensures net == ParseEntry(entry)
    ensures net.Some? ==> IsNetwork(net.value)
  {
    var p := entry;
    if '/' !in p {
      var ip := ParseIP(p);
      if ip.None? {
        return None;
      }
      p := ShowIP(ip.value) + "/32";
      BareAddress(ip.value);
      HostMask(ip.value);
    }
    var cidr := ParseCIDR(p);
    if cidr.None? {
      return None;
    }
    return Some(cidr.value.1);
  }

  /** Parses, masks and reprints a list of allowed addresses; the first is the primary one. */
  method NormalizeAllowedIPs(raw: string) returns (res: Result<(seq<string>, string)>)
    ensures var nets := Nets(SplitAt(raw, ','));
      && (res.Ok? <==> nets.Some? && nets.value != [])
      && (res.Ok? ==> res.value == (Shown(nets.value), ShowNet(nets.value[0])))
  {
    hide ParseEntry, Trim, SplitAt, ShowNet, IsNetwork;
    var parts := SplitAt(raw, ',');
    var out: seq<string>, primary: string := [], "";
    ghost var nets: seq<IPNet> := [];
    for k := 0 to |parts|
      invariant Nets(parts[..k]) == Some(nets) && out == Shown(nets)
      invariant primary == if nets == [] then "" else ShowNet(nets[0])
      invariant nets != [] ==> primary != ""
    {
      assert parts[..k + 1][..k] == parts[..k];
      var p := Trim(parts[k]);
      if p == "" {
        continue;
      }
      var net := NormalizeEntry(p);
      if net.None? {
        NetsFail(parts, k + 1);
        return Err("invalid IP or CIDR");
      }
      NetRoundTrip(net.value);
      nets := nets + [net.value];
      out := out + [ShowNet(net.value)];
      if primary == "" {
        primary := ShowNet(net.value);
      }
    }
    assert parts[..|parts|] == parts;
    if |out| == 0 {
      return Err("no valid IPs provided");
    }
    return Ok((out, primary));
  }

  lemma BareAddress(ip: IP)
    ensures ParseCIDR(ShowIP(ip) + "/32") == Some((ip, IPNet(ip, 32)))
  {
    HostMask(ip);
    var net := IPNet(ip, 32);
    assert Utoa(32) == "32" by { assert Utoa(3) == "3"; }
    assert ShowNet(net) == ShowIP(ip) + "/32";
    NetRoundTrip(net);
  }

  /** A bad entry spoils the whole list. */
  lemma {:induction false} NetsFail(parts: seq<string>, k: nat)
    requires k <= |parts| && Nets(parts[..k]).None?
    ensures Nets(parts).None?
    decreases |parts|
  {
    if k == |parts| {
      assert parts[..k] == parts;
    } else {
      assert parts[..|parts| - 1][..k] == parts[..k];
      NetsFail(parts[..|parts| - 1], k);
    }
  }

  // ---------- the handlers ----------

  datatype CreateRequest = CreateRequest(alias: string, email: string, ip: string, endpoint: string)

  function RequestAlias(req: CreateRequest): string { if req.alias == "" then req.email else req.alias }

  const FALLBACK := IPNet(IP(10, 100, 0, 0), 24)

  /** The subnet of the first interface address, if it has one that parses. */
  function InterfaceNet(c: Config): Option<IPNet> {
    var addr := if Trim(c.iface.address) == "" then Trim(c.iface.bindAddress) else Trim(c.iface.address);
    var first := First(addr);
    if addr == "" || first == "" || '/' !in first then None
    else match ParseCIDR(first) case Some((_, net)) => Some(net) case None => None
  }

  /** The host address of the interface's first entry. */
  function InterfaceHost(c: Config): Option<IP> { ParseIP(Trim(UpTo(First(c.iface.address), '/'))) }

  lemma InterfaceHostIsUsed(c: Config)
    requires InterfaceHost(c).Some?
    ensures InterfaceHost(c).value in UsedIPs(c)
  {
    var e := First(c.iface.address);
    TrimTrims(SplitAt(c.iface.address, ',')[0]);
    TrimmedStays(e);
    assert Trim("") == "" && UpTo("", '/') == "";
  }

  /** Where automatic assignment looks, and what it must avoid. */
  function AutoNet(c: Config): IPNet {
    if InterfaceNet(c).Some? then InterfaceNet(c).value else FALLBACK
  }

  function AutoUsed(c: Config): set<IP> {
    UsedIPs(c) + if InterfaceNet(c).Some? then {} else {IP(10, 100, 0, 1)}
  }

  /** The networks a new peer gets: the lowest free host, or the requested list if its
      primary address is not in use. */
  ghost predicate Assigned(c: Config, req: CreateRequest, nets: seq<IPNet>) {
    if Trim(req.ip) == "" then
      IsNetwork(AutoNet(c)) && exists i ::
        LowestFree(AutoNet(c), AutoUsed(c), i) && nets == [IPNet(OffsetIn(AutoNet(c).ip, i), 32)]
    else
      nets != [] && Nets(SplitAt(req.ip, ',')) == Some(nets) && nets[0].ip !in UsedIPs(c)
  }

  ghost predicate Created(c: Config, req: CreateRequest, pub: string, priv: string, p: Peer) {
    && RequestAlias(req) != "" && c.iface.address != ""
    && exists nets ::
         Assigned(c, req, nets) &&
           p == Peer(pub, priv, Join(Shown(nets)), Trim(req.endpoint), RequestAlias(req), "", "")
  }

  /** Address owners as the update handler records them, later peers overriding earlier. */
  function Owners(c: Config, n: nat): map<IP, string>
    requires n <= |c.peers|
  {
    if n == 0 then
      var a := EntryAddr(First(c.iface.address));
      if a.Some? then map[a.value := "interface"] else map[]
    else
      var a := PrimaryAddr(c.peers[n - 1]);
      if a.Some? then Owners(c, n - 1)[a.value := c.peers[n - 1].publicKey] else Owners(c, n - 1)
  }

  ghost predicate UpdateAllowed(c: Config, key: string, u: Peer, nets: seq<IPNet>) {
    && nets != [] && Nets(SplitAt(u.allowedIPs, ',')) == Some(nets)
    && (var owners := Owners(c, |c.peers|); nets[0].ip in owners ==> owners[nets[0].ip] == key)
  }

  function Rewritten(u: Peer, nets: seq<IPNet>): Peer {
    u.(allowedIPs := Join(Shown(nets)), endpoint := Trim(u.endpoint))
  }

  datatype Op =
    | Create(req: CreateRequest, pub: string, priv: string)
    | Update(key: string, peer: Peer)
    | Delete(key: string)

  /** One successful operation on a configuration. */
  ghost predicate Step(c: Config, op: Op, c': Config) {
    match op
    case Create(req, pub, priv) =>
      exists p :: Created(c, req, pub, priv, p) && WithPeer(c.peers, p) == Some(c'.peers) && c' == c.(peers := c'.peers)
    case Update(key, u) =>
      key != "" && HasKey(c.peers, key) && exists nets ::
        UpdateAllowed(c, key, u, nets) && c' == c.(peers := UpdatedPeers(c.peers, key, Rewritten(u, nets)))
    case Delete(key) =>
      key != "" && HasKey(c.peers, key) && c' == c.(peers := OtherPeers(c.peers, key))
  }

  // ---------- what runs keep ----------

  ghost predicate DistinctKeys(ps: seq<Peer>) {
    forall i, j :: 0 <= i < j < |ps| ==> ps[i].publicKey != ps[j].publicKey
  }

  ghost predicate DistinctAddresses(ps: seq<Peer>) {
    forall i, j :: 0 <= i < j < |ps| && PrimaryAddr(ps[i]).Some? ==> PrimaryAddr(ps[i]) != PrimaryAddr(ps[j])
  }

  ghost predicate Good(c: Config) { DistinctKeys(c.peers) && DistinctAddresses(c.peers) }

  /** A created peer's primary address is free and not the interface's own. */
  lemma CreatedAddress(c: Config, req: CreateRequest, pub: string, priv: string, p: Peer)
    requires Created(c, req, pub, priv, p)
    ensures PrimaryAddr(p).Some? && PrimaryAddr(p).value !in UsedIPs(c)
    ensures PrimaryAddr(p) != InterfaceHost(c)
    ensures Plain(p.allowedIPs)
  {
    hide PrimaryAddr, Join, Plain, UsedIPs, InterfaceHost;
    var nets: seq<IPNet> :| Assigned(c, req, nets) && p.allowedIPs == Join(Shown(nets));
    if Trim(req.ip) == "" {
      var i :| LowestFree(AutoNet(c), AutoUsed(c), i) && nets == [IPNet(OffsetIn(AutoNet(c).ip, i), 32)];
      HostMask(nets[0].ip);
    } else {
      NetsAreNetworks(SplitAt(req.ip, ','));
    }
    PrimaryOfJoined(p, nets);
    JoinText(nets);
    if InterfaceHost(c).Some? { InterfaceHostIsUsed(c); }
  }

  lemma CreateKeepsGood(c: Config, req: CreateRequest, pub: string, priv: string, p: Peer)
    requires Good(c) && Created(c, req, pub, priv, p) && WithPeer(c.peers, p).Some?
    ensures Good(c.(peers := WithPeer(c.peers, p).value))
  {
    hide PrimaryAddr, Created, Conflicts, UsedIPs, WithPeer;
    CreatedAddress(c, req, pub, priv, p);
    NoConflicts(c.peers, p);
    NotUsed(c);
    assert c.(peers := c.peers + [p]).peers == c.peers + [p];
  }

  lemma NoConflicts(ps: seq<Peer>, p: Peer)
    requires WithPeer(ps, p).Some?
    ensures WithPeer(ps, p).value == ps + [p]
    ensures forall i :: 0 <= i < |ps| ==> ps[i].publicKey != p.publicKey
  {
    forall i | 0 <= i < |ps|
      ensures ps[i].publicKey != p.publicKey
    {
      assert !Conflicts(ps[i], p);
    }
  }

  lemma NotUsed(c: Config)
    ensures forall i :: 0 <= i < |c.peers| && PrimaryAddr(c.peers[i]).Some? ==>
      PrimaryAddr(c.peers[i]).value in UsedIPs(c)
  {
    hide PrimaryAddr;
    forall i | 0 <= i < |c.peers| && PrimaryAddr(c.peers[i]).Some?
      ensures PrimaryAddr(c.peers[i]).value in UsedIPs(c)
    {
      EveryPrimaryIsUsed(c.peers, i);
    }
  }

  /** A peer's recorded owner is the peer itself. */
  lemma {:induction false} OwnerIsPeer(c: Config, n: nat, k: nat)
    requires k < n <= |c.peers| && PrimaryAddr(c.peers[k]).Some? && DistinctAddresses(c.peers)
    ensures var a := PrimaryAddr(c.peers[k]).value; a in Owners(c, n) && Owners(c, n)[a] == c.peers[k].publicKey
  {
    hide PrimaryAddr;
    if k < n - 1 { OwnerIsPeer(c, n - 1, k); }
  }

  lemma {:induction false} UpdatedAt(ps: seq<Peer>, key: string, u: Peer) returns (m: nat)
    requires HasKey(ps, key)
    ensures m < |ps| && ps[m].publicKey == key && UpdatedPeers(ps, key, u) == ps[m := Updated(ps[m], u)]
  {
    if ps[0].publicKey == key {
      m := 0;
    } else {
      var i :| 0 <= i < |ps| && ps[i].publicKey == key;
      assert ps[1..][i - 1].publicKey == key;
      m := UpdatedAt(ps[1..], key, u);
      m := m + 1;
    }
  }

  lemma UpdateKeepsGood(c: Config, key: string, u: Peer, nets: seq<IPNet>)
    requires Good(c) && HasKey(c.peers, key) && UpdateAllowed(c, key, u, nets)
    ensures Good(c.(peers := UpdatedPeers(c.peers, key, Rewritten(u, nets))))
  {
    hide PrimaryAddr, Join;
    var u' := Rewritten(u, nets);
    var m := UpdatedAt(c.peers, key, u');
    var ps := c.peers[m := Updated(c.peers[m], u')];
    NetsAreNetworks(SplitAt(u.allowedIPs, ','));
    PrimaryOfJoined(ps[m], nets);
    forall i | 0 <= i < |ps| && i != m
      ensures PrimaryAddr(ps[i]) != PrimaryAddr(ps[m])
    {
      if PrimaryAddr(ps[i]) == PrimaryAddr(ps[m]) { OwnerIsPeer(c, |c.peers|, i); }
    }
  }

  lemma {:induction false} OtherPeersAmong(ps: seq<Peer>, key: string)
    ensures forall q :: q in OtherPeers(ps, key) ==> q in ps
  {
    if ps != [] { OtherPeersAmong(ps[..|ps| - 1], key); }
  }

  lemma {:induction false} DeleteKeepsKeys(ps: seq<Peer>, key: string)
    requires DistinctKeys(ps)
    ensures DistinctKeys(OtherPeers(ps, key))
  {
    if ps != [] {
      var init, q := ps[..|ps| - 1], ps[|ps| - 1];
      DeleteKeepsKeys(init, key);
      OtherPeersAmong(init, key);
      forall r | r in init
        ensures r.publicKey != q.publicKey
      {
        var i :| 0 <= i < |init| && init[i] == r;
        assert ps[i] == r;
      }
      var others := OtherPeers(init, key);
      assert forall i :: 0 <= i < |others| ==> others[i] in others;
    }
  }

  lemma {:induction false} DeleteKeepsAddresses(ps: seq<Peer>, key: string)
    requires DistinctAddresses(ps)
    ensures DistinctAddresses(OtherPeers(ps, key))
  {
    hide PrimaryAddr;
    if ps != [] {
      var init, q := ps[..|ps| - 1], ps[|ps| - 1];
      DeleteKeepsAddresses(init, key);
      OtherPeersAmong(init, key);
      forall r | r in init
        ensures PrimaryAddr(r).Some? ==> PrimaryAddr(r) != PrimaryAddr(q)
      {
        var i :| 0 <= i < |init| && init[i] == r;
        assert ps[i] == r;
      }
      var others := OtherPeers(init, key);
      assert forall i :: 0 <= i < |others| ==> others[i] in others;
    }
  }

  lemma StepKeepsGood(c: Config, op: Op, c': Config)
    requires Good(c) && Step(c, op, c')
    ensures Good(c')
  {
    hide Good, Created, UpdateAllowed;
    match op
    case Create(req, pub, priv) =>
      var p :| Created(c, req, pub, priv, p) && WithPeer(c.peers, p) == Some(c'.peers);
      CreateKeepsGood(c, req, pub, priv, p);
    case Update(key, u) =>
      var nets :| UpdateAllowed(c, key, u, nets) && c' == c.(peers := UpdatedPeers(c.peers, key, Rewritten(u, nets)));
      UpdateKeepsGood(c, key, u, nets);
    case Delete(key) =>
      DeleteGood(c, key);
  }

  lemma DeleteGood(c: Config, key: string)
    requires Good(c)
    ensures Good(c.(peers := OtherPeers(c.peers, key)))
  {
    DeleteKeepsKeys(c.peers, key);
    DeleteKeepsAddresses(c.peers, key);
  }

  /** A run of operations, each either rejected or successful. */
  ghost predicate IsRun(cs: seq<Config>, ops: seq<Op>) {
    && |cs| == |ops| + 1
    && forall k :: 0 <= k < |ops| ==> cs[k + 1] == cs[k] || Step(cs[k], ops[k], cs[k + 1])
  }

  /** Public keys and primary addresses stay pairwise distinct over every run. */
  lemma {:induction false} RunsKeepGood(cs: seq<Config>, ops: seq<Op>)
    requires IsRun(cs, ops) && Good(cs[0])
    ensures Good(cs[|ops|])
  {
    hide Step, Good;
    if ops != [] {
      var n := |ops| - 1;
      assert forall k :: 0 <= k < n ==> cs[..n + 1][k + 1] == cs[k + 1] && ops[..n][k] == ops[k];
      RunsKeepGood(cs[..n + 1], ops[..n]);
      if cs[n + 1] != cs[n] { StepKeepsGood(cs[n], ops[n], cs[n + 1]); }
    }
  }
}
