/** What one handler call does to a configuration, told without the functions that compute it. */
module WgSteps {
  import opened Common
  import opened Ascii
  import opened Lines
  import opened Ipv4
  import opened Ipv4Text
  import opened Ipv4Numbers
  import opened WgConfig
  import opened WgFile
  import opened WgPeers
  import opened WgHandlers

  // ---------- create ----------

  /** A created peer comes last and has what was asked for; its key and alias were not taken. */
  lemma CreateLaw(c: Config, req: CreateRequest, pub: string, priv: string, c': Config)
    requires Step(c, Op.Create(req, pub, priv), c')
    ensures c'.iface == c.iface && |c'.peers| == |c.peers| + 1 && c'.peers[..|c.peers|] == c.peers
    ensures var p := c'.peers[|c.peers|];
      && p.publicKey == pub && p.privateKey == priv && p.presharedKey == "" && p.email == ""
      && p.endpoint == Trim(req.endpoint)
      && p.alias == (if req.alias == "" then req.email else req.alias) && p.alias != ""
      && !Taken(c.peers, p)
  {
    hide Assigned, Join, Shown, Trim, Taken;
    var p :| Created(c, req, pub, priv, p) && WithPeer(c.peers, p) == Some(c'.peers);
    TakenExactly(c.peers, p);
  }

  // ---------- addresses ----------

  /** An address with a prefix length, as it is written. */
  function WithBits(h: IP, n: nat): string { ShowIP(h) + ['/'] + Utoa(n) }

  lemma WithBitsText(h: IP, n: nat)
    ensures AddressText(WithBits(h, n)) && '/' in WithBits(h, n)
    ensures Cut(WithBits(h, n), '/') == Some((ShowIP(h), Utoa(n)))
    ensures WithBits(h, n)[..|ShowIP(h)|] == ShowIP(h) && IndexOf(WithBits(h, n), '/') == |ShowIP(h)|
  {
    hide Utoa, ShowIP, ParseIP;
    IPRoundTrip(h);
    DigitsOnly(n);
    CutAt(ShowIP(h), Utoa(n), '/');
    var s := WithBits(h, n);
    assert s[|ShowIP(h)|] == '/';
    assert forall i :: 0 <= i < |ShowIP(h)| ==> s[i] == ShowIP(h)[i];
  }

  lemma WithBitsParses(h: IP, n: nat)
    requires n <= 32
    ensures ParseCIDR(WithBits(h, n)) == Some((h, IPNet(Masked(h, n), n)))
  {
    hide Utoa, ShowIP, ParseIP, WithBits, AddressText, Masked, Cut;
    IPRoundTrip(h);
    DigitsOnly(n);
    UtoaValue(n);
    WithBitsText(h, n);
  }

  lemma WrittenStays(s: string)
    requires AddressText(s)
    ensures Trim(s) == s && First(s) == s
  {
    AddressTextPlain(s);
    TrimmedStays(s);
    FirstOf(s, "");
  }

  /** The addresses in an entry: the host and, with a prefix, its network. */
  lemma UsedByText(h: IP, n: nat)
    requires n <= 32
    ensures UsedBy(WithBits(h, n)) == {h, Masked(h, n)}
    ensures UsedBy(ShowIP(h)) == {h}
  {
    IPRoundTrip(h);
    WithBitsText(h, n);
    WithBitsParses(h, n);
    WrittenStays(ShowIP(h));
    WrittenStays(WithBits(h, n));
    assert UpTo(ShowIP(h), '/') == ShowIP(h);
    hide ShowIP, WithBits, ParseIP, ParseCIDR, Trim, Masked, AddressText;
  }

  /** The address is the lowest unused one behind that of the subnet, its last one excepted. */
  ghost predicate LowestIn(net: IPNet, used: set<IP>, ip: IP)
    requires net.bits <= 32
  {
    && Val(net.ip) < Val(ip) < Val(net.ip) + Pow2(32 - net.bits) - 1 && ip !in used
    && forall x: IP :: Val(net.ip) < Val(x) < Val(ip) ==> x in used
  }

  /** Which addresses the peers use: those of the first entry of each. */
  lemma {:induction false} PeersUse(ps: seq<Peer>, x: IP)
    ensures x in PeerUses(ps) <==> exists i :: 0 <= i < |ps| && x in UsedBy(First(ps[i].allowedIPs))
  {
    hide UsedBy, First;
    if ps != [] {
      var init := ps[..|ps| - 1];
      PeersUse(init, x);
      assert forall i :: 0 <= i < |init| ==> init[i] == ps[i];
    }
  }

  /** A request without an address: the new peer gets a /32 in the subnet of the interface, or in
      10.100.0.0/24 without 10.100.0.1 if the interface has none; the lowest address that neither
      the interface nor a peer uses. */
  lemma CreateAutoLaw(c: Config, req: CreateRequest, pub: string, priv: string, c': Config)
    requires Step(c, Op.Create(req, pub, priv), c') && Trim(req.ip) == ""
    requires |c'.peers| == |c.peers| + 1
    ensures exists ip: IP ::
      c'.peers[|c.peers|].allowedIPs == ShowIP(ip) + "/32" &&
        AutoNet(c).bits <= 32 && LowestIn(AutoNet(c), AutoUsed(c), ip)
  {
    hide AutoNet, AutoUsed, Join, Shown, Taken, LowestFree, IsNetwork, OffsetIn, Val, Pow2;
    var p :| Created(c, req, pub, priv, p) && WithPeer(c.peers, p) == Some(c'.peers);
    TakenExactly(c.peers, p);
    var nets: seq<IPNet> :| Assigned(c, req, nets) && p.allowedIPs == Join(Shown(nets));
    NetworkBits(AutoNet(c));
    var i :| LowestFree(AutoNet(c), AutoUsed(c), i) && nets == [IPNet(OffsetIn(AutoNet(c).ip, i), 32)];
    LowestIsLowest(AutoNet(c), AutoUsed(c), i);
    AutoText(OffsetIn(AutoNet(c).ip, i));
  }

  /** Interface address "h/n", alone or first in a list: the subnet is that of h, and h and the
      address of the subnet are in use. */
  lemma SubnetOfInterface(c: Config, h: IP, n: nat)
    requires n <= 32 && Trimmed(c.iface.address) && First(c.iface.address) == WithBits(h, n)
    ensures AutoNet(c) == IPNet(Masked(h, n), n)
    ensures AutoUsed(c) == {h, Masked(h, n)} + PeerUses(c.peers)
  {
    TrimmedStays(c.iface.address);
    WithBitsText(h, n);
    WithBitsParses(h, n);
    UsedByText(h, n);
    EmptyFirst();
    hide WithBits, ParseCIDR, UsedBy, Trim, Masked, AddressText, First;
  }

  lemma EmptyFirst()
    ensures First("") == ""
  {
    WrittenNothing();
    SplitOne("", ',');
    hide Trim;
  }

  lemma WrittenNothing()
    ensures Trim("") == ""
  {
  }

  /** Interface address "h" without a prefix: the fallback subnet. */
  lemma FallbackSubnet(c: Config, h: IP)
    requires Trimmed(c.iface.address) && First(c.iface.address) == ShowIP(h)
    ensures AutoNet(c) == IPNet(IP(10, 100, 0, 0), 24)
    ensures AutoUsed(c) == {h, IP(10, 100, 0, 1)} + PeerUses(c.peers)
  {
    TrimmedStays(c.iface.address);
    IPRoundTrip(h);
    UsedByText(h, 32);
    EmptyFirst();
    hide ShowIP, ParseCIDR, UsedBy, Trim, AddressText, First;
  }

  // ---------- lists of addresses ----------

  function Trims(parts: seq<string>): seq<string> {
    seq(|parts|, i requires 0 <= i < |parts| => Trim(parts[i]))
  }

  predicate NotBlank(e: string) { e != "" }

  /** What the entries of a list mean: each that is not blank parses to its network, in order. */
  ghost predicate Means(parts: seq<string>, nets: seq<IPNet>) {
    exists entries: seq<string> ::
      Filtered(entries, Trims(parts), NotBlank) && |entries| == |nets| &&
      forall i :: 0 <= i < |nets| ==> ParseEntry(entries[i]) == Some(nets[i])
  }

  lemma {:induction false} NetsMean(parts: seq<string>)
    ensures Nets(parts).Some? <==>
      forall i :: 0 <= i < |parts| && Trim(parts[i]) != "" ==> ParseEntry(Trim(parts[i])).Some?
    ensures Nets(parts).Some? ==> Means(parts, Nets(parts).value)
  {
    hide Trim, ParseEntry, Filtered;
    if parts == [] {
      NothingFiltered(NotBlank);
      var none: seq<string> := [];
      assert Filtered(none, Trims(parts), NotBlank);
    } else {
      var init, p := parts[..|parts| - 1], Trim(parts[|parts| - 1]);
      NetsMean(init);
      assert forall i :: 0 <= i < |init| ==> init[i] == parts[i];
      if Nets(parts).Some? {
        var nets := Nets(init).value;
        var entries: seq<string> :|
          Filtered(entries, Trims(init), NotBlank) && |entries| == |nets| &&
          forall i :: 0 <= i < |nets| ==> ParseEntry(entries[i]) == Some(nets[i]);
        FilteredOne(entries, Trims(init), NotBlank, p);
        assert Trims(parts) == Trims(init) + [p];
        assert Means(parts, Nets(parts).value) by {
          var more := if NotBlank(p) then entries + [p] else entries;
          assert Filtered(more, Trims(parts), NotBlank);
        }
      }
    }
  }

  lemma EntryMeans(h: IP, n: nat)
    requires n <= 32
    ensures ParseEntry(ShowIP(h)) == Some(IPNet(h, 32))
    ensures ParseEntry(WithBits(h, n)) == Some(IPNet(Masked(h, n), n))
  {
    IPRoundTrip(h);
    WithBitsText(h, n);
    WithBitsParses(h, n);
    hide ShowIP, WithBits, ParseIP, ParseCIDR, Masked;
  }

  // ---------- normalising a list twice ----------

  lemma {:induction false} SameTrimsSameNets(a: seq<string>, b: seq<string>)
    requires |a| == |b| && forall i :: 0 <= i < |a| ==> Trim(a[i]) == Trim(b[i])
    ensures Nets(a) == Nets(b)
  {
    hide Trim, ParseEntry;
    if a != [] { SameTrimsSameNets(a[..|a| - 1], b[..|b| - 1]); }
  }

  lemma {:induction false} ShownParses(nets: seq<IPNet>)
    requires forall n :: n in nets ==> IsNetwork(n)
    ensures Nets(Shown(nets)) == Some(nets)
  {
    hide ParseEntry, Trim, ShowNet, IsNetwork;
    if nets != [] {
      var init, n := nets[..|nets| - 1], nets[|nets| - 1];
      ShownParses(init);
      assert Shown(nets)[..|nets| - 1] == Shown(init);
      ShownEntry(n);
      assert init + [n] == nets;
    }
  }

  lemma ShownEntry(n: IPNet)
    requires IsNetwork(n)
    ensures Trim(ShowNet(n)) == ShowNet(n) && ShowNet(n) != "" && ParseEntry(ShowNet(n)) == Some(n)
  {
    NetRoundTrip(n);
    WrittenStays(ShowNet(n));
    hide ShowNet, ParseCIDR, Trim;
  }

  /** A joined list splits at its commas into its entries, a space before all but the first. */
  lemma {:induction false} SplitJoined(out: seq<string>)
    requires out != [] && AddressTexts(out)
    ensures |SplitAt(Join(out), ',')| == |out|
    ensures forall i :: 0 <= i < |out| ==> Trim(SplitAt(Join(out), ',')[i]) == out[i]
  {
    hide SplitAt, Trim, AddressText;
    WrittenStays(out[0]);
    AddressTextPlain(out[0]);
    if |out| == 1 {
      SplitOne(out[0], ',');
    } else {
      var more := Join(out[1..]);
      SplitJoined(out[1..]);
      assert Join(out) == out[0] + [','] + (" " + more);
      SplitCons(out[0], " " + more, ',');
      SpaceBefore(more);
      var rest := SplitAt(more, ',');
      TrimSpace(rest[0]);
      forall i | 0 <= i < |out| ensures Trim(SplitAt(Join(out), ',')[i]) == out[i] {
        if i > 0 { assert out[1..][i - 1] == out[i]; }
      }
    }
  }

  lemma SpaceBefore(s: string)
    ensures SplitAt(" " + s, ',') == [" " + SplitAt(s, ',')[0]] + SplitAt(s, ',')[1..]
  {
    assert (" " + s)[1..] == s;
  }

  lemma {:induction false} TrimSpace(s: string)
    ensures Trim(" " + s) == Trim(s)
  {
    if s == "" {
      assert " " + s == " " && TrimRight(" ") == TrimRight(" "[..0]);
    } else if IsSpace(s[|s| - 1]) {
      TrimSpace(s[..|s| - 1]);
      assert (" " + s)[..|s|] == " " + s[..|s| - 1];
    } else {
      assert (" " + s)[1..] == s;
    }
  }

  /** A normalised list is read again as the same networks: normalising twice is normalising once. */
  lemma NormalisedStays(nets: seq<IPNet>)
    requires nets != [] && forall n :: n in nets ==> IsNetwork(n)
    ensures Nets(SplitAt(Join(Shown(nets)), ',')) == Some(nets)
  {
    hide SplitAt, Join, Trim, ShowNet, AddressText, IsNetwork, Nets;
    var out := Shown(nets);
    forall i | 0 <= i < |out| ensures AddressText(out[i]) && Trim(out[i]) == out[i] {
      NetRoundTrip(nets[i]);
      WrittenStays(out[i]);
    }
    SplitJoined(out);
    SameTrimsSameNets(SplitAt(Join(out), ','), out);
    ShownParses(nets);
  }

  /** An address can be assigned: some host of the subnet among its first 254 addresses is free, or
      the list asked for parses and its first address is not in use. */
  ghost predicate AddressFree(c: Config, req: CreateRequest) {
    if Trim(req.ip) == "" then
      exists ip :: FreeHost(AutoNet(c), AutoUsed(c), ip)
    else
      var nets := Nets(SplitAt(req.ip, ','));
      nets.Some? && nets.value != [] && nets.value[0].ip !in UsedIPs(c)
  }

  /** A creation is possible exactly when it has an alias, the interface an address, neither key nor
      alias is taken, and an address can be assigned. */
  lemma CreatePossibleExactly(c: Config, req: CreateRequest, pub: string, priv: string)
    ensures (exists c' :: Step(c, Op.Create(req, pub, priv), c')) <==>
      RequestAlias(req) != "" && c.iface.address != "" &&
      !Taken(c.peers, NO_PEER.(publicKey := pub, alias := RequestAlias(req))) && AddressFree(c, req)
  {
    hide Join, Shown, Trim, Taken, Nets, SplitAt, UsedIPs, RequestAlias, AddressFree;
    AssignableExactly(c, req);
    hide Assigned;
    if c' :| Step(c, Op.Create(req, pub, priv), c') {
      var p :| Created(c, req, pub, priv, p) && WithPeer(c.peers, p) == Some(c'.peers);
      TakenExactly(c.peers, p);
      TakenBy(c.peers, p, NO_PEER.(publicKey := pub, alias := RequestAlias(req)));
      var nets :| Assigned(c, req, nets);
    }
    if (exists nets :: Assigned(c, req, nets)) && RequestAlias(req) != "" && c.iface.address != "" &&
      !Taken(c.peers, NO_PEER.(publicKey := pub, alias := RequestAlias(req)))
    {
      var nets :| Assigned(c, req, nets);
      var p := Peer(pub, priv, Join(Shown(nets)), Trim(req.endpoint), RequestAlias(req), "", "");
      TakenExactly(c.peers, p);
      TakenBy(c.peers, p, NO_PEER.(publicKey := pub, alias := RequestAlias(req)));
      assert Created(c, req, pub, priv, p);
      assert Step(c, Op.Create(req, pub, priv), c.(peers := c.peers + [p]));
    }
  }

  lemma TakenBy(ps: seq<Peer>, p: Peer, q: Peer)
    requires p.publicKey == q.publicKey && p.alias == q.alias
    ensures Taken(ps, p) == Taken(ps, q)
  {
  }

  lemma AssignableExactly(c: Config, req: CreateRequest)
    ensures (exists nets :: Assigned(c, req, nets)) <==> AddressFree(c, req)
  {
    hide Trim, Nets, SplitAt, UsedIPs, AutoNet, AutoUsed, LowestFree, OffsetIn, FreeHost;
    AutoNetIsNetwork(c);
    FoundExactly(AutoNet(c), AutoUsed(c));
    if Trim(req.ip) == "" {
      if i :| LowestFree(AutoNet(c), AutoUsed(c), i) {
        assert Assigned(c, req, [IPNet(OffsetIn(AutoNet(c).ip, i), 32)]);
      }
    } else if Nets(SplitAt(req.ip, ',')).Some? {
      assert Assigned(c, req, Nets(SplitAt(req.ip, ',')).value) <==>
        Nets(SplitAt(req.ip, ',')).value != [] && Nets(SplitAt(req.ip, ',')).value[0].ip !in UsedIPs(c);
    }
  }

  // ---------- update ----------

  /** The networks a new address list means. */
  ghost predicate ListMeans(raw: string, nets: seq<IPNet>) { nets != [] && Means(SplitAt(raw, ','), nets) }

  /** Nobody else has the address: the peer that has it has the key; if none has it and it is the
      interface's, only the key "interface" may take it. */
  ghost predicate FreeFor(c: Config, key: string, a: IP) {
    if exists i :: 0 <= i < |c.peers| && PrimaryAddr(c.peers[i]) == Some(a)
    then forall i :: 0 <= i < |c.peers| && PrimaryAddr(c.peers[i]) == Some(a) ==> c.peers[i].publicKey == key
    else EntryAddr(First(c.iface.address)) == Some(a) ==> key == "interface"
  }

  lemma {:induction false} NoOwner(c: Config, n: nat, a: IP)
    requires n <= |c.peers| && forall i :: 0 <= i < n ==> PrimaryAddr(c.peers[i]) != Some(a)
    ensures a in Owners(c, n) <==> EntryAddr(First(c.iface.address)) == Some(a)
    ensures a in Owners(c, n) ==> Owners(c, n)[a] == "interface"
  {
    hide PrimaryAddr, EntryAddr, First;
    if n > 0 { NoOwner(c, n - 1, a); }
  }

  lemma OwnerExactly(c: Config, key: string, a: IP)
    requires DistinctAddresses(c.peers)
    ensures var owners := Owners(c, |c.peers|); (a in owners ==> owners[a] == key) <==> FreeFor(c, key, a)
  {
    hide PrimaryAddr, EntryAddr, First, Owners;
    if i :| 0 <= i < |c.peers| && PrimaryAddr(c.peers[i]) == Some(a) {
      OwnerIsPeer(c, |c.peers|, i);
    } else {
      NoOwner(c, |c.peers|, a);
    }
  }

  /** An update is possible exactly when the key is a peer's, the list parses and its first address
      is free for the peer. */
  lemma UpdatePossibleExactly(c: Config, key: string, u: Peer)
    requires DistinctAddresses(c.peers)
    ensures (exists c' :: Step(c, Op.Update(key, u), c')) <==>
      key != "" && HasKey(c.peers, key) && Nets(SplitAt(u.allowedIPs, ',')).Some? &&
      Nets(SplitAt(u.allowedIPs, ',')).value != [] && FreeFor(c, key, Nets(SplitAt(u.allowedIPs, ',')).value[0].ip)
  {
    hide FreeFor, Owners, Nets, SplitAt, UpdatedPeers, Rewritten, HasKey;
    var nets := Nets(SplitAt(u.allowedIPs, ','));
    if nets.Some? && nets.value != [] {
      OwnerExactly(c, key, nets.value[0].ip);
      if key != "" && HasKey(c.peers, key) && FreeFor(c, key, nets.value[0].ip) {
        assert UpdateAllowed(c, key, u, nets.value);
        var c' := c.(peers := UpdatedPeers(c.peers, key, Rewritten(u, nets.value)));
        assert Step(c, Op.Update(key, u), c');
      }
    }
  }

  /** What an update changes: the first peer with the key, which gets the networks of the list,
      reprinted, and the other fields of the request. */
  lemma UpdateLaw(c: Config, key: string, u: Peer, c': Config)
    requires Step(c, Op.Update(key, u), c')
    ensures c'.iface == c.iface
    ensures exists nets ::
      ListMeans(u.allowedIPs, nets) &&
      FirstUpdated(c.peers, c'.peers, key, u.(allowedIPs := Join(Shown(nets)), endpoint := Trim(u.endpoint)))
  {
    hide FirstUpdated, UpdatedPeers, Means, Nets, SplitAt, Join, Shown, Trim, Owners;
    var nets: seq<IPNet> :|
      UpdateAllowed(c, key, u, nets) && c' == c.(peers := UpdatedPeers(c.peers, key, Rewritten(u, nets)));
    var m := FirstPeer(c.peers, key);
    FirstIsUpdated(c.peers, key, Rewritten(u, nets), m);
    NetsMean(SplitAt(u.allowedIPs, ','));
    assert ListMeans(u.allowedIPs, nets);
  }

  lemma FirstPeer(ps: seq<Peer>, key: string) returns (m: nat)
    ensures m <= |ps| && (m < |ps| ==> ps[m].publicKey == key) && forall j :: 0 <= j < m ==> ps[j].publicKey != key
  {
    m := 0;
    while m < |ps| && ps[m].publicKey != key
      invariant m <= |ps| && forall j :: 0 <= j < m ==> ps[j].publicKey != key
    {
      m := m + 1;
    }
  }

  /** A request with a list of addresses: the new peer gets its networks, reprinted. */
  lemma CreateListLaw(c: Config, req: CreateRequest, pub: string, priv: string, c': Config)
    requires Step(c, Op.Create(req, pub, priv), c') && Trim(req.ip) != ""
    requires |c'.peers| == |c.peers| + 1
    ensures exists nets: seq<IPNet> ::
      ListMeans(req.ip, nets) && c'.peers[|c.peers|].allowedIPs == Join(Shown(nets)) && nets[0].ip !in UsedIPs(c)
  {
    hide Nets, SplitAt, Join, Shown, Trim, Means, UsedIPs, Taken;
    var p :| Created(c, req, pub, priv, p) && WithPeer(c.peers, p) == Some(c'.peers);
    TakenExactly(c.peers, p);
    var nets: seq<IPNet> :| Assigned(c, req, nets) && p.allowedIPs == Join(Shown(nets));
    NetsMean(SplitAt(req.ip, ','));
    assert ListMeans(req.ip, nets);
  }

  // ---------- delete ----------

  /** What a deletion leaves: the peers with another key, in order. */
  lemma DeleteLaw(c: Config, key: string, c': Config)
    requires Step(c, Op.Delete(key), c')
    ensures c'.iface == c.iface && Filtered(c'.peers, c.peers, (q: Peer) => q.publicKey != key)
  {
    hide Filtered, OtherPeers;
    OtherPeersFiltered(c.peers, key);
  }

  // ---------- aliases ----------

  ghost predicate DistinctAliases(ps: seq<Peer>) {
    forall i, j :: 0 <= i < j < |ps| && ps[i].alias != "" ==> ps[i].alias != ps[j].alias
  }

  lemma CreateKeepsAliases(c: Config, req: CreateRequest, pub: string, priv: string, c': Config)
    requires DistinctAliases(c.peers) && Step(c, Op.Create(req, pub, priv), c')
    ensures DistinctAliases(c'.peers)
  {
    hide Step;
    CreateLaw(c, req, pub, priv, c');
    var n := |c.peers|;
    forall i | 0 <= i < n ensures c'.peers[i].alias != c'.peers[n].alias {
      assert c.peers[i] in c.peers && c'.peers[..n][i] == c'.peers[i];
    }
    forall i, j | 0 <= i < j < n && c'.peers[i].alias != "" ensures c'.peers[i].alias != c'.peers[j].alias {
      assert c'.peers[..n][i] == c'.peers[i] && c'.peers[..n][j] == c'.peers[j];
    }
  }

  lemma UpdateKeepsAliases(ps: seq<Peer>, key: string, u: Peer, after: seq<Peer>)
    requires DistinctAliases(ps) && DistinctKeys(ps) && HasKey(ps, key) && FirstUpdated(ps, after, key, u)
    ensures DistinctAliases(after) <==>
      (u.alias != "" ==> forall i :: 0 <= i < |ps| && ps[i].publicKey != key ==> ps[i].alias != u.alias)
  {
    var m := FirstPeer(ps, key);
    forall i | 0 <= i < |ps| ensures i != m ==> after[i] == ps[i] && ps[i].publicKey != key {
      assert i != m ==> ps[i].publicKey != key;
    }
    assert !HasKey(ps[..m], key);
    assert after[m].alias == if u.alias == "" then ps[m].alias else u.alias;
    hide FirstUpdated, HasKey, DistinctKeys;
    if u.alias != "" {
      forall i | 0 <= i < |ps| && ps[i].publicKey != key && ps[i].alias == u.alias
        ensures !DistinctAliases(after)
      {
        assert after[i].alias == after[m].alias;
      }
    }
  }

  lemma FilteredAliases(kept: seq<Peer>, ps: seq<Peer>, key: string)
    requires DistinctAliases(ps) && Filtered(kept, ps, (q: Peer) => q.publicKey != key)
    ensures DistinctAliases(kept)
  {
    var at: seq<nat> :| FilteredAt(kept, at, ps, (q: Peer) => q.publicKey != key);
    assert forall i :: 0 <= i < |at| ==> kept[i] == ps[at[i]];
    assert forall i, j :: 0 <= i < j < |at| ==> at[i] < at[j] < |ps|;
  }

  /** An operation keeps aliases distinct exactly when it is not an update to the alias of another
      peer, which only a creation checks. */
  lemma StepKeepsAliasesExactly(c: Config, op: Op, c': Config)
    requires DistinctAliases(c.peers) && DistinctKeys(c.peers) && Step(c, op, c')
    ensures DistinctAliases(c'.peers) <==>
      (op.Update? && op.peer.alias != "" ==>
        forall i :: 0 <= i < |c.peers| && c.peers[i].publicKey != op.key ==> c.peers[i].alias != op.peer.alias)
  {
    hide Filtered, FirstUpdated;
    match op
    case Create(req, pub, priv) => CreateKeepsAliases(c, req, pub, priv, c');
    case Update(key, u) =>
      UpdateLaw(c, key, u, c');
      var nets: seq<IPNet> :|
        FirstUpdated(c.peers, c'.peers, key, u.(allowedIPs := Join(Shown(nets)), endpoint := Trim(u.endpoint)));
      UpdateKeepsAliases(c.peers, key, u.(allowedIPs := Join(Shown(nets)), endpoint := Trim(u.endpoint)), c'.peers);
    case Delete(key) =>
      DeleteLaw(c, key, c');
      FilteredAliases(c'.peers, c.peers, key);
  }
}
