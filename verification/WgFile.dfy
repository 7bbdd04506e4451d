/** The WireGuard configuration object: loading it from its file, saving it, and editing
    its peer list. */
module WgFile {
  import opened Common
  import opened Ascii
  import opened WgConfig

  /** A file by path; None while it does not exist. */
  class File {
    var content: Option<string>

    constructor ()
      ensures content == None
    {
      content := None;
    }
  }

  predicate Conflicts(q: Peer, p: Peer) {
    q.publicKey == p.publicKey || (p.alias != "" && (q.alias == p.alias || q.email == p.alias))
  }

  function WithPeer(ps: seq<Peer>, p: Peer): Option<seq<Peer>> {
    if exists i :: 0 <= i < |ps| && Conflicts(ps[i], p) then None else Some(ps + [p])
  }

  /** The peers with another key, in order. */
  function OtherPeers(ps: seq<Peer>, key: string): seq<Peer> {
    if ps == [] then []
    else
      var q := ps[|ps| - 1];
      OtherPeers(ps[..|ps| - 1], key) + if q.publicKey == key then [] else [q]
  }

  /** Exactly the peers with another key stay, in their order. */
  lemma {:induction false} OtherPeersFiltered(ps: seq<Peer>, key: string)
    ensures Filtered(OtherPeers(ps, key), ps, (q: Peer) => q.publicKey != key)
  {
    if ps == [] {
      NothingFiltered((q: Peer) => q.publicKey != key);
    } else {
      var init, q := ps[..|ps| - 1], ps[|ps| - 1];
      OtherPeersFiltered(init, key);
      FilteredOne(OtherPeers(init, key), init, (q: Peer) => q.publicKey != key, q);
      assert OtherPeers(init, key) + [] == OtherPeers(init, key);
      assert init + [q] == ps;
    }
  }

  predicate HasKey(ps: seq<Peer>, key: string) { exists i :: 0 <= i < |ps| && ps[i].publicKey == key }

  function Updated(q: Peer, u: Peer): Peer {
    q.(allowedIPs := u.allowedIPs, endpoint := u.endpoint, presharedKey := u.presharedKey,
       alias := if u.alias != "" then u.alias else q.alias,
       email := if u.email != "" then u.email else q.email)
  }

  /** Only the first peer with the key changes. */
  function UpdatedPeers(ps: seq<Peer>, key: string, u: Peer): seq<Peer> {
    if ps == [] then []
    else if ps[0].publicKey == key then [Updated(ps[0], u)] + ps[1..]
    else [ps[0]] + UpdatedPeers(ps[1..], key, u)
  }

  lemma {:induction false} UpdatedFirst(ps: seq<Peer>, key: string, u: Peer, i: nat)
    requires i <= |ps| && forall j :: 0 <= j < i ==> ps[j].publicKey != key
    ensures i == |ps| ==> UpdatedPeers(ps, key, u) == ps
    ensures i < |ps| && ps[i].publicKey == key ==> UpdatedPeers(ps, key, u) == ps[i := Updated(ps[i], u)]
  {
    hide Updated;
    if i > 0 {
      UpdatedFirst(ps[1..], key, u, i - 1);
      assert i == |ps| ==> ps == [ps[0]] + ps[1..];
      assert i < |ps| ==> ps[1..][i - 1] == ps[i];
    }
  }

  lemma HasKeyStep(ps: seq<Peer>, i: nat, key: string)
    requires i < |ps|
    ensures HasKey(ps[..i + 1], key) <==> HasKey(ps[..i], key) || ps[i].publicKey == key
  {
    assert ps[..i + 1][i] == ps[i];
    assert forall j :: 0 <= j < i ==> ps[..i + 1][j] == ps[..i][j];
  }

  /** Some peer has the key of p, or an alias or email that is the alias of p. */
  predicate Taken(ps: seq<Peer>, p: Peer) {
    || (exists q :: q in ps && q.publicKey == p.publicKey)
    || (p.alias != "" && exists q :: q in ps && (q.alias == p.alias || q.email == p.alias))
  }

  /** The first peer with the key has what u says, its key and private key, and its old alias and
      email where u has none; all others are as they were. */
  ghost predicate FirstUpdated(before: seq<Peer>, after: seq<Peer>, key: string, u: Peer) {
    && |after| == |before|
    && forall i :: 0 <= i < |after| ==>
         if before[i].publicKey != key || HasKey(before[..i], key) then
           after[i] == before[i]
         else
           && after[i].publicKey == key && after[i].privateKey == before[i].privateKey
           && after[i].allowedIPs == u.allowedIPs && after[i].endpoint == u.endpoint
           && after[i].presharedKey == u.presharedKey
           && after[i].alias == (if u.alias == "" then before[i].alias else u.alias)
           && after[i].email == (if u.email == "" then before[i].email else u.email)
  }

  lemma TakenExactly(ps: seq<Peer>, p: Peer)
    ensures WithPeer(ps, p) == if Taken(ps, p) then None else Some(ps + [p])
  {
    if q :| q in ps && Conflicts(q, p) {
      var i :| 0 <= i < |ps| && ps[i] == q;
      assert Conflicts(ps[i], p);
    } else {
      assert forall i :: 0 <= i < |ps| ==> ps[i] in ps;
    }
  }

  lemma FirstIsUpdated(ps: seq<Peer>, key: string, u: Peer, m: nat)
    requires m <= |ps| && forall j :: 0 <= j < m ==> ps[j].publicKey != key
    requires m < |ps| ==> ps[m].publicKey == key
    ensures FirstUpdated(ps, UpdatedPeers(ps, key, u), key, u)
    ensures HasKey(ps, key) <==> m < |ps|
  {
    UpdatedFirst(ps, key, u, m);
    hide UpdatedPeers;
    forall i | 0 <= i < |ps| ensures HasKey(ps[..i], key) <==> m < i {
      if m < i { assert ps[..i][m] == ps[m]; }
    }
  }

  lemma {:induction false} NoneWithKey(ps: seq<Peer>, key: string)
    requires !HasKey(ps, key)
    ensures OtherPeers(ps, key) == ps
  {
    if ps != [] {
      var init := ps[..|ps| - 1];
      assert forall i :: 0 <= i < |init| ==> init[i] == ps[i];
      NoneWithKey(init, key);
    }
  }

  class WireGuardConfig {
    var iface: Interface
    var peers: seq<Peer>
    const path: string
    const file: File

    function Value(): Config reads this { Config(iface, peers) }

    constructor (path: string, file: File, c: Config)
      ensures this.path == path && this.file == file && Value() == c
    {
      this.path, this.file := path, file;
      iface, peers := c.iface, c.peers;
    }

    /** Creates the file anew and writes the sections one after another. */
    method Save(createOk: bool) returns (ok: bool)
      modifies file
      ensures ok == (path != "" && createOk)
      ensures file.content == if ok then Some(Print(Value())) else old(file.content)
    {
      if path == "" || !createOk {
        return false;
      }
      hide InterfaceLines, PeerLines, PeersLines, Unlines;
      PrintedNone(iface, peers);
      file.content := Some(Unlines(InterfaceLines(iface)));
      for i := 0 to |peers|
        invariant file.content == Some(Unlines(InterfaceLines(iface) + PeersLines(peers[..i])))
      {
        PrintedMore(iface, peers, i);
        file.content := Some(file.content.value + Unlines(PeerLines(peers[i])));
      }
      assert peers[..|peers|] == peers;
      return true;
    }

    /** Refuses a peer whose key is taken or whose alias is some peer's alias or email. */
    method AddPeer(p: Peer, createOk: bool) returns (ok: bool)
      modifies this`peers, file
      ensures var next := WithPeer(old(peers), p);
        && ok == (next.Some? && path != "" && createOk)
        && peers == (if next.Some? then next.value else old(peers))
      ensures peers == if Taken(old(peers), p) then old(peers) else old(peers) + [p]
      ensures file.content == if ok then Some(Print(Value())) else old(file.content)
    {
      hide Taken, Print;
      TakenExactly(peers, p);
      for i := 0 to |peers|
        invariant forall j :: 0 <= j < i ==> !Conflicts(peers[j], p)
      {
        var q := peers[i];
        if q.publicKey == p.publicKey {
          assert Conflicts(peers[i], p);
          return false;
        }
        if p.alias != "" && (q.alias == p.alias || q.email == p.alias) {
          assert Conflicts(peers[i], p);
          return false;
        }
      }
      peers := peers + [p];
      ok := Save(createOk);
    }

    method RemovePeer(key: string, createOk: bool) returns (ok: bool)
      modifies this`peers, file
      ensures ok == (HasKey(old(peers), key) && path != "" && createOk)
      ensures Filtered(peers, old(peers), (q: Peer) => q.publicKey != key)
      ensures peers == OtherPeers(old(peers), key)
      ensures file.content == if ok then Some(Print(Value())) else old(file.content)
    {
      hide Filtered, Print;
      OtherPeersFiltered(peers, key);
      var newPeers: seq<Peer> := [];
      var found := false;
      for i := 0 to |peers|
        invariant peers == old(peers) && file.content == old(file.content)
        invariant newPeers == OtherPeers(peers[..i], key)
        invariant found == HasKey(peers[..i], key)
      {
        assert peers[..i + 1][..i] == peers[..i];
        HasKeyStep(peers, i, key);
        if peers[i].publicKey == key {
          found := true;
        } else {
          newPeers := newPeers + [peers[i]];
        }
      }
      assert peers[..|peers|] == peers;
      if !found {
        NoneWithKey(peers, key);
        return false;
      }
      peers := newPeers;
      ok := Save(createOk);
    }

    method UpdatePeer(key: string, u: Peer, createOk: bool) returns (ok: bool)
      modifies this`peers, file
      ensures ok == (HasKey(old(peers), key) && path != "" && createOk)
      ensures peers == UpdatedPeers(old(peers), key, u)
      ensures FirstUpdated(old(peers), peers, key, u)
      ensures file.content == if ok then Some(Print(Value())) else old(file.content)
    {
      hide UpdatedPeers, Print, FirstUpdated;
      for i := 0 to |peers|
        invariant forall j :: 0 <= j < i ==> peers[j].publicKey != key
      {
        if peers[i].publicKey == key {
          UpdatedFirst(peers, key, u, i);
          FirstIsUpdated(peers, key, u, i);
          var q := peers[i].(allowedIPs := u.allowedIPs, endpoint := u.endpoint, presharedKey := u.presharedKey);
          if u.alias != "" { q := q.(alias := u.alias); }
          if u.email != "" { q := q.(email := u.email); }
          peers := peers[i := q];
          ok := Save(createOk);
          return;
        }
      }
      UpdatedFirst(peers, key, u, |peers|);
      FirstIsUpdated(peers, key, u, |peers|);
      return false;
    }
  }

  lemma PrintedNone(i: Interface, ps: seq<Peer>)
    ensures InterfaceLines(i) + PeersLines(ps[..0]) == InterfaceLines(i)
  {
    hide InterfaceLines;
  }

  lemma PeersLinesStep(ps: seq<Peer>, k: nat)
    requires k < |ps|
    ensures PeersLines(ps[..k + 1]) == PeersLines(ps[..k]) + PeerLines(ps[k])
  {
    hide PeerLines;
    assert ps[..k + 1][..k] == ps[..k];
  }

  lemma PrintedMore(i: Interface, ps: seq<Peer>, k: nat)
    requires k < |ps|
    ensures Unlines(InterfaceLines(i) + PeersLines(ps[..k + 1]))
         == Unlines(InterfaceLines(i) + PeersLines(ps[..k])) + Unlines(PeerLines(ps[k]))
  {
    hide InterfaceLines, PeerLines, PeersLines, Unlines;
    PeersLinesStep(ps, k);
    UnlinesAppend(InterfaceLines(i) + PeersLines(ps[..k]), PeerLines(ps[k]));
    assert InterfaceLines(i) + PeersLines(ps[..k]) + PeerLines(ps[k]) == InterfaceLines(i) + PeersLines(ps[..k + 1]);
  }

  lemma {:induction false} UnlinesAppend(a: seq<string>, b: seq<string>)
    ensures Unlines(a + b) == Unlines(a) + Unlines(b)
  {
    if b == [] {
      assert a + b == a && Unlines(a) + "" == Unlines(a);
    } else {
      var init, last := b[..|b| - 1], b[|b| - 1] + "\n";
      UnlinesAppend(a, init);
      assert (a + b)[..|a + b| - 1] == a + init;
      assert Unlines(b) == Unlines(init) + last;
      assert Unlines(a + b) == Unlines(a + init) + last;
    }
  }

  /** The loader: a missing file is an empty configuration, any other open error is returned. */
  method LoadWireGuardConfig(path: string, file: File, openOk: bool, derive: Derive)
      returns (res: Option<WireGuardConfig>)
    ensures res.None? <==> file.content.Some? && !openOk
    ensures res.Some? ==> fresh(res.value) && res.value.path == path && res.value.file == file
    ensures res.Some? ==>
      res.value.Value() == if file.content.None? then Config(NO_INTERFACE, []) else Load(file.content.value, derive)
  {
    if file.content.None? {
      var empty := new WireGuardConfig(path, file, Config(NO_INTERFACE, []));
      return Some(empty);
    }
    if !openOk {
      return None;
    }
    var lines := ScanLines(file.content.value);
    var section, currentPeer, iface, peers := "", None, NO_INTERFACE, [];
    for i := 0 to |lines|
      invariant Loader(section, currentPeer, iface, peers) == ApplyLines(START, lines[..i])
    {
      assert lines[..i + 1][..i] == lines[..i];
      section, currentPeer, iface, peers := LoadLine(lines[i], section, currentPeer, iface, peers);
    }
    assert lines[..|lines|] == lines;
    if currentPeer.Some? {
      peers := peers + [currentPeer.value];
    }
    if iface.privateKey != "" && derive(iface.privateKey).Some? {
      iface := iface.(publicKey := derive(iface.privateKey).value);
    } else {
      iface := iface.(publicKey := "");
    }
    var c := new WireGuardConfig(path, file, Config(iface, peers));
    return Some(c);
  }

  /** The body of the loader's loop. */
  method LoadLine(raw: string, section0: string, currentPeer0: Option<Peer>, iface0: Interface, peers0: seq<Peer>)
    returns (section: string, currentPeer: Option<Peer>, iface: Interface, peers: seq<Peer>)
    ensures Loader(section, currentPeer, iface, peers) == ApplyLine(Loader(section0, currentPeer0, iface0, peers0), raw)
  {
    hide Trim, Lower, Cut, IndexOf, SetInterface, SetPeer, PeerMetadata, InterfaceMetadata;
    section, currentPeer, iface, peers := section0, currentPeer0, iface0, peers0;
    var line := Trim(raw);
    if line == "" {
      return;
    }
    if line[0] == '#' {
      if section == "peer" && currentPeer.Some? {
        currentPeer := Some(PeerMetadata(Trim(line[1..]), currentPeer.value));
      }
      if section == "interface" {
        iface := InterfaceMetadata(Trim(line[1..]), iface);
      }
      return;
    }
    if line[0] == '[' && line[|line| - 1] == ']' {
      section := Lower(line[1..|line| - 1]);
      if section == "peer" {
        if currentPeer.Some? {
          peers := peers + [currentPeer.value];
        }
        currentPeer := Some(NO_PEER);
      }
      return;
    }
    var parts := Cut(line, '=');
    if parts.None? {
      return;
    }
    var key, value := Trim(parts.value.0), Trim(parts.value.1);
    var idx := IndexOf(value, '#');
    if idx < |value| {
      if section == "peer" && currentPeer.Some? {
        currentPeer := Some(PeerMetadata(Trim(value[idx + 1..]), currentPeer.value));
      }
      value := Trim(value[..idx]);
    }
    if section == "interface" {
      iface := SetInterface(iface, Lower(key), value);
    } else if section == "peer" && currentPeer.Some? {
      currentPeer := Some(SetPeer(currentPeer.value, Lower(key), value));
    }
  }
}
