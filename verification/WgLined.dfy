/** Peers without newlines in their fields: what their blocks are read back as, up to the line
    limit of the scanner. */
module WgLined {
  import opened Common
  import opened Ascii
  import opened WgConfig
  import opened WgRoundTrip
  import opened WgBlocks

  /** Only line breaks are excluded from alias, endpoint and preshared key. */
  predicate LinedPeer(p: Peer) {
    && Plain(p.publicKey) && Plain(p.allowedIPs)
    && '\n' !in AliasOf(p) && '\n' !in p.endpoint && '\n' !in p.presharedKey
  }

  /** Every printed line of the peer is short enough for the scanner. */
  predicate Slim(p: Peer) {
    && |AliasOf(p)| + 10 < MAX_LINE && |p.publicKey| + 12 < MAX_LINE && |p.allowedIPs| + 13 < MAX_LINE
    && |p.endpoint| + 11 < MAX_LINE && |p.presharedKey| + 15 < MAX_LINE
  }

  /** The block is cut before the line of its key. */
  predicate CutBeforeKey(p: Peer) {
    |AliasOf(p)| + 10 >= MAX_LINE || |p.publicKey| + 12 >= MAX_LINE
  }

  // ---------- trimming ----------

  lemma {:induction false} TrimRightAfter(a: string, b: string)
    requires a != [] && !IsSpace(a[|a| - 1])
    ensures TrimRight(a + b) == a + TrimRight(b)
  {
    if b == [] {
      assert a + b == a;
    } else if IsSpace(b[|b| - 1]) {
      TrimRightAfter(a, b[..|b| - 1]);
      assert (a + b)[..|a + b| - 1] == a + b[..|b| - 1];
    }
  }

  lemma TrimAfter(a: string, b: string)
    requires a != [] && !IsSpace(a[0]) && !IsSpace(a[|a| - 1])
    ensures Trim(a + b) == a + TrimRight(b)
  {
    TrimRightAfter(a, b);
  }

  lemma {:induction false} TrimLeftShorter(s: string)
    ensures |TrimLeft(s)| <= |s|
  {
    if s != [] && IsSpace(s[0]) { TrimLeftShorter(s[1..]); }
  }

  lemma TrimShorter(s: string)
    ensures |Trim(s)| <= |s|
  {
    TrimRightPart(s);
    TrimLeftShorter(TrimRight(s));
  }

  /** A value behind one space, as the loader takes it. */
  lemma PaddedShorter(v: string)
    ensures |Trim(TrimRight(" " + v))| <= |v|
  {
    var w := TrimRight(" " + v);
    TrimRightPart(" " + v);
    if w != "" {
      assert w[0] == ' ';
      TrimRightPart(w);
      var x := TrimRight(w);
      if x != "" {
        assert x[0] == ' ';
        TrimLeftShorter(x[1..]);
      }
    }
  }

  // ---------- single lines ----------

  /** Whatever the value, its line is taken as this key. */
  lemma ValueLine(st: Loader, key: string, value: string)
    requires KeyName(key)
    ensures ApplyLine(st, KeyLine(key, value)) == KeyValue(st, key + " ", TrimRight(" " + value))
  {
    hide ApplyLine, KeyValue, Trim, TrimRight;
    KeyNameFacts(key);
    var a := key + " =";
    assert IsLetter(a[0]) && a[|a| - 1] == '=';
    assert KeyLine(key, value) == a + (" " + value);
    TrimAfter(a, " " + value);
    assert a + TrimRight(" " + value) == (key + " ") + ['='] + TrimRight(" " + value);
    KeyedLine(st, KeyLine(key, value), key + " ", TrimRight(" " + value));
  }

  lemma AliasComment(v: string)
    ensures var l := "# " + KeyLine("Alias", v);
      Trim(l) != "" && Trim(l)[0] == '#' && Trim(Trim(l)[1..]) == "Alias =" + TrimRight(" " + v)
  {
    hide Trim, TrimLeft;
    var l, w := "# " + KeyLine("Alias", v), TrimRight(" " + v);
    assert l == "# Alias =" + (" " + v);
    hide KeyLine, TrimRight;
    TrimAfter("# Alias =", " " + v);
    var c := "Alias =" + w;
    assert "# Alias =" + w == "# " + c && ("# " + c)[1..] == " " + c;
    TrimRightPart(" " + v);
    assert c[0] == 'A' && c[|c| - 1] == if w == "" then '=' else w[|w| - 1];
    TrimPadded(c);
  }

  /** The alias comment of a block sets the alias, trimmed. */
  lemma AliasApplies(st: Loader, v: string)
    requires st.section == "peer" && st.peer.Some?
    ensures ApplyLine(st, "# " + KeyLine("Alias", v)) ==
      st.(peer := Some(st.peer.value.(alias := Trim(TrimRight(" " + v)))))
  {
    hide TrimRight, Trim, Cut, Lower, KeyLine;
    var w := TrimRight(" " + v);
    AliasComment(v);
    assert "Alias =" + w == "Alias " + ['='] + w;
    CutAt("Alias ", w, '=');
    TrimPadded("Alias");
    assert "Alias" + " " == "Alias ";
    CommentKeys();
  }

  /** What a comment may do to a peer: nothing, or set its names to something shorter. */
  predicate Renamed(p: Peer, r: Peer, limit: int) {
    r == p.(alias := r.alias, email := r.email) &&
    (r.alias == p.alias || |r.alias| <= limit) && (r.email == p.email || |r.email| <= limit)
  }

  lemma CommentRenames(p: Peer, comment: string)
    ensures Renamed(p, PeerMetadata(comment, p), |comment| - 6)
  {
    var cut := Cut(comment, '=');
    if cut.Some? {
      var k, v := cut.value.0, cut.value.1;
      assert |comment| == |k| + 1 + |v|;
      TrimShorter(k);
      TrimShorter(v);
      assert |Lower(Trim(k))| == |Trim(k)|;
    }
    hide Trim, Cut;
  }

  /** A value line of a block: an inline comment may rename the peer, the field gets the rest. */
  lemma ValueApplies(st: Loader, key: string, value: string)
    requires st.section == "peer" && st.peer.Some? && KeyName(key)
    ensures var t := ApplyLine(st, KeyLine(key, value));
      exists r, v ::
        Renamed(st.peer.value, r, |value| - 7) && |v| <= |value| && t == st.(peer := Some(SetPeer(r, Lower(key), v))) &&
        ('#' !in value ==> r == st.peer.value)
  {
    hide ApplyLine, Lower, PeerMetadata, SetPeer, Renamed;
    ValueLine(st, key, value);
    KeyNameFacts(key);
    TrimPadded(key);
    var w := TrimRight(" " + value);
    PaddedShorter(value);
    PaddedChars(value);
    hide TrimRight;
    var v := Trim(w);
    var i := IndexOf(v, '#');
    if i < |v| {
      TrimShorter(v[i + 1..]);
      TrimShorter(v[..i]);
      hide Trim;
      var comment := Trim(v[i + 1..]);
      CommentRenames(st.peer.value, comment);
      RenamedMore(st.peer.value, PeerMetadata(comment, st.peer.value), |comment| - 6, |value| - 7);
    } else {
      RenamedNothing(st.peer.value, |value| - 7);
    }
  }

  lemma PaddedChars(value: string)
    ensures '#' !in value ==> '#' !in Trim(TrimRight(" " + value))
  {
    TrimRightPart(" " + value);
    TrimTrims(TrimRight(" " + value));
    assert forall c :: c in TrimRight(" " + value) ==> c in " " + value;
  }

  lemma RenamedMore(p: Peer, r: Peer, a: int, b: int)
    requires Renamed(p, r, a) && a <= b
    ensures Renamed(p, r, b)
  {
  }

  lemma RenamedNothing(p: Peer, limit: int)
    ensures Renamed(p, p, limit)
  {
  }

  // ---------- blocks, whole or cut ----------

  /** The lines of a block behind its header. */
  predicate IsBlockLine(p: Peer, l: string) {
    || l == "" || l == "# " + KeyLine("Alias", AliasOf(p)) || l == KeyLine("PublicKey", p.publicKey)
    || l == KeyLine("AllowedIPs", p.allowedIPs) || l == KeyLine("Endpoint", p.endpoint)
    || l == KeyLine("PresharedKey", p.presharedKey)
  }

  /** Somewhere in the block of `p`: only its key and addresses or none yet, and only short fields. */
  predicate InBlock(p: Peer, r: Peer) {
    && (r.publicKey == "" || r.publicKey == p.publicKey) && (r.allowedIPs == "" || r.allowedIPs == p.allowedIPs)
    && |r.alias| + 10 < MAX_LINE && |r.email| + 10 < MAX_LINE && |r.endpoint| + 11 < MAX_LINE &&
      |r.presharedKey| + 15 < MAX_LINE
    && |r.publicKey| + 12 < MAX_LINE && |r.allowedIPs| + 13 < MAX_LINE
    && (LoadablePeer(p) ==> r.email == "") && r.privateKey == ""
  }

  lemma BlockLineApplies(st: Loader, p: Peer, l: string)
    requires LinedPeer(p) && IsBlockLine(p, l) && |l| < MAX_LINE
    requires st.section == "peer" && st.peer.Some? && InBlock(p, st.peer.value)
    ensures var t := ApplyLine(st, l);
      && t == st.(peer := t.peer) && t.peer.Some? && InBlock(p, t.peer.value)
      && t.peer.value.publicKey ==
        (if l == KeyLine("PublicKey", p.publicKey) then p.publicKey else st.peer.value.publicKey)
      && t.peer.value.allowedIPs ==
        (if l == KeyLine("AllowedIPs", p.allowedIPs) then p.allowedIPs else st.peer.value.allowedIPs)
  {
    hide ApplyLine, Trim, TrimRight, Lower, Trimmed;
    PeerKeys();
    BlockLinesDiffer(p);
    if l == "" {
      HeaderApplies(st);
    } else if l == "# " + KeyLine("Alias", AliasOf(p)) {
      AliasApplies(st, AliasOf(p));
      PaddedShorter(AliasOf(p));
    } else if l == KeyLine("PublicKey", p.publicKey) {
      PeerKeyLine(st, "PublicKey", p.publicKey);
      ApplyOne(st, l);
    } else if l == KeyLine("AllowedIPs", p.allowedIPs) {
      PeerKeyLine(st, "AllowedIPs", p.allowedIPs);
      ApplyOne(st, l);
    } else if l == KeyLine("Endpoint", p.endpoint) {
      ValueApplies(st, "Endpoint", p.endpoint);
    } else {
      ValueApplies(st, "PresharedKey", p.presharedKey);
    }
  }

  /** The lines of a block start with different characters, or differ in their second one. */
  lemma BlockLinesDiffer(p: Peer)
    ensures var k, a := KeyLine("PublicKey", p.publicKey), KeyLine("AllowedIPs", p.allowedIPs);
      && k != a && k != "" && a != ""
      && k != "# " + KeyLine("Alias", AliasOf(p)) && a != "# " + KeyLine("Alias", AliasOf(p))
      && k != KeyLine("Endpoint", p.endpoint) && a != KeyLine("Endpoint", p.endpoint)
      && k != KeyLine("PresharedKey", p.presharedKey) && a != KeyLine("PresharedKey", p.presharedKey)
  {
    assert KeyLine("PublicKey", p.publicKey)[..2] == "Pu" && KeyLine("AllowedIPs", p.allowedIPs)[..2] == "Al";
    assert KeyLine("Endpoint", p.endpoint)[..2] == "En" && KeyLine("PresharedKey", p.presharedKey)[..2] == "Pr";
    assert ("# " + KeyLine("Alias", AliasOf(p)))[..2] == "# ";
  }

  lemma BlockHasLines(p: Peer)
    ensures var ls := PeerLines(p);
      && ls != [] && ls[0] == "[Peer]" && (forall i :: 1 <= i < |ls| ==> IsBlockLine(p, ls[i]))
      && KeyLine("PublicKey", p.publicKey) in ls && KeyLine("AllowedIPs", p.allowedIPs) in ls
  {
    hide KeyLine;
  }

  lemma LinedBlock(p: Peer)
    requires LinedPeer(p)
    ensures BlockLines(p) == PeerLines(p)
  {
    KeyLineOneLine("Alias", AliasOf(p));
    KeyLineOneLine("PublicKey", p.publicKey);
    KeyLineOneLine("AllowedIPs", p.allowedIPs);
    KeyLineOneLine("Endpoint", p.endpoint);
    KeyLineOneLine("PresharedKey", p.presharedKey);
    hide KeyLine, Pieces, Trimmed;
    PiecesOfLines(PeerLines(p));
  }

  lemma SlimIsShort(p: Peer)
    requires LinedPeer(p)
    ensures Short(BlockLines(p)) <==> Slim(p)
  {
    LinedBlock(p);
    hide BlockLines, Trimmed;
    var a := Optional("# " + KeyLine("Alias", AliasOf(p)), AliasOf(p));
    var d := Optional(KeyLine("Endpoint", p.endpoint), p.endpoint);
    var e := Optional(KeyLine("PresharedKey", p.presharedKey), p.presharedKey);
    var b, c := [KeyLine("PublicKey", p.publicKey)], [KeyLine("AllowedIPs", p.allowedIPs)];
    assert PeerLines(p) == ["[Peer]"] + a + b + c + d + e + [""];
    assert |KeyLine("AllowedIPs", p.allowedIPs)| == |p.allowedIPs| + 13;
    assert |KeyLine("Endpoint", p.endpoint)| == |p.endpoint| + 11;
    assert |KeyLine("PresharedKey", p.presharedKey)| == |p.presharedKey| + 15;
    KeyLength(p.publicKey);
    AliasLength(AliasOf(p));
    hide PeerLines, KeyLine;
    ShortOptional("# " + KeyLine("Alias", AliasOf(p)), AliasOf(p));
    ShortOptional(KeyLine("Endpoint", p.endpoint), p.endpoint);
    ShortOptional(KeyLine("PresharedKey", p.presharedKey), p.presharedKey);
    ShortOne("[Peer]");
    ShortOne("");
    ShortOne(KeyLine("PublicKey", p.publicKey));
    ShortOne(KeyLine("AllowedIPs", p.allowedIPs));
    hide Short, Optional;
    ShortAppend(["[Peer]"], a);
    ShortAppend(["[Peer]"] + a, b);
    ShortAppend(["[Peer]"] + a + b, c);
    ShortAppend(["[Peer]"] + a + b + c, d);
    ShortAppend(["[Peer]"] + a + b + c + d, e);
    ShortAppend(["[Peer]"] + a + b + c + d + e, [""]);
  }

  lemma ShortOne(l: string)
    ensures Short([l]) <==> |l| < MAX_LINE
  {
    assert [l][0] == l;
  }

  lemma ShortOptional(line: string, value: string)
    ensures Short(Optional(line, value)) <==> value == "" || |line| < MAX_LINE
  {
    ShortOne(line);
  }

  /** After its first lines, all short: still in the block, with the key and addresses of the
      lines read. */
  lemma {:induction false} BlockPrefix(st: Loader, p: Peer, n: nat)
    requires LinedPeer(p) && 1 <= n <= |PeerLines(p)| && Short(PeerLines(p)[..n])
    ensures var ls, t := PeerLines(p)[..n], ApplyLines(st, PeerLines(p)[..n]);
      && t == Loader("peer", t.peer, st.iface, Flush(st)) && t.peer.Some? && InBlock(p, t.peer.value)
      && t.peer.value.publicKey == (if KeyLine("PublicKey", p.publicKey) in ls then p.publicKey else "")
      && t.peer.value.allowedIPs == (if KeyLine("AllowedIPs", p.allowedIPs) in ls then p.allowedIPs else "")
  {
    hide PeerLines, ApplyLine, ApplyLines, LinedPeer, KeyLine;
    BlockHasLines(p);
    var ls := PeerLines(p);
    if n == 1 {
      assert ls[..1] == ["[Peer]"];
      HeaderApplies(st);
      ApplyOne(st, "[Peer]");
      NotHeader(p);
    } else {
      assert Short(ls[..n - 1]) by { assert forall i :: 0 <= i < n - 1 ==> ls[..n - 1][i] == ls[..n][i]; }
      BlockPrefix(st, p, n - 1);
      assert ls[..n] == ls[..n - 1] + [ls[n - 1]];
      assert ls[..n][n - 1] == ls[n - 1];
      ApplyAppend(st, ls[..n - 1], [ls[n - 1]]);
      var s := ApplyLines(st, ls[..n - 1]);
      ApplyOne(s, ls[n - 1]);
      BlockLineApplies(s, p, ls[n - 1]);
    }
  }

  lemma NotHeader(p: Peer)
    ensures KeyLine("PublicKey", p.publicKey) != "[Peer]" && KeyLine("AllowedIPs", p.allowedIPs) != "[Peer]"
  {
    assert KeyLine("PublicKey", p.publicKey)[0] == 'P' && KeyLine("AllowedIPs", p.allowedIPs)[0] == 'A' &&
      "[Peer]"[0] == '[';
  }

  /** What the scanner yields: the lines in front of the first one that is too long. */
  lemma {:induction false} ScannedWhich(ls: seq<string>)
    ensures Scanned(ls) <= ls && Short(Scanned(ls))
    ensures |Scanned(ls)| < |ls| ==> |ls[|Scanned(ls)|]| >= MAX_LINE
  {
    if ls != [] {
      ScannedWhich(ls[1..]);
      ShortFirst(Scanned(ls));
    }
  }

  /** The line of the key is read exactly when the block is not cut before it. */
  lemma KeyLineScanned(p: Peer)
    requires LinedPeer(p)
    ensures KeyLine("PublicKey", p.publicKey) in Scanned(PeerLines(p)) <==> !CutBeforeKey(p)
  {
    hide Trimmed, Scanned;
    var ls := PeerLines(p);
    var k := KeyLine("PublicKey", p.publicKey);
    ScannedWhich(ls);
    NotHeader(p);
    BlockLinesDiffer(p);
    var got := Scanned(ls);
    var at := if AliasOf(p) == "" then 1 else 2;
    assert ls[0] == "[Peer]" && ls[at] == k && (at == 2 ==> ls[1] == "# " + KeyLine("Alias", AliasOf(p)));
    hide PeerLines, KeyLine;
    assert |k| == |p.publicKey| + 12 by { KeyLength(p.publicKey); }
    assert |"# " + KeyLine("Alias", AliasOf(p))| == |AliasOf(p)| + 10 by { AliasLength(AliasOf(p)); }
    if CutBeforeKey(p) {
      assert |got| <= at;
      forall i | 0 <= i < |got| ensures got[i] != k { assert got[i] == ls[i]; }
    } else {
      assert |got| > at;
      assert got[at] == ls[at];
    }
  }

  lemma KeyLength(value: string)
    ensures |KeyLine("PublicKey", value)| == |value| + 12
  {
  }

  lemma AliasLength(value: string)
    ensures |"# " + KeyLine("Alias", value)| == |value| + 10
  {
  }

  /** A peer without newlines in its fields is read back as one peer, short enough to be saved
      again; with its key unless the block is cut before it, with its addresses if it is not cut. */
  lemma LinedSpells(p: Peer)
    requires LinedPeer(p)
    ensures |Spelled(p)| == 1 && InBlock(p, Spelled(p)[0])
    ensures Spelled(p)[0].publicKey == if CutBeforeKey(p) then "" else p.publicKey
    ensures Short(BlockLines(p)) ==> Spelled(p)[0].allowedIPs == p.allowedIPs
  {
    hide ApplyLines, PeerLines, LinedPeer, Scanned, InBlock, KeyLine, CutBeforeKey;
    LinedBlock(p);
    BlockHasLines(p);
    var ls := PeerLines(p);
    StartsWithHeader(p);
    ScannedWhich(ls);
    var n := |Scanned(ls)|;
    assert ls[..n] == Scanned(ls);
    BlockPrefix(START, p, n);
    KeyLineScanned(p);
    if Short(ls) { ScannedPrefix(ls); }
  }

  lemma InBlockIsSlim(p: Peer, r: Peer)
    requires InBlock(p, r)
    ensures Slim(r)
    ensures LoadablePeer(p) ==> Nameless(r)
  {
    hide LoadablePeer;
  }

  /** No email and no private key. */
  predicate Nameless(p: Peer) { p.email == "" && p.privateKey == "" }

  lemma LoadableIsLined(p: Peer)
    requires LoadablePeer(p)
    ensures LinedPeer(p)
  {
    hide Trimmed;
  }

  // ---------- lists of such peers ----------

  predicate AllLined(ps: seq<Peer>) { forall i :: 0 <= i < |ps| ==> LinedPeer(ps[i]) }

  predicate AllSlim(ps: seq<Peer>) { forall i :: 0 <= i < |ps| ==> Slim(ps[i]) }

  lemma AllSlimIsShort(ps: seq<Peer>)
    requires AllLined(ps)
    ensures AllShort(ps) <==> AllSlim(ps)
  {
    hide Slim, Short, BlockLines, LinedPeer;
    forall i | 0 <= i < |ps| ensures Short(BlockLines(ps[i])) <==> Slim(ps[i]) { SlimIsShort(ps[i]); }
  }

  /** The same keys and addresses, peer by peer. */
  predicate SamePeers(a: seq<Peer>, b: seq<Peer>) {
    |a| == |b| && forall i :: 0 <= i < |a| ==> a[i].publicKey == b[i].publicKey && a[i].allowedIPs == b[i].allowedIPs
  }

  /** What a list is read back as can always be saved and read in full; if no line of it is too
      long, key for key and address for address. */
  lemma {:induction false} LinedSeen(ps: seq<Peer>)
    requires AllLined(ps)
    ensures AllSlim(Seen(ps))
    ensures AllShort(ps) ==> SamePeers(Seen(ps), ps)
  {
    hide LinedPeer, Short, BlockLines, Spelled, Slim, InBlock, CutBeforeKey, Scanned, LoadablePeer, Nameless;
    if ps != [] {
      var init, p := ps[..|ps| - 1], ps[|ps| - 1];
      LinedSeen(init);
      LinedSpells(p);
      InBlockIsSlim(p, Spelled(p)[0]);
      assert forall i :: 0 <= i < |init| ==> init[i] == ps[i];
      if AllShort(ps) {
        AllShortSnoc(init, p);
        assert init + [p] == ps;
        SlimIsShort(p);
        NotCut(p);
      }
    }
  }

  lemma {:induction false} LoadableSeen(ps: seq<Peer>)
    requires forall i :: 0 <= i < |ps| ==> LoadablePeer(ps[i])
    ensures forall i :: 0 <= i < |Seen(ps)| ==> Nameless(Seen(ps)[i])
  {
    hide LinedPeer, Short, BlockLines, Spelled, Slim, InBlock, CutBeforeKey, Scanned, LoadablePeer, Nameless;
    if ps != [] {
      var init, p := ps[..|ps| - 1], ps[|ps| - 1];
      LoadableSeen(init);
      LoadableIsLined(p);
      LinedSpells(p);
      InBlockIsSlim(p, Spelled(p)[0]);
    }
  }

  lemma NotCut(p: Peer)
    ensures Slim(p) ==> !CutBeforeKey(p)
  {
  }
}
