/** What a saved configuration is read back as when the fields of its peers are arbitrary text:
    a newline in a field becomes a line break of the file. */
module WgBlocks {
  import opened Ascii
  import opened Lines
  import opened WgConfig
  import opened WgRoundTrip

  // ---------- lines of the file ----------

  /** The lines of the file that the printed lines make up. */
  function Pieces(ls: seq<string>): seq<string> {
    if ls == [] then [] else Pieces(ls[..|ls| - 1]) + SplitAt(ls[|ls| - 1], '\n')
  }

  lemma {:induction false} SplitPieces(ls: seq<string>)
    ensures SplitAt(Unlines(ls), '\n') == Pieces(ls) + [""]
  {
    hide SplitAt;
    if ls == [] {
      SplitNothing();
    } else {
      var init, l := ls[..|ls| - 1], ls[|ls| - 1];
      SplitPieces(init);
      SplitEnded(l);
      SplitJoin(Unlines(init), l + "\n", '\n');
      assert Unlines(ls) == Unlines(init) + (l + "\n");
      SeamAtEmpty(Pieces(init), SplitAt(l, '\n') + [""]);
    }
  }

  lemma SplitEnded(l: string)
    ensures SplitAt(l + "\n", '\n') == SplitAt(l, '\n') + [""]
  {
    SplitJoin(l, "\n", '\n');
    assert SplitAt("\n", '\n') == ["", ""];
    hide SplitAt;
    var ls := SplitAt(l, '\n');
    assert ls[|ls| - 1] + "" == ls[|ls| - 1];
  }

  lemma SeamAtEmpty(a: seq<string>, b: seq<string>)
    requires |b| >= 1
    ensures Seam(a + [""], b) == a + b
  {
    assert "" + b[0] == b[0];
    assert (a + [""])[..|a|] == a;
  }

  lemma {:induction false} PiecesAppend(a: seq<string>, b: seq<string>)
    ensures Pieces(a + b) == Pieces(a) + Pieces(b)
  {
    hide SplitAt;
    if b == [] {
      assert a + b == a && Pieces(a) + [] == Pieces(a);
    } else {
      var init, last := b[..|b| - 1], SplitAt(b[|b| - 1], '\n');
      PiecesAppend(a, init);
      assert (a + b)[..|a + b| - 1] == a + init;
      assert Pieces(a) + (Pieces(init) + last) == Pieces(a) + Pieces(init) + last;
    }
  }

  lemma {:induction false} PiecesOfLines(ls: seq<string>)
    requires forall l :: l in ls ==> '\n' !in l
    ensures Pieces(ls) == ls
  {
    if ls != [] {
      PiecesOfLines(ls[..|ls| - 1]);
      SplitOne(ls[|ls| - 1], '\n');
    }
  }

  /** Every line is short enough for the scanner. */
  predicate Short(ls: seq<string>) { forall i :: 0 <= i < |ls| ==> |ls[i]| < MAX_LINE }

  /** The scanner stops at the first line that is not. */
  lemma {:induction false} ScannedAppend(a: seq<string>, b: seq<string>)
    ensures Scanned(a + b) == if Short(a) then a + Scanned(b) else Scanned(a)
  {
    hide Short;
    ShortFirst(a);
    if a == [] {
      assert a + b == b && [] + Scanned(b) == Scanned(b);
    } else {
      var rest := a[1..];
      ScannedAppend(rest, b);
      ScannedFirst(a[0], rest + b);
      ScannedFirst(a[0], rest);
      hide Scanned;
      assert a + b == [a[0]] + (rest + b) && a == [a[0]] + rest;
      assert [a[0]] + (rest + Scanned(b)) == a + Scanned(b);
    }
  }

  lemma ScannedFirst(l: string, ls: seq<string>)
    ensures Scanned([l] + ls) == if |l| >= MAX_LINE then [] else [l] + Scanned(ls)
  {
    assert ([l] + ls)[1..] == ls;
  }

  lemma ShortFirst(a: seq<string>)
    ensures a == [] ==> Short(a)
    ensures a != [] ==> (Short(a) <==> |a[0]| < MAX_LINE && Short(a[1..]))
  {
    assert forall i :: 1 <= i < |a| ==> a[i] == a[1..][i - 1];
  }

  lemma {:induction false} ScannedPrefix(ls: seq<string>)
    ensures Scanned(ls) <= ls
    ensures Short(ls) ==> Scanned(ls) == ls
  {
    if ls != [] { ScannedPrefix(ls[1..]); }
  }

  // ---------- blocks ----------

  function BlockLines(p: Peer): seq<string> { Pieces(PeerLines(p)) }

  /** The peers that the printed block of one peer is read back as. */
  function Spelled(p: Peer): seq<Peer> { Flush(ApplyLines(START, Scanned(BlockLines(p)))) }

  predicate AllShort(ps: seq<Peer>) { forall i :: 0 <= i < |ps| ==> Short(BlockLines(ps[i])) }

  /** The peers that a list of peers is read back as: block by block, up to the first line that
      is too long. */
  function Seen(ps: seq<Peer>): seq<Peer> {
    if ps == [] then []
    else
      var init := ps[..|ps| - 1];
      if AllShort(init) then Seen(init) + Spelled(ps[|init|]) else Seen(init)
  }

  /** The same section and current peer, and the same peers behind some earlier ones. */
  predicate Behind(pre: seq<Peer>, s: Loader, t: Loader) {
    s.section == t.section && s.peer == t.peer && s.peers == pre + t.peers
  }

  lemma LineBehind(pre: seq<Peer>, s: Loader, t: Loader, raw: string)
    requires Behind(pre, s, t)
    ensures Behind(pre, ApplyLine(s, raw), ApplyLine(t, raw))
  {
    hide SetInterface, SetPeer, PeerMetadata, InterfaceMetadata, Trim, Cut, Lower, StripComment, IndexOf;
    assert pre + Flush(t) == Flush(s);
  }

  lemma {:induction false} LinesBehind(pre: seq<Peer>, s: Loader, t: Loader, ls: seq<string>)
    requires Behind(pre, s, t)
    ensures Behind(pre, ApplyLines(s, ls), ApplyLines(t, ls))
  {
    hide Behind;
    if ls != [] {
      var last := |ls| - 1;
      LinesBehind(pre, s, t, ls[..last]);
      LineBehind(pre, ApplyLines(s, ls[..last]), ApplyLines(t, ls[..last]), ls[last]);
    }
  }

  lemma BehindFlush(pre: seq<Peer>, s: Loader, t: Loader)
    requires Behind(pre, s, t)
    ensures Flush(s) == pre + Flush(t)
  {
  }

  lemma StartsWithHeader(p: Peer)
    ensures BlockLines(p) != [] && BlockLines(p)[0] == "[Peer]"
    ensures Scanned(BlockLines(p)) != [] && Scanned(BlockLines(p))[0] == "[Peer]"
  {
    var ls := PeerLines(p);
    hide PeerLines;
    assert ls[0] == "[Peer]" by { HeaderFirst(p); }
    assert ls == ["[Peer]"] + ls[1..];
    PiecesAppend(["[Peer]"], ls[1..]);
    PiecesOfLines(["[Peer]"]);
  }

  lemma HeaderFirst(p: Peer)
    ensures PeerLines(p) != [] && PeerLines(p)[0] == "[Peer]"
  {
  }

  lemma {:induction false} ApplyFirst(st: Loader, ls: seq<string>)
    requires ls != []
    ensures ApplyLines(st, ls) == ApplyLines(ApplyLine(st, ls[0]), ls[1..])
  {
    ApplyAppend(st, ls[..1], ls[1..]);
    ApplyOne(st, ls[0]);
    assert ls[..1] == [ls[0]] && ls[..1] + ls[1..] == ls;
  }

  /** A block adds what it spells, whatever was read before it. */
  lemma BlockSpells(st: Loader, p: Peer)
    ensures Flush(ApplyLines(st, Scanned(BlockLines(p)))) == Flush(st) + Spelled(p)
  {
    var ls := Scanned(BlockLines(p));
    StartsWithHeader(p);
    hide BlockLines, Scanned, ApplyLine;
    HeaderApplies(st);
    HeaderApplies(START);
    ApplyFirst(st, ls);
    ApplyFirst(START, ls);
    var s, t := Header(st, "peer"), Header(START, "peer");
    assert Behind(Flush(st), s, t);
    LinesBehind(Flush(st), s, t, ls[1..]);
    BehindFlush(Flush(st), ApplyLines(s, ls[1..]), ApplyLines(t, ls[1..]));
  }

  lemma NobodySpelled(st: Loader)
    ensures Flush(ApplyLines(st, Scanned(Pieces(PeersLines([]))))) == Flush(st) + Seen([])
    ensures Short(Pieces(PeersLines([]))) && AllShort([])
  {
    assert Flush(st) + [] == Flush(st);
  }

  lemma PeersPieces(init: seq<Peer>, p: Peer)
    ensures Pieces(PeersLines(init + [p])) == Pieces(PeersLines(init)) + BlockLines(p)
  {
    hide PeerLines;
    assert (init + [p])[..|init|] == init;
    PiecesAppend(PeersLines(init), PeerLines(p));
  }

  /** Reading on behind lines that are all short, or not at all. */
  lemma BlockAfter(st: Loader, a: seq<string>, p: Peer)
    ensures Flush(ApplyLines(st, Scanned(a + BlockLines(p))))
         == Flush(ApplyLines(st, Scanned(a))) + if Short(a) then Spelled(p) else []
  {
    hide ApplyLines, BlockLines, Scanned, Flush, Spelled;
    ScannedAppend(a, BlockLines(p));
    ScannedPrefix(a);
    if Short(a) {
      ApplyAppend(st, a, Scanned(BlockLines(p)));
      BlockSpells(ApplyLines(st, a), p);
    }
    assert Flush(ApplyLines(st, Scanned(a))) + [] == Flush(ApplyLines(st, Scanned(a)));
  }

  lemma {:induction false} PeersSpell(st: Loader, ps: seq<Peer>)
    ensures Flush(ApplyLines(st, Scanned(Pieces(PeersLines(ps))))) == Flush(st) + Seen(ps)
    ensures Short(Pieces(PeersLines(ps))) <==> AllShort(ps)
  {
    hide ApplyLines, BlockLines, Scanned, Flush, Spelled, Pieces, PeersLines, Short, AllShort;
    if ps == [] {
      NobodySpelled(st);
    } else {
      var init, p := ps[..|ps| - 1], ps[|ps| - 1];
      assert init + [p] == ps;
      PeersSpell(st, init);
      PeersPieces(init, p);
      BlockAfter(st, Pieces(PeersLines(init)), p);
      ShortAppend(Pieces(PeersLines(init)), BlockLines(p));
      AllShortSnoc(init, p);
      assert Flush(st) + Seen(init) + Spelled(p) == Flush(st) + (Seen(init) + Spelled(p));
      assert Flush(st) + Seen(init) + [] == Flush(st) + Seen(init);
    }
  }

  lemma ShortAppend(a: seq<string>, b: seq<string>)
    ensures Short(a + b) <==> Short(a) && Short(b)
  {
    assert forall i :: 0 <= i < |a| ==> (a + b)[i] == a[i];
    assert forall i :: 0 <= i < |b| ==> (a + b)[|a| + i] == b[i];
  }

  lemma AllShortSnoc(ps: seq<Peer>, p: Peer)
    ensures AllShort(ps + [p]) <==> AllShort(ps) && Short(BlockLines(p))
  {
    hide BlockLines, Short;
    var all := ps + [p];
    assert all[|ps|] == p && forall i :: 0 <= i < |ps| ==> all[i] == ps[i];
  }

  lemma {:induction false} SeenAppend(a: seq<Peer>, b: seq<Peer>)
    requires AllShort(a)
    ensures Seen(a + b) == Seen(a) + Seen(b)
  {
    hide Spelled, AllShort;
    if b == [] {
      assert a + b == a && Seen(a) + [] == Seen(a);
    } else {
      var init := b[..|b| - 1];
      SeenAppend(a, init);
      assert (a + b)[..|a + b| - 1] == a + init;
      AllShortAppend(a, init);
    }
  }

  lemma AllShortAppend(a: seq<Peer>, b: seq<Peer>)
    ensures AllShort(a + b) <==> AllShort(a) && AllShort(b)
  {
    hide Short, BlockLines;
    var all := a + b;
    assert forall i :: 0 <= i < |a| ==> all[i] == a[i];
    assert forall i :: 0 <= i < |b| ==> all[|a| + i] == b[i];
  }

  // ---------- the whole file ----------

  /** A current peer is never given up, and read peers stay. */
  lemma {:induction false} PeersStay(st: Loader, ls: seq<string>, k: nat)
    requires k <= |ls|
    ensures var s, t := ApplyLines(st, ls[..k]), ApplyLines(st, ls);
      (s.peer.Some? ==> t.peer.Some?) && s.peers <= t.peers
  {
    hide SetInterface, SetPeer, PeerMetadata, InterfaceMetadata, Trim, Cut, Lower, StripComment, IndexOf;
    if k < |ls| {
      var last := |ls| - 1;
      PeersStay(st, ls[..last], k);
      assert ls[..last][..k] == ls[..k];
    } else {
      assert ls[..k] == ls;
    }
  }

  /** The interface section alone spells no peers. */
  lemma NoPeersYet(i: Interface)
    requires LoadableInterface(i)
    ensures Flush(ApplyLines(START, Scanned(InterfaceLines(i)))) == []
  {
    hide InterfaceLines, LoadableInterface, ApplyLine, ApplyLines;
    var a := InterfaceLines(i);
    InterfaceApplies(i);
    ScannedPrefix(a);
    PeersStay(START, a, |Scanned(a)|);
    assert a[..|Scanned(a)|] == Scanned(a);
  }

  /** For every configuration with a loadable interface, whatever its peers hold: a load sees the
      peers their blocks spell, and none if the interface section is cut short. */
  lemma LoadSees(c: Config, derive: Derive)
    requires LoadableInterface(c.iface)
    ensures Load(Print(c), derive).peers == if Short(InterfaceLines(c.iface)) then Seen(c.peers) else []
  {
    hide InterfaceLines, PeersLines, LoadableInterface, ApplyLines, Seen, Scanned, Flush, Short, Unlines;
    hide Pieces, SplitAt;
    var a, b := InterfaceLines(c.iface), Pieces(PeersLines(c.peers));
    NoNewlineInterface(c.iface);
    PiecesOfLines(a);
    PiecesAppend(a, PeersLines(c.peers));
    SplitPieces(ConfigLines(c));
    EmptyLineLast(START, a + b);
    ScannedAppend(a, b);
    ScannedPrefix(a);
    NoPeersYet(c.iface);
    if Short(a) {
      ApplyAppend(START, a, Scanned(b));
      PeersSpell(ApplyLines(START, a), c.peers);
      assert [] + Seen(c.peers) == Seen(c.peers);
    }
  }

  lemma EmptyLineLast(st: Loader, b: seq<string>)
    ensures ApplyLines(st, Scanned(b + [""])) == ApplyLines(st, Scanned(b))
  {
    ScannedAppend(b, [""]);
    ScannedPrefix(b);
    if Short(b) {
      assert Scanned([""]) == [""];
      ApplyAppend(st, b, [""]);
      HeaderApplies(ApplyLines(st, b));
      ApplyOne(ApplyLines(st, b), "");
    }
  }
}
