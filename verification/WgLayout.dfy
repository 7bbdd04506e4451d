/** Files written by hand: the layout of a line and the case of its key do not matter. */
module WgLayout {
  import opened Common
  import opened Ascii
  import opened WgConfig
  import opened WgRoundTrip

  // ---------- white space ----------

  predicate Blank(s: string) { forall i :: 0 <= i < |s| ==> IsSpace(s[i]) }

  lemma {:induction false} TrimRightPads(s: string, q: string)
    requires Blank(q)
    ensures TrimRight(s + q) == TrimRight(s)
  {
    if q == [] {
      assert s + q == s;
    } else {
      var init := q[..|q| - 1];
      TrimRightPads(s, init);
      assert (s + q)[..|s + q| - 1] == s + init;
    }
  }

  lemma {:induction false} TrimLeftPads(p: string, s: string)
    requires Blank(p)
    ensures TrimLeft(p + s) == TrimLeft(s)
  {
    if p == [] {
      assert p + s == s;
    } else {
      TrimLeftPads(p[1..], s);
      assert (p + s)[1..] == p[1..] + s;
    }
  }

  /** Trimming removes white space at both ends and nothing else. */
  lemma TrimPads(p: string, s: string, q: string)
    requires Blank(p) && Blank(q) && Trimmed(s)
    ensures Trim(p + s + q) == s
  {
    TrimRightPads(p + s, q);
    if s == [] {
      assert p + s == "" + p;
      TrimRightPads("", p);
    } else {
      assert (p + s)[|p + s| - 1] == s[|s| - 1];
      TrimLeftPads(p, s);
    }
  }

  /** Trimming what stands before or behind a part. */
  lemma TrimBefore(p: string, s: string)
    requires Blank(p) && Trimmed(s)
    ensures Trim(p + s) == s
  {
    TrimPads(p, s, "");
    assert p + s + "" == p + s;
  }

  lemma TrimBehind(s: string, q: string)
    requires Blank(q) && Trimmed(s)
    ensures Trim(s + q) == s
  {
    TrimPads("", s, q);
    assert "" + s + q == s + q;
  }

  // ---------- lines with a key ----------

  /** A key and a value with any white space around them and the equals sign. */
  function Laid(p: string, k: string, q: string, r: string, v: string, t: string): string {
    p + k + q + ['='] + r + v + t
  }

  predicate IsKey(k: string) { k != "" && IsLetter(k[0]) && Trimmed(k) && '=' !in k }

  lemma BlankHasNoEquals(q: string)
    requires Blank(q)
    ensures '=' !in q
  {
  }

  lemma LaidTrimmed(p: string, k: string, q: string, r: string, v: string, t: string)
    requires Blank(p) && Blank(q) && Blank(r) && Blank(t) && IsKey(k) && Trimmed(v)
    ensures Trim(Laid(p, k, q, r, v, t)) == (k + q) + ['='] + if v == "" then "" else r + v
  {
    if v == "" {
      assert Laid(p, k, q, r, v, t) == p + (k + q + ['=']) + (r + t);
      TrimPads(p, k + q + ['='], r + t);
    } else {
      var s := (k + q) + ['='] + (r + v);
      assert s[0] == k[0] && s[|s| - 1] == v[|v| - 1];
      assert Laid(p, k, q, r, v, t) == p + s + t;
      TrimPads(p, s, t);
    }
  }

  /** Such a line sets the value under its key in lower case. */
  lemma AnyLayout(st: Loader, p: string, k: string, q: string, r: string, v: string, t: string)
    requires Blank(p) && Blank(q) && Blank(r) && Blank(t) && IsKey(k) && Plain(v)
    ensures ApplyLine(st, Laid(p, k, q, r, v, t)) == SetKey(st, Lower(k), v)
  {
    hide Trim, ApplyLine, Lower, Laid;
    LaidTrimmed(p, k, q, r, v, t);
    BlankHasNoEquals(q);
    KeyedLine(st, Laid(p, k, q, r, v, t), k + q, if v == "" then "" else r + v);
    TrimBehind(k, q);
    TrimBefore(r, v);
    TrimmedStays("");
    PlainStays(v);
  }

  /** In a peer block: which field a line sets, and that it sets no other. */
  lemma PeerLine(st: Loader, p: string, k: string, q: string, r: string, v: string, t: string)
    requires Blank(p) && Blank(q) && Blank(r) && Blank(t) && IsKey(k) && Plain(v)
    requires st.section == "peer" && st.peer.Some?
    ensures
      var key, was := Lower(k), st.peer.value;
      ApplyLine(st, Laid(p, k, q, r, v, t)) == st.(peer := Some(Peer(
        if key == "publickey" then v else was.publicKey,
        was.privateKey,
        if key == "allowedips" then v else was.allowedIPs,
        if key == "endpoint" then v else was.endpoint,
        was.alias,
        was.email,
        if key == "presharedkey" then v else was.presharedKey)))
  {
    AnyLayout(st, p, k, q, r, v, t);
    hide ApplyLine, Lower, Laid, Plain;
  }

  lemma InterfaceField(was: Interface, key: string, v: string)
    ensures SetInterface(was, key, v) == Interface(
      if key == "address" then v else was.address,
      if key == "bindaddress" then v else was.bindAddress,
      if key == "privatekey" then v else was.privateKey,
      if key == "listenport" then Atoi(v) else was.listenPort,
      if key == "postup" then v else was.postUp,
      if key == "postdown" then v else was.postDown,
      if key == "mtu" then Atoi(v) else was.mtu,
      if key == "dns" then v else was.dns,
      was.publicKey)
  {
    hide Atoi, LoadableInterface, Plain;
  }

  /** The same in the interface section. */
  lemma InterfaceLine(st: Loader, p: string, k: string, q: string, r: string, v: string, t: string)
    requires Blank(p) && Blank(q) && Blank(r) && Blank(t) && IsKey(k) && Plain(v)
    requires st.section == "interface"
    ensures
      var key, was := Lower(k), st.iface;
      ApplyLine(st, Laid(p, k, q, r, v, t)) == st.(iface := Interface(
        if key == "address" then v else was.address,
        if key == "bindaddress" then v else was.bindAddress,
        if key == "privatekey" then v else was.privateKey,
        if key == "listenport" then Atoi(v) else was.listenPort,
        if key == "postup" then v else was.postUp,
        if key == "postdown" then v else was.postDown,
        if key == "mtu" then Atoi(v) else was.mtu,
        if key == "dns" then v else was.dns,
        was.publicKey))
  {
    AnyLayout(st, p, k, q, r, v, t);
    InterfaceField(st.iface, Lower(k), v);
    hide ApplyLine, Lower, Laid, Plain, Atoi, SetInterface;
  }

  // ---------- section headers and comments ----------

  /** A header in any case opens its section; a peer header starts a peer and ends the one before. */
  lemma HeaderLine(st: Loader, p: string, name: string, t: string)
    requires Blank(p) && Blank(t)
    ensures
      ApplyLine(st, p + (['['] + name + [']']) + t) ==
        if Lower(name) != "peer" then st.(section := Lower(name))
        else Loader("peer", Some(NO_PEER), st.iface, if st.peer.Some? then st.peers + [st.peer.value] else st.peers)
  {
    var h := ['['] + name + [']'];
    TrimPads(p, h, t);
    Unbracketed(name);
    assert h[0] == '[' && h[|h| - 1] == ']';
    hide Lower;
  }

  /** A comment line with a key in a peer block sets alias, or alias and email. */
  lemma PeerComment(st: Loader, p: string, k: string, q: string, r: string, v: string, t: string)
    requires Blank(p) && Blank(q) && Blank(r) && Blank(t) && IsKey(k) && OneLine(v)
    requires st.section == "peer" && st.peer.Some?
    ensures
      var key, was := Lower(k), st.peer.value;
      ApplyLine(st, "#" + Laid(p, k, q, r, v, t)) == st.(peer := Some(was.(
        alias := if key == "alias" || key == "email" then v else was.alias,
        email := if key == "email" then v else was.email)))
  {
    CommentOf(st, p, k, q, r, v, t);
    CommentKey(k, q, r, v);
    hide ApplyLine, Lower, Laid, Cut, Trim;
  }

  /** In the interface section only the address can be set so. */
  lemma InterfaceComment(st: Loader, p: string, k: string, q: string, r: string, v: string, t: string)
    requires Blank(p) && Blank(q) && Blank(r) && Blank(t) && IsKey(k) && OneLine(v)
    requires st.section == "interface"
    ensures
      ApplyLine(st, "#" + Laid(p, k, q, r, v, t)) ==
        if Lower(k) == "address" then st.(iface := st.iface.(address := v)) else st
  {
    CommentOf(st, p, k, q, r, v, t);
    CommentKey(k, q, r, v);
    hide ApplyLine, Lower, Laid, Cut, Trim;
  }

  function Body(k: string, q: string, r: string, v: string): string {
    (k + q) + ['='] + if v == "" then "" else r + v
  }

  lemma CommentKey(k: string, q: string, r: string, v: string)
    requires Blank(q) && Blank(r) && IsKey(k) && Trimmed(v)
    ensures Cut(Body(k, q, r, v), '=').Some?
    ensures var (a, b) := Cut(Body(k, q, r, v), '=').value; Trim(a) == k && Trim(b) == v
  {
    hide Trim, Cut;
    BlankHasNoEquals(q);
    CutAt(k + q, if v == "" then "" else r + v, '=');
    TrimBehind(k, q);
    TrimBefore(r, v);
    TrimmedStays("");
  }

  lemma CommentOf(st: Loader, p: string, k: string, q: string, r: string, v: string, t: string)
    requires Blank(p) && Blank(q) && Blank(r) && Blank(t) && IsKey(k) && Trimmed(v)
    ensures ApplyLine(st, "#" + Laid(p, k, q, r, v, t)) == Commented(st, Body(k, q, r, v))
  {
    hide Commented, Lower;
    var b := Body(k, q, r, v);
    LaidTrimmed(p, k, q, r, v, t);
    var raw := "#" + Laid(p, k, q, r, v, t);
    RightEnd(p, k, q, r, v, t);
    hide Trim, Laid, Body;
    assert Trim(raw)[0] == '#' && Trim(raw)[1..] == p + b;
    TrimBefore(p, b);
  }

  lemma RightEnd(p: string, k: string, q: string, r: string, v: string, t: string)
    requires Blank(p) && Blank(q) && Blank(r) && Blank(t) && IsKey(k) && Trimmed(v)
    ensures Trimmed(Body(k, q, r, v))
    ensures Trim("#" + Laid(p, k, q, r, v, t)) == "#" + p + Body(k, q, r, v)
  {
    var b := Body(k, q, r, v);
    assert b[0] == k[0];
    assert b[|b| - 1] == if v == "" then '=' else v[|v| - 1];
    var s := "#" + p + b;
    assert s[0] == '#' && s[|s| - 1] == b[|b| - 1];
    var tail := if v == "" then r + t else t;
    assert "#" + Laid(p, k, q, r, v, t) == "" + s + tail;
    TrimPads("", s, tail);
  }

  /** A value with a comment behind it: the value is set, and in a peer block it is as if the
      comment stood on a line of its own before it. */
  lemma InlineComment(st: Loader, p: string, k: string, q: string, r: string, v: string, b: string, w: string,
        t: string)
    requires Blank(p) && Blank(q) && Blank(r) && Blank(b) && Blank(t) && IsKey(k)
    requires Plain(v) && v != "" && Trimmed(w) && w != "" && st.section in {"peer", "interface"}
    ensures
      ApplyLine(st, Laid(p, k, q, r, v + b + ['#'] + w, t)) ==
        ApplyLine(if st.section == "peer" then ApplyLine(st, "#" + w) else st, Laid(p, k, q, r, v, t))
  {
    hide Trim, Lower, Laid, SetKey, Commented, ApplyLine, KeyValue;
    var value := v + b + ['#'] + w;
    assert value[0] == v[0] && value[|value| - 1] == w[|w| - 1];
    LaidTrimmed(p, k, q, r, value, t);
    BlankHasNoEquals(q);
    KeyedLine(st, Laid(p, k, q, r, value, t), k + q, r + value);
    CommentedValue(st, k, q, r, v, b, w);
    CommentAlone(st, w);
    AnyLayout(if st.section == "peer" then Commented(st, w) else st, p, k, q, r, v, t);
  }

  lemma CommentedValue(st: Loader, k: string, q: string, r: string, v: string, b: string, w: string)
    requires Blank(q) && Blank(r) && Blank(b) && IsKey(k) && Trimmed(v) && '#' !in v && v != "" && Trimmed(w) && w != ""
    ensures KeyValue(st, k + q, r + (v + b + ['#'] + w)) ==
      SetKey(if st.section == "peer" then Commented(st, w) else st, Lower(k), v)
  {
    hide Trim, Lower, SetKey, Commented, IndexOf;
    var value := v + b + ['#'] + w;
    assert value[0] == v[0] && value[|value| - 1] == w[|w| - 1];
    TrimBehind(k, q);
    TrimBefore(r, value);
    HashAt(v, b, w);
    TrimBehind(v, b);
    assert value[..|v| + |b|] == v + b && value[|v| + |b| + 1..] == w;
    TrimmedStays(w);
  }

  lemma HashAt(v: string, b: string, w: string)
    requires '#' !in v && Blank(b)
    ensures IndexOf(v + b + ['#'] + w, '#') == |v| + |b|
  {
    var s := v + b + ['#'] + w;
    assert s[|v| + |b|] == '#';
    forall j | 0 <= j < |v| + |b| ensures s[j] != '#' {
      assert j < |v| ==> s[j] == v[j] && v[j] in v;
      assert j >= |v| ==> s[j] == b[j - |v|];
    }
  }

  lemma CommentAlone(st: Loader, w: string)
    requires Trimmed(w) && w != ""
    ensures ApplyLine(st, "#" + w) == Commented(st, w)
  {
    hide Commented;
    var l := "#" + w;
    assert l[0] == '#' && l[|l| - 1] == w[|w| - 1] && l[1..] == w;
    TrimmedStays(l);
    TrimmedStays(w);
  }
}
