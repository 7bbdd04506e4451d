/** The WireGuard configuration file: its line-oriented loader, its printer, and what a
    save followed by a load does to a configuration. */
module WgConfig {
  import opened Common
  import opened Ascii
  import opened Lines

  datatype Peer = Peer(
    publicKey: string, privateKey: string, allowedIPs: string, endpoint: string,
    alias: string, email: string, presharedKey: string)

  datatype Interface = Interface(
    address: string, bindAddress: string, privateKey: string, listenPort: int,
    postUp: string, postDown: string, mtu: int, dns: string, publicKey: string)

  datatype Config = Config(iface: Interface, peers: seq<Peer>)

  const NO_PEER := Peer("", "", "", "", "", "", "")
  const NO_INTERFACE := Interface("", "", "", 0, "", "", 0, "", "")

  /** Key derivation: the public key of a well-formed private key. */
  type Derive = string -> Option<string>

  // ---------- shapes ----------

  predicate OneLine(s: string) { Trimmed(s) && '\n' !in s }

  predicate Plain(s: string) { OneLine(s) && '#' !in s }

  predicate LoadablePeer(p: Peer) {
    && Plain(p.publicKey) && Plain(p.allowedIPs) && Plain(p.endpoint) && Plain(p.presharedKey)
    && OneLine(p.alias) && OneLine(p.email) && p.privateKey == ""
  }

  predicate LoadableInterface(i: Interface) {
    && OneLine(i.address) && Plain(i.bindAddress) && Plain(i.privateKey) && Plain(i.postUp)
    && Plain(i.postDown) && Plain(i.dns) && IsInt64(i.listenPort) && IsInt64(i.mtu)
  }

  // ---------- loading ----------

  datatype Loader = Loader(section: string, peer: Option<Peer>, iface: Interface, peers: seq<Peer>)

  const START := Loader("", None, NO_INTERFACE, [])

  function PeerMetadata(comment: string, p: Peer): Peer {
    match Cut(comment, '=')
    case None => p
    case Some((k, v)) =>
      var key, value := Lower(Trim(k)), Trim(v);
      if key == "alias" then p.(alias := value)
      else if key == "email" then p.(alias := value, email := value)
      else p
  }

  function InterfaceMetadata(comment: string, i: Interface): Interface {
    match Cut(comment, '=')
    case None => i
    case Some((k, v)) => if Lower(Trim(k)) == "address" then i.(address := Trim(v)) else i
  }

  datatype Field = Address | BindAddress | PrivateKey | ListenPort | PostUp | PostDown | Mtu | Dns | Unknown

  function FieldOf(key: string): Field {
    if key == "address" then Address
    else if key == "bindaddress" then BindAddress
    else if key == "privatekey" then PrivateKey
    else if key == "listenport" then ListenPort
    else if key == "postup" then PostUp
    else if key == "postdown" then PostDown
    else if key == "mtu" then Mtu
    else if key == "dns" then Dns
    else Unknown
  }

  function SetInterface(i: Interface, key: string, value: string): (r: Interface)
    ensures LoadableInterface(i) && Plain(value) ==> LoadableInterface(r)
  {
    match FieldOf(key)
    case Address => i.(address := value)
    case BindAddress => i.(bindAddress := value)
    case PrivateKey => i.(privateKey := value)
    case ListenPort => i.(listenPort := Atoi(value))
    case PostUp => i.(postUp := value)
    case PostDown => i.(postDown := value)
    case Mtu => i.(mtu := Atoi(value))
    case Dns => i.(dns := value)
    case Unknown => i
  }

  function SetPeer(p: Peer, key: string, value: string): (r: Peer)
    ensures LoadablePeer(p) && Plain(value) ==> LoadablePeer(r)
  {
    if key == "publickey" then p.(publicKey := value)
    else if key == "allowedips" then p.(allowedIPs := value)
    else if key == "endpoint" then p.(endpoint := value)
    else if key == "presharedkey" then p.(presharedKey := value)
    else p
  }

  function Commented(st: Loader, comment: string): Loader {
    if st.section == "peer" && st.peer.Some? then st.(peer := Some(PeerMetadata(comment, st.peer.value)))
    else if st.section == "interface" then st.(iface := InterfaceMetadata(comment, st.iface))
    else st
  }

  function Flush(st: Loader): seq<Peer> {
    if st.peer.Some? then st.peers + [st.peer.value] else st.peers
  }

  function Header(st: Loader, name: string): Loader {
    if name == "peer" then Loader(name, Some(NO_PEER), st.iface, Flush(st)) else st.(section := name)
  }

  function SetKey(st: Loader, key: string, value: string): Loader {
    if st.section == "interface" then st.(iface := SetInterface(st.iface, key, value))
    else if st.section == "peer" && st.peer.Some? then st.(peer := Some(SetPeer(st.peer.value, key, value)))
    else st
  }

  /** A value up to an inline comment. */
  function StripComment(value: string): string {
    var i := IndexOf(value, '#');
    if i < |value| then Trim(value[..i]) else value
  }

  function KeyValue(st: Loader, k: string, v: string): Loader {
    var value := Trim(v);
    var i := IndexOf(value, '#');
    var st' := if i < |value| && st.section == "peer" then Commented(st, Trim(value[i + 1..])) else st;
    SetKey(st', Lower(Trim(k)), StripComment(value))
  }

  function ApplyLine(st: Loader, raw: string): Loader {
    var line := Trim(raw);
    if line == "" then st
    else if line[0] == '#' then Commented(st, Trim(line[1..]))
    else if line[0] == '[' && line[|line| - 1] == ']' then Header(st, Lower(line[1..|line| - 1]))
    else match Cut(line, '=')
      case None => st
      case Some((k, v)) => KeyValue(st, k, v)
  }

  function ApplyLines(st: Loader, ls: seq<string>): Loader {
    if ls == [] then st else ApplyLine(ApplyLines(st, ls[..|ls| - 1]), ls[|ls| - 1])
  }

  /** The scanner gives up, silently, at the first line of 64 KiB or more. */
  const MAX_LINE := 64 * 1024

  function Scanned(ls: seq<string>): seq<string> {
    if ls == [] || |ls[0]| >= MAX_LINE then [] else [ls[0]] + Scanned(ls[1..])
  }

  /** The lines the scanner yields.  It also strips a carriage return and hides an empty last
      line; neither survives the trimming of ApplyLine. */
  function ScanLines(text: string): seq<string> { Scanned(SplitAt(text, '\n')) }

  function PublicKeyOf(privateKey: string, derive: Derive): string {
    if privateKey == "" then "" else match derive(privateKey) case Some(k) => k case None => ""
  }

  function Finish(st: Loader, derive: Derive): Config {
    Config(st.iface.(publicKey := PublicKeyOf(st.iface.privateKey, derive)), Flush(st))
  }

  function Load(text: string, derive: Derive): Config {
    Finish(ApplyLines(START, ScanLines(text)), derive)
  }

  // ---------- printing ----------

  function KeyLine(key: string, value: string): string { key + " = " + value }

  function Optional(line: string, value: string): seq<string> {
    if value == "" then [] else [line]
  }

  function Number(key: string, n: int): seq<string> {
    if n == 0 then [] else [KeyLine(key, Itoa(n))]
  }

  function FirstLines(i: Interface): seq<string> {
    ["[Interface]"]
    + Optional(KeyLine("Address", i.address), i.address)
    + Optional(KeyLine("PrivateKey", i.privateKey), i.privateKey)
    + Number("ListenPort", i.listenPort)
  }

  function MiddleLines(i: Interface): seq<string> {
    Optional(KeyLine("PostUp", i.postUp), i.postUp)
    + Optional(KeyLine("PostDown", i.postDown), i.postDown)
    + Number("MTU", i.mtu)
    + Optional(KeyLine("DNS", i.dns), i.dns)
  }

  /** The bind address is printed as a comment. */
  function LastLines(bind: string): seq<string> {
    Optional("# " + KeyLine("BindAddress", bind), bind) + [""]
  }

  function InterfaceLines(i: Interface): seq<string> {
    FirstLines(i) + MiddleLines(i) + LastLines(i.bindAddress)
  }

  function AliasOf(p: Peer): string { if p.alias != "" then p.alias else p.email }

  function PeerLines(p: Peer): seq<string> {
    ["[Peer]"]
    + Optional("# " + KeyLine("Alias", AliasOf(p)), AliasOf(p))
    + [KeyLine("PublicKey", p.publicKey)]
    + [KeyLine("AllowedIPs", p.allowedIPs)]
    + Optional(KeyLine("Endpoint", p.endpoint), p.endpoint)
    + Optional(KeyLine("PresharedKey", p.presharedKey), p.presharedKey)
    + [""]
  }

  function PeersLines(ps: seq<Peer>): seq<string> {
    if ps == [] then [] else PeersLines(ps[..|ps| - 1]) + PeerLines(ps[|ps| - 1])
  }

  function Unlines(ls: seq<string>): string {
    if ls == [] then "" else Unlines(ls[..|ls| - 1]) + ls[|ls| - 1] + "\n"
  }

  function ConfigLines(c: Config): seq<string> { InterfaceLines(c.iface) + PeersLines(c.peers) }

  function Print(c: Config): string { Unlines(ConfigLines(c)) }

  // ---------- what survives ----------

  /** The shape of everything a load can produce. */
  ghost predicate Loadable(c: Config) {
    LoadableInterface(c.iface) && forall p :: p in c.peers ==> LoadablePeer(p)
  }

  function NormalPeer(p: Peer): Peer { p.(alias := AliasOf(p), email := "", privateKey := "") }

  function NormalPeers(ps: seq<Peer>): seq<Peer> {
    seq(|ps|, i requires 0 <= i < |ps| => NormalPeer(ps[i]))
  }

  /** What a save and a load keep: the bind address, the email and a comment in the interface
      address go, and the public key is derived afresh. */
  function Normal(c: Config, derive: Derive): Config {
    Config(
      c.iface.(address := StripComment(c.iface.address), bindAddress := "",
               publicKey := PublicKeyOf(c.iface.privateKey, derive)),
      NormalPeers(c.peers))
  }

  ghost predicate Fits(c: Config) {
    forall l :: l in ConfigLines(c) ==> |l| < MAX_LINE
  }
}
