/** IPv4 addresses and prefixes as text: net.ParseIP, net.ParseCIDR and their printers. */
module Ipv4Text {
  import opened Common
  import opened Ascii
  import opened Lines
  import opened Ipv4

  /** A decimal octet without leading zeros. */
  function ParseOctet(s: string): Option<Octet> {
    if s == "" || !AllDigits(s) || (|s| > 1 && s[0] == '0') || Value(s) > 255 then None else Some(Value(s))
  }

  function ParseIP(s: string): Option<IP> {
    var p := SplitAt(s, '.');
    if |p| != 4 then None
    else match (ParseOctet(p[0]), ParseOctet(p[1]), ParseOctet(p[2]), ParseOctet(p[3]))
      case (Some(a), Some(b), Some(c), Some(d)) => Some(IP(a, b, c, d))
      case _ => None
  }

  /** The address as written and the network it lies in; leading zeros are fine in the length. */
  function ParseCIDR(s: string): (r: Option<(IP, IPNet)>)
    ensures r.Some? ==> IsNetwork(r.value.1)
  {
    match Cut(s, '/')
    case None => None
    case Some((host, len)) =>
      var ip := ParseIP(host);
      if ip.None? || len == "" || !AllDigits(len) || Value(len) > 32 then None
      else
        MaskedIsNetwork(ip.value, Value(len));
        Some((ip.value, IPNet(Masked(ip.value, Value(len)), Value(len))))
  }

  function ShowIP(ip: IP): string {
    Dotted(Utoa(ip.a), Utoa(ip.b), Utoa(ip.c), Utoa(ip.d))
  }

  function ShowNet(net: IPNet): string { ShowIP(net.ip) + ['/'] + Utoa(net.bits) }

  /** Characters of printed addresses. */
  ghost predicate AddressText(s: string) {
    s != [] && (forall i :: 0 <= i < |s| ==> IsDigit(s[i]) || s[i] == '.' || s[i] == '/')
  }

  lemma AddressTextPlain(s: string)
    requires AddressText(s)
    ensures Trimmed(s) && ',' !in s && '#' !in s && '\n' !in s
  {
  }

  lemma {:induction false} UtoaNoLeadingZero(n: nat)
    ensures |Utoa(n)| > 1 ==> Utoa(n)[0] != '0'
  {
    if n >= 10 {
      UtoaNoLeadingZero(n / 10);
      UtoaValue(n / 10);
      assert n / 10 < 10 ==> Utoa(n / 10) == [DigitChar(n / 10)];
    }
  }

  lemma OctetRoundTrip(o: Octet)
    ensures ParseOctet(Utoa(o)) == Some(o)
  {
    UtoaValue(o);
    UtoaNoLeadingZero(o);
  }

  lemma SplitCons(a: string, b: string, sep: char)
    requires sep !in a
    ensures SplitAt(a + [sep] + b, sep) == [a] + SplitAt(b, sep)
  {
    SplitOne(a, sep);
    SplitJoin(a, [sep] + b, sep);
    assert a + ([sep] + b) == a + [sep] + b;
    assert ([sep] + b)[1..] == b;
    assert a + [] == a;
  }

  lemma DigitsOnly(n: nat)
    ensures Utoa(n) != [] && AllDigits(Utoa(n)) && '.' !in Utoa(n) && '/' !in Utoa(n)
  {
    UtoaValue(n);
  }

  function Dotted(a: string, b: string, c: string, d: string): string {
    a + ['.'] + (b + ['.'] + (c + ['.'] + d))
  }

  lemma DottedSplit(a: string, b: string, c: string, d: string)
    requires '.' !in a && '.' !in b && '.' !in c && '.' !in d
    ensures SplitAt(Dotted(a, b, c, d), '.') == [a, b, c, d]
  {
    hide SplitAt;
    SplitOne(d, '.');
    SplitCons(c, d, '.');
    SplitCons(b, c + ['.'] + d, '.');
    SplitCons(a, b + ['.'] + (c + ['.'] + d), '.');
  }

  lemma DottedText(a: string, b: string, c: string, d: string)
    requires a != [] && AllDigits(a) && AllDigits(b) && AllDigits(c) && AllDigits(d)
    ensures AddressText(Dotted(a, b, c, d)) && '/' !in Dotted(a, b, c, d)
  {
    var s := Dotted(a, b, c, d);
    forall i | 0 <= i < |s|
      ensures IsDigit(s[i]) || s[i] == '.'
    {
    }
  }

  lemma IPRoundTrip(ip: IP)
    ensures ParseIP(ShowIP(ip)) == Some(ip)
    ensures AddressText(ShowIP(ip)) && '/' !in ShowIP(ip)
  {
    DigitsOnly(ip.a);
    DigitsOnly(ip.b);
    DigitsOnly(ip.c);
    DigitsOnly(ip.d);
    OctetRoundTrip(ip.a);
    OctetRoundTrip(ip.b);
    OctetRoundTrip(ip.c);
    OctetRoundTrip(ip.d);
    hide Utoa, ParseOctet, SplitAt, Dotted, AllDigits, AddressText;
    DottedSplit(Utoa(ip.a), Utoa(ip.b), Utoa(ip.c), Utoa(ip.d));
    DottedText(Utoa(ip.a), Utoa(ip.b), Utoa(ip.c), Utoa(ip.d));
  }

  /** A network survives printing and parsing. */
  lemma NetRoundTrip(net: IPNet)
    requires IsNetwork(net)
    ensures ParseCIDR(ShowNet(net)) == Some((net.ip, net))
    ensures AddressText(ShowNet(net)) && '/' in ShowNet(net)
  {
    IPRoundTrip(net.ip);
    DigitsOnly(net.bits);
    UtoaValue(net.bits);
    CutAt(ShowIP(net.ip), Utoa(net.bits), '/');
    assert ShowNet(net)[|ShowIP(net.ip)|] == '/';
    hide Utoa, ShowIP, ParseIP, Cut;
  }

  // ---------- exactly the printed texts parse ----------

  /** Digits without a leading zero are the printed form of their value. */
  lemma {:induction false} OnlyUtoa(s: string)
    requires s != "" && AllDigits(s) && (|s| > 1 ==> s[0] != '0')
    ensures s == Utoa(Value(s))
    ensures s[0] != '0' ==> Value(s) > 0
  {
    var init, last := s[..|s| - 1], s[|s| - 1];
    if |s| > 1 {
      OnlyUtoa(init);
      NextDigit(Value(init), last as int - 48);
    } else {
      assert s[..0] == [];
    }
  }

  lemma NextDigit(v: nat, d: nat)
    requires d < 10
    ensures (10 * v + d) / 10 == v && (10 * v + d) % 10 == d
  {
  }

  function Unsplit(ls: seq<string>, sep: char): string
    requires ls != []
  {
    if |ls| == 1 then ls[0] else ls[0] + [sep] + Unsplit(ls[1..], sep)
  }

  lemma {:induction false} SplitUnsplit(s: string, sep: char)
    ensures Unsplit(SplitAt(s, sep), sep) == s
  {
    if s != [] {
      SplitUnsplit(s[1..], sep);
      var rest := SplitAt(s[1..], sep);
      var all := SplitAt(s, sep);
      if s[0] == sep {
        assert all[1..] == rest;
      } else {
        assert |rest| > 1 ==> all[1..] == rest[1..];
      }
    }
  }

  lemma UnsplitFour(ls: seq<string>)
    requires |ls| == 4
    ensures Unsplit(ls, '.') == Dotted(ls[0], ls[1], ls[2], ls[3])
  {
    var x, y, z := ls[1..], ls[2..], ls[3..];
    assert x[1..] == y && y[1..] == z && x[0] == ls[1] && y[0] == ls[2] && z[0] == ls[3];
    assert Unsplit(z, '.') == ls[3];
    assert Unsplit(y, '.') == ls[2] + ['.'] + Unsplit(z, '.');
    assert Unsplit(x, '.') == ls[1] + ['.'] + Unsplit(y, '.');
  }

  lemma OctetExactly(s: string)
    ensures ParseOctet(s).Some? ==> s == Utoa(ParseOctet(s).value)
  {
    hide Utoa, Value;
    if ParseOctet(s).Some? { OnlyUtoa(s); }
  }

  /** A text is read as an address exactly when it is the printed form of that address. */
  lemma ParseIPExactly(s: string, ip: IP)
    ensures ParseIP(s) == Some(ip) <==> s == ShowIP(ip)
  {
    IPRoundTrip(ip);
    hide Utoa, ParseOctet, SplitAt, Dotted, AllDigits, AddressText;
    var p := SplitAt(s, '.');
    if ParseIP(s) == Some(ip) {
      SplitUnsplit(s, '.');
      UnsplitFour(p);
      OctetExactly(p[0]);
      OctetExactly(p[1]);
      OctetExactly(p[2]);
      OctetExactly(p[3]);
    }
  }
}
