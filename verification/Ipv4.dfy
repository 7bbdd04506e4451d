/** IPv4 addresses, their text, prefixes (RFC 4632, section 3.1) and the allocator of free
    host addresses, byte by byte as the panel computes them. */
module Ipv4 {
  import opened Arith
  import opened Common

  type Octet = x: int | 0 <= x < 256

  datatype IP = IP(a: Octet, b: Octet, c: Octet, d: Octet)

  datatype IPNet = IPNet(ip: IP, bits: nat)

  // ---------- bitwise operations ----------

  function Pow2(k: nat): (p: nat)
    ensures p > 0
  {
    if k == 0 then 1 else 2 * Pow2(k - 1)
  }

  function BitAnd(x: nat, y: nat): (r: nat)
    ensures r <= x
  {
    if x == 0 || y == 0 then 0
    else 2 * BitAnd(x / 2, y / 2) + if x % 2 == 1 && y % 2 == 1 then 1 else 0
  }

  function BitOr(x: nat, y: nat): nat
    decreases x + y
  {
    if x == 0 then y else if y == 0 then x
    else 2 * BitOr(x / 2, y / 2) + if x % 2 == 1 || y % 2 == 1 then 1 else 0
  }

  lemma ModHalf(x: nat, m: nat)
    requires m > 0
    ensures x % (2 * m) == 2 * (x / 2 % m) + x % 2
  {
    var h := x / 2;
    var q, r := h / m, h % m;
    Euclid(h, m);
    assert x == q * (2 * m) + (2 * r + x % 2) by {
      assert q * (2 * m) == 2 * (q * m);
    }
    DivIs(x, 2 * m, q);
  }

  lemma {:induction false} AndOnes(x: nat, w: nat)
    requires x < Pow2(w)
    ensures BitAnd(x, Pow2(w) - 1) == x
  {
    if w > 0 && x > 0 { AndOnes(x / 2, w - 1); }
  }

  /** Masking with w - k leading ones clears the last k bits. */
  lemma {:induction false} AndMask(x: nat, w: nat, k: nat)
    requires k <= w && x < Pow2(w)
    ensures Pow2(k) <= Pow2(w) && BitAnd(x, Pow2(w) - Pow2(k)) == x - x % Pow2(k)
  {
    if k == 0 {
      AndOnes(x, w);
    } else {
      AndMask(x / 2, w - 1, k - 1);
      ModHalf(x, Pow2(k - 1));
    }
  }

  lemma OrOdd(x: nat, z: nat)
    ensures BitOr(x, 2 * z + 1) == 2 * BitOr(x / 2, z) + 1
  {
    assert (2 * z + 1) / 2 == z && (2 * z + 1) % 2 == 1;
    assert x == 0 ==> x / 2 == 0;
  }

  /** b is x with its bits below m, a power of two, set. */
  predicate LowBitsSet(x: nat, m: nat, b: int)
    requires m > 0
  {
    b == x - x % m + m - 1
  }

  /** Or-ing with k trailing ones sets the last k bits. */
  lemma OrLow(x: nat, k: nat)
    ensures BitOr(x, Pow2(k) - 1) == x - x % Pow2(k) + Pow2(k) - 1
  {
    OrLowIs(x, k);
    hide BitOr, Pow2;
  }

  lemma {:induction false} OrLowIs(x: nat, k: nat)
    ensures LowBitsSet(x, Pow2(k), BitOr(x, Pow2(k) - 1))
  {
    OrZero(x);
    PowTwice(k);
    if k == 0 {
      hide BitOr, Pow2;
    } else {
      hide BitOr, Pow2, LowBitsSet;
      var m := Pow2(k - 1);
      OrLowIs(x / 2, k - 1);
      OrOdd(x, m - 1);
      OrTwice(x, m, BitOr(x / 2, m - 1));
    }
  }

  lemma OrTwice(x: nat, m: nat, half: nat)
    requires m > 0 && LowBitsSet(x / 2, m, half)
    ensures LowBitsSet(x, 2 * m, 2 * half + 1)
  {
    ModHalf(x, m);
  }

  lemma PowTwice(k: nat)
    ensures Pow2(k) == if k == 0 then 1 else 2 * Pow2(k - 1)
  {
  }

  lemma OrZero(x: nat)
    ensures BitOr(x, 0) == x
  {
  }

  // ---------- prefixes ----------

  /** Byte of a mask with n leading ones: the complement of 0xff >> n. */
  function MaskByte(n: int): (m: Octet) {
    if n >= 8 then 255
    else if n <= 0 then 0
    else
      Pow2Eight(n);
      255 - 255 / Pow2(n)
  }

  lemma Pow2Eight(n: nat)
    requires n <= 8
    ensures Pow2(n) == [1, 2, 4, 8, 16, 32, 64, 128, 256][n]
  {
    assert Pow2(0) == 1 && Pow2(1) == 2 && Pow2(2) == 4 && Pow2(3) == 8 && Pow2(4) == 16;
    assert Pow2(5) == 32 && Pow2(6) == 64 && Pow2(7) == 128 && Pow2(8) == 256;
  }

  lemma MaskByteIs(n: nat)
    requires n <= 8
    ensures MaskByte(n) == 256 - Pow2(8 - n)
  {
    Pow2Eight(n);
    Pow2Eight(8 - n);
  }

  function MaskedByte(x: Octet, n: int): Octet { BitAnd(x, MaskByte(n)) }

  lemma MaskedByteIs(x: Octet, n: nat)
    requires n <= 8
    ensures MaskedByte(x, n) == x - x % Pow2(8 - n)
  {
    MaskByteIs(n);
    Pow2Eight(8);
    AndMask(x, 8, 8 - n);
  }

  function Masked(ip: IP, bits: nat): IP {
    IP(MaskedByte(ip.a, bits), MaskedByte(ip.b, bits - 8), MaskedByte(ip.c, bits - 16), MaskedByte(ip.d, bits - 24))
  }

  predicate Contains(net: IPNet, ip: IP) { Masked(ip, net.bits) == net.ip }

  /** What ParseCIDR returns: a masked address. */
  predicate IsNetwork(net: IPNet) { net.bits <= 32 && Masked(net.ip, net.bits) == net.ip }

  function BroadcastByte(x: Octet, n: int): (r: Octet) {
    OrFits(x, 255 - MaskByte(n));
    BitOr(x, 255 - MaskByte(n))
  }

  lemma {:induction false} OrFitsWidth(x: nat, y: nat, w: nat)
    requires x < Pow2(w) && y < Pow2(w)
    ensures BitOr(x, y) < Pow2(w)
  {
    if w > 0 && x > 0 && y > 0 { OrFitsWidth(x / 2, y / 2, w - 1); }
  }

  lemma OrFits(x: Octet, y: Octet)
    ensures BitOr(x, y) < 256
  {
    Pow2Eight(8);
    OrFitsWidth(x, y, 8);
  }

  function Broadcast(net: IPNet): IP {
    IP(BroadcastByte(net.ip.a, net.bits), BroadcastByte(net.ip.b, net.bits - 8),
       BroadcastByte(net.ip.c, net.bits - 16), BroadcastByte(net.ip.d, net.bits - 24))
  }

  lemma ModClear(x: nat, m: nat)
    requires m > 0
    ensures (x - x % m) % m == 0
  {
    Euclid(x, m);
    ModOfMultiple(x / m, m);
  }

  lemma MaskTwice(x: Octet, n: int)
    ensures MaskedByte(MaskedByte(x, n), n) == MaskedByte(x, n)
  {
    if 0 <= n <= 8 {
      MaskedByteIs(x, n);
      MaskedByteIs(MaskedByte(x, n), n);
      ModClear(x, Pow2(8 - n));
    } else if n > 8 {
      MaskedByteIs(x, 8);
    }
  }

  lemma MaskedIsNetwork(ip: IP, bits: nat)
    requires bits <= 32
    ensures IsNetwork(IPNet(Masked(ip, bits), bits))
  {
    MaskTwice(ip.a, bits);
    MaskTwice(ip.b, bits - 8);
    MaskTwice(ip.c, bits - 16);
    MaskTwice(ip.d, bits - 24);
  }

  lemma HostMask(ip: IP)
    ensures Masked(ip, 32) == ip
  {
    MaskedByteIs(ip.a, 8);
    MaskedByteIs(ip.b, 8);
    MaskedByteIs(ip.c, 8);
    MaskedByteIs(ip.d, 8);
  }

  // ---------- the allocator ----------

  /** Offsets the allocator can hand out: hosts of the subnet, at most 254 of them. */
  function LastOffset(bits: nat): int
    requires bits <= 32
  {
    if bits < 24 then 254 else Pow2(32 - bits) - 2
  }

  function OffsetIn(base: IP, i: nat): IP { base.(d := (base.d + i) % 256) }

  /** A host of the subnet: inside it, neither its network nor its broadcast address. */
  predicate UsableHost(net: IPNet, ip: IP) {
    Contains(net, ip) && ip != net.ip && ip != Broadcast(net)
  }

  /** The last byte of a candidate, in a block of m addresses that starts at x. */
  lemma LastByteFacts(x: Octet, i: nat, m: nat)
    requires m > 0 && 256 % m == 0 && x % m == 0 && 1 <= i <= 254
    ensures var y := (x + i) % 256; y - y % m == x && y != x && y != x + m - 1 <==> i <= m - 2
    ensures i <= m - 2 ==> x + i < 256
  {
    BlockEnds(x, m);
    var y, q := (x + i) % 256, x / m;
    Euclid(x, m);
    assert y == if x + i < 256 then x + i else x + i - 256;
    if i < m { DivIs(y, m, q); } else { Remainder(y, m); }
  }

  lemma BlockEnds(x: Octet, m: nat)
    requires m > 0 && 256 % m == 0 && x % m == 0
    ensures x + m <= 256
  {
    var q, n := x / m, 256 / m;
    Euclid(x, m);
    Euclid(256, m);
    MulMono(q + 1, n, m);
    MulMono(n, q, m);
    MulStep(q, m);
  }

  lemma Remainder(y: nat, m: nat)
    requires m > 0
    ensures 0 <= y % m < m && y % m <= y
  {
    Euclid(y, m);
    MulMono(0, y / m, m);
  }

  lemma FullMask(n: int)
    requires n >= 8
    ensures forall x: Octet :: MaskedByte(x, n) == x && BroadcastByte(x, n) == x
  {
    forall x: Octet
      ensures MaskedByte(x, n) == x && BroadcastByte(x, n) == x
    {
      MaskedByteIs(x, 8);
      OrLow(x, 0);
      assert MaskByte(n) == MaskByte(8) == 255;
    }
  }

  lemma NoMask(n: int)
    requires n <= 0
    ensures forall x: Octet :: MaskedByte(x, n) == MaskedByte(x, 0) && BroadcastByte(x, n) == BroadcastByte(x, 0)
  {
  }

  lemma BlockSize(n: nat)
    requires n <= 8
    ensures 1 <= Pow2(8 - n) <= 256 && 256 % Pow2(8 - n) == 0
  {
    Pow2Eight(8 - n);
  }

  lemma BroadcastByteIs(x: Octet, n: nat)
    requires n <= 8 && x % Pow2(8 - n) == 0
    ensures BroadcastByte(x, n) == x + Pow2(8 - n) - 1
  {
    hide Pow2, BitOr;
    MaskByteIs(n);
    OrLow(x, 8 - n);
  }

  /** Mask and broadcast of one byte of a network. */
  lemma BlockFacts(x: Octet, n: nat)
    requires n <= 8 && MaskedByte(x, n) == x
    ensures x % Pow2(8 - n) == 0
    ensures BroadcastByte(x, n) == x + Pow2(8 - n) - 1
    ensures forall y: Octet :: MaskedByte(y, n) == y - y % Pow2(8 - n)
  {
    hide Pow2, BitOr, MaskedByte, BroadcastByte;
    MaskedByteIs(x, n);
    BroadcastByteIs(x, n);
    forall y: Octet
      ensures MaskedByte(y, n) == y - y % Pow2(8 - n)
    {
      MaskedByteIs(y, n);
    }
  }

  function LastBits(net: IPNet): nat { if net.bits >= 24 then net.bits - 24 else 0 }

  /** Only the last byte decides, for addresses that share the first three with the network. */
  lemma LastByteDecides(net: IPNet, y: Octet)
    requires IsNetwork(net)
    ensures MaskedByte(net.ip.d, LastBits(net)) == net.ip.d
    ensures UsableHost(net, net.ip.(d := y)) <==>
      MaskedByte(y, LastBits(net)) == net.ip.d && y != net.ip.d && net.ip.(d := y) != Broadcast(net)
    ensures net.ip.(d := y) == Broadcast(net) ==> y == BroadcastByte(net.ip.d, LastBits(net))
    ensures net.bits >= 24 && y == BroadcastByte(net.ip.d, LastBits(net)) ==> net.ip.(d := y) == Broadcast(net)
  {
    hide MaskedByte, BroadcastByte;
    if net.bits >= 24 {
      FullMask(net.bits);
      FullMask(net.bits - 8);
      FullMask(net.bits - 16);
    } else {
      NoMask(net.bits - 24);
    }
  }

  /** Which candidates pass the subnet, network and broadcast checks, wrap-around included. */
  lemma CandidateFacts(net: IPNet, i: nat)
    requires IsNetwork(net) && 1 <= i <= 254
    ensures UsableHost(net, OffsetIn(net.ip, i)) <==> i <= LastOffset(net.bits)
    ensures i <= LastOffset(net.bits) ==> OffsetIn(net.ip, i).d == net.ip.d + i
    ensures LastOffset(net.bits) <= 254
  {
    hide MaskedByte, BroadcastByte, UsableHost, IsNetwork, Broadcast, Pow2;
    var n := LastBits(net);
    NetworkBits(net);
    LastByteDecides(net, (net.ip.d + i) % 256);
    BlockFacts(net.ip.d, n);
    BlockSize(n);
    if net.bits < 24 { Pow2Eight(8); }
    LastByteFacts(net.ip.d, i, Pow2(8 - n));
  }

  lemma NetworkBits(net: IPNet)
    requires IsNetwork(net)
    ensures net.bits <= 32
  {
  }

  predicate LowestFree(net: IPNet, used: set<IP>, i: nat)
    requires net.bits <= 32
  {
    && 1 <= i <= LastOffset(net.bits)
    && OffsetIn(net.ip, i) !in used
    && forall j: nat :: 1 <= j < i ==> OffsetIn(net.ip, j) in used
  }

  /** The lowest free offset, or None when every offset the allocator tries is taken. */
  method FindAvailableIP(net: IPNet, used: set<IP>) returns (res: Option<IP>)
    requires IsNetwork(net)
    ensures res.Some? ==> exists i :: LowestFree(net, used, i) && res.value == OffsetIn(net.ip, i)
    ensures res.Some? ==> UsableHost(net, res.value) && res.value !in used
    ensures res.None? <==> forall i: nat :: 1 <= i <= LastOffset(net.bits) ==> OffsetIn(net.ip, i) in used
  {
    hide Masked, Broadcast, LastOffset;
    var base := net.ip;
    var broadcast := Broadcast(net);
    for i := 1 to 255
      invariant forall j: nat :: 1 <= j < i && j <= LastOffset(net.bits) ==> OffsetIn(net.ip, j) in used
    {
      CandidateFacts(net, i);
      var candidate := base;
      candidate := candidate.(d := (candidate.d + i) % 256);
      if !Contains(net, candidate) || candidate == base || candidate == broadcast || candidate in used {
        continue;
      }
      assert candidate == OffsetIn(net.ip, i) && LowestFree(net, used, i);
      return Some(candidate);
    }
    CandidateFacts(net, 1);
    return None;
  }

  lemma SameFirstBytes(net: IPNet, ip: IP)
    requires IsNetwork(net) && net.bits >= 24 && UsableHost(net, ip)
    ensures net.ip.(d := ip.d) == ip
  {
    hide MaskedByte, BroadcastByte;
    FullMask(net.bits);
    FullMask(net.bits - 8);
    FullMask(net.bits - 16);
  }

  lemma HostOffset(net: IPNet, ip: IP) returns (i: nat)
    requires IsNetwork(net) && net.bits >= 24 && UsableHost(net, ip)
    ensures 1 <= i <= LastOffset(net.bits) && ip == OffsetIn(net.ip, i)
  {
    hide MaskedByte, BroadcastByte, UsableHost, IsNetwork, Broadcast, Pow2;
    var n := LastBits(net);
    NetworkBits(net);
    SameFirstBytes(net, ip);
    LastByteDecides(net, ip.d);
    BlockFacts(net.ip.d, n);
    BlockSize(n);
    Euclid(ip.d, Pow2(8 - n));
    i := ip.d - net.ip.d;
    assert ip == OffsetIn(net.ip, i);
    CandidateFacts(net, i);
  }

  /** For /24 and longer prefixes the allocator's offsets are exactly the usable hosts. */
  lemma HostsAreOffsets(net: IPNet, ip: IP)
    requires IsNetwork(net) && net.bits >= 24
    ensures UsableHost(net, ip) <==> exists i: nat :: 1 <= i <= LastOffset(net.bits) && ip == OffsetIn(net.ip, i)
  {
    hide UsableHost;
    if UsableHost(net, ip) {
      var i := HostOffset(net, ip);
    }
    forall i: nat | 1 <= i <= LastOffset(net.bits) && ip == OffsetIn(net.ip, i)
      ensures UsableHost(net, ip)
    {
      Pow2Eight(32 - net.bits);
      CandidateFacts(net, i);
    }
  }

  /** For /24 and longer, exhausting the offsets means that no usable host is free. */
  lemma ExhaustedMeansFull(net: IPNet, used: set<IP>)
    requires IsNetwork(net) && net.bits >= 24
    ensures (forall i: nat :: 1 <= i <= LastOffset(net.bits) ==> OffsetIn(net.ip, i) in used)
       <==> (forall ip :: UsableHost(net, ip) ==> ip in used)
  {
    hide UsableHost, LastOffset, OffsetIn;
    forall ip
      ensures UsableHost(net, ip) <==> exists i: nat :: 1 <= i <= LastOffset(net.bits) && ip == OffsetIn(net.ip, i)
    {
      HostsAreOffsets(net, ip);
    }
  }
}
