/** Subnets as intervals of numbers: what the byte-wise masks of the allocator mean. */
module Ipv4Numbers {
  import opened Arith
  import opened Ipv4

  /** An address as a number, most significant byte first. */
  function Val(ip: IP): nat { ((ip.a * 256 + ip.b) * 256 + ip.c) * 256 + ip.d }

  lemma LastDigit(q: int, r: Octet, q': int, r': Octet)
    requires q * 256 + r == q' * 256 + r'
    ensures q == q' && r == r'
  {
  }

  lemma ValInjective(x: IP, y: IP)
    requires Val(x) == Val(y)
    ensures x == y
  {
    LastDigit((x.a * 256 + x.b) * 256 + x.c, x.d, (y.a * 256 + y.b) * 256 + y.c, y.d);
    LastDigit(x.a * 256 + x.b, x.c, y.a * 256 + y.b, y.c);
    LastDigit(x.a, x.b, y.a, y.b);
  }

  /** One byte of a network: its block is an interval. */
  lemma ByteBlock(x: Octet, n: nat, m: nat)
    requires n <= 8 && MaskedByte(x, n) == x && m == Pow2(8 - n)
    ensures x + m <= 256 && BroadcastByte(x, n) == x + m - 1
    ensures forall y: Octet :: MaskedByte(y, n) == x <==> x <= y < x + m
  {
    hide Pow2, BitOr, BitAnd, MaskedByte, BroadcastByte;
    BlockFacts(x, n);
    BlockSize(n);
    BlockEnds(x, m);
    forall y: Octet ensures MaskedByte(y, n) == x <==> x <= y < x + m {
      Euclid(y, m);
      Euclid(x, m);
      if x <= y < x + m { DivIs(y, m, x / m); }
    }
  }

  /** A byte behind the prefix is free. */
  lemma FreeByte(x: Octet, n: int)
    requires n <= 0 && MaskedByte(x, n) == x
    ensures x == 0 && BroadcastByte(x, n) == 255
    ensures forall y: Octet :: MaskedByte(y, n) == x
  {
    hide MaskedByte, BroadcastByte;
    NoMask(n);
    Pow2Eight(8);
    ByteBlock(x, 0, 256);
  }

  lemma Shifted(j: nat)
    ensures Pow2(j + 8) == 256 * Pow2(j)
    ensures Pow2(j + 16) == 65536 * Pow2(j)
    ensures Pow2(j + 24) == 16777216 * Pow2(j)
  {
    ShiftedOnce(j);
    ShiftedOnce(j + 8);
    ShiftedOnce(j + 16);
    hide Pow2;
  }

  lemma ShiftedOnce(j: nat)
    ensures Pow2(j + 8) == 256 * Pow2(j)
  {
    var p := Pow2(j);
    assert Pow2(j + 1) == 2 * p && Pow2(j + 2) == 4 * p && Pow2(j + 3) == 8 * p && Pow2(j + 4) == 16 * p;
    assert Pow2(j + 5) == 32 * p && Pow2(j + 6) == 64 * p && Pow2(j + 7) == 128 * p;
  }

  ghost predicate IsInterval(net: IPNet)
    requires net.bits <= 32
  {
    && Val(Broadcast(net)) == Val(net.ip) + Pow2(32 - net.bits) - 1
    && forall ip :: Contains(net, ip) <==> Val(net.ip) <= Val(ip) < Val(net.ip) + Pow2(32 - net.bits)
  }

  lemma IntervalLast(net: IPNet)
    requires IsNetwork(net) && net.bits >= 24
    ensures IsInterval(net)
  {
    hide MaskedByte, BroadcastByte, Pow2;
    FullMask(net.bits);
    FullMask(net.bits - 8);
    FullMask(net.bits - 16);
    ByteBlock(net.ip.d, net.bits - 24, Pow2(32 - net.bits));
  }

  lemma IntervalThird(net: IPNet)
    requires IsNetwork(net) && 16 <= net.bits < 24
    ensures IsInterval(net)
  {
    hide MaskedByte, BroadcastByte, Pow2;
    FullMask(net.bits);
    FullMask(net.bits - 8);
    FreeByte(net.ip.d, net.bits - 24);
    ByteBlock(net.ip.c, net.bits - 16, Pow2(24 - net.bits));
    Shifted(24 - net.bits);
  }

  lemma IntervalSecond(net: IPNet)
    requires IsNetwork(net) && 8 <= net.bits < 16
    ensures IsInterval(net)
  {
    hide MaskedByte, BroadcastByte, Pow2;
    FullMask(net.bits);
    FreeByte(net.ip.c, net.bits - 16);
    FreeByte(net.ip.d, net.bits - 24);
    ByteBlock(net.ip.b, net.bits - 8, Pow2(16 - net.bits));
    Shifted(16 - net.bits);
  }

  lemma IntervalFirst(net: IPNet)
    requires IsNetwork(net) && net.bits < 8
    ensures IsInterval(net)
  {
    hide MaskedByte, BroadcastByte, Pow2;
    FreeByte(net.ip.b, net.bits - 8);
    FreeByte(net.ip.c, net.bits - 16);
    FreeByte(net.ip.d, net.bits - 24);
    ByteBlock(net.ip.a, net.bits, Pow2(8 - net.bits));
    Shifted(8 - net.bits);
  }

  /** For every prefix length: the subnet is the interval of 2^(32-bits) numbers from its address,
      and its broadcast address is the last of them. */
  lemma SubnetIsInterval(net: IPNet)
    requires IsNetwork(net)
    ensures IsInterval(net)
  {
    if net.bits >= 24 { IntervalLast(net); }
    else if net.bits >= 16 { IntervalThird(net); }
    else if net.bits >= 8 { IntervalSecond(net); }
    else { IntervalFirst(net); }
  }

  /** The usable hosts are the numbers strictly inside it. */
  lemma HostsExactly(net: IPNet, ip: IP)
    requires IsNetwork(net)
    ensures UsableHost(net, ip) <==> Val(net.ip) < Val(ip) < Val(net.ip) + Pow2(32 - net.bits) - 1
  {
    hide Pow2, Contains, IsNetwork, Broadcast;
    NetworkBits(net);
    SubnetIsInterval(net);
    if Val(ip) == Val(net.ip) { ValInjective(ip, net.ip); }
    if Val(ip) == Val(Broadcast(net)) { ValInjective(ip, Broadcast(net)); }
  }

  /** Masking rounds down to a multiple of the size of the subnet. */
  lemma MaskRoundsDown(ip: IP, bits: nat)
    requires bits <= 32
    ensures var base := Val(Masked(ip, bits));
      base <= Val(ip) < base + Pow2(32 - bits)
  {
    hide MaskedByte, BroadcastByte, Pow2;
    MaskedIsNetwork(ip, bits);
    SubnetIsInterval(IPNet(Masked(ip, bits), bits));
  }

  /** What is handed out is the lowest unused number behind the address of the subnet. */
  lemma LowestIsLowest(net: IPNet, used: set<IP>, i: nat)
    requires IsNetwork(net) && LowestFree(net, used, i)
    ensures var ip := OffsetIn(net.ip, i);
      && Val(net.ip) < Val(ip) < Val(net.ip) + Pow2(32 - net.bits) - 1 && ip !in used
      && forall x: IP :: Val(net.ip) < Val(x) < Val(ip) ==> x in used
  {
    hide Pow2, IsNetwork, UsableHost, LastOffset;
    NetworkBits(net);
    CandidateFacts(net, 1);
    CandidateFacts(net, i);
    var ip := OffsetIn(net.ip, i);
    HostsExactly(net, ip);
    forall x: IP | Val(net.ip) < Val(x) < Val(ip) ensures x in used {
      var j := Val(x) - Val(net.ip);
      CandidateFacts(net, j);
      ValInjective(x, OffsetIn(net.ip, j));
    }
  }

  /** A free host among the first 254 numbers behind the address of the subnet. */
  ghost predicate FreeHost(net: IPNet, used: set<IP>, ip: IP) {
    UsableHost(net, ip) && Val(ip) <= Val(net.ip) + 254 && ip !in used
  }

  lemma HostIsOffset(net: IPNet, ip: IP) returns (i: nat)
    requires IsNetwork(net) && UsableHost(net, ip) && Val(ip) <= Val(net.ip) + 254
    ensures 1 <= i <= LastOffset(net.bits) && ip == OffsetIn(net.ip, i)
  {
    hide IsNetwork, UsableHost;
    NetworkBits(net);
    HostsExactly(net, ip);
    i := Val(ip) - Val(net.ip);
    Pow2Eight(8);
    assert i <= LastOffset(net.bits);
    hide Pow2, LastOffset;
    CandidateFacts(net, i);
    ValInjective(ip, OffsetIn(net.ip, i));
  }

  lemma {:induction false} LowestBelow(net: IPNet, used: set<IP>, n: nat) returns (i: nat)
    requires net.bits <= 32 && n <= LastOffset(net.bits)
    ensures LowestFree(net, used, i) || forall j: nat :: 1 <= j <= n ==> OffsetIn(net.ip, j) in used
  {
    hide LastOffset, OffsetIn;
    i := 1;
    while i <= n && OffsetIn(net.ip, i) in used
      invariant 1 <= i && forall j: nat :: 1 <= j < i ==> OffsetIn(net.ip, j) in used
    {
      i := i + 1;
    }
  }

  /** The allocator finds an address exactly when there is such a host. */
  lemma FoundExactly(net: IPNet, used: set<IP>)
    requires IsNetwork(net)
    ensures net.bits <= 32 && ((exists i :: LowestFree(net, used, i)) <==> exists ip :: FreeHost(net, used, ip))
  {
    hide IsNetwork, UsableHost, LastOffset, OffsetIn, Val;
    NetworkBits(net);
    if i :| LowestFree(net, used, i) {
      CandidateFacts(net, 1);
      CandidateFacts(net, i);
      OffsetVal(net, i);
      assert FreeHost(net, used, OffsetIn(net.ip, i));
    }
    if ip :| FreeHost(net, used, ip) {
      CandidateFacts(net, 1);
      var i := HostIsOffset(net, ip);
      var j := LowestBelow(net, used, i);
      assert LowestFree(net, used, j);
    }
  }

  lemma OffsetVal(net: IPNet, i: nat)
    requires IsNetwork(net) && 1 <= i <= 254 && i <= LastOffset(net.bits)
    ensures Val(OffsetIn(net.ip, i)) == Val(net.ip) + i
  {
    hide IsNetwork, UsableHost;
    CandidateFacts(net, i);
  }
}
