/** Prefix blocks of IPv4 and IPv6 addresses (section 3.1 of RFC 4632) and the rules for
    nginx allow / deny operands (app/ip_cidrs.py). */
module IpNetwork {
  import opened PyText

  datatype Version = V4 | V6

  function Width(v: Version): nat { if v.V4? then 32 else 128 }

  function Pow2(n: nat): (r: nat)
    ensures r > 0
  {
    if n == 0 then 1 else 2 * Pow2(n - 1)
  }

  // A network is given by its first address; host bits are zero.
  datatype Network = Network(version: Version, base: nat, prefix: nat)

  function Size(n: Network): (r: nat)
    requires n.prefix <= Width(n.version)
    ensures r > 0
  {
    Pow2(Width(n.version) - n.prefix)
  }

  ghost predicate ValidNetwork(n: Network) {
    n.prefix <= Width(n.version) && n.base % Size(n) == 0 && n.base + Size(n) <= Pow2(Width(n.version))
  }

  function Last(n: Network): nat
    requires n.prefix <= Width(n.version)
  {
    n.base + Size(n) - 1
  }

  // `ip_network((addr, prefix), strict=False)`: the host bits are masked off.
  function NetworkOf(v: Version, addr: nat, prefix: nat): Network
    requires prefix <= Width(v)
  {
    var size := Pow2(Width(v) - prefix);
    RemainderAtMost(addr, size);
    Network(v, addr - addr % size, prefix)
  }

  lemma RemainderAtMost(a: nat, s: nat)
    requires s > 0
    ensures a % s <= a
  {
    MultiplyMonotone(0, a / s, s);
    assert a == a / s * s + a % s;
  }

  predicate Contains(n: Network, a: nat)
    requires n.prefix <= Width(n.version)
  {
    n.base <= a <= Last(n)
  }

  // The library's overlap test looks only at the four end points.
  predicate Overlaps(a: Network, b: Network)
    requires a.prefix <= Width(a.version) && b.prefix <= Width(b.version)
  {
    Contains(a, b.base) || Contains(a, Last(b)) || Contains(b, a.base) || Contains(b, Last(a))
  }

  // ----- Blocks are nested or disjoint

  lemma {:induction false} Pow2Split(a: nat, b: nat)
    ensures Pow2(a + b) == Pow2(a) * Pow2(b)
  {
    if b > 0 {
      Pow2Split(a, b - 1);
    }
  }

  lemma {:induction false} Pow2Grows(a: nat, b: nat)
    requires a < b
    ensures Pow2(a) < Pow2(b)
  {
    if a < b - 1 {
      Pow2Grows(a, b - 1);
    }
  }

  lemma MaskedIsValid(v: Version, addr: nat, prefix: nat)
    requires prefix <= Width(v) && addr < Pow2(Width(v))
    ensures ValidNetwork(NetworkOf(v, addr, prefix))
    ensures Contains(NetworkOf(v, addr, prefix), addr)
  {
    var s := Pow2(Width(v) - prefix);
    Pow2Split(prefix, Width(v) - prefix);
    MaskFits(addr, s, Pow2(prefix));
  }

  lemma MaskFits(addr: nat, s: nat, q: nat)
    requires s > 0 && addr < q * s
    ensures (addr - addr % s) % s == 0 && addr - addr % s + s <= q * s
  {
    var k := addr / s;
    assert addr - addr % s == k * s;
    MultipleModulo(k, s);
    if k >= q {
      MultiplyMonotone(q, k, s);
    }
    MultiplyMonotone(k + 1, q, s);
  }

  lemma MultipleModulo(k: nat, s: nat)
    requires s > 0
    ensures (k * s) % s == 0
  {
    var r := (k * s) % s;
    var q := (k * s) / s;
    assert (k - q) * s == r;
    if k > q {
      MultiplyMonotone(1, k - q, s);
    } else if k < q {
      MultiplyMonotone(1, q - k, s);
    }
  }

  lemma MultiplyMonotone(a: nat, b: nat, s: nat)
    ensures a <= b ==> a * s <= b * s
  {}

  // Two multiples of s are equal or at least s apart.
  lemma MultiplesApart(a: nat, b: nat, s: nat)
    requires s > 0 && a % s == 0 && b % s == 0 && a < b
    ensures a + s <= b
  {
    var i, j := a / s, b / s;
    assert a == i * s && b == j * s;
    if j <= i {
      MultiplyMonotone(j, i, s);
    }
    MultiplyMonotone(i + 1, j, s);
  }

  lemma DividesThrough(a: nat, s: nat, k: nat)
    requires s > 0 && k > 0 && a % (s * k) == 0
    ensures a % s == 0
  {
    var q := a / (s * k);
    assert a == (q * k) * s;
    MultipleModulo(q * k, s);
  }

  lemma EndIsMultiple(b: nat, s: nat, k: nat)
    requires s > 0 && k > 0 && b % (s * k) == 0
    ensures b % s == 0 && (b + s * k) % s == 0
  {
    DividesThrough(b, s, k);
    var m := b / s;
    assert b + s * k == (m + k) * s;
    MultipleModulo(m + k, s);
  }

  // If two blocks share an address, the one with the longer prefix lies inside the other.
  lemma NestedOrDisjoint(a: Network, b: Network, x: nat)
    requires ValidNetwork(a) && ValidNetwork(b) && a.version == b.version && a.prefix >= b.prefix
    requires Contains(a, x) && Contains(b, x)
    ensures b.base <= a.base && Last(a) <= Last(b)
  {
    var s, t := Size(a), Size(b);
    Pow2Split(Width(a.version) - a.prefix, a.prefix - b.prefix);
    EndIsMultiple(b.base, s, Pow2(a.prefix - b.prefix));
    if a.base < b.base {
      MultiplesApart(a.base, b.base, s);
    }
    if a.base < b.base + t {
      MultiplesApart(a.base, b.base + t, s);
    }
  }

  // The end-point test decides whether two blocks share an address.
  lemma OverlapsMeansShared(a: Network, b: Network)
    requires ValidNetwork(a) && ValidNetwork(b) && a.version == b.version
    ensures Overlaps(a, b) <==> exists x :: Contains(a, x) && Contains(b, x)
  {
    if Overlaps(a, b) {
      var x := if Contains(a, b.base) then b.base else if Contains(a, Last(b)) then Last(b)
               else if Contains(b, a.base) then a.base else Last(a);
      assert Contains(a, x) && Contains(b, x);
    }
    if x :| Contains(a, x) && Contains(b, x) {
      if a.prefix >= b.prefix {
        NestedOrDisjoint(a, b, x);
      } else {
        NestedOrDisjoint(b, a, x);
      }
    }
  }

  // A block is determined by its set of addresses.
  lemma SameAddressesSameNetwork(a: Network, b: Network)
    requires ValidNetwork(a) && ValidNetwork(b) && a.version == b.version
    requires forall x :: Contains(a, x) <==> Contains(b, x)
    ensures a == b
  {
    assert Contains(a, a.base) && Contains(a, Last(a)) && Contains(b, b.base) && Contains(b, Last(b));
    if a.prefix > b.prefix {
      Pow2Grows(Width(a.version) - a.prefix, Width(a.version) - b.prefix);
    } else if a.prefix < b.prefix {
      Pow2Grows(Width(a.version) - b.prefix, Width(a.version) - a.prefix);
    }
  }

  // ----- Special ranges

  const MULTICAST4 := Network(V4, 0xE000_0000, 4)
  const MULTICAST6 := Network(V6, 0xFF00_0000_0000_0000_0000_0000_0000_0000, 8)

  // The IPv4 address embedded in an IPv4-mapped IPv6 address.
  function Mapped(a: nat): Option<nat> {
    if a / 0x1_0000_0000 == 0xFFFF then Some(a % 0x1_0000_0000) else None
  }

  predicate IsMulticast4(a: nat) { 0xE000_0000 <= a <= 0xEFFF_FFFF }

  predicate IsMulticast(v: Version, a: nat) {
    if v.V4? then IsMulticast4(a)
    else match Mapped(a)
      case Some(b) => IsMulticast4(b)
      case None => a / 0x100_0000_0000_0000_0000_0000_0000_0000 == 0xFF
  }

  predicate IsUnspecified(v: Version, a: nat) {
    if v.V4? then a == 0
    else match Mapped(a)
      case Some(b) => b == 0
      case None => a == 0
  }

  const INFRA_NETWORKS := [
    Network(V4, 0x0A05_0000, 16),  // docker vpcbr
    Network(V4, 0xAC11_0000, 16),  // docker bridge
    Network(V4, 0x7F00_0000, 8),   // loopback
    Network(V6, 1, 128)            // IPv6 loopback
  ]

  function MinPrefix(v: Version): nat { if v.V4? then 8 else 32 }

  // ----- The rule for allow / deny operands

  datatype Problem = Invalid | TooBroad | UnspecifiedOrMulticast | OverlapsInfrastructure

  function WafProblem(parsed: Option<Network>, deny: bool): Option<Problem>
    requires parsed.Some? ==> parsed.value.prefix <= Width(parsed.value.version)
  {
    if parsed.None? then Some(Invalid)
    else
      var net := parsed.value;
      var v := net.version;
      if net.prefix < MinPrefix(v) then Some(TooBroad)
      else if (IsUnspecified(v, net.base) && IsUnspecified(v, Last(net)))
           || (IsMulticast(v, net.base) && IsMulticast(v, Last(net))) then Some(UnspecifiedOrMulticast)
      else if deny && exists i :: 0 <= i < |INFRA_NETWORKS| && INFRA_NETWORKS[i].version == v
                                 && Overlaps(net, INFRA_NETWORKS[i]) then Some(OverlapsInfrastructure)
      else None
  }

  // Some address belongs to the network and to one of the infrastructure networks.
  ghost predicate SharesInfrastructure(net: Network)
    requires net.prefix <= Width(net.version)
  {
    exists i, x :: 0 <= i < |INFRA_NETWORKS| && INFRA_NETWORKS[i].version == net.version
                   && Contains(INFRA_NETWORKS[i], x) && Contains(net, x)
  }

  lemma Powers()
    ensures Pow2(4) == 16 && Pow2(8) == 0x100 && Pow2(16) == 0x1_0000 && Pow2(24) == 0x100_0000
    ensures Pow2(28) == 0x1000_0000 && Pow2(32) == 0x1_0000_0000
  {}

  lemma WidePowers()
    ensures Pow2(96) == 0x1_0000_0000_0000_0000_0000_0000
    ensures Pow2(120) == 0x100_0000_0000_0000_0000_0000_0000_0000
    ensures Pow2(128) == 0x1_0000_0000_0000_0000_0000_0000_0000_0000
  {
    Powers();
    Pow2Split(32, 32);
    Pow2Split(64, 32);
    Pow2Split(96, 24);
    Pow2Split(96, 32);
  }

  lemma InfrastructureIsValid(i: nat)
    requires i < |INFRA_NETWORKS|
    ensures ValidNetwork(INFRA_NETWORKS[i])
  {
    Powers();
    WidePowers();
  }

  lemma SharesMeansOverlaps(net: Network)
    requires ValidNetwork(net)
    ensures SharesInfrastructure(net)
       <==> exists i :: 0 <= i < |INFRA_NETWORKS| && INFRA_NETWORKS[i].version == net.version
                        && Overlaps(net, INFRA_NETWORKS[i])
  {
    forall i | 0 <= i < |INFRA_NETWORKS| && INFRA_NETWORKS[i].version == net.version
      ensures Overlaps(net, INFRA_NETWORKS[i]) <==> exists x :: Contains(net, x) && Contains(INFRA_NETWORKS[i], x)
    {
      InfrastructureIsValid(i);
      OverlapsMeansShared(net, INFRA_NETWORKS[i]);
    }
  }

  // The size bound 2^24 / 2^96 is exactly the minimum prefix.
  lemma SizeBound(net: Network)
    requires net.prefix <= Width(net.version)
    ensures net.prefix >= MinPrefix(net.version) <==> Size(net) <= Pow2(Width(net.version) - MinPrefix(net.version))
  {
    var w := Width(net.version);
    if net.prefix > MinPrefix(net.version) {
      Pow2Grows(w - net.prefix, w - MinPrefix(net.version));
    } else if net.prefix < MinPrefix(net.version) {
      Pow2Grows(w - MinPrefix(net.version), w - net.prefix);
    }
  }

  // A block narrow enough to be accepted has multicast end points as soon as it holds any address of
  // the multicast range.
  lemma MulticastEndpoints(net: Network, x: nat)
    requires ValidNetwork(net) && net.prefix >= MinPrefix(net.version) && Contains(net, x)
    requires Contains(if net.version.V4? then MULTICAST4 else MULTICAST6, x)
    ensures IsMulticast(net.version, net.base) && IsMulticast(net.version, Last(net))
  {
    Powers();
    WidePowers();
    NestedOrDisjoint(net, if net.version.V4? then MULTICAST4 else MULTICAST6, x);
  }

  // Main result, IPv4: an operand is accepted exactly when it has at most 2^24 addresses, is not the
  // unspecified address, holds no multicast address and, for deny, no infrastructure address.
  lemma Accepted4(net: Network, deny: bool)
    requires ValidNetwork(net) && net.version.V4?
    ensures WafProblem(Some(net), deny).None?
       <==> (&& Size(net) <= 0x100_0000
             && !(net.base == 0 && Size(net) == 1)
             && (forall x :: Contains(net, x) ==> !IsMulticast(V4, x))
             && (deny ==> !SharesInfrastructure(net)))
  {
    Powers();
    SizeBound(net);
    SharesMeansOverlaps(net);
    if net.prefix >= 8 {
      if x :| Contains(net, x) && IsMulticast(V4, x) {
        MulticastEndpoints(net, x);
      }
      assert IsMulticast(V4, net.base) ==> Contains(net, net.base);
    }
  }

  ghost predicate AllMulticast(net: Network)
    requires net.prefix <= Width(net.version)
  {
    forall x :: Contains(net, x) ==> IsMulticast(net.version, x)
  }

  ghost predicate AllUnspecified(net: Network)
    requires net.prefix <= Width(net.version)
  {
    forall x :: Contains(net, x) ==> IsUnspecified(net.version, x)
  }

  // The multicast addresses are two intervals, one of them the IPv4-mapped multicast addresses.
  lemma Multicast6Intervals(a: nat)
    requires a < 0x1_0000_0000_0000_0000_0000_0000_0000_0000
    ensures IsMulticast(V6, a)
       <==> a >= 0xFF00_0000_0000_0000_0000_0000_0000_0000 || 0xFFFF_E000_0000 <= a <= 0xFFFF_EFFF_FFFF
  {}

  lemma Unspecified6(a: nat)
    ensures IsUnspecified(V6, a) <==> a == 0 || a == 0xFFFF_0000_0000
  {}

  // In a block of at most 2^96 addresses, multicast end points mean that every address is multicast.
  lemma AllMulticast6(net: Network)
    requires ValidNetwork(net) && net.version.V6? && Size(net) <= 0x1_0000_0000_0000_0000_0000_0000
    ensures IsMulticast(V6, net.base) && IsMulticast(V6, Last(net)) <==> AllMulticast(net)
  {
    WidePowers();
    Multicast6Intervals(net.base);
    Multicast6Intervals(Last(net));
    if IsMulticast(V6, net.base) && IsMulticast(V6, Last(net)) {
      forall x | Contains(net, x) ensures IsMulticast(V6, x) {
        Multicast6Intervals(x);
      }
    }
    assert Contains(net, net.base) && Contains(net, Last(net));
  }

  // Unspecified end points mean that no address is specified: the block is one address.
  lemma AllUnspecified6(net: Network)
    requires ValidNetwork(net) && net.version.V6?
    ensures IsUnspecified(V6, net.base) && IsUnspecified(V6, Last(net)) <==> AllUnspecified(net)
  {
    Unspecified6(net.base);
    Unspecified6(Last(net));
    NoSuchSize(128 - net.prefix);
    assert Contains(net, net.base) && Contains(net, Last(net));
  }

  // No block has 0xFFFF_0000_0001 addresses: that number is odd and not 1.
  lemma NoSuchSize(n: nat)
    ensures Pow2(n) != 0xFFFF_0000_0001
  {}

  // What the branches of the rule test, with the end points of the block.
  lemma AcceptedByEndpoints(net: Network, deny: bool)
    requires ValidNetwork(net)
    ensures WafProblem(Some(net), deny).None?
       <==> (&& net.prefix >= MinPrefix(net.version)
             && !(IsUnspecified(net.version, net.base) && IsUnspecified(net.version, Last(net)))
             && !(IsMulticast(net.version, net.base) && IsMulticast(net.version, Last(net)))
             && (deny ==> !SharesInfrastructure(net)))
  {
    SharesMeansOverlaps(net);
  }

  // Main result, IPv6: an operand is accepted exactly when it has at most 2^96 addresses, not all of
  // them unspecified, not all of them multicast and, for deny, none of the infrastructure.
  lemma Accepted6(net: Network, deny: bool)
    requires ValidNetwork(net) && net.version.V6?
    ensures WafProblem(Some(net), deny).None?
       <==> (&& Size(net) <= 0x1_0000_0000_0000_0000_0000_0000 && !AllUnspecified(net) && !AllMulticast(net)
             && (deny ==> !SharesInfrastructure(net)))
  {
    AcceptedByEndpoints(net, deny);
    SizeBound6(net);
    AllUnspecified6(net);
    if net.prefix >= 32 {
      AllMulticast6(net);
    }
  }

  lemma SizeBound6(net: Network)
    requires net.prefix <= 128 && net.version.V6?
    ensures net.prefix >= 32 <==> Size(net) <= 0x1_0000_0000_0000_0000_0000_0000
  {
    WidePowers();
    SizeBound(net);
  }

  // An accepted IPv6 operand holds no address of ff00::/8 at all.
  lemma NoMulticast6(net: Network, deny: bool, x: nat)
    requires ValidNetwork(net) && net.version.V6? && WafProblem(Some(net), deny).None? && Contains(net, x)
    ensures !Contains(MULTICAST6, x)
  {
    AcceptedByEndpoints(net, deny);
    if Contains(MULTICAST6, x) {
      MulticastEndpoints(net, x);
    }
  }

  // End points decide for both versions, as long as the block is not too broad.
  lemma EndpointsDecide(net: Network)
    requires ValidNetwork(net) && Size(net) <= MaxSize(net.version)
    ensures IsUnspecified(net.version, net.base) && IsUnspecified(net.version, Last(net)) <==> AllUnspecified(net)
    ensures IsMulticast(net.version, net.base) && IsMulticast(net.version, Last(net)) <==> AllMulticast(net)
  {
    assert Contains(net, net.base) && Contains(net, Last(net));
    if net.version.V6? {
      AllUnspecified6(net);
      AllMulticast6(net);
    }
  }

  // The broadest block accepted.
  function MaxSize(v: Version): nat { if v.V4? then 0x100_0000 else 0x1_0000_0000_0000_0000_0000_0000 }

  lemma BroadExactly(net: Network)
    requires net.prefix <= Width(net.version)
    ensures net.prefix >= MinPrefix(net.version) <==> Size(net) <= MaxSize(net.version)
  {
    SizeBound(net);
    Powers();
    WidePowers();
  }

  // Main result: for any operand, of either version or unreadable, which of the four reasons is given, if any,
  // in terms of the addresses it denotes.
  lemma ReasonExactly(p: Option<Network>, deny: bool)
    requires p.Some? ==> ValidNetwork(p.value)
    ensures WafProblem(p, deny) == Some(Invalid) <==> p.None?
    ensures WafProblem(p, deny) == Some(TooBroad) <==> p.Some? && Size(p.value) > MaxSize(p.value.version)
    ensures WafProblem(p, deny) == Some(UnspecifiedOrMulticast)
       <==> (&& p.Some? && Size(p.value) <= MaxSize(p.value.version)
             && (AllUnspecified(p.value) || AllMulticast(p.value)))
    ensures WafProblem(p, deny) == Some(OverlapsInfrastructure)
       <==> (&& p.Some? && Size(p.value) <= MaxSize(p.value.version)
             && !AllUnspecified(p.value) && !AllMulticast(p.value) && deny && SharesInfrastructure(p.value))
  {
    if p.Some? {
      BroadExactly(p.value);
      if Size(p.value) <= MaxSize(p.value.version) {
        EndpointsDecide(p.value);
        SharesMeansOverlaps(p.value);
      }
    }
  }

  // The infrastructure in dotted parts: 10.5.0.0/16, 172.17.0.0/16, 127.0.0.0/8, and the IPv6 loopback.
  lemma InfrastructureAddresses(v: Version, a: nat)
    ensures (exists i :: 0 <= i < |INFRA_NETWORKS| && INFRA_NETWORKS[i].version == v && Contains(INFRA_NETWORKS[i], a))
       <==> if v.V4? then a / 65536 == 10 * 256 + 5 || a / 65536 == 172 * 256 + 17 || a / 16777216 == 127 else a == 1
  {
    Powers();
    InfraPowers();
    assert INFRA_NETWORKS[0].version == V4 && INFRA_NETWORKS[1].version == V4 && INFRA_NETWORKS[2].version == V4;
    assert INFRA_NETWORKS[3].version == V6;
  }

  lemma InfraPowers()
    ensures Pow2(0) == 1 && Pow2(16) == 65536 && Pow2(24) == 16777216
  {
    assert Pow2(8) == 256;
    Pow2Split(8, 8);
    Pow2Split(16, 8);
  }

  // The multicast addresses are 224.0.0.0 to 239.255.255.255, ff00::/8 and the IPv4-mapped multicast addresses; the
  // unspecified ones are 0.0.0.0, :: and ::ffff:0.0.0.0.
  lemma SpecialAddresses(a: nat)
    requires a < 0x1_0000_0000_0000_0000_0000_0000_0000_0000
    ensures IsMulticast(V4, a) <==> 224 * 16777216 <= a < 240 * 16777216
    ensures IsMulticast(V6, a) <==> a >= 0xFF00_0000_0000_0000_0000_0000_0000_0000 || 0xFFFF_E000_0000 <= a <= 0xFFFF_EFFF_FFFF
    ensures IsUnspecified(V4, a) <==> a == 0
    ensures IsUnspecified(V6, a) <==> a == 0 || a == 0xFFFF_0000_0000
  {
    Multicast6Intervals(a);
    Unspecified6(a);
  }

  // What is accepted for deny is accepted for allow; the difference is exactly the infrastructure.
  lemma DenyIsStricter(net: Network)
    requires ValidNetwork(net)
    ensures WafProblem(Some(net), true).None?
       <==> WafProblem(Some(net), false).None? && !SharesInfrastructure(net)
  {
    SharesMeansOverlaps(net);
  }
}
