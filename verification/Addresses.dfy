/**
  Static addresses on the project's subnet: the gateway takes the first host address, services follow from
  the tenth, in start order. The guest works the gateway out again from its own address.
 */
module Addresses {
  import opened Common

  type Octet = x: int | 0 <= x < 256

  datatype Ip = Ip(a: Octet, b: Octet, c: Octet, d: Octet)

  const WRAP := 0x1_0000_0000

  const FIRST_SERVICE := 10

  /** An address as a 32-bit number, and back. */
  function Value(ip: Ip): (v: nat)
    ensures v < WRAP
  {
    ip.d as int + 0x100 * (ip.c as int + 0x100 * (ip.b as int + 0x100 * ip.a as int))
  }

  function FromValue(v: nat): Ip
    requires v < WRAP
  {
    Ip(v / 256 / 256 / 256, v / 256 / 256 % 256, v / 256 % 256, v % 256)
  }

  lemma FromValueValue(ip: Ip)
    ensures FromValue(Value(ip)) == ip
  {
    var v := Value(ip);
    assert v / 256 == ip.c as int + 0x100 * (ip.b as int + 0x100 * ip.a as int);
    assert v / 256 / 256 == ip.b as int + 0x100 * ip.a as int;
  }

  lemma ValueFromValue(v: nat)
    requires v < WRAP
    ensures Value(FromValue(v)) == v
  {
  }

  /** 32-bit truncation. */
  function Wrap(v: nat): (r: nat)
    ensures r < WRAP && (v < WRAP ==> r == v) && (v == WRAP ==> r == 0)
  {
    v % WRAP
  }

  /** offsetIP: 32-bit addition, wrapping. */
  function OffsetIp(network: Ip, n: nat): Ip { FromValue(Wrap(Value(network) + n)) }

  /** The number of addresses under a mask of so many ones. */
  function Size(ones: nat): nat
    requires ones <= 32
  {
    Pow2(32 - ones)
  }

  /** A number with its low bits cleared. */
  function ClearLow(v: nat, bits: nat): nat { if bits == 0 then v else 2 * ClearLow(v / 2, bits - 1) }

  /** The network part of an address, as parsing a CIDR masks it. */
  function Masked(v: nat, ones: nat): nat
    requires ones <= 32
  {
    ClearLow(v, 32 - ones)
  }

  /** The network a CIDR names, whatever host bits it was written with. */
  function Network(cidr: Ip, ones: nat): Ip
    requires ones <= 32
  {
    MaskedBound(Value(cidr), ones);
    FromValue(Masked(Value(cidr), ones))
  }

  /** A parsed subnet: its address has no host bits. */
  ghost predicate IsSubnet(network: Ip, ones: nat) { ones <= 32 && Masked(Value(network), ones) == Value(network) }

  /** The capacity check of compose up: hosts without network and broadcast, less ten. */
  predicate Fits(count: nat, ones: nat)
    requires ones <= 32
  {
    count <= (Size(ones) - 2) - 10
  }

  /** gatewayNetConfig: the network of the guest's own address, its last octet plus one, wrapping. */
  function GuestGateway(address: Ip, ones: nat): Ip
    requires ones <= 32
  {
    var network := Network(address, ones);
    network.(d := (network.d as int + 1) % 256)
  }

  /** The plan of compose up for any --subnet: refused over capacity, else one address per service in start order. */
  method PlanAddresses(cidr: Ip, ones: nat, count: nat) returns (ok: bool, gateway: Ip, plan: seq<Ip>)
    requires ones <= 32
    ensures ok <==> FIRST_SERVICE + count < Size(ones) - 1
    ensures gateway == OffsetIp(Network(cidr, ones), 1)
    ensures ok ==> |plan| == count && PlanIsSound(Network(cidr, ones), ones, plan)
    ensures ok ==> forall i | 0 <= i < count :: plan[i] == OffsetIp(Network(cidr, ones), FIRST_SERVICE + i)
  {
    var network := Network(cidr, ones);
    gateway, plan := OffsetIp(network, 1), [];
    ok := Fits(count, ones);
    if ok {
      for i := 0 to count
        invariant |plan| == i && forall j | 0 <= j < i :: plan[j] == OffsetIp(network, FIRST_SERVICE + j)
      {
        plan := plan + [OffsetIp(network, FIRST_SERVICE + i)];
      }
      NetworkIsSubnet(cidr, ones);
      Sound(network, ones, plan);
    }
  }

  // ----- arithmetic of a subnet -----

  lemma Pow2Of32()
    ensures Pow2(32) == WRAP
  {
    assert Pow2(8) == 256;
    assert Pow2(16) == 256 * 256;
    assert Pow2(24) == 256 * 256 * 256;
  }

  lemma {:induction false} ClearLowBounds(v: nat, bits: nat, n: nat)
    requires bits <= n
    ensures ClearLow(v, bits) <= v < ClearLow(v, bits) + Pow2(bits)
    ensures v < Pow2(n) ==> ClearLow(v, bits) + Pow2(bits) <= Pow2(n)
  {
    if bits > 0 {
      ClearLowBounds(v / 2, bits - 1, n - 1);
    }
  }

  lemma Halve(w: nat, k: nat)
    ensures (2 * w) / 2 == w && (2 * w + k) / 2 == w + k / 2
  {
  }

  /** Clearing the low bits of anything in a block gives the block's first number. */
  lemma {:induction false} ClearLowInBlock(v: nat, bits: nat, k: nat)
    requires ClearLow(v, bits) == v && k < Pow2(bits)
    ensures ClearLow(v + k, bits) == v
  {
    if bits > 0 {
      Halve(ClearLow(v / 2, bits - 1), k);
      ClearLowInBlock(v / 2, bits - 1, k / 2);
    }
  }

  lemma MaskedBound(v: nat, ones: nat)
    requires v < WRAP && ones <= 32
    ensures Masked(v, ones) < WRAP
  {
    ClearLowBounds(v, 32 - ones, 32);
  }

  lemma {:induction false} ClearLowTwice(v: nat, bits: nat)
    ensures ClearLow(ClearLow(v, bits), bits) == ClearLow(v, bits)
  {
    if bits > 0 {
      Halve(ClearLow(v / 2, bits - 1), 0);
      ClearLowTwice(v / 2, bits - 1);
    }
  }

  lemma NetworkIsSubnet(cidr: Ip, ones: nat)
    requires ones <= 32
    ensures IsSubnet(Network(cidr, ones), ones)
  {
    MaskedBound(Value(cidr), ones);
    ValueFromValue(Masked(Value(cidr), ones));
    ClearLowTwice(Value(cidr), 32 - ones);
    hide Value, FromValue, ClearLow;
  }

  /** A subnet never runs past the last 32-bit address, and masking any of its addresses gives it back. */
  lemma InSubnet(network: Ip, ones: nat, k: nat)
    requires IsSubnet(network, ones) && k < Size(ones)
    ensures Value(network) + Size(ones) <= WRAP
    ensures Masked(Value(network) + k, ones) == Value(network)
  {
    hide Value, ClearLow, Pow2;
    Pow2Of32();
    ClearLowBounds(Value(network), 32 - ones, 32);
    ClearLowInBlock(Value(network), 32 - ones, k);
  }

  /** Within the subnet no addition wraps. */
  lemma OffsetIsExact(network: Ip, ones: nat, k: nat)
    requires IsSubnet(network, ones) && k < Size(ones)
    ensures Value(OffsetIp(network, k)) == Value(network) + k
  {
    InSubnet(network, ones, k);
    hide Size, Value, FromValue, Wrap, Masked;
    ValueFromValue(Value(network) + k);
  }

  /** The capacity check leaves one host address below the broadcast address free; a /24 takes 244 services. */
  lemma Capacity(count: nat, ones: nat)
    requires ones <= 32
    ensures Fits(count, ones) <==> FIRST_SERVICE + count < Size(ones) - 1
    ensures ones == 24 ==> (Fits(count, ones) <==> count <= 244)
    ensures ones > 28 ==> !Fits(count, ones)
  {
    assert Pow2(8) == 256 && Pow2(3) == 8 && Pow2(2) == 4 && Pow2(1) == 2 && Pow2(0) == 1;
  }

  // ----- what the plan promises -----

  /** Inside the subnet, none of its reserved addresses, and leading back to the gateway. */
  ghost predicate AddressIsSound(network: Ip, ones: nat, a: Ip)
    requires ones <= 32
  {
    && Value(network) < Value(a) < Value(network) + Size(ones) <= WRAP
    && Masked(Value(a), ones) == Value(network)
    && a != network && a != OffsetIp(network, 1) && a != OffsetIp(network, Size(ones) - 1)
    && GuestGateway(a, ones) == OffsetIp(network, 1)
  }

  /**
    Every service address is inside the subnet, none is the network, the gateway or the broadcast address,
    no two are equal, and each guest finds the gateway the daemon was given.
   */
  ghost predicate PlanIsSound(network: Ip, ones: nat, plan: seq<Ip>)
    requires ones <= 32
  {
    && (forall i | 0 <= i < |plan| :: AddressIsSound(network, ones, plan[i]))
    && (forall i, j | 0 <= i < j < |plan| :: plan[i] != plan[j])
  }

  lemma ServiceAddress(network: Ip, ones: nat, i: nat, count: nat)
    requires IsSubnet(network, ones) && Fits(count, ones) && i < count
    ensures var a := OffsetIp(network, FIRST_SERVICE + i);
            Value(a) == Value(network) + FIRST_SERVICE + i && AddressIsSound(network, ones, a)
  {
    var a := OffsetIp(network, FIRST_SERVICE + i);
    assert ones < 32 && FIRST_SERVICE + i < Size(ones) - 1 by {
      assert Size(32) == 1;
    }
    hide Size, Value, OffsetIp, GuestGateway, Masked, IsSubnet, Fits;
    OffsetIsExact(network, ones, FIRST_SERVICE + i);
    OffsetIsExact(network, ones, 1);
    OffsetIsExact(network, ones, Size(ones) - 1);
    InSubnet(network, ones, FIRST_SERVICE + i);
    GatewayAgreesIff(network, ones, a);
    LastOctetFree(network, ones);
  }

  lemma Sound(network: Ip, ones: nat, plan: seq<Ip>)
    requires IsSubnet(network, ones) && Fits(|plan|, ones)
    requires forall i | 0 <= i < |plan| :: plan[i] == OffsetIp(network, FIRST_SERVICE + i)
    ensures PlanIsSound(network, ones, plan)
  {
    assert ones <= 32;
    hide Size, Value, OffsetIp, GuestGateway, Masked, Fits, IsSubnet, AddressIsSound;
    forall i | 0 <= i < |plan|
      ensures Value(plan[i]) == Value(network) + FIRST_SERVICE + i && AddressIsSound(network, ones, plan[i])
    {
      ServiceAddress(network, ones, i, |plan|);
    }
  }

  /** Any mask short of a full one leaves the last octet even, so adding one carries nowhere. */
  lemma LastOctetFree(network: Ip, ones: nat)
    requires IsSubnet(network, ones) && ones < 32
    ensures network.d != 255
  {
    var v := Value(network);
    assert v == 2 * ClearLow(v / 2, 31 - ones);
    hide ClearLow, Masked, Pow2;
    assert v % 256 == network.d;
  }

  /** Adding one: the octets that take the carry. */
  lemma NextAddress(ip: Ip)
    ensures ip.d != 255 ==> OffsetIp(ip, 1) == ip.(d := ip.d as int + 1)
    ensures ip.d == 255 ==> OffsetIp(ip, 1).c != ip.c
  {
    hide FromValue, Wrap;
    if ip.d != 255 {
      Carry(ip, Ip(ip.a, ip.b, ip.c, ip.d as int + 1));
    } else if ip.c != 255 {
      Carry(ip, Ip(ip.a, ip.b, ip.c as int + 1, 0));
    } else if ip.b != 255 {
      Carry(ip, Ip(ip.a, ip.b as int + 1, 0, 0));
    } else if ip.a != 255 {
      Carry(ip, Ip(ip.a as int + 1, 0, 0, 0));
    } else {
      Carry(ip, Ip(0, 0, 0, 0));
    }
  }

  lemma Carry(ip: Ip, next: Ip)
    requires Value(ip) + 1 == Value(next) || (Value(ip) + 1 == WRAP && Value(next) == 0)
    ensures OffsetIp(ip, 1) == next
  {
    hide Value, FromValue, Wrap;
    FromValueValue(next);
  }

  /**
    For every subnet and every address in it: the gateway the guest derives is the address the daemon was
    given exactly when the network's last octet can take the one.
   */
  lemma GatewayAgreesIff(network: Ip, ones: nat, a: Ip)
    requires IsSubnet(network, ones) && Masked(Value(a), ones) == Value(network)
    ensures GuestGateway(a, ones) == OffsetIp(network, 1) <==> network.d != 255
  {
    FromValueValue(network);
    NextAddress(network);
    hide Value, FromValue, Masked, OffsetIp;
  }
}
