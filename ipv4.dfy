/**
 * IPv4 addresses and networks as Python's ipaddress module presents them:
 * an address is a 32-bit number, a network is a base address and a prefix
 * length, and str(address) is the dotted-quad text.
 */
module Ipv4 {
  import opened Text
  import opened Arith

  const AddressSpace: nat := 0x1_0000_0000

  type Address = a: nat | a < AddressSpace

  function Pow2(k: nat): (p: nat)
    ensures p >= 1
  {
    if k == 0 then 1 else 2 * Pow2(k - 1)
  }

  lemma {:induction false} Pow2Add(a: nat, b: nat)
    ensures Pow2(a + b) == Pow2(a) * Pow2(b)
    decreases a
  {
    if a > 0 {
      Pow2Add(a - 1, b);
      assert Pow2(a + b) == 2 * Pow2(a - 1 + b);
    }
  }

  lemma Pow2Of32()
    ensures Pow2(32) == AddressSpace
  {
    assert Pow2(4) == 16;
    Pow2Add(4, 4);
    Pow2Add(8, 8);
    Pow2Add(16, 16);
  }

  /**
   * A network as IPv4Network holds it after a successful, strict parse:
   * the prefix length is at most 32 and the host bits of the base are zero.
   */
  datatype Network = Network(base: nat, prefixLen: nat) {
    predicate Valid() {
      base < AddressSpace && prefixLen <= 32 && base % Pow2(32 - prefixLen) == 0
    }

    /** Number of addresses the network spans, host part included. */
    function Size(): nat
      requires prefixLen <= 32
    {
      Pow2(32 - prefixLen)
    }

    predicate Contains(a: nat)
      requires prefixLen <= 32
    {
      base <= a < base + Size()
    }
  }

  /** A multiple of size below count * size leaves room for a whole block of size. */
  lemma AlignedBlockFits(x: nat, size: nat, count: nat)
    requires size > 0 && x % size == 0 && x < count * size
    ensures x + size <= count * size
  {
    var q := x / size;
    assert x == q * size;
    if count <= q {
      MulMono(count, q, size);
    }
    MulMono(q + 1, count, size);
    assert (q + 1) * size == q * size + size;
  }

  /** A valid network lies inside the 32-bit address space. */
  lemma NetworkFits(net: Network)
    requires net.Valid()
    ensures net.base + net.Size() <= AddressSpace
  {
    Pow2Add(net.prefixLen, 32 - net.prefixLen);
    Pow2Of32();
    AlignedBlockFits(net.base, net.Size(), Pow2(net.prefixLen));
  }

  /** Number of usable hosts: the whole /32 or /31, otherwise all but the network and broadcast addresses. */
  function HostCount(net: Network): nat
    requires net.Valid()
  {
    if net.prefixLen == 32 then 1
    else if net.prefixLen == 31 then 2
    else net.Size() - 2
  }

  /** The lowest usable host: the base itself for /31 and /32, the address after it otherwise. */
  function FirstHost(net: Network): nat
    requires net.Valid()
  {
    if net.prefixLen >= 31 then net.base else net.base + 1
  }

  /** The usable hosts form one block inside the network, short of the broadcast address below /31. */
  lemma HostBlock(net: Network)
    requires net.Valid()
    ensures net.base <= FirstHost(net)
    ensures FirstHost(net) + HostCount(net) <= net.base + net.Size() <= AddressSpace
    ensures net.prefixLen < 31 ==> net.base < FirstHost(net) && FirstHost(net) + HostCount(net) == net.base + net.Size() - 1
  {
    NetworkFits(net);
    if net.prefixLen == 31 {
      assert net.Size() == 2;
    } else if net.prefixLen < 31 {
      Pow2Add(2, 30 - net.prefixLen);
      assert net.Size() >= 4;
    }
  }

  /**
   * The usable hosts of a network in ascending order, as
   * ipaddress.IPv4Network.hosts(): a /32 yields its single address, a /31
   * both of its addresses (RFC 3021), any shorter prefix every address
   * strictly between the network and the broadcast address.
   */
  function Hosts(net: Network): (r: seq<Address>)
    requires net.Valid()
    ensures |r| == HostCount(net)
    ensures forall i :: 0 <= i < |r| ==> r[i] == FirstHost(net) + i
  {
    HostBlock(net);
    var first, count := FirstHost(net), HostCount(net);
    var r: seq<Address> := seq(count, i requires 0 <= i < count => first + i);
    assert forall i :: 0 <= i < count ==> r[i] == first + i;
    r
  }

  /**
   * The hosts lie in the network, strictly between its network and
   * broadcast addresses below /31, and strictly ascend.
   */
  lemma HostsInNetwork(net: Network)
    requires net.Valid()
    ensures forall i :: 0 <= i < |Hosts(net)| ==> net.Contains(Hosts(net)[i])
    ensures net.prefixLen < 31 ==>
      forall i :: 0 <= i < |Hosts(net)| ==> net.base < Hosts(net)[i] < net.base + net.Size() - 1
    ensures forall i, j :: 0 <= i < j < |Hosts(net)| ==> Hosts(net)[i] < Hosts(net)[j]
  {
    HostBlock(net);
  }

  /** The four octets of an address, most significant first. */
  function Octets(a: Address): (o: seq<nat>)
    ensures |o| == 4 && forall i :: 0 <= i < 4 ==> o[i] < 256
  {
    var r3 := a / 256;
    var r2 := r3 / 256;
    [r2 / 256, r2 % 256, r3 % 256, a % 256]
  }

  /** An address is determined by its octets. */
  lemma OctetsInjective(a: Address, b: Address)
    requires Octets(a) == Octets(b)
    ensures a == b
  {
    var oa, ob := Octets(a), Octets(b);
    assert oa[0] == ob[0] && oa[1] == ob[1] && oa[2] == ob[2] && oa[3] == ob[3];
    assert a / 256 / 256 == b / 256 / 256;
    assert a / 256 == b / 256;
  }

  /** Four numbers in decimal, separated by dots. */
  function DottedQuad(o: seq<nat>): string
    requires |o| == 4
  {
    Dec(o[0]) + "." + Dec(o[1]) + "." + Dec(o[2]) + "." + Dec(o[3])
  }

  /** Dividing by 256 twice is dividing by 65536. */
  lemma Div256Twice(x: nat)
    ensures x / 256 / 256 == x / 65536 && x / 256 % 256 == x % 65536 / 256
  {
    var q, r := x / 256, x % 256;
    var q2, r2 := q / 256, q % 256;
    assert x == q2 * 65536 + (r2 * 256 + r);
    DivModUnique(x, 65536, q2, r2 * 256 + r);
    DivModUnique(x % 65536, 256, r2, r);
  }

  /**
   * str(IPv4Address): the four octets in decimal, most significant first,
   * joined by dots; each field has one to three digits, so the text has
   * seven to fifteen characters.
   */
  function Render(a: Address): (r: string)
    ensures r == DottedQuad([a / 0x100_0000, a / 0x1_0000 % 256, a / 256 % 256, a % 256])
    ensures a / 0x100_0000 < 256 && 7 <= |r| <= 15
  {
    Div256Twice(a);
    Div256Twice(a / 256);
    DivModUnique(a, 0x100_0000, a / 256 / 65536, a / 256 % 65536 * 256 + a % 256);
    DecShort(a / 0x100_0000); DecShort(a / 0x1_0000 % 256); DecShort(a / 256 % 256); DecShort(a % 256);
    DottedQuad(Octets(a))
  }

  /** A number below 256 has at most three decimal digits. */
  lemma DecShort(n: nat)
    requires n < 256
    ensures |Dec(n)| <= 3
  {
    if n >= 10 {
      if n / 10 >= 10 {
        assert Dec(n / 10) == Dec(n / 10 / 10) + [DigitChar(n / 10 % 10)];
      }
    }
  }

  lemma DecHasNoDot(n: nat)
    ensures '.' !in Dec(n)
  {
  }

  /** Four dot-free fields joined by dots can be read back uniquely (the last may hold dots). */
  lemma SplitDotted(a0: string, a1: string, a2: string, a3: string, b0: string, b1: string, b2: string, b3: string)
    requires '.' !in a0 && '.' !in a1 && '.' !in a2 && '.' !in b0 && '.' !in b1 && '.' !in b2
    requires a0 + "." + a1 + "." + a2 + "." + a3 == b0 + "." + b1 + "." + b2 + "." + b3
    ensures a0 == b0 && a1 == b1 && a2 == b2 && a3 == b3
  {
    var s2, t2 := a2 + "." + a3, b2 + "." + b3;
    var s1, t1 := a1 + "." + s2, b1 + "." + t2;
    assert a0 + "." + a1 + "." + a2 + "." + a3 == a0 + "." + s1;
    assert b0 + "." + b1 + "." + b2 + "." + b3 == b0 + "." + t1;
    SplitAtChar('.', a0, s1, b0, t1);
    SplitAtChar('.', a1, s2, b1, t2);
    SplitAtChar('.', a2, a3, b2, b3);
  }

  /** The dotted text determines the four numbers. */
  lemma DottedQuadInjective(o: seq<nat>, o': seq<nat>)
    requires |o| == 4 && |o'| == 4 && DottedQuad(o) == DottedQuad(o')
    ensures o == o'
  {
    DecHasNoDot(o[0]); DecHasNoDot(o[1]); DecHasNoDot(o[2]);
    DecHasNoDot(o'[0]); DecHasNoDot(o'[1]); DecHasNoDot(o'[2]);
    SplitDotted(Dec(o[0]), Dec(o[1]), Dec(o[2]), Dec(o[3]), Dec(o'[0]), Dec(o'[1]), Dec(o'[2]), Dec(o'[3]));
    DecInjective(o[0], o'[0]);
    DecInjective(o[1], o'[1]);
    DecInjective(o[2], o'[2]);
    DecInjective(o[3], o'[3]);
  }

  /** Different addresses render to different text. */
  lemma RenderInjective(a: Address, b: Address)
    requires Render(a) == Render(b)
    ensures a == b
  {
    DottedQuadInjective(Octets(a), Octets(b));
    OctetsInjective(a, b);
  }
}
