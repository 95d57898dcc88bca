/**
 * The address allocators of the generator. Each takes the outcome of
 * parsing an address pool with ipaddress.IPv4Network: Some(network) on
 * success, None where the constructor raised ValueError.
 */
module Allocator {
  import opened Wrappers
  import opened Text
  import opened Ipv4

  predicate ValidPool(pool: Option<Network>) {
    pool.Some? ==> pool.value.Valid()
  }

  function Min(a: nat, b: nat): nat {
    if a <= b then a else b
  }

  /** Loopback handed out when the pool does not parse: "10.255.0.<i+1>". */
  function FallbackLoopback(i: nat): string {
    "10.255.0." + Dec(i + 1)
  }

  /** The link pair every link gets when the pool does not parse or runs out. */
  const FallbackLink: (string, string) := ("10.0.0.1", "10.0.0.2")

  /** str() of each address, in order. */
  function RenderEach(a: seq<Address>): (t: seq<string>)
    ensures |t| == |a|
  {
    if a == [] then [] else RenderEach(a[..|a| - 1]) + [Render(a[|a| - 1])]
  }

  lemma {:induction false} RenderEachAt(a: seq<Address>, i: nat)
    requires i < |a|
    ensures RenderEach(a)[i] == Render(a[i])
    decreases |a|
  {
    if i < |a| - 1 {
      RenderEachAt(a[..|a| - 1], i);
    }
  }

  /** str() of every usable host of the network, in ascending host order. */
  function HostTexts(net: Network): (t: seq<string>)
    requires net.Valid()
    ensures |t| == HostCount(net)
  {
    RenderEach(Hosts(net))
  }

  lemma HostTextAt(net: Network, i: nat)
    requires net.Valid() && i < HostCount(net)
    ensures HostTexts(net)[i] == Render(Hosts(net)[i])
  {
    RenderEachAt(Hosts(net), i);
  }

  /** Different hosts of a network render to different text. */
  lemma HostTextsDistinct(net: Network)
    requires net.Valid()
    ensures forall i, j :: 0 <= i < j < |HostTexts(net)| ==> HostTexts(net)[i] != HostTexts(net)[j]
  {
    var t, hosts := HostTexts(net), Hosts(net);
    forall i, j | 0 <= i < j < |t|
      ensures t[i] != t[j]
    {
      HostTextAt(net, i);
      HostTextAt(net, j);
      if t[i] == t[j] {
        RenderInjective(hosts[i], hosts[j]);
      }
    }
  }

  /**
   * allocate_loopbacks: the first n usable hosts of the pool in ascending
   * order (fewer when the pool has fewer), or n fallback loopbacks when the
   * pool does not parse.
   */
  function AllocateLoopbacks(n: nat, pool: Option<Network>): (r: seq<string>)
    requires ValidPool(pool)
    ensures |r| == if pool.None? then n else Min(n, HostCount(pool.value))
  {
    match pool
    case None => seq(n, i requires 0 <= i < n => FallbackLoopback(i))
    case Some(net) => HostTexts(net)[..Min(n, HostCount(net))]
  }

  /**
   * With a parsed pool the loopbacks are the rendered hosts of the pool,
   * taken from the lowest up; without one they are the fallback loopbacks.
   */
  lemma LoopbacksFromPool(n: nat, pool: Option<Network>)
    requires ValidPool(pool)
    ensures var r := AllocateLoopbacks(n, pool);
      if pool.None? then forall i :: 0 <= i < n ==> r[i] == FallbackLoopback(i)
      else
        var hosts := Hosts(pool.value);
        && |r| <= n
        && (n <= |hosts| ==> |r| == n)
        && (forall i :: 0 <= i < |r| ==> r[i] == Render(hosts[i]) && pool.value.Contains(hosts[i]))
        && forall i, j :: 0 <= i < j < |r| ==> hosts[i] < hosts[j]
  {
    if pool.Some? {
      var r := AllocateLoopbacks(n, pool);
      HostsInNetwork(pool.value);
      forall i | 0 <= i < |r|
        ensures r[i] == Render(Hosts(pool.value)[i])
      {
        HostTextAt(pool.value, i);
      }
    }
  }

  /** Loopbacks never repeat, whether they come from the pool or from the fallback. */
  lemma LoopbacksDistinct(n: nat, pool: Option<Network>)
    requires ValidPool(pool)
    ensures forall i, j :: 0 <= i < j < |AllocateLoopbacks(n, pool)| ==>
      AllocateLoopbacks(n, pool)[i] != AllocateLoopbacks(n, pool)[j]
  {
    var r := AllocateLoopbacks(n, pool);
    match pool
    case None =>
      forall i, j | 0 <= i < j < |r|
        ensures r[i] != r[j]
      {
        if r[i] == r[j] {
          PrefixedDecInjective("10.255.0.", i + 1, j + 1);
        }
      }
    case Some(net) =>
      HostTextsDistinct(net);
      var t := HostTexts(net);
      assert forall i :: 0 <= i < |r| ==> r[i] == t[i];
  }

  /** The pool has room for n links: it parses and has at least 2n usable hosts. */
  predicate LinksFit(n: nat, pool: Option<Network>)
    requires ValidPool(pool)
  {
    pool.Some? && 2 * n <= HostCount(pool.value)
  }

  /**
   * allocate_p2p_links: link k gets hosts 2k and 2k+1 of the pool. When the
   * pool does not parse, or has too few hosts for all n links (the
   * IndexError of the source), every link gets the fallback pair instead.
   */
  function AllocateP2PLinks(n: nat, pool: Option<Network>): (r: seq<(string, string)>)
    requires ValidPool(pool)
    ensures |r| == n
  {
    if LinksFit(n, pool) then
      var texts := HostTexts(pool.value);
      seq(n, k requires 0 <= k < n => (texts[2 * k], texts[2 * k + 1]))
    else
      seq(n, k => FallbackLink)
  }

  lemma LinkPair(n: nat, pool: Option<Network>, k: nat)
    requires ValidPool(pool) && LinksFit(n, pool) && k < n
    ensures AllocateP2PLinks(n, pool)[k] == (HostTexts(pool.value)[2 * k], HostTexts(pool.value)[2 * k + 1])
  {
    var texts := HostTexts(pool.value);
    var r := seq(n, k requires 0 <= k < n => (texts[2 * k], texts[2 * k + 1]));
    assert AllocateP2PLinks(n, pool) == r;
  }

  /**
   * All or nothing: either every link is the fallback pair, or link k
   * carries two adjacent hosts of the pool, the 2k-th and the next one.
   */
  lemma LinksAllOrNothing(n: nat, pool: Option<Network>)
    requires ValidPool(pool)
    ensures var r := AllocateP2PLinks(n, pool);
      if !LinksFit(n, pool) then forall k :: 0 <= k < n ==> r[k] == FallbackLink
      else
        var hosts := Hosts(pool.value);
        forall k :: 0 <= k < n ==>
          && pool.value.Contains(hosts[2 * k]) && pool.value.Contains(hosts[2 * k + 1])
          && hosts[2 * k + 1] == hosts[2 * k] + 1
          && r[k] == (Render(hosts[2 * k]), Render(hosts[2 * k + 1]))
  {
    if LinksFit(n, pool) {
      forall k | 0 <= k < n {
        LinkFromPool(n, pool, k);
      }
    }
  }

  /** Link k of a pool that fits: the pool's hosts 2k and 2k+1, adjacent and inside the pool. */
  lemma LinkFromPool(n: nat, pool: Option<Network>, k: nat)
    requires ValidPool(pool) && LinksFit(n, pool) && k < n
    ensures var hosts := Hosts(pool.value);
      && pool.value.Contains(hosts[2 * k]) && pool.value.Contains(hosts[2 * k + 1])
      && hosts[2 * k + 1] == hosts[2 * k] + 1
      && AllocateP2PLinks(n, pool)[k] == (Render(hosts[2 * k]), Render(hosts[2 * k + 1]))
  {
    HostsInNetwork(pool.value);
    LinkPair(n, pool, k);
    HostTextAt(pool.value, 2 * k);
    HostTextAt(pool.value, 2 * k + 1);
  }

  /**
   * Links drawn as consecutive pairs from a list of distinct texts share no
   * text, neither within a link nor between two links.
   */
  lemma PairsDisjoint(r: seq<(string, string)>, texts: seq<string>)
    requires 2 * |r| <= |texts|
    requires forall i, j :: 0 <= i < j < |texts| ==> texts[i] != texts[j]
    requires forall k :: 0 <= k < |r| ==> r[k] == (texts[2 * k], texts[2 * k + 1])
    ensures forall k :: 0 <= k < |r| ==> r[k].0 != r[k].1
    ensures forall j, k :: 0 <= j < k < |r| ==>
      r[j].0 != r[k].0 && r[j].0 != r[k].1 && r[j].1 != r[k].0 && r[j].1 != r[k].1
  {
    forall j, k | 0 <= j < k < |r|
      ensures r[j].0 != r[k].0 && r[j].0 != r[k].1 && r[j].1 != r[k].0 && r[j].1 != r[k].1
    {
      assert 2 * j + 1 < 2 * k;
    }
  }

  /** When the pool fits, no address is handed out twice among the 2n link addresses. */
  lemma LinksDistinct(n: nat, pool: Option<Network>)
    requires ValidPool(pool) && LinksFit(n, pool)
    ensures forall k :: 0 <= k < n ==> AllocateP2PLinks(n, pool)[k].0 != AllocateP2PLinks(n, pool)[k].1
    ensures forall j, k :: 0 <= j < k < n ==>
      && AllocateP2PLinks(n, pool)[j].0 != AllocateP2PLinks(n, pool)[k].0
      && AllocateP2PLinks(n, pool)[j].0 != AllocateP2PLinks(n, pool)[k].1
      && AllocateP2PLinks(n, pool)[j].1 != AllocateP2PLinks(n, pool)[k].0
      && AllocateP2PLinks(n, pool)[j].1 != AllocateP2PLinks(n, pool)[k].1
  {
    var r, texts := AllocateP2PLinks(n, pool), HostTexts(pool.value);
    HostTextsDistinct(pool.value);
    forall k | 0 <= k < n
      ensures r[k] == (texts[2 * k], texts[2 * k + 1])
    {
      LinkPair(n, pool, k);
    }
    PairsDisjoint(r, texts);
  }

  /** The degraded path reuses one address pair for every link. */
  lemma FallbackLinksCollide(n: nat, pool: Option<Network>, j: nat, k: nat)
    requires ValidPool(pool) && !LinksFit(n, pool) && j < k < n
    ensures AllocateP2PLinks(n, pool)[j] == AllocateP2PLinks(n, pool)[k]
  {
  }
}
