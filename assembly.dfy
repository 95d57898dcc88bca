/**
 * Fabric assembly: the body of the generator's run, taken out of the UI
 * handler. It builds the router records, walks the topology in order to
 * give every link end an interface (named from a per-router counter) and
 * the link's addresses, records one connection entry per link, and renders
 * one configuration per router, keyed by hostname.
 */
module Assembly {
  import opened Wrappers
  import opened Text
  import opened Ipv4
  import opened Allocator
  import opened TopologyBuilder
  import opened Records
  import opened ConfigGen

  /** Interface-name prefix of the run: "Gi0/" for Cisco, "ge-0/0/" otherwise. */
  function IfacePrefix(vendor: string): string {
    if vendor == Cisco then "Gi0/" else "ge-0/0/"
  }

  /** Mask text of every link interface: the /31 in dotted or prefix-length form. */
  function Mask(vendor: string): string {
    if vendor == Cisco then "255.255.255.254" else "31"
  }

  /** Router i is a core router exactly when i < numP. */
  function KindAt(numP: nat, i: nat): RouterType {
    if i < numP then P else PE
  }

  /** The record of router i: its type, the hostname drawn for it, the i-th loopback and index i. */
  function RouterAt(numP: nat, i: nat, draws: seq<Draw>, loopbacks: seq<string>): Router
    requires i < |draws| && i < |loopbacks|
  {
    Router(KindAt(numP, i), Hostname(KindAt(numP, i), draws[i]), loopbacks[i], i)
  }

  /**
   * The interfaces router v holds after the first |t| links: each link
   * touching v adds one binding per end at v, named from the number of link
   * ends v had before that link and carrying that end's address.
   */
  function BindingsOf(t: seq<Link>, links: seq<(string, string)>, v: nat, prefix: string, mask: string): seq<Binding>
    requires |t| <= |links|
  {
    if t == [] then []
    else
      var k := |t| - 1;
      var n := Degree(t[..k], v);
      BindingsOf(t[..k], links, v, prefix, mask)
        + (if t[k].0 == v then [Binding(prefix + Dec(n), links[k].0, mask)] else [])
        + (if t[k].1 == v then [Binding(prefix + Dec(n), links[k].1, mask)] else [])
  }

  /** The connection entry of link k: its two routers and the interface name given at each end. */
  function ConnectionAt(t: seq<Link>, k: nat, prefix: string): Connection
    requires k < |t|
  {
    Connection(t[k].0, t[k].1, prefix + Dec(Degree(t[..k], t[k].0)), prefix + Dec(Degree(t[..k], t[k].1)))
  }

  lemma DegreeStep(t: seq<Link>, k: nat, v: nat)
    requires k < |t|
    ensures Degree(t[..k + 1], v) == Degree(t[..k], v) + (if t[k].0 == v then 1 else 0) + (if t[k].1 == v then 1 else 0)
  {
    assert t[..k + 1][..k] == t[..k];
  }

  lemma BindingsStep(t: seq<Link>, links: seq<(string, string)>, k: nat, v: nat, prefix: string, mask: string)
    requires k < |t| <= |links|
    ensures BindingsOf(t[..k + 1], links, v, prefix, mask)
         == BindingsOf(t[..k], links, v, prefix, mask)
            + (if t[k].0 == v then [Binding(prefix + Dec(Degree(t[..k], v)), links[k].0, mask)] else [])
            + (if t[k].1 == v then [Binding(prefix + Dec(Degree(t[..k], v)), links[k].1, mask)] else [])
  {
    assert t[..k + 1][..k] == t[..k];
  }

  /**
   * Router i is of type P exactly when i < numP, has index i and the i-th
   * loopback, and its hostname is its type, a dash, and the drawn letters
   * and digits.
   */
  lemma RouterRecord(numP: nat, i: nat, draws: seq<Draw>, loopbacks: seq<string>)
    requires i < |draws| && i < |loopbacks| && draws[i].Valid()
    ensures var r := RouterAt(numP, i, draws, loopbacks);
      && (r.kind == P <==> i < numP)
      && r.index == i && r.loopback == loopbacks[i]
      && |r.hostname| == |r.kind.Name()| + 5
      && r.hostname[..|r.kind.Name()| + 1] == r.kind.Name() + "-"
      && NoNewline(r.hostname)
  {
    HostnameShape(KindAt(numP, i), draws[i]);
  }

  /** The router list: the numP core routers, then the numPE edge routers, each with its draw and loopback. */
  method BuildRouters(numP: nat, numPE: nat, draws: seq<Draw>, loopbacks: seq<string>) returns (routers: seq<Router>)
    requires |draws| == numP + numPE && |loopbacks| >= numP + numPE
    ensures |routers| == numP + numPE
    ensures forall i :: 0 <= i < |routers| ==> routers[i] == RouterAt(numP, i, draws, loopbacks)
  {
    routers := [];
    for i := 0 to numP
      invariant |routers| == i
      invariant forall j :: 0 <= j < i ==> routers[j] == RouterAt(numP, j, draws, loopbacks)
    {
      routers := routers + [Router(P, Hostname(P, draws[i]), loopbacks[i], i)];
    }
    for i := 0 to numPE
      invariant |routers| == numP + i
      invariant forall j :: 0 <= j < numP + i ==> routers[j] == RouterAt(numP, j, draws, loopbacks)
    {
      routers := routers + [Router(PE, Hostname(PE, draws[numP + i]), loopbacks[numP + i], numP + i)];
    }
  }

  /** An empty interface list and a zero interface counter for each of the total routers. */
  method EmptyTables(total: nat) returns (interfaces: map<nat, seq<Binding>>, counters: map<nat, nat>)
    ensures forall v: nat :: v in interfaces <==> v < total
    ensures forall v: nat :: v in counters <==> v < total
    ensures forall v: nat :: v in interfaces ==> interfaces[v] == []
    ensures forall v: nat :: v in counters ==> counters[v] == 0
  {
    interfaces := map[];
    counters := map[];
    for v := 0 to total
      invariant forall u: nat :: u in interfaces <==> u < v
      invariant forall u: nat :: u in counters <==> u < v
      invariant forall u: nat :: u in interfaces ==> interfaces[u] == []
      invariant forall u: nat :: u in counters ==> counters[u] == 0
    {
      interfaces := interfaces[v := []];
      counters := counters[v := 0];
    }
  }

  /** One link of the pass keeps the interface lists and counters in step with the links seen so far. */
  lemma WireStep(t: seq<Link>, links: seq<(string, string)>, idx: nat, prefix: string, mask: string, total: nat,
                 interfaces: map<nat, seq<Binding>>, counters: map<nat, nat>,
                 interfaces': map<nat, seq<Binding>>, counters': map<nat, nat>)
    requires idx < |t| <= |links| && t[idx].0 < total && t[idx].1 < total
    requires forall v: nat :: v in interfaces <==> v < total
    requires forall v: nat :: v in counters <==> v < total
    requires forall v: nat :: v in interfaces ==> interfaces[v] == BindingsOf(t[..idx], links, v, prefix, mask)
    requires forall v: nat :: v in counters ==> counters[v] == Degree(t[..idx], v)
    requires var a, b := t[idx].0, t[idx].1;
      var mid := interfaces[a := interfaces[a] + [Binding(prefix + Dec(counters[a]), links[idx].0, mask)]];
      interfaces' == mid[b := mid[b] + [Binding(prefix + Dec(counters[b]), links[idx].1, mask)]]
    requires var a, b := t[idx].0, t[idx].1;
      var mid := counters[a := counters[a] + 1];
      counters' == mid[b := mid[b] + 1]
    ensures forall v: nat :: v in interfaces' <==> v < total
    ensures forall v: nat :: v in counters' <==> v < total
    ensures forall v: nat :: v in interfaces' ==> interfaces'[v] == BindingsOf(t[..idx + 1], links, v, prefix, mask)
    ensures forall v: nat :: v in counters' ==> counters'[v] == Degree(t[..idx + 1], v)
  {
    forall v: nat | v in interfaces'
      ensures interfaces'[v] == BindingsOf(t[..idx + 1], links, v, prefix, mask)
    {
      BindingsStep(t, links, idx, v, prefix, mask);
    }
    forall v: nat | v in counters'
      ensures counters'[v] == Degree(t[..idx + 1], v)
    {
      DegreeStep(t, idx, v);
    }
  }

  /**
   * The pass over the topology: an empty interface list and a zero counter
   * per router, then for link k a binding at each end, using the link's
   * k-th address pair and the current value of each end's counter, the
   * connection entry, and then both counters advanced.
   */
  method WireLinks(total: nat, topology: seq<Link>, links: seq<(string, string)>, prefix: string, mask: string)
    returns (interfaces: map<nat, seq<Binding>>, connections: seq<Connection>)
    requires |links| >= |topology|
    requires forall k :: 0 <= k < |topology| ==> topology[k].0 < total && topology[k].1 < total
    ensures forall v: nat :: v in interfaces <==> v < total
    ensures forall v: nat :: v in interfaces ==> interfaces[v] == BindingsOf(topology, links, v, prefix, mask)
    ensures |connections| == |topology|
    ensures forall k :: 0 <= k < |topology| ==> connections[k] == ConnectionAt(topology, k, prefix)
  {
    var counters: map<nat, nat>;
    interfaces, counters := EmptyTables(total);
    connections := [];
    for idx := 0 to |topology|
      invariant forall v: nat :: v in interfaces <==> v < total
      invariant forall v: nat :: v in counters <==> v < total
      invariant forall v: nat :: v in interfaces ==> interfaces[v] == BindingsOf(topology[..idx], links, v, prefix, mask)
      invariant forall v: nat :: v in counters ==> counters[v] == Degree(topology[..idx], v)
      invariant |connections| == idx
      invariant forall k :: 0 <= k < idx ==> connections[k] == ConnectionAt(topology, k, prefix)
    {
      var a, b := topology[idx].0, topology[idx].1;
      var ipA, ipB := links[idx].0, links[idx].1;
      var nameA := prefix + Dec(counters[a]);
      var nameB := prefix + Dec(counters[b]);
      assert Connection(a, b, nameA, nameB) == ConnectionAt(topology, idx, prefix) by {
        assert counters[a] == Degree(topology[..idx], a) && counters[b] == Degree(topology[..idx], b);
      }
      var interfaces': map<nat, seq<Binding>> := interfaces[a := interfaces[a] + [Binding(nameA, ipA, mask)]];
      interfaces' := interfaces'[b := interfaces'[b] + [Binding(nameB, ipB, mask)]];
      var counters': map<nat, nat> := counters[a := counters[a] + 1];
      counters' := counters'[b := counters'[b] + 1];
      WireStep(topology, links, idx, prefix, mask, total, interfaces, counters, interfaces', counters');
      interfaces, counters := interfaces', counters';
      connections := connections + [Connection(a, b, nameA, nameB)];
    }
    assert topology[..|topology|] == topology;
  }

  /**
   * The assembly block of a run: the router records, then the pass over
   * the topology with the interface prefix and mask chosen once from the
   * vendor.
   */
  method Assemble(numP: nat, numPE: nat, draws: seq<Draw>, loopbacks: seq<string>,
                  topology: seq<Link>, links: seq<(string, string)>, vendor: string)
    returns (routers: seq<Router>, interfaces: map<nat, seq<Binding>>, connections: seq<Connection>)
    requires |draws| == numP + numPE && |loopbacks| >= numP + numPE
    requires |links| >= |topology|
    requires forall k :: 0 <= k < |topology| ==> topology[k].0 < numP + numPE && topology[k].1 < numP + numPE
    ensures |routers| == numP + numPE
    ensures forall i :: 0 <= i < |routers| ==> routers[i] == RouterAt(numP, i, draws, loopbacks)
    ensures forall v: nat :: v in interfaces <==> v < numP + numPE
    ensures forall v: nat :: v in interfaces ==>
      interfaces[v] == BindingsOf(topology, links, v, IfacePrefix(vendor), Mask(vendor))
    ensures |connections| == |topology|
    ensures forall k :: 0 <= k < |topology| ==> connections[k] == ConnectionAt(topology, k, IfacePrefix(vendor))
  {
    routers := BuildRouters(numP, numPE, draws, loopbacks);
    var prefix := IfacePrefix(vendor);
    var mask := Mask(vendor);
    interfaces, connections := WireLinks(numP + numPE, topology, links, prefix, mask);
  }

  /** The configurations keyed by hostname, built router by router; a later router overwrites an earlier one of the same name. */
  function ConfigsOf(routers: seq<Router>, interfaces: map<nat, seq<Binding>>, vendor: string): map<string, string>
    requires forall i :: 0 <= i < |routers| ==> routers[i].index in interfaces
  {
    if routers == [] then map[]
    else
      var last := routers[|routers| - 1];
      ConfigsOf(routers[..|routers| - 1], interfaces, vendor)[last.hostname := Config(last, interfaces[last.index], vendor)]
  }

  /** The hostname-keyed dictionary of rendered configurations, filled in router order. */
  method RenderAll(routers: seq<Router>, interfaces: map<nat, seq<Binding>>, vendor: string)
    returns (configs: map<string, string>)
    requires forall i :: 0 <= i < |routers| ==> routers[i].index in interfaces
    ensures configs == ConfigsOf(routers, interfaces, vendor)
  {
    configs := map[];
    for i := 0 to |routers|
      invariant configs == ConfigsOf(routers[..i], interfaces, vendor)
    {
      var r := routers[i];
      var conf := GenerateConfig(r, interfaces[r.index], vendor);
      assert routers[..i + 1][..i] == routers[..i];
      configs := configs[r.hostname := conf];
    }
    assert routers[..|routers|] == routers;
  }

  /**
   * One run of the generator, from the router counts, the parsed pools, the
   * hostname draws and the vendor to the routers, their interfaces, the
   * connection entries and the configurations. The loopback pool must hold
   * enough hosts for every router.
   */
  method Generate(numP: nat, numPE: nat, lpPool: Option<Network>, p2pPool: Option<Network>,
                  draws: seq<Draw>, vendor: string)
    returns (routers: seq<Router>, interfaces: map<nat, seq<Binding>>, connections: seq<Connection>,
             configs: map<string, string>)
    requires numPE > 0 ==> numP > 0
    requires ValidPool(lpPool) && ValidPool(p2pPool)
    requires |AllocateLoopbacks(numP + numPE, lpPool)| == numP + numPE
    requires |draws| == numP + numPE
    ensures |routers| == numP + numPE
    ensures forall i :: 0 <= i < |routers| ==>
      routers[i] == RouterAt(numP, i, draws, AllocateLoopbacks(numP + numPE, lpPool))
    ensures forall v: nat :: v in interfaces <==> v < numP + numPE
    ensures forall v: nat :: v in interfaces ==>
      interfaces[v] == BindingsOf(Topology(numP, numPE), AllocateP2PLinks(|Topology(numP, numPE)|, p2pPool),
                                  v, IfacePrefix(vendor), Mask(vendor))
    ensures |connections| == |Topology(numP, numPE)|
    ensures forall k :: 0 <= k < |connections| ==>
      connections[k] == ConnectionAt(Topology(numP, numPE), k, IfacePrefix(vendor))
    ensures forall i :: 0 <= i < |routers| ==> routers[i].index == i
    ensures configs == ConfigsOf(routers, interfaces, vendor)
  {
    var total := numP + numPE;
    var loopbacks := AllocateLoopbacks(total, lpPool);
    var topology := CreateTopology(numP, numPE);
    var links := AllocateP2PLinks(|topology|, p2pPool);
    TopologyEndpoints(numP, numPE);
    routers, interfaces, connections := Assemble(numP, numPE, draws, loopbacks, topology, links, vendor);
    configs := RenderAll(routers, interfaces, vendor);
  }

  /** A topology in which no link joins a router to itself. */
  predicate NoSelfLinks(t: seq<Link>) {
    forall k :: 0 <= k < |t| ==> t[k].0 != t[k].1
  }

  /** A router gets one interface per link end it holds: the counter equals its degree. */
  lemma {:induction false} BindingsLength(t: seq<Link>, links: seq<(string, string)>, v: nat, prefix: string, mask: string)
    requires |t| <= |links|
    ensures |BindingsOf(t, links, v, prefix, mask)| == Degree(t, v)
    decreases |t|
  {
    if t != [] {
      BindingsLength(t[..|t| - 1], links, v, prefix, mask);
    }
  }

  /**
   * Without self-links, a router's interfaces are named prefix + "0",
   * prefix + "1", ... in creation order, and all carry the run's mask.
   */
  lemma {:induction false} BindingNames(t: seq<Link>, links: seq<(string, string)>, v: nat, prefix: string, mask: string)
    requires |t| <= |links| && NoSelfLinks(t)
    ensures forall j :: 0 <= j < |BindingsOf(t, links, v, prefix, mask)| ==>
      BindingsOf(t, links, v, prefix, mask)[j].name == prefix + Dec(j)
      && BindingsOf(t, links, v, prefix, mask)[j].mask == mask
    decreases |t|
  {
    if t != [] {
      var k := |t| - 1;
      var front := BindingsOf(t[..k], links, v, prefix, mask);
      BindingNames(t[..k], links, v, prefix, mask);
      BindingsLength(t[..k], links, v, prefix, mask);
      var all := BindingsOf(t, links, v, prefix, mask);
      forall j | 0 <= j < |all|
        ensures all[j].name == prefix + Dec(j) && all[j].mask == mask
      {
        if j < |front| {
          assert all[j] == front[j];
        } else {
          assert j == |front| == Degree(t[..k], v);
        }
      }
    }
  }

  /** Without self-links, interface names are unique within each router. */
  lemma BindingNamesUnique(t: seq<Link>, links: seq<(string, string)>, v: nat, prefix: string, mask: string)
    requires |t| <= |links| && NoSelfLinks(t)
    ensures forall i, j :: 0 <= i < j < |BindingsOf(t, links, v, prefix, mask)| ==>
      BindingsOf(t, links, v, prefix, mask)[i].name != BindingsOf(t, links, v, prefix, mask)[j].name
  {
    var b := BindingsOf(t, links, v, prefix, mask);
    BindingNames(t, links, v, prefix, mask);
    forall i, j | 0 <= i < j < |b|
      ensures b[i].name != b[j].name
    {
      if b[i].name == b[j].name {
        PrefixedDecInjective(prefix, i, j);
      }
    }
  }

  /** Interfaces are only ever appended: those after m links are a prefix of the final ones. */
  lemma {:induction false} BindingsPrefix(t: seq<Link>, links: seq<(string, string)>, m: nat, v: nat, prefix: string, mask: string)
    requires m <= |t| <= |links|
    ensures var early := BindingsOf(t[..m], links, v, prefix, mask);
      |early| <= |BindingsOf(t, links, v, prefix, mask)|
      && BindingsOf(t, links, v, prefix, mask)[..|early|] == early
    decreases |t|
  {
    if m == |t| {
      assert t[..m] == t;
    } else {
      var t' := t[..|t| - 1];
      assert t'[..m] == t[..m];
      BindingsPrefix(t', links, m, v, prefix, mask);
    }
  }

  /**
   * Connection k agrees with the interface lists: its source router holds,
   * at position Degree(t[..k], source), an interface named as the entry's
   * source interface with the first address of the k-th pair, and its
   * target router likewise holds the target interface with the second address.
   */
  lemma ConnectionBindings(t: seq<Link>, links: seq<(string, string)>, k: nat, prefix: string, mask: string)
    requires k < |t| <= |links| && t[k].0 != t[k].1
    ensures var c := ConnectionAt(t, k, prefix);
      && Degree(t[..k], c.sourceIdx) < |BindingsOf(t, links, c.sourceIdx, prefix, mask)|
      && BindingsOf(t, links, c.sourceIdx, prefix, mask)[Degree(t[..k], c.sourceIdx)]
           == Binding(c.sourceIface, links[k].0, mask)
      && Degree(t[..k], c.targetIdx) < |BindingsOf(t, links, c.targetIdx, prefix, mask)|
      && BindingsOf(t, links, c.targetIdx, prefix, mask)[Degree(t[..k], c.targetIdx)]
           == Binding(c.targetIface, links[k].1, mask)
  {
    var a, b := t[k].0, t[k].1;
    BindingsStep(t, links, k, a, prefix, mask);
    BindingsStep(t, links, k, b, prefix, mask);
    BindingsLength(t[..k], links, a, prefix, mask);
    BindingsLength(t[..k], links, b, prefix, mask);
    BindingsPrefix(t, links, k + 1, a, prefix, mask);
    BindingsPrefix(t, links, k + 1, b, prefix, mask);
    var ea, eb := BindingsOf(t[..k + 1], links, a, prefix, mask), BindingsOf(t[..k + 1], links, b, prefix, mask);
    var fa, fb := BindingsOf(t, links, a, prefix, mask), BindingsOf(t, links, b, prefix, mask);
    assert fa[Degree(t[..k], a)] == fa[..|ea|][Degree(t[..k], a)] == ea[Degree(t[..k], a)];
    assert fb[Degree(t[..k], b)] == fb[..|eb|][Degree(t[..k], b)] == eb[Degree(t[..k], b)];
  }

  /**
   * In a generated fabric every router has as many interfaces as link ends,
   * named prefix + "0", prefix + "1", ..., and an edge router has exactly
   * one per core it is homed to.
   */
  lemma FabricInterfaces(numP: nat, numPE: nat, p2pPool: Option<Network>, vendor: string, v: nat)
    requires numPE > 0 ==> numP > 0
    requires ValidPool(p2pPool)
    ensures var t := Topology(numP, numPE);
      var b := BindingsOf(t, AllocateP2PLinks(|t|, p2pPool), v, IfacePrefix(vendor), Mask(vendor));
      && |b| == Degree(t, v)
      && (forall j :: 0 <= j < |b| ==> b[j].name == IfacePrefix(vendor) + Dec(j) && b[j].mask == Mask(vendor))
      && (numP <= v < numP + numPE ==> |b| == Homing(numP))
  {
    var t := Topology(numP, numPE);
    FabricBindings(numP, numPE, AllocateP2PLinks(|t|, p2pPool), IfacePrefix(vendor), Mask(vendor), v);
  }

  /** FabricInterfaces for any list of address pairs, one per link. */
  lemma FabricBindings(numP: nat, numPE: nat, links: seq<(string, string)>, prefix: string, mask: string, v: nat)
    requires numPE > 0 ==> numP > 0
    requires |links| == |Topology(numP, numPE)|
    ensures var t := Topology(numP, numPE);
      var b := BindingsOf(t, links, v, prefix, mask);
      && |b| == Degree(t, v)
      && (forall j :: 0 <= j < |b| ==> b[j].name == prefix + Dec(j) && b[j].mask == mask)
      && (numP <= v < numP + numPE ==> |b| == Homing(numP))
  {
    var t := Topology(numP, numPE);
    TopologyEndpoints(numP, numPE);
    BindingsLength(t, links, v, prefix, mask);
    BindingNames(t, links, v, prefix, mask);
    if numP <= v < numP + numPE {
      EdgeDegree(numP, numPE, v - numP);
    }
  }

  /**
   * With a pool that fits, the two ends of connection k carry the pool's
   * hosts 2k and 2k+1, so no two link interfaces share an address.
   */
  lemma LinkAddressesFromPool(t: seq<Link>, p2pPool: Option<Network>, prefix: string, mask: string, k: nat)
    requires ValidPool(p2pPool) && LinksFit(|t|, p2pPool)
    requires k < |t| && t[k].0 != t[k].1
    ensures var links := AllocateP2PLinks(|t|, p2pPool);
      var c := ConnectionAt(t, k, prefix);
      && Degree(t[..k], c.sourceIdx) < |BindingsOf(t, links, c.sourceIdx, prefix, mask)|
      && Degree(t[..k], c.targetIdx) < |BindingsOf(t, links, c.targetIdx, prefix, mask)|
      && BindingsOf(t, links, c.sourceIdx, prefix, mask)[Degree(t[..k], c.sourceIdx)]
           == Binding(c.sourceIface, Render(Hosts(p2pPool.value)[2 * k]), mask)
      && BindingsOf(t, links, c.targetIdx, prefix, mask)[Degree(t[..k], c.targetIdx)]
           == Binding(c.targetIface, Render(Hosts(p2pPool.value)[2 * k + 1]), mask)
  {
    LinkPair(|t|, p2pPool, k);
    HostTextAt(p2pPool.value, 2 * k);
    HostTextAt(p2pPool.value, 2 * k + 1);
    ConnectionBindings(t, AllocateP2PLinks(|t|, p2pPool), k, prefix, mask);
  }

  /** Hostnames of the routers are pairwise different. */
  predicate DistinctHostnames(routers: seq<Router>) {
    forall i, j :: 0 <= i < j < |routers| ==> routers[i].hostname != routers[j].hostname
  }

  /** The keys of a list of hostnames extended by one more. */
  lemma HostnameSetStep(routers: seq<Router>)
    requires routers != []
    ensures var n := |routers| - 1;
      (set i | 0 <= i < |routers| :: routers[i].hostname)
        == (set i | 0 <= i < n :: routers[..n][i].hostname) + {routers[n].hostname}
  {
    var n := |routers| - 1;
    var front := set i | 0 <= i < n :: routers[..n][i].hostname;
    var all := set i | 0 <= i < |routers| :: routers[i].hostname;
    forall h
      ensures h in all <==> h in front + {routers[n].hostname}
    {
      if h in all {
        var i :| 0 <= i < |routers| && routers[i].hostname == h;
        if i < n {
          assert routers[..n][i] == routers[i];
        }
      }
      if h in front {
        var i :| 0 <= i < n && routers[..n][i].hostname == h;
        assert routers[i].hostname == h;
      }
    }
  }

  /** The configuration dictionary has exactly the routers' hostnames as keys. */
  lemma {:induction false} ConfigsKeys(routers: seq<Router>, interfaces: map<nat, seq<Binding>>, vendor: string)
    requires forall i :: 0 <= i < |routers| ==> routers[i].index in interfaces
    ensures ConfigsOf(routers, interfaces, vendor).Keys == set i | 0 <= i < |routers| :: routers[i].hostname
    decreases |routers|
  {
    if routers != [] {
      ConfigsKeys(routers[..|routers| - 1], interfaces, vendor);
      HostnameSetStep(routers);
    }
  }

  /**
   * The dictionary entry of a hostname is the configuration of the last
   * router carrying it: an earlier router of the same name is overwritten.
   */
  lemma {:induction false} ConfigsLastWins(routers: seq<Router>, interfaces: map<nat, seq<Binding>>, vendor: string, i: nat)
    requires forall j :: 0 <= j < |routers| ==> routers[j].index in interfaces
    requires i < |routers|
    requires forall j :: i < j < |routers| ==> routers[j].hostname != routers[i].hostname
    ensures routers[i].hostname in ConfigsOf(routers, interfaces, vendor)
    ensures ConfigsOf(routers, interfaces, vendor)[routers[i].hostname]
         == Config(routers[i], interfaces[routers[i].index], vendor)
    decreases |routers|
  {
    var n := |routers| - 1;
    if i < n {
      ConfigsLastWins(routers[..n], interfaces, vendor, i);
    }
  }

  /**
   * The dictionary never has more entries than there are routers, and has
   * one per router exactly when the hostnames are distinct: a repeated draw
   * silently drops a configuration.
   */
  lemma {:induction false} ConfigsCount(routers: seq<Router>, interfaces: map<nat, seq<Binding>>, vendor: string)
    requires forall i :: 0 <= i < |routers| ==> routers[i].index in interfaces
    ensures |ConfigsOf(routers, interfaces, vendor).Keys| <= |routers|
    ensures |ConfigsOf(routers, interfaces, vendor).Keys| == |routers| <==> DistinctHostnames(routers)
  {
    ConfigsKeys(routers, interfaces, vendor);
    HostnameSetCount(routers);
  }

  /** The set of hostnames is no larger than the list, and as large exactly when the hostnames are distinct. */
  lemma {:induction false} HostnameSetCount(routers: seq<Router>)
    ensures |set i | 0 <= i < |routers| :: routers[i].hostname| <= |routers|
    ensures |set i | 0 <= i < |routers| :: routers[i].hostname| == |routers| <==> DistinctHostnames(routers)
    decreases |routers|
  {
    if routers != [] {
      var n := |routers| - 1;
      var init := routers[..n];
      var h := routers[n].hostname;
      HostnameSetCount(init);
      HostnameSetStep(routers);
      DistinctExtend(routers);
      var before := set i | 0 <= i < n :: init[i].hostname;
      if h in before {
        var i :| 0 <= i < n && init[i].hostname == h;
        assert routers[i].hostname == h;
      } else {
        forall i | 0 <= i < n
          ensures routers[i].hostname != h
        {
          assert init[i].hostname in before;
        }
      }
    }
  }

  /** A list has distinct hostnames exactly when its front has and the last name is new. */
  lemma DistinctExtend(routers: seq<Router>)
    requires routers != []
    ensures var n := |routers| - 1;
      DistinctHostnames(routers) <==>
        DistinctHostnames(routers[..n]) && forall i :: 0 <= i < n ==> routers[i].hostname != routers[n].hostname
  {
    var n := |routers| - 1;
    var init := routers[..n];
    if DistinctHostnames(init) && forall i :: 0 <= i < n ==> routers[i].hostname != routers[n].hostname {
      forall i, j | 0 <= i < j <= n
        ensures routers[i].hostname != routers[j].hostname
      {
        if j < n {
          assert routers[i] == init[i] && routers[j] == init[j];
        }
      }
    }
  }

  /** Core and edge routers never share a hostname, so only a repeated draw within one type can drop a configuration. */
  lemma GeneratedHostnames(numP: nat, numPE: nat, draws: seq<Draw>, loopbacks: seq<string>, i: nat, j: nat)
    requires |draws| == numP + numPE <= |loopbacks|
    requires forall k :: 0 <= k < |draws| ==> draws[k].Valid()
    requires i < j < numP + numPE
    ensures RouterAt(numP, i, draws, loopbacks).hostname == RouterAt(numP, j, draws, loopbacks).hostname
        <==> KindAt(numP, i) == KindAt(numP, j) && draws[i] == draws[j]
  {
    HostnameCollision(KindAt(numP, i), draws[i], KindAt(numP, j), draws[j]);
  }
}
