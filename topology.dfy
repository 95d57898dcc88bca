/**
 * The topology builder: a ring of core (P) routers 0 .. numP-1 and edge
 * (PE) routers numP .. numP+numPE-1, each edge router attached to one or
 * two core routers. A link is a pair of router indices.
 */
module TopologyBuilder {
  import opened Arith

  type Link = (nat, nat)

  /** Number of ring links: a full cycle when there are two or more cores, none otherwise. */
  function RingLength(numP: nat): nat {
    if numP > 1 then numP else 0
  }

  /** Attachments per edge router: two distinct cores when there are two or more, else one. */
  function Homing(numP: nat): nat {
    if numP > 1 then 2 else 1
  }

  function TopologyLength(numP: nat, numPE: nat): nat {
    RingLength(numP) + Homing(numP) * numPE
  }

  /**
   * The k-th link, in closed form: ring link k joins core k to its
   * successor; past the ring, edge router i owns the Homing(numP) links
   * from RingLength(numP) + Homing(numP) * i on, the first to core i mod numP
   * and the second to core (i + 1) mod numP.
   */
  function LinkAt(numP: nat, k: nat): Link
    requires numP > 0
  {
    if k < RingLength(numP) then (k, (k + 1) % numP)
    else
      var j := k - RingLength(numP);
      var i := j / Homing(numP);
      var core := if j % Homing(numP) == 0 then i % numP else (i + 1) % numP;
      (core, numP + i)
  }

  /** The whole topology, link by link; numP may be zero only when there are no edge routers. */
  function Topology(numP: nat, numPE: nat): (t: seq<Link>)
    requires numPE > 0 ==> numP > 0
    ensures |t| == TopologyLength(numP, numPE)
  {
    seq(TopologyLength(numP, numPE), k requires 0 <= k < TopologyLength(numP, numPE) => LinkAt(numP, k))
  }

  /**
   * create_topology: appends the ring links, then the attachments of each
   * edge router in turn. Division by zero for numP == 0 with edge routers
   * is excluded by the precondition.
   */
  method CreateTopology(numP: nat, numPE: nat) returns (connections: seq<Link>)
    requires numPE > 0 ==> numP > 0
    ensures connections == Topology(numP, numPE)
  {
    connections := [];
    if numP > 1 {
      for i := 0 to numP
        invariant |connections| == i
        invariant forall k :: 0 <= k < i ==> connections[k] == LinkAt(numP, k)
      {
        var nextP := (i + 1) % numP;
        connections := connections + [(i, nextP)];
      }
    }
    for i := 0 to numPE
      invariant |connections| == RingLength(numP) + Homing(numP) * i
      invariant forall k :: 0 <= k < |connections| ==> connections[k] == LinkAt(numP, k)
    {
      var peIdx := numP + i;
      var p1 := i % numP;
      var p2 := (i + 1) % numP;
      ghost var base := |connections|;
      connections := connections + [(p1, peIdx)];
      assert LinkAt(numP, base) == (p1, peIdx) by {
        assert (base - RingLength(numP)) / Homing(numP) == i;
      }
      if numP > 1 {
        connections := connections + [(p2, peIdx)];
        assert LinkAt(numP, base + 1) == (p2, peIdx) by {
          assert base + 1 - RingLength(numP) == 2 * i + 1;
        }
      }
    }
  }

  /**
   * The shape of the result: numP + 2 * numPE links with two or more cores,
   * numPE links with one; the first numP are the ring (i, (i+1) mod numP);
   * then each edge router's attachments in edge-router order.
   */
  lemma TopologyShape(numP: nat, numPE: nat)
    requires numPE > 0 ==> numP > 0
    ensures var t := Topology(numP, numPE);
      && |t| == (if numP > 1 then numP + 2 * numPE else numPE)
      && (numP > 1 ==> forall i :: 0 <= i < numP ==> t[i] == (i, (i + 1) % numP))
      && (numP > 1 ==> forall i :: 0 <= i < numPE ==>
            t[numP + 2 * i] == (i % numP, numP + i) && t[numP + 2 * i + 1] == ((i + 1) % numP, numP + i))
      && (numP == 1 ==> forall i :: 0 <= i < numPE ==> t[i] == (0, 1 + i))
  {
    var t := Topology(numP, numPE);
    if numP > 1 {
      forall i | 0 <= i < numPE
        ensures t[numP + 2 * i] == (i % numP, numP + i) && t[numP + 2 * i + 1] == ((i + 1) % numP, numP + i)
      {
        assert (2 * i) / 2 == i && (2 * i) % 2 == 0;
        assert (2 * i + 1) / 2 == i && (2 * i + 1) % 2 == 1;
      }
    }
  }

  /** Every link joins two different routers, both among the numP + numPE routers. */
  lemma TopologyEndpoints(numP: nat, numPE: nat)
    requires numPE > 0 ==> numP > 0
    ensures var t := Topology(numP, numPE);
      forall k :: 0 <= k < |t| ==> t[k].0 < numP + numPE && t[k].1 < numP + numPE && t[k].0 != t[k].1
  {
    var t := Topology(numP, numPE);
    forall k | 0 <= k < |t|
      ensures t[k].0 < numP + numPE && t[k].1 < numP + numPE && t[k].0 != t[k].1
    {
      if k >= RingLength(numP) {
        var j := k - RingLength(numP);
        assert j < Homing(numP) * numPE;
        assert j / Homing(numP) < numPE;
      }
    }
  }

  /** The successor of a core index on the ring wraps from numP - 1 to 0. */
  lemma SuccessorMod(i: nat, n: nat)
    requires n > 1
    ensures (i + 1) % n == if i % n == n - 1 then 0 else i % n + 1
  {
    var q, r := i / n, i % n;
    if r == n - 1 {
      DivModUnique(i + 1, n, q + 1, 0);
    } else {
      DivModUnique(i + 1, n, q, r + 1);
    }
  }

  /**
   * Edge router numP + i is attached to core i mod numP and, with two or
   * more cores, also to core (i + 1) mod numP; those two cores differ, so
   * the edge router is dual-homed.
   */
  lemma EdgeDualHomed(numP: nat, numPE: nat, i: nat)
    requires numP > 1 && i < numPE
    ensures var t := Topology(numP, numPE);
      && (i % numP, numP + i) in t
      && ((i + 1) % numP, numP + i) in t
      && i % numP != (i + 1) % numP
  {
    TopologyShape(numP, numPE);
    var t := Topology(numP, numPE);
    assert t[numP + 2 * i] == (i % numP, numP + i);
    assert t[numP + 2 * i + 1] == ((i + 1) % numP, numP + i);
    SuccessorMod(i, numP);
  }

  /**
   * The ring links form one cycle through all cores: ring link c leaves core
   * c for core c + 1, and the ring link before it (the last one, for core 0)
   * enters core c.
   */
  lemma RingIsCycle(numP: nat, numPE: nat, c: nat)
    requires numP > 1 && c < numP
    ensures var t := Topology(numP, numPE);
      var pred := if c == 0 then numP - 1 else c - 1;
      && t[c] == (c, if c == numP - 1 then 0 else c + 1)
      && t[pred] == (pred, c)
  {
    var pred := if c == 0 then numP - 1 else c - 1;
    SuccessorMod(c, numP);
    DivModUnique(c, numP, 0, c);
    SuccessorMod(pred, numP);
    DivModUnique(pred, numP, 0, pred);
  }

  /** create_topology(3, 2) = [(0,1), (1,2), (2,0), (0,3), (1,3), (1,4), (2,4)]. */
  lemma ThreeCoresTwoEdges()
    ensures Topology(3, 2) == [(0, 1), (1, 2), (2, 0), (0, 3), (1, 3), (1, 4), (2, 4)]
  {
    var t := Topology(3, 2);
    var expected := [(0, 1), (1, 2), (2, 0), (0, 3), (1, 3), (1, 4), (2, 4)];
    assert |t| == 7;
    forall k | 0 <= k < 7
      ensures t[k] == expected[k]
    {
      assert k in {0, 1, 2, 3, 4, 5, 6};
    }
  }

  /** Number of link ends at router v: each link touching v counts once per end. */
  function Degree(t: seq<Link>, v: nat): nat
  {
    if t == [] then 0
    else
      var last := t[|t| - 1];
      Degree(t[..|t| - 1], v) + (if last.0 == v then 1 else 0) + (if last.1 == v then 1 else 0)
  }

  /** Link k touches edge router numP + i exactly when it is one of that router's attachments. */
  lemma LinkTouchesEdge(numP: nat, k: nat, i: nat)
    requires numP > 0
    ensures var s := RingLength(numP) + Homing(numP) * i;
      && LinkAt(numP, k).0 != numP + i
      && (LinkAt(numP, k).1 == numP + i <==> s <= k < s + Homing(numP))
  {
    var h, s := Homing(numP), RingLength(numP) + Homing(numP) * i;
    if k >= RingLength(numP) {
      var j := k - RingLength(numP);
      if s <= k < s + h {
        DivModUnique(j, h, i, j - h * i);
      } else if k < s {
        MulMono(j / h + 1, i, h);
      } else {
        MulMono(i + 1, j / h, h);
      }
    }
  }

  /** The first m links hold min(max(m - s, 0), Homing(numP)) ends at edge router numP + i. */
  lemma {:induction false} EdgeDegreeUpTo(numP: nat, numPE: nat, i: nat, m: nat)
    requires numP > 0 && i < numPE && m <= TopologyLength(numP, numPE)
    ensures var s := RingLength(numP) + Homing(numP) * i;
      Degree(Topology(numP, numPE)[..m], numP + i) ==
        if m <= s then 0 else if m >= s + Homing(numP) then Homing(numP) else m - s
    decreases m
  {
    var t := Topology(numP, numPE);
    if m > 0 {
      assert t[..m][..m - 1] == t[..m - 1];
      EdgeDegreeUpTo(numP, numPE, i, m - 1);
      LinkTouchesEdge(numP, m - 1, i);
    }
  }

  /** Every edge router ends up with exactly Homing(numP) links: two with a ring, one with a single core. */
  lemma EdgeDegree(numP: nat, numPE: nat, i: nat)
    requires numP > 0 && i < numPE
    ensures Degree(Topology(numP, numPE), numP + i) == Homing(numP)
  {
    var t, h := Topology(numP, numPE), Homing(numP);
    assert RingLength(numP) + h * i + h <= |t| by {
      MulMono(i + 1, numPE, h);
    }
    EdgeDegreeUpTo(numP, numPE, i, |t|);
    assert t[..|t|] == t;
  }

  /** With a single core there is no ring and every edge router hangs off core 0. */
  lemma SingleCore(numPE: nat)
    ensures var t := Topology(1, numPE);
      |t| == numPE && forall i :: 0 <= i < numPE ==> t[i] == (0, 1 + i)
  {
  }

  /** With two cores the ring is two parallel links between cores 0 and 1. */
  lemma TwoCoreRing(numPE: nat)
    ensures var t := Topology(2, numPE);
      |t| >= 2 && t[0] == (0, 1) && t[1] == (1, 0)
  {
    var t := Topology(2, numPE);
    assert t[0] == LinkAt(2, 0) && t[1] == LinkAt(2, 1);
    assert 1 % 2 == 1 && 2 % 2 == 0;
  }
}
