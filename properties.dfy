/**
 * What a snapshot built by WithRoot satisfies, and what the traversal view
 * answers over it.
 */
module TraversalProperties {
  import opened PlanModel
  import opened Networks
  import opened RefTraversal

  /** Every node of the snapshot is a reference of the plan. */
  lemma NodesAreReferences(plan: Plan, root: RefId, net: Network, n: RefId)
    requires Closed(plan) && root in plan && BuiltFrom(plan, root, net)
    requires n in net.nodes
    ensures n in plan
  {
    var p :| IsPath(plan, p) && p[0] == root && p[|p| - 1] == n;
    if |p| > 1 {
      var k := |p| - 2;
      assert Consumes(plan, p[k], p[k + 1]);
      var i: nat, j: nat :| IsSlot(plan, p[k], i, j) && RangesOver(plan, p[k], i, j) == n;
    }
  }

  /** The root is always a node, so its view can be asked for its parents. */
  lemma RootIsNode(plan: Plan, t: ExpressionRefTraversal)
    requires BuiltFrom(plan, t.rootRef, t.network)
    ensures t.GetRoot().delegate in t.network.nodes
  {
    ReachesSelf(plan, t.rootRef);
  }

  /** Both endpoints of every edge are nodes of the snapshot. */
  lemma EdgeEndpointsAreNodes(plan: Plan, root: RefId, net: Network)
    requires BuiltFrom(plan, root, net)
    ensures WellFormed(net.nodes, net.edges)
  {
    forall e | e in net.edges
      ensures e.source in net.nodes
    {
      assert Consumes(plan, e.target, e.source);
      ReachesAppend(plan, root, e.target, e.source);
    }
  }

  lemma QuantifierEdgesMembers(plan: Plan, s: set<RefId>, e: Edge)
    ensures e in QuantifierEdges(plan, s) <==> EdgeFits(plan, e) && e.target in s
  {
    if EdgeFits(plan, e) && e.target in s {
      assert e == QuantifierEdge(plan, e.target, e.path.expression, e.path.quantifier);
    }
  }

  /** Distinct quantifier positions induce distinct edges. */
  lemma QuantifierEdgeInjective(plan: Plan, r1: RefId, i1: nat, j1: nat, r2: RefId, i2: nat, j2: nat)
    requires IsSlot(plan, r1, i1, j1) && IsSlot(plan, r2, i2, j2)
    requires QuantifierEdge(plan, r1, i1, j1) == QuantifierEdge(plan, r2, i2, j2)
    ensures (r1, i1, j1) == (r2, i2, j2)
  {
  }

  /** A set of edges no two of which record the same position has as many positions as edges. */
  lemma {:induction false} PositionCount(es: set<Edge>)
    requires forall e1, e2 :: e1 in es && e2 in es && PositionOf(e1) == PositionOf(e2) ==> e1 == e2
    ensures |set e | e in es :: PositionOf(e)| == |es|
    decreases es
  {
    if es != {} {
      var x :| x in es;
      var rest := es - {x};
      PositionCount(rest);
      assert (set e | e in es :: PositionOf(e)) == (set e | e in rest :: PositionOf(e)) + {PositionOf(x)};
      assert PositionOf(x) !in (set e | e in rest :: PositionOf(e));
    }
  }

  /** The quantifier edges of s record exactly the quantifier positions of s, one each. */
  lemma QuantifierEdgesCount(plan: Plan, s: set<RefId>)
    ensures |QuantifierEdges(plan, s)| == |QuantifierPositions(plan, s)|
  {
    var es := QuantifierEdges(plan, s);
    forall e1, e2 | e1 in es && e2 in es && PositionOf(e1) == PositionOf(e2)
      ensures e1 == e2
    {
      QuantifierEdgesMembers(plan, s, e1);
      QuantifierEdgesMembers(plan, s, e2);
    }
    PositionCount(es);
    forall q
      ensures q in QuantifierPositions(plan, s) <==> q in (set e | e in es :: PositionOf(e))
    {
      if q in QuantifierPositions(plan, s) {
        var e := QuantifierEdge(plan, q.0, q.1, q.2);
        assert e in es && PositionOf(e) == q;
      }
      if q in (set e | e in es :: PositionOf(e)) {
        var e :| e in es && PositionOf(e) == q;
        QuantifierEdgesMembers(plan, s, e);
      }
    }
    assert QuantifierPositions(plan, s) == (set e | e in es :: PositionOf(e));
  }

  /**
   * The edges are exactly one per (node, member expression, quantifier): as a
   * set they are the quantifier edges of the nodes, and there are as many
   * edges as there are such quantifier positions.
   */
  lemma EdgeCount(plan: Plan, root: RefId, net: Network)
    requires BuiltFrom(plan, root, net)
    ensures (set e | e in net.edges) == QuantifierEdges(plan, net.nodes)
    ensures |net.edges| == |QuantifierPositions(plan, net.nodes)|
  {
    forall e
      ensures e in net.edges <==> e in QuantifierEdges(plan, net.nodes)
    {
      QuantifierEdgesMembers(plan, net.nodes, e);
    }
    DistinctCount(net.edges);
    QuantifierEdgesCount(plan, net.nodes);
  }

  /** Apart from the order of its edges, the snapshot built from a root is determined. */
  lemma SnapshotDetermined(plan: Plan, root: RefId, net1: Network, net2: Network)
    requires BuiltFrom(plan, root, net1) && BuiltFrom(plan, root, net2)
    ensures net1.nodes == net2.nodes
    ensures (set e | e in net1.edges) == (set e | e in net2.edges)
    ensures |net1.edges| == |net2.edges|
  {
    assert net1.nodes == net2.nodes;
    EdgeCount(plan, root, net1);
    EdgeCount(plan, root, net2);
  }

  /**
   * p is a parent of c exactly when p is a node and some member expression of p
   * has a quantifier ranging over c.
   */
  lemma ParentsAreConsumers(plan: Plan, root: RefId, net: Network, c: RefId, p: RefId)
    requires BuiltFrom(plan, root, net)
    ensures p in ParentSet(net, c) <==> p in net.nodes && Consumes(plan, p, c)
  {
    if p in ParentSet(net, c) {
      var e :| e in net.edges && e.source == c && e.target == p;
      assert Consumes(plan, p, c);
    }
    if p in net.nodes && Consumes(plan, p, c) {
      var i: nat, j: nat :| IsSlot(plan, p, i, j) && RangesOver(plan, p, i, j) == c;
      assert QuantifierEdge(plan, p, i, j) in net.edges;
    }
  }

  /** The root has no parents unless some node consumes it. */
  lemma RootParents(plan: Plan, t: ExpressionRefTraversal)
    requires BuiltFrom(plan, t.rootRef, t.network)
    ensures ParentSet(t.network, t.rootRef) == {} <==>
            forall p :: p in t.network.nodes ==> !Consumes(plan, p, t.rootRef)
  {
    forall p
      ensures p in ParentSet(t.network, t.rootRef) <==> p in t.network.nodes && Consumes(plan, p, t.rootRef)
    {
      ParentsAreConsumers(plan, t.rootRef, t.network, t.rootRef, p);
    }
  }

  /** A reference that consumes itself has a self-loop and is its own parent. */
  lemma SelfLoop(plan: Plan, root: RefId, net: Network, x: RefId, i: nat, j: nat)
    requires BuiltFrom(plan, root, net)
    requires x in net.nodes && IsSlot(plan, x, i, j) && RangesOver(plan, x, i, j) == x
    ensures Edge(x, x, RefPath(i, j)) in net.edges
    ensures x in ParentSet(net, x)
  {
  }

  /**
   * Two quantifiers of p over the same c give two parallel edges c -> p, yet p
   * is a single entry of c's parents.
   */
  lemma ParallelEdges(plan: Plan, root: RefId, net: Network, p: RefId, c: RefId,
                      i1: nat, j1: nat, i2: nat, j2: nat)
    requires BuiltFrom(plan, root, net) && p in net.nodes
    requires IsSlot(plan, p, i1, j1) && RangesOver(plan, p, i1, j1) == c
    requires IsSlot(plan, p, i2, j2) && RangesOver(plan, p, i2, j2) == c
    requires (i1, j1) != (i2, j2)
    ensures Edge(c, p, RefPath(i1, j1)) in net.edges && Edge(c, p, RefPath(i2, j2)) in net.edges
    ensures Edge(c, p, RefPath(i1, j1)) != Edge(c, p, RefPath(i2, j2))
    ensures p in ParentSet(net, c)
  {
  }

  /** Some member expression of n has a quantifier. */
  ghost predicate HasQuantifier(plan: Plan, n: RefId) {
    exists i: nat, j: nat :: IsSlot(plan, n, i, j)
  }

  /** The intended leaves are the nodes whose member expressions have no quantifier. */
  lemma IntendedLeavesAreQuantifierFree(plan: Plan, t: ExpressionRefTraversal, n: RefId)
    requires BuiltFrom(plan, t.rootRef, t.network)
    ensures n in t.IntendedLeaves() <==> n in t.network.nodes && !HasQuantifier(plan, n)
  {
    if n in t.network.nodes && HasQuantifier(plan, n) {
      var i: nat, j: nat :| IsSlot(plan, n, i, j);
      assert QuantifierEdge(plan, n, i, j) in t.network.edges;
    }
    if n in t.network.nodes && n !in t.IntendedLeaves() {
      var e :| e in t.network.edges && e.target == n;
      assert IsSlot(plan, n, e.path.expression, e.path.quantifier);
    }
  }
}
