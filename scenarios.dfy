/**
 * Small concrete plans and the snapshots they force: a chain, parallel edges
 * and a cycle, and the leaf that GetLeaves does not report.
 */
module Scenarios {
  import opened PlanModel
  import opened Networks
  import opened RefTraversal
  import opened TraversalProperties

  /** R1 has one member with one quantifier over R2; R2's member has none. */
  const Chain: Plan := map[1 := [Expression([Quantifier(2)])], 2 := [Expression([])]]

  /** R1 has one member with two quantifiers, both over R2. */
  const Parallel: Plan := map[1 := [Expression([Quantifier(2), Quantifier(2)])], 2 := [Expression([])]]

  /** R1 consumes itself and R2, and R2 consumes R1. */
  const Cycle: Plan := map[1 := [Expression([Quantifier(1), Quantifier(2)])], 2 := [Expression([Quantifier(1)])]]

  lemma ChainNodes(net: Network)
    requires BuiltFrom(Chain, 1, net)
    ensures net.nodes == {1, 2}
  {
    assert Consumes(Chain, 1, 2) by { assert RangesOver(Chain, 1, 0, 0) == 2; }
    ReachesSelf(Chain, 2);
    ReachesPrepend(Chain, 1, 2, 2);
    ReachesSelf(Chain, 1);
    forall n | n in net.nodes
      ensures n in {1, 2}
    {
      ReachesWithin(Chain, 1, n, {1, 2});
    }
  }

  lemma ChainSnapshot(net: Network)
    requires BuiltFrom(Chain, 1, net)
    ensures net.nodes == {1, 2}
    ensures net.edges == [Edge(2, 1, RefPath(0, 0))]
    ensures ParentSet(net, 2) == {1} && ParentSet(net, 1) == {}
    ensures ExpressionRefTraversal(1, net).IntendedLeaves() == {2}
  {
    ChainNodes(net);
    var e := Edge(2, 1, RefPath(0, 0));
    assert EdgeFits(Chain, e);
    assert (set x | x in net.edges) == {e};
    DistinctCount(net.edges);
    assert net.edges[0] in net.edges;
    assert ParentSet(net, 2) == {1};
  }

  lemma ParallelSnapshot(net: Network)
    requires BuiltFrom(Parallel, 1, net)
    ensures net.nodes == {1, 2}
    ensures Edge(2, 1, RefPath(0, 0)) in net.edges && Edge(2, 1, RefPath(0, 1)) in net.edges
    ensures |net.edges| == 2
    ensures ParentSet(net, 2) == {1}
  {
    assert Consumes(Parallel, 1, 2) by { assert RangesOver(Parallel, 1, 0, 0) == 2; }
    ReachesSelf(Parallel, 2);
    ReachesPrepend(Parallel, 1, 2, 2);
    ReachesSelf(Parallel, 1);
    forall n | n in net.nodes
      ensures n in {1, 2}
    {
      ReachesWithin(Parallel, 1, n, {1, 2});
    }
    var e0, e1 := Edge(2, 1, RefPath(0, 0)), Edge(2, 1, RefPath(0, 1));
    assert EdgeFits(Parallel, e0) && EdgeFits(Parallel, e1);
    assert (set e | e in net.edges) == {e0, e1};
    DistinctCount(net.edges);
    assert ParentSet(net, 2) == {1};
  }

  lemma CycleNodes(net: Network)
    requires BuiltFrom(Cycle, 2, net)
    ensures net.nodes == {1, 2}
  {
    assert Consumes(Cycle, 2, 1) by { assert RangesOver(Cycle, 2, 0, 0) == 1; }
    ReachesSelf(Cycle, 1);
    ReachesPrepend(Cycle, 2, 1, 1);
    ReachesSelf(Cycle, 2);
    forall n | n in net.nodes
      ensures n in {1, 2}
    {
      ReachesWithin(Cycle, 2, n, {1, 2});
    }
  }

  /** The only edges that fit the cycle plan. */
  lemma CycleFits(e: Edge)
    requires EdgeFits(Cycle, e)
    ensures e in {Edge(1, 1, RefPath(0, 0)), Edge(2, 1, RefPath(0, 1)), Edge(1, 2, RefPath(0, 0))}
  {
  }

  lemma CycleEdges(net: Network)
    requires BuiltFrom(Cycle, 2, net)
    ensures (set e | e in net.edges) == {Edge(1, 1, RefPath(0, 0)), Edge(2, 1, RefPath(0, 1)), Edge(1, 2, RefPath(0, 0))}
    ensures |net.edges| == 3
  {
    CycleNodes(net);
    var e0, e1, e2 := Edge(1, 1, RefPath(0, 0)), Edge(2, 1, RefPath(0, 1)), Edge(1, 2, RefPath(0, 0));
    assert EdgeFits(Cycle, e0) && EdgeFits(Cycle, e1) && EdgeFits(Cycle, e2);
    forall e | e in net.edges
      ensures e in {e0, e1, e2}
    {
      CycleFits(e);
    }
    assert (set e | e in net.edges) == {e0, e1, e2};
    DistinctCount(net.edges);
  }

  lemma CycleSnapshot(net: Network)
    requires BuiltFrom(Cycle, 2, net)
    ensures net.nodes == {1, 2}
    ensures |net.edges| == 3
    ensures ParentSet(net, 1) == {1, 2} && ParentSet(net, 2) == {1}
    ensures ExpressionRefTraversal(2, net).IntendedLeaves() == {}
  {
    CycleNodes(net);
    CycleEdges(net);
    var e0, e1, e2 := Edge(1, 1, RefPath(0, 0)), Edge(2, 1, RefPath(0, 1)), Edge(1, 2, RefPath(0, 0));
    assert e0 in net.edges && e1 in net.edges && e2 in net.edges;
    forall e | e in net.edges
      ensures e == e0 || e == e1 || e == e2
    {
      assert e in (set x | x in net.edges);
    }
    assert ParentSet(net, 1) == {1, 2};
    assert ParentSet(net, 2) == {1};
  }

  /** GetLeaves as written reports nothing, although R2 of the chain is a leaf. */
  lemma GetLeavesMissesLeaf(net: Network)
    requires BuiltFrom(Chain, 1, net)
    ensures 2 in ExpressionRefTraversal(1, net).IntendedLeaves()
    ensures ExpressionRefTraversal(1, net).GetLeaves() == []
  {
    ChainSnapshot(net);
  }
}
