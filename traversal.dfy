/**
 * A traversal over the references reachable from a root: a depth-first walk
 * builds a network whose edges point from a consumed reference to its
 * consumer, so that "who consumes me" can be answered by following out-edges.
 */
module RefTraversal {
  import opened PlanModel
  import opened Networks

  /** The edge that quantifier (i, j) of consumer r induces. */
  function QuantifierEdge(plan: Plan, r: RefId, i: nat, j: nat): Edge
    requires IsSlot(plan, r, i, j)
  {
    Edge(RangesOver(plan, r, i, j), r, RefPath(i, j))
  }

  /** e is the edge that some quantifier of its target induces. */
  ghost predicate EdgeFits(plan: Plan, e: Edge) {
    && IsSlot(plan, e.target, e.path.expression, e.path.quantifier)
    && e.source == RangesOver(plan, e.target, e.path.expression, e.path.quantifier)
  }

  /** One edge per (consumer in s, member expression, quantifier). */
  ghost function QuantifierEdges(plan: Plan, s: set<RefId>): set<Edge> {
    set r, i, j | r in s && r in plan && 0 <= i < |plan[r]| && 0 <= j < |plan[r][i].quantifiers|
      :: QuantifierEdge(plan, r, i, j)
  }

  /** The positions (consumer in s, member, quantifier): one per quantifier of each reference in s. */
  ghost function QuantifierPositions(plan: Plan, s: set<RefId>): set<(RefId, nat, nat)> {
    set r, i: nat, j: nat | r in s && r in plan && i < |plan[r]| && j < |plan[r][i].quantifiers| :: (r, i, j)
  }

  /** The position of the quantifier an edge records: its consumer and its label. */
  function PositionOf(e: Edge): (RefId, nat, nat) {
    (e.target, e.path.expression, e.path.quantifier)
  }

  /** Position (a, b) comes before position (i, j) in member-then-quantifier order. */
  predicate Before(a: nat, b: nat, i: nat, j: nat) {
    a < i || (a == i && b < j)
  }

  /**
   * What the snapshot built from root must be: the nodes are exactly the
   * references root reaches, and the edges are exactly one per quantifier of
   * every node, each held once.
   */
  ghost predicate BuiltFrom(plan: Plan, root: RefId, net: Network) {
    && (forall n :: n in net.nodes <==> Reaches(plan, root, n))
    && (forall e :: e in net.edges <==> EdgeFits(plan, e) && e.target in net.nodes)
    && Distinct(net.edges)
  }

  /** The targets of c's out-edges. */
  ghost function ParentSet(net: Network, c: RefId): set<RefId> {
    set e | e in net.edges && e.source == c :: e.target
  }

  datatype ExpressionRefDelegate = ExpressionRefDelegate(delegate: RefId)

  /** The immutable traversal object: the root and the frozen network. */
  datatype ExpressionRefTraversal = ExpressionRefTraversal(rootRef: RefId, network: Network) {

    /** A navigable view over the stored root. */
    function GetRoot(): (r: FullyTraversableRef)
      ensures r.traversal == this && r.delegate == rootRef
    {
      FullyTraversableRef(this, rootRef)
    }

    /** Wraps any reference; the network is not consulted. */
    function From(regularRef: RefId): (r: ExpressionRefDelegate)
      ensures r.delegate == regularRef
    {
      ExpressionRefDelegate(regularRef)
    }

    /** As written, the leaves are never computed. */
    function GetLeaves(): (leaves: seq<FullyTraversableRef>)
      ensures |leaves| == 0
    {
      []
    }

    /**
     * The leaves the class documentation advertises (not what GetLeaves does):
     * the nodes no edge enters, found by scanning the network.
     */
    function IntendedLeaves(): set<RefId> {
      set n | n in network.nodes && forall e :: e in network.edges ==> e.target != n
    }
  }

  /** A reference seen through a traversal, with navigation to its consumers. */
  datatype FullyTraversableRef = FullyTraversableRef(traversal: ExpressionRefTraversal, delegate: RefId) {

    /** The parents: one entry per distinct target of this reference's out-edges. */
    method GetParentRefs() returns (parents: set<RefId>)
      requires delegate in traversal.network.nodes
      ensures parents == ParentSet(traversal.network, delegate)
    {
      var refPaths := OutEdges(traversal.network.edges, delegate);
      parents := {};
      var k := 0;
      while k < |refPaths|
        invariant 0 <= k <= |refPaths|
        invariant forall p :: p in parents <==> exists l :: 0 <= l < k && refPaths[l].target == p
      {
        parents := parents + {refPaths[k].target};
        k := k + 1;
      }
      forall p
        ensures p in parents <==> p in ParentSet(traversal.network, delegate)
      {
        if p in ParentSet(traversal.network, delegate) {
          var e :| e in traversal.network.edges && e.source == delegate && e.target == p;
          assert e in refPaths;
          var l :| 0 <= l < |refPaths| && refPaths[l] == e;
        }
      }
    }
  }

  /**
   * The effect of expanding c on a network (nodes, edges) that becomes
   * (nodes', edges'): the network only grows and stays well formed, c is a node,
   * the new nodes are exactly the references c reaches without passing through
   * an old node, each new node has all its children among the nodes, and the
   * edges added are exactly the quantifier edges of the new nodes.
   */
  ghost predicate Collected(plan: Plan, c: RefId, nodes: set<RefId>, edges: seq<Edge>,
                            nodes': set<RefId>, edges': seq<Edge>)
  {
    && WellFormed(nodes', edges') && nodes' <= plan.Keys
    && nodes <= nodes' && c in nodes'
    && |edges| <= |edges'| && edges'[..|edges|] == edges
    && (forall n :: n in nodes' - nodes <==> ReachesAvoiding(plan, c, n, nodes))
    && (forall n :: n in nodes' - nodes ==> ChildrenIn(plan, n, nodes'))
    && (forall e :: e in edges'[|edges|..] <==> EdgeFits(plan, e) && e.target in nodes' - nodes)
  }

  /**
   * The state of expanding cur, which was not a node of (nodes0, edges0), once
   * every quantifier before position (i, j) has been handled.
   */
  ghost predicate Expanding(plan: Plan, cur: RefId, nodes0: set<RefId>, edges0: seq<Edge>,
                            nodes: set<RefId>, edges: seq<Edge>, i: nat, j: nat)
  {
    && WellFormed(nodes, edges)
    && nodes0 + {cur} <= nodes <= plan.Keys
    && |edges0| <= |edges| && edges[..|edges0|] == edges0
    && (forall n :: n in nodes - nodes0 - {cur} ==>
          ReachesAvoiding(plan, cur, n, nodes0) && ChildrenIn(plan, n, nodes))
    && (forall a: nat, b: nat :: IsSlot(plan, cur, a, b) && Before(a, b, i, j) ==>
          RangesOver(plan, cur, a, b) in nodes)
    && (forall e :: e in edges[|edges0|..] <==>
          EdgeFits(plan, e) &&
          (e.target in nodes - nodes0 - {cur} ||
           (e.target == cur && Before(e.path.expression, e.path.quantifier, i, j))))
  }

  /**
   * Depth-first expansion of currentRef into network. A reference that is
   * already a node is not expanded again; otherwise each child is expanded
   * before the edge from it to currentRef is added.
   */
  method CollectNetwork(plan: Plan, network: MutableNetwork, currentRef: RefId)
    requires Closed(plan) && currentRef in plan
    requires network.Valid() && network.nodes <= plan.Keys
    modifies network
    decreases |plan.Keys - network.nodes|
    ensures network.Valid()
    ensures Collected(plan, currentRef, old(network.nodes), old(network.edges), network.nodes, network.edges)
    ensures currentRef in old(network.nodes) ==>
              network.nodes == old(network.nodes) && network.edges == old(network.edges)
  {
    ghost var nodes0, edges0 := network.nodes, network.edges;
    var added := network.AddNode(currentRef);
    if !added {
      assert network.nodes == nodes0;
      assert network.edges[|edges0|..] == [];
      forall n | ReachesAvoiding(plan, currentRef, n, nodes0)
        ensures false
      {
        AvoidingStartsOutside(plan, currentRef, n, nodes0);
      }
      return;
    }
    ExpandStart(plan, currentRef, nodes0, edges0);
    var members := plan[currentRef];
    var i := 0;
    while i < |members|
      invariant 0 <= i <= |members| && network.Valid()
      invariant Expanding(plan, currentRef, nodes0, edges0, network.nodes, network.edges, i, 0)
    {
      var quantifiers := members[i].quantifiers;
      var j := 0;
      while j < |quantifiers|
        invariant 0 <= j <= |quantifiers| && network.Valid()
        invariant Expanding(plan, currentRef, nodes0, edges0, network.nodes, network.edges, i, j)
      {
        var rangesOverRef := quantifiers[j].rangesOver;
        assert IsSlot(plan, currentRef, i, j) && RangesOver(plan, currentRef, i, j) == rangesOverRef;
        ghost var nodes1, edges1 := network.nodes, network.edges;
        SmallerRemainder(plan.Keys, nodes0, nodes1, currentRef);
        CollectNetwork(plan, network, rangesOverRef);
        ExpandStep(plan, currentRef, nodes0, edges0, nodes1, edges1, network.nodes, network.edges, i, j);
        ghost var nodes2 := network.nodes;
        var _ := network.AddEdge(rangesOverRef, currentRef, RefPath(i, j));
        assert network.nodes == nodes2;
        j := j + 1;
      }
      NextMember(plan, currentRef, nodes0, edges0, network.nodes, network.edges, i);
      i := i + 1;
    }
    ExpandFinish(plan, currentRef, nodes0, edges0, network.nodes, network.edges);
  }

  /** Registering cur shrinks what is left to register: the measure of the recursion. */
  lemma SmallerRemainder(keys: set<RefId>, nodes0: set<RefId>, nodes1: set<RefId>, cur: RefId)
    requires cur in keys && cur !in nodes0 && nodes0 + {cur} <= nodes1
    ensures |keys - nodes1| < |keys - nodes0|
  {
    var rest := keys - nodes1;
    assert keys - nodes0 == rest + ((keys - nodes0) - rest);
    assert cur in (keys - nodes0) - rest;
  }

  lemma ExpandStart(plan: Plan, cur: RefId, nodes0: set<RefId>, edges0: seq<Edge>)
    requires WellFormed(nodes0, edges0) && cur !in nodes0 && nodes0 + {cur} <= plan.Keys
    ensures Expanding(plan, cur, nodes0, edges0, nodes0 + {cur}, edges0, 0, 0)
  {
  }

  /** Expanding child c = RangesOver(cur, i, j) and then adding the edge c -> cur. */
  lemma ExpandStep(plan: Plan, cur: RefId, nodes0: set<RefId>, edges0: seq<Edge>,
                   nodes1: set<RefId>, edges1: seq<Edge>, nodes2: set<RefId>, edges2: seq<Edge>,
                   i: nat, j: nat)
    requires WellFormed(nodes0, edges0) && cur !in nodes0
    requires Expanding(plan, cur, nodes0, edges0, nodes1, edges1, i, j)
    requires IsSlot(plan, cur, i, j)
    requires Collected(plan, RangesOver(plan, cur, i, j), nodes1, edges1, nodes2, edges2)
    ensures QuantifierEdge(plan, cur, i, j) !in edges2
    ensures {RangesOver(plan, cur, i, j), cur} <= nodes2
    ensures WellFormed(nodes2, edges2 + [QuantifierEdge(plan, cur, i, j)])
    ensures Expanding(plan, cur, nodes0, edges0, nodes2, edges2 + [QuantifierEdge(plan, cur, i, j)], i, j + 1)
  {
    var c := RangesOver(plan, cur, i, j);
    var e := QuantifierEdge(plan, cur, i, j);
    var edges3 := edges2 + [e];
    assert Consumes(plan, cur, c);
    StepNewNodes(plan, cur, c, nodes0, nodes1, nodes2);
    StepEdges(plan, cur, nodes0, edges0, nodes1, edges1, nodes2, edges2, i, j);
  }

  /** The edges after expanding child (i, j) of cur and adding the edge from it to cur. */
  lemma StepEdges(plan: Plan, cur: RefId, nodes0: set<RefId>, edges0: seq<Edge>,
                  nodes1: set<RefId>, edges1: seq<Edge>, nodes2: set<RefId>, edges2: seq<Edge>,
                  i: nat, j: nat)
    requires WellFormed(nodes0, edges0) && cur !in nodes0 && IsSlot(plan, cur, i, j)
    requires nodes0 + {cur} <= nodes1 <= nodes2
    requires |edges0| <= |edges1| <= |edges2| && edges1[..|edges0|] == edges0 && edges2[..|edges1|] == edges1
    requires forall e :: e in edges1[|edges0|..] <==>
               EdgeFits(plan, e) &&
               (e.target in nodes1 - nodes0 - {cur} ||
                (e.target == cur && Before(e.path.expression, e.path.quantifier, i, j)))
    requires forall e :: e in edges2[|edges1|..] <==> EdgeFits(plan, e) && e.target in nodes2 - nodes1
    ensures QuantifierEdge(plan, cur, i, j) !in edges2
    ensures (edges2 + [QuantifierEdge(plan, cur, i, j)])[..|edges0|] == edges0
    ensures forall e :: e in (edges2 + [QuantifierEdge(plan, cur, i, j)])[|edges0|..] <==>
              EdgeFits(plan, e) &&
              (e.target in nodes2 - nodes0 - {cur} ||
               (e.target == cur && Before(e.path.expression, e.path.quantifier, i, j + 1)))
  {
    var e := QuantifierEdge(plan, cur, i, j);
    var edges3 := edges2 + [e];
    assert edges2 == edges0 + edges1[|edges0|..] + edges2[|edges1|..] by {
      assert edges2 == edges1 + edges2[|edges1|..];
      assert edges1 == edges0 + edges1[|edges0|..];
    }
    assert e !in edges0;
    assert edges3[..|edges0|] == edges0;
    assert edges3[|edges0|..] == edges1[|edges0|..] + edges2[|edges1|..] + [e];
  }

  /** The nodes the child's expansion adds are reachable from cur, avoiding the nodes before cur. */
  lemma StepNewNodes(plan: Plan, cur: RefId, c: RefId, nodes0: set<RefId>, nodes1: set<RefId>, nodes2: set<RefId>)
    requires cur !in nodes0 && nodes0 + {cur} <= nodes1 <= nodes2 && Consumes(plan, cur, c)
    requires forall n :: n in nodes1 - nodes0 - {cur} ==>
               ReachesAvoiding(plan, cur, n, nodes0) && ChildrenIn(plan, n, nodes1)
    requires forall n :: n in nodes2 - nodes1 ==> ReachesAvoiding(plan, c, n, nodes1)
    requires forall n :: n in nodes2 - nodes1 ==> ChildrenIn(plan, n, nodes2)
    ensures forall n :: n in nodes2 - nodes0 - {cur} ==>
              ReachesAvoiding(plan, cur, n, nodes0) && ChildrenIn(plan, n, nodes2)
  {
    forall n | n in nodes2 - nodes0 - {cur}
      ensures ReachesAvoiding(plan, cur, n, nodes0) && ChildrenIn(plan, n, nodes2)
    {
      if n !in nodes1 {
        AvoidingPrepend(plan, cur, c, n, nodes0, nodes1);
      }
    }
  }

  /** Having handled every quantifier of member i is having handled members 0..i. */
  lemma NextMember(plan: Plan, cur: RefId, nodes0: set<RefId>, edges0: seq<Edge>,
                   nodes: set<RefId>, edges: seq<Edge>, i: nat)
    requires cur in plan && i < |plan[cur]|
    requires Expanding(plan, cur, nodes0, edges0, nodes, edges, i, |plan[cur][i].quantifiers|)
    ensures Expanding(plan, cur, nodes0, edges0, nodes, edges, i + 1, 0)
  {
  }

  lemma ExpandFinish(plan: Plan, cur: RefId, nodes0: set<RefId>, edges0: seq<Edge>,
                     nodes: set<RefId>, edges: seq<Edge>)
    requires cur in plan && cur !in nodes0
    requires Expanding(plan, cur, nodes0, edges0, nodes, edges, |plan[cur]|, 0)
    ensures Collected(plan, cur, nodes0, edges0, nodes, edges)
  {
    var newNodes := nodes - nodes0;
    assert ChildrenIn(plan, cur, nodes);
    assert newNodes + nodes0 == nodes;
    forall n
      ensures n in newNodes <==> ReachesAvoiding(plan, cur, n, nodes0)
    {
      if n == cur {
        AvoidingSelf(plan, cur, nodes0);
      } else if ReachesAvoiding(plan, cur, n, nodes0) {
        AvoidingWithin(plan, cur, n, nodes0, newNodes);
      }
    }
  }

  /** A path that avoids s does not start in s. */
  lemma AvoidingStartsOutside(plan: Plan, a: RefId, b: RefId, s: set<RefId>)
    requires ReachesAvoiding(plan, a, b, s)
    ensures a !in s
  {
    var p :| IsPath(plan, p) && p[0] == a && p[|p| - 1] == b && forall k :: 0 <= k < |p| ==> p[k] !in s;
    assert p[0] !in s;
  }

  /** Builds the traversal rooted at rootRef: collect the network, then freeze it. */
  method WithRoot(plan: Plan, rootRef: RefId) returns (t: ExpressionRefTraversal)
    requires Closed(plan) && rootRef in plan
    ensures t.rootRef == rootRef
    ensures BuiltFrom(plan, rootRef, t.network)
  {
    var network := new MutableNetwork();
    CollectNetwork(plan, network, rootRef);
    t := ExpressionRefTraversal(rootRef, network.Freeze());
    assert network.edges[0..] == network.edges;
    forall n
      ensures n in network.nodes <==> Reaches(plan, rootRef, n)
    {
      AvoidingNothing(plan, rootRef, n);
    }
  }
}
