/**
 * The directed multigraph the traversal is built into: nodes are references,
 * edges run from a consumed (child) reference to its consumer (parent) and carry
 * the path record that induced them. Parallel edges and self-loops are allowed.
 */
module Networks {
  import opened PlanModel

  /**
   * The edge label: which member expression of the consumer, and which of that
   * expression's quantifiers, induced the edge (both by position, see IsSlot).
   */
  datatype RefPath = RefPath(expression: nat, quantifier: nat)

  datatype Edge = Edge(source: RefId, target: RefId, path: RefPath)

  /** The frozen snapshot. An edge's identity is its position in `edges`. */
  datatype Network = Network(nodes: set<RefId>, edges: seq<Edge>)

  /** No edge is held twice. */
  predicate Distinct(edges: seq<Edge>) {
    forall k, l :: 0 <= k < l < |edges| ==> edges[k] != edges[l]
  }

  /** The invariant every network keeps: distinct edges whose endpoints are nodes. */
  predicate WellFormed(nodes: set<RefId>, edges: seq<Edge>) {
    && Distinct(edges)
    && forall e :: e in edges ==> e.source in nodes && e.target in nodes
  }

  /** The network under construction: a directed network allowing parallel edges and self-loops. */
  class MutableNetwork {
    var nodes: set<RefId>
    var edges: seq<Edge>

    predicate Valid()
      reads this
    {
      WellFormed(nodes, edges)
    }

    constructor ()
      ensures Valid() && nodes == {} && edges == []
    {
      nodes, edges := {}, [];
    }

    /** Adds r as a node; answers whether r was not a node before. */
    method AddNode(r: RefId) returns (added: bool)
      requires Valid()
      modifies this
      ensures Valid()
      ensures added <==> r !in old(nodes)
      ensures nodes == old(nodes) + {r} && edges == old(edges)
    {
      added := r !in nodes;
      nodes := nodes + {r};
    }

    /**
     * Adds the edge u -> v labelled path, adding u and v as nodes if needed.
     * An edge already present is not added again, and the answer is false.
     */
    method AddEdge(u: RefId, v: RefId, path: RefPath) returns (added: bool)
      requires Valid()
      modifies this
      ensures Valid()
      ensures added <==> Edge(u, v, path) !in old(edges)
      ensures nodes == old(nodes) + {u, v}
      ensures edges == if added then old(edges) + [Edge(u, v, path)] else old(edges)
    {
      var e := Edge(u, v, path);
      added := e !in edges;
      nodes := nodes + {u, v};
      if added {
        edges := edges + [e];
      }
    }

    /** The immutable copy of the current state. */
    function Freeze(): (net: Network)
      reads this
      ensures net.nodes == nodes && net.edges == edges
    {
      Network(nodes, edges)
    }
  }

  /** The edges leaving c, in edge order. */
  function OutEdges(edges: seq<Edge>, c: RefId): (out: seq<Edge>)
    ensures forall e :: e in out <==> e in edges && e.source == c
    ensures |out| <= |edges|
  {
    if edges == [] then []
    else if edges[0].source == c then [edges[0]] + OutEdges(edges[1..], c)
    else OutEdges(edges[1..], c)
  }

  /** A sequence without repetitions has as many elements as the set of its elements. */
  lemma {:induction false} DistinctCount(edges: seq<Edge>)
    requires Distinct(edges)
    ensures |set e | e in edges| == |edges|
  {
    if edges != [] {
      var last := |edges| - 1;
      var init := edges[..last];
      assert Distinct(init);
      DistinctCount(init);
      assert edges[last] !in init;
      assert (set e | e in edges) == (set e | e in init) + {edges[last]} by {
        assert edges == init + [edges[last]];
      }
    }
  }
}
