# Expression-reference traversal, modelled in Dafny

This project models `ExpressionRefTraversal` from the FoundationDB record layer's query planner. The planner keeps plan fragments in *expression references*. A reference holds member expressions. An expression holds quantifiers, and each quantifier ranges over another reference. That structure can only be followed downwards. The traversal walks it once from a root reference and builds a directed network. Its edges run from a consumed (child) reference to the reference that consumes it. So "who consumes me" becomes "follow my out-edges".

Files:

- `plan.dfy` (module `PlanModel`): references as opaque ids; a plan as a map from a reference to its member expressions; slots, consumption, paths and reachability.
- `network.dfy` (module `Networks`): the edge label `RefPath`, edges, and the frozen `Network`. Also the mutable network the walk fills, as the class `MutableNetwork`, with methods modelled on Guava's `addNode` and `addEdge`, and Guava's `outEdges`. Guava identifies an edge by its label object alone and throws when that object is added again between other endpoints; `AddEdge` identifies an edge by the whole (source, target, label) value and does not model that exception. The walk creates a new label for every edge, so the difference cannot arise in it.
- `traversal.dfy` (module `RefTraversal`): the walk `CollectNetwork`, `WithRoot`, and the datatypes `ExpressionRefTraversal` (`GetRoot`, `From`, `GetLeaves`), `FullyTraversableRef` (`GetParentRefs`) and `ExpressionRefDelegate`. It also holds `BuiltFrom`, the specification of the snapshot.
- `properties.dfy` (module `TraversalProperties`): the lemmas about any snapshot that satisfies `BuiltFrom`.
- `scenarios.dfy` (module `Scenarios`): three small plans (a chain, parallel quantifiers, a cycle) and the snapshots they force.

Modelling choices:

- An expression or quantifier is identified by its position: member `i` of its reference, quantifier `j` of that member. Ownership is exclusive, so this position is its identity. `RefPath(i, j)` is the edge label.
- An edge of the network is identified by its position in the `edges` sequence. The walk never adds the same edge twice; `Distinct` states this.
- The plan map stands for the heap. `Closed(plan)` says every quantifier ranges over a reference the map knows. This replaces the non-null "ranges over" reference of the source. `WithRoot` requires `Closed(plan)` and that the root is in the map.
- `CollectNetwork` is a recursive method that updates a `MutableNetwork` object in place. It terminates because each expansion first registers a new node, and `|plan.Keys - nodes|` shrinks with each call (`SmallerRemainder`).
- `ExpressionRefTraversal` and `FullyTraversableRef` keep only final fields, so they are datatypes.
- `BuiltFrom(plan, root, net)` is what the built snapshot must be: the nodes are exactly the references reachable from `root`; the edges are exactly one per (node, member expression, quantifier), each running from the ranged-over reference to the node; no edge repeats.

## Model

| member | source | states |
|---|---|---|
| `Networks.MutableNetwork.constructor` | fdb-record-layer-core/src/main/java/com/apple/foundationdb/record/query/plan/temp/ExpressionRefTraversal.java:75-79 | a new directed network that allows parallel edges and self-loops starts with no nodes and no edges, and is well formed |
| `Networks.MutableNetwork.AddNode` | fdb-record-layer-core/src/main/java/com/apple/foundationdb/record/query/plan/temp/ExpressionRefTraversal.java:86 | the answer is true exactly when the reference was not yet a node; afterwards it is a node and the edges are untouched |
| `Networks.MutableNetwork.AddEdge` | fdb-record-layer-core/src/main/java/com/apple/foundationdb/record/query/plan/temp/ExpressionRefTraversal.java:91 | both endpoints become nodes; the edge is appended exactly when it is not already present (the answer says which); the network stays well formed |
| `Networks.MutableNetwork.Freeze` | fdb-record-layer-core/src/main/java/com/apple/foundationdb/record/query/plan/temp/ExpressionRefTraversal.java:81 | the immutable copy holds the same nodes and edges as the mutable network |
| `Networks.OutEdges` | fdb-record-layer-core/src/main/java/com/apple/foundationdb/record/query/plan/temp/ExpressionRefTraversal.java:139 | an edge is among the out-edges of c exactly when it is an edge of the network whose source is c |
| `RefTraversal.CollectNetwork` | fdb-record-layer-core/src/main/java/com/apple/foundationdb/record/query/plan/temp/ExpressionRefTraversal.java:84-96 | a reference that is already a node leaves the network unchanged. Otherwise: old nodes and old edges are kept (the old edges as a prefix); the reference becomes a node; the new nodes are exactly the references it reaches without passing through a node registered before the call, and each has all its children among the nodes; the added edges are exactly one per quantifier of every new node, from the ranged-over reference to the node; the network stays well formed. The method terminates on cyclic plans |
| `RefTraversal.SmallerRemainder` | fdb-record-layer-core/src/main/java/com/apple/foundationdb/record/query/plan/temp/ExpressionRefTraversal.java:86 | registering a reference that was not a node shrinks the set of references still to be registered; this is why the recursion ends |
| `RefTraversal.ExpandStep` | fdb-record-layer-core/src/main/java/com/apple/foundationdb/record/query/plan/temp/ExpressionRefTraversal.java:88-91 | after the child of quantifier (i, j) has been expanded, the child and the current reference are both nodes, and the edge child -> current labelled (i, j) is not yet present, so adding it keeps the edges distinct (this holds for self-loops too) |
| `RefTraversal.WithRoot` | fdb-record-layer-core/src/main/java/com/apple/foundationdb/record/query/plan/temp/ExpressionRefTraversal.java:74-82 | the traversal stores the given root, and its network has exactly the reachable references as nodes and exactly one edge per quantifier of every node, none repeated |
| `RefTraversal.ExpressionRefTraversal.GetRoot` | fdb-record-layer-core/src/main/java/com/apple/foundationdb/record/query/plan/temp/ExpressionRefTraversal.java:55-58 | the view is over exactly the stored root, within this traversal |
| `RefTraversal.ExpressionRefTraversal.From` | fdb-record-layer-core/src/main/java/com/apple/foundationdb/record/query/plan/temp/ExpressionRefTraversal.java:60-63 | wraps exactly the given reference; nothing about the network is required of it |
| `RefTraversal.ExpressionRefTraversal.GetLeaves` | fdb-record-layer-core/src/main/java/com/apple/foundationdb/record/query/plan/temp/ExpressionRefTraversal.java:65-67 | as written, the list of leaves is always empty |
| `RefTraversal.FullyTraversableRef.GetParentRefs` | fdb-record-layer-core/src/main/java/com/apple/foundationdb/record/query/plan/temp/ExpressionRefTraversal.java:137-150 | for a reference that is a node, the result is the set of targets of its out-edges, each parent once however many parallel edges lead to it |
| `TraversalProperties.NodesAreReferences` | fdb-record-layer-core/src/main/java/com/apple/foundationdb/record/query/plan/temp/ExpressionRefTraversal.java:86-90 | every node of a built snapshot is a reference of the plan |
| `TraversalProperties.RootIsNode` | fdb-record-layer-core/src/main/java/com/apple/foundationdb/record/query/plan/temp/ExpressionRefTraversal.java:55-58 | the reference the root view wraps is always a node, so its parents can be asked for |
| `TraversalProperties.EdgeEndpointsAreNodes` | fdb-record-layer-core/src/main/java/com/apple/foundationdb/record/query/plan/temp/ExpressionRefTraversal.java:90-91 | the source and target of every edge of a built snapshot are nodes |
| `TraversalProperties.EdgeCount` | fdb-record-layer-core/src/main/java/com/apple/foundationdb/record/query/plan/temp/ExpressionRefTraversal.java:87-91 | as a set, the edges are the quantifier edges of the nodes, and their number equals the number of (node, member, quantifier) positions, because distinct positions induce distinct edges (`QuantifierEdgesCount`) |
| `TraversalProperties.QuantifierEdgesCount` | fdb-record-layer-core/src/main/java/com/apple/foundationdb/record/query/plan/temp/ExpressionRefTraversal.java:87-91 | the quantifier edges of a set of references are exactly as many as their (reference, member, quantifier) positions: each position induces its own edge |
| `TraversalProperties.SnapshotDetermined` | fdb-record-layer-core/src/main/java/com/apple/foundationdb/record/query/plan/temp/ExpressionRefTraversal.java:74-92 | two snapshots built from the same root have the same nodes, the same set of edges and the same number of edges; only the edge order may differ |
| `TraversalProperties.ParentsAreConsumers` | fdb-record-layer-core/src/main/java/com/apple/foundationdb/record/query/plan/temp/ExpressionRefTraversal.java:132-149 | p is a parent of c exactly when p is a node and some member expression of p has a quantifier ranging over c |
| `TraversalProperties.RootParents` | fdb-record-layer-core/src/main/java/com/apple/foundationdb/record/query/plan/temp/ExpressionRefTraversal.java:138-149 | the root has no parents exactly when no node consumes it |
| `TraversalProperties.SelfLoop` | fdb-record-layer-core/src/main/java/com/apple/foundationdb/record/query/plan/temp/ExpressionRefTraversal.java:78 | a reference with a quantifier over itself has the self-loop edge with that label and is its own parent |
| `TraversalProperties.ParallelEdges` | fdb-record-layer-core/src/main/java/com/apple/foundationdb/record/query/plan/temp/ExpressionRefTraversal.java:77 | two quantifiers of p over the same c give two distinct parallel edges c -> p, and p is a parent of c |
| `TraversalProperties.IntendedLeavesAreQuantifierFree` | fdb-record-layer-core/src/main/java/com/apple/foundationdb/record/query/plan/temp/ExpressionRefTraversal.java:36-39 | a reference is an intended leaf exactly when it is a node and none of its member expressions has a quantifier |
| `Scenarios.ChainSnapshot` | fdb-record-layer-core/src/main/java/com/apple/foundationdb/record/query/plan/temp/ExpressionRefTraversal.java:84-96 | for R1 -> R2: the nodes are {R1, R2}, the only edge is R2 -> R1 labelled (0, 0), the parents of R2 are {R1}, R1 has none, and the intended leaves are {R2} |
| `Scenarios.ParallelSnapshot` | fdb-record-layer-core/src/main/java/com/apple/foundationdb/record/query/plan/temp/ExpressionRefTraversal.java:77 | two quantifiers of R1 over R2 give exactly two edges R2 -> R1 with different labels, while the parents of R2 are the single {R1} |
| `Scenarios.CycleSnapshot` | fdb-record-layer-core/src/main/java/com/apple/foundationdb/record/query/plan/temp/ExpressionRefTraversal.java:86 | with R1 consuming itself and R2, and R2 consuming R1, the snapshot from R2 has nodes {R1, R2}, three edges, parents {R1, R2} for R1 and {R1} for R2, and no intended leaves |
| `Scenarios.GetLeavesMissesLeaf` | fdb-record-layer-core/src/main/java/com/apple/foundationdb/record/query/plan/temp/ExpressionRefTraversal.java:65-67 | in the chain R1 -> R2, R2 is a leaf, yet GetLeaves returns the empty list |

## Left out

- The Guava network internals (`MutableNetwork`, `ImmutableNetwork.copyOf`, `EndpointPair`, `ImmutableSet.Builder`): a set of nodes and a sequence of edges stand for them. Freezing is copying the two values.
- Guava's exception for `outEdges` on an absent node: `GetParentRefs` requires that its reference is a node.
- The internals of `ExpressionRef`, `RelationalExpression`, `Quantifier` and `ExpressionRefDelegate`: they are not part of this model. References are opaque ids; expressions and quantifiers are positions.
- The order in which a reference yields its members, and a member its quantifiers: the model takes the order of the sequences in the plan map.
- The value `collectNetwork` returns: it is the same network object it was given, and the model updates that object in place.
- The parent set: the source dedups `FullyTraversableExpressionRef` wrappers by `ExpressionRefDelegate` equality, which is not part of this model. The model returns the set of parent reference ids; a wrapper over each is `FullyTraversableRef(traversal, p)`.
- A malformed plan (a quantifier without a ranged-over reference): the source does not check for it. The model requires `Closed(plan)` instead.
- `From`: as in the source, the reference is not checked for membership in the network, so an unknown reference is not reported as an error. Its result is a plain `ExpressionRefDelegate`, which cannot ask for its parents: only the root view and the views in a parent set navigate.
- Java generics and wildcards, the `@API` and `@Nonnull` annotations, and sharing the frozen snapshot between threads.
- RefTraversal.CollectNetwork: states exactly which nodes and edges are added, but not the depth-first order in which the edges are appended. Nothing built on the traversal depends on that order.

## Findings

| source | as written | input that shows it | evidently intended | confidence | as-written member | corrected member |
|---|---|---|---|---|---|---|
| fdb-record-layer-core/src/main/java/com/apple/foundationdb/record/query/plan/temp/ExpressionRefTraversal.java:65-67 | `getLeaves` always returns the empty list | root R1 with one member whose one quantifier ranges over R2; R2's only member has no quantifiers | the class documentation (lines 36-39) offers `getLeaves` as a traversal operation: the nodes whose member expressions consume no reference, here {R2} | not executed; the stub is evident from the text | `Scenarios.GetLeavesMissesLeaf` (about `RefTraversal.ExpressionRefTraversal.GetLeaves`) | `RefTraversal.ExpressionRefTraversal.IntendedLeaves`, proved by `TraversalProperties.IntendedLeavesAreQuantifierFree` |
