# Model-order port comparator (ELK layered)

This project models `ModelOrderPortComparator` from ELK's layered layout algorithm.
The comparator decides the relative order of two ports whose nodes lie in the same
layer. It is bound at construction to the already ordered previous layer. It then
uses three rules:

- Two incoming-only ports are ordered by the node that feeds their first incoming edge.
  If that node is the same for both, the edges' model order decides. Otherwise a scan
  of the previous layer decides.
- Two outgoing-only ports are ordered by the model order of their first outgoing edges.
- An outgoing port is ordered before an incoming port.

Graph entities are reduced to what the comparator reads (`layered_graph.dfy`):

- a node is a `NodeId`, and node `equals` is id equality;
- an edge is its source port's node plus its `MODEL_ORDER`;
- a port is its incoming and outgoing edge lists.

The comparator (`port_comparator.dfy`) is a class with a `const previousLayer` set by
its constructor. `compare` is a pure function, and the for-each scan over the previous
layer is a recursive first-match (`ScanPreviousLayer`). The properties
(`port_comparator_properties.dfy`) cover each branch and the points where the code
falls through. They also give an independent reference order: a lexicographic
`SortKey` of (side, negated position of the source node, model order). On ports whose
position the previous layer determines, the comparator equals this reference order.
From that follows the `java.util.Comparator` contract: antisymmetry, transitivity and
consistency of equal elements.

The model follows the code also where its behaviour is surprising:

- In the scan, the port whose source node is met FIRST in the previous layer gets `1`,
  so it sorts AFTER the other port (`ModelOrderPortComparator.java:58-59`). One might
  expect the port fed from the earlier node to sort first. `PreviousLayerScenario`
  states what the code does.
- When neither source node is in the previous layer, the scan returns nothing. The
  code then falls through to the final `else` and returns `-1` for both argument
  orders (`ModelOrderPortComparator.java:64`, `:75`), so antisymmetry fails there.
- Mixed ports (with both incoming and outgoing edges) also end at `return -1` from
  either side. So do unconnected ports, which can only be compared with a mixed port
  without an index error.

## Model

| member | source | states |
|---|---|---|
| `PreserveOrder.ModelOrderPortComparator.constructor` | plugins/org.eclipse.elk.alg.layered/src/org/eclipse/elk/alg/layered/intermediate/preserveorder/ModelOrderPortComparator.java:37-39 | the comparator is bound to the given previous layer |
| `PreserveOrder.ModelOrderPortComparator.Compare` | plugins/org.eclipse.elk.alg.layered/src/org/eclipse/elk/alg/layered/intermediate/preserveorder/ModelOrderPortComparator.java:47-77 | defined exactly on ports where every `get(0)` reads an existing edge; the result is in -1..1 |
| `PreserveOrder.ModelOrderPortComparator.CompareIncoming` | plugins/org.eclipse.elk.alg.layered/src/org/eclipse/elk/alg/layered/intermediate/preserveorder/ModelOrderPortComparator.java:49-64 | the incoming-port branch returns a value in -1..1, and falls through exactly when the two source nodes differ and neither is in the previous layer |
| `PreserveOrder.ScanPreviousLayer` | plugins/org.eclipse.elk.alg.layered/src/org/eclipse/elk/alg/layered/intermediate/preserveorder/ModelOrderPortComparator.java:57-63 | Some(1) iff p1's node occurs and p2's is absent or occurs no earlier; Some(-1) iff p2's node occurs and p1's is absent or occurs later; None iff neither occurs |
| `PreserveOrder.IntegerCompare` | plugins/org.eclipse.elk.alg.layered/src/org/eclipse/elk/alg/layered/intermediate/preserveorder/ModelOrderPortComparator.java:54-55 | `Integer.compare` is -1, 0 or 1 exactly when the first value is smaller, equal or larger |
| `PreserveOrderProperties.SameSourceOrdersByModelOrder` | plugins/org.eclipse.elk.alg.layered/src/org/eclipse/elk/alg/layered/intermediate/preserveorder/ModelOrderPortComparator.java:49-56 | incoming ports fed from the same node compare as the sign of the difference of their first incoming edges' model orders |
| `PreserveOrderProperties.DistinctSourcesFollowPreviousLayer` | plugins/org.eclipse.elk.alg.layered/src/org/eclipse/elk/alg/layered/intermediate/preserveorder/ModelOrderPortComparator.java:57-75 | for distinct source nodes: 1 when p1's node is present and p2's is absent or later in the previous layer; -1 when p2's node is present and p1's is absent or later; -1 when both are absent; never 0 |
| `PreserveOrderProperties.OutgoingOnlyOrdersByModelOrder` | plugins/org.eclipse.elk.alg.layered/src/org/eclipse/elk/alg/layered/intermediate/preserveorder/ModelOrderPortComparator.java:67-70 | outgoing-only ports compare as the sign of the difference of their first outgoing edges' model orders |
| `PreserveOrderProperties.OnlyFirstEdgesAreRead` | plugins/org.eclipse.elk.alg.layered/src/org/eclipse/elk/alg/layered/intermediate/preserveorder/ModelOrderPortComparator.java:49-70 | ports with the same empty lists and the same first edges compare identically; later edges are never read |
| `PreserveOrderProperties.OutgoingBeforeIncoming` | plugins/org.eclipse.elk.alg.layered/src/org/eclipse/elk/alg/layered/intermediate/preserveorder/ModelOrderPortComparator.java:72-76 | an outgoing-only port against an incoming-only port gives -1, and the swapped call gives 1 |
| `PreserveOrderProperties.AbsentSourcesBreakAntisymmetry` | plugins/org.eclipse.elk.alg.layered/src/org/eclipse/elk/alg/layered/intermediate/preserveorder/ModelOrderPortComparator.java:57-75 | incoming ports fed from distinct nodes that are both missing from the previous layer give -1 in both argument orders |
| `PreserveOrderProperties.UnhandledShapesCompareLess` | plugins/org.eclipse.elk.alg.layered/src/org/eclipse/elk/alg/layered/intermediate/preserveorder/ModelOrderPortComparator.java:72-76 | a comparison involving a mixed or unconnected port gives -1; an unconnected port is comparable only with a mixed port |
| `PreserveOrderProperties.ZeroOnlyForEqualModelOrders` | plugins/org.eclipse.elk.alg.layered/src/org/eclipse/elk/alg/layered/intermediate/preserveorder/ModelOrderPortComparator.java:47-77 | the result is in {-1, 0, 1}; it is 0 iff neither port has outgoing edges and their first incoming edges share a source node and a model order, or neither port has incoming edges and their first outgoing edges have equal model orders |
| `PreserveOrderProperties.WellFormedPortsAreAntisymmetric` | plugins/org.eclipse.elk.alg.layered/src/org/eclipse/elk/alg/layered/intermediate/preserveorder/ModelOrderPortComparator.java:25-77 | for outgoing-only or incoming-only ports, swapping the arguments negates the result, unless both source nodes are distinct and absent from the previous layer |
| `PreserveOrderProperties.CompareAgreesWithSortKey` | plugins/org.eclipse.elk.alg.layered/src/org/eclipse/elk/alg/layered/intermediate/preserveorder/ModelOrderPortComparator.java:19-24 | on outgoing-only ports, and incoming-only ports whose source node is in the previous layer, `compare` equals the lexicographic order of (side, negated source position, model order) |
| `PreserveOrderProperties.RankedPortsMeetComparatorContract` | plugins/org.eclipse.elk.alg.layered/src/org/eclipse/elk/alg/layered/intermediate/preserveorder/ModelOrderPortComparator.java:25 | on those ports `compare` is antisymmetric and transitive, and ports comparing equal compare alike with any third port |
| `PreserveOrderProperties.PreviousLayerScenario` | plugins/org.eclipse.elk.alg.layered/src/org/eclipse/elk/alg/layered/intermediate/preserveorder/ModelOrderPortComparator.java:57-63 | with previous layer [N1, N2, N3], the port fed by N1 compares greater than the port fed by N3 |

## Left out

- `LayoutMapping` (the diagram-to-graph element mapping and its configuration list) consists only of accessors over a bidirectional map, a list and a property holder. It has no decisions to model.
- `PreserveOrder.ModelOrderPortComparator.Compare`: an `IndexOutOfBoundsException` from `get(0)` on an empty edge list is modelled as the precondition `Comparable`. `Comparable` is exactly the condition under which no such read happens.
- The generic property lookup of `MODEL_ORDER` and its possible `null` unboxing failure are left out. Every edge carries an `int` model order.
- Model orders are unbounded integers, not 32-bit `int`s. `Integer.compare` does no arithmetic, so nothing can overflow.
- The internals of `LPort`, `LNode` and `Layer` are abstracted to edge sequences, node ids and a node sequence. This drops back-pointers, node ownership and `Iterable` mechanics.
- The caller that sorts ports with this comparator, and the layering, crossing-minimisation and routing stages, are not part of this model. No sort-stability property is stated, because the sorting caller is not modelled.
