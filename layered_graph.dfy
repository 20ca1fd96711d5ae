/**
 * The part of the layered graph (LNode, LPort, LEdge) that the model-order port
 * comparator reads: each port's incoming and outgoing edge lists, and for each
 * edge the node owning its source port and its MODEL_ORDER property.
 */
module LayeredGraph {

  /** Identity of an LNode: two nodes are `equals` exactly when their ids are equal. */
  type NodeId = nat

  /** An LEdge, reduced to the node that owns its source port and its model order. */
  datatype Edge = Edge(source: NodeId, modelOrder: int)

  /** An LPort, reduced to its incoming and outgoing edges, in list order. */
  datatype Port = Port(incoming: seq<Edge>, outgoing: seq<Edge>)

  /** A port used purely as the source of edges. */
  predicate IsOutgoingOnly(p: Port) {
    |p.incoming| == 0 && |p.outgoing| > 0
  }

  /** A port used purely as the target of edges. */
  predicate IsIncomingOnly(p: Port) {
    |p.outgoing| == 0 && |p.incoming| > 0
  }

  /** A port with both incoming and outgoing edges. */
  predicate IsMixed(p: Port) {
    |p.incoming| > 0 && |p.outgoing| > 0
  }

  /** A port with no edges at all. */
  predicate IsUnconnected(p: Port) {
    |p.incoming| == 0 && |p.outgoing| == 0
  }

  /** The port shapes the comparator's rule is designed for. */
  predicate IsWellFormed(p: Port) {
    IsOutgoingOnly(p) || IsIncomingOnly(p)
  }
}
