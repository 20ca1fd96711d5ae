/**
 * ModelOrderPortComparator: orders the ports of one layer by the model order of
 * their edges, or by the order of the nodes they connect to in the previous layer.
 * Outgoing ports are ordered before incoming ports.
 */
module PreserveOrder {
  import opened LayeredGraph

  datatype Option<T> = None | Some(value: T)

  /** java.lang.Integer.compare: the sign of x - y, computed without overflow. */
  function IntegerCompare(x: int, y: int): (r: int)
    ensures r == -1 <==> x < y
    ensures r == 0 <==> x == y
    ensures r == 1 <==> x > y
  {
    if x < y then -1 else if x == y then 0 else 1
  }

  /** The first position of node `n` in the layer. */
  function IndexOf(layer: seq<NodeId>, n: NodeId): (i: nat)
    requires n in layer
    ensures i < |layer| && layer[i] == n
    ensures forall j :: 0 <= j < i ==> layer[j] != n
  {
    if layer[0] == n then 0 else 1 + IndexOf(layer[1..], n)
  }

  /**
   * The for-each scan over the previous layer: the first node equal to `n1`
   * yields 1, the first node equal to `n2` yields -1 (`n1` is tested first),
   * and a scan that meets neither returns nothing.
   */
  function ScanPreviousLayer(layer: seq<NodeId>, n1: NodeId, n2: NodeId): (r: Option<int>)
    ensures r == None <==> n1 !in layer && n2 !in layer
    ensures r == Some(1) <==> n1 in layer && (n2 in layer ==> IndexOf(layer, n1) <= IndexOf(layer, n2))
    ensures r == Some(-1) <==> n2 in layer && (n1 in layer ==> IndexOf(layer, n2) < IndexOf(layer, n1))
  {
    if |layer| == 0 then None
    else if layer[0] == n1 then Some(1)
    else if layer[0] == n2 then Some(-1)
    else
      assert layer == [layer[0]] + layer[1..];
      ScanPreviousLayer(layer[1..], n1, n2)
  }

  /**
   * The ports on which `compare` reads only edges that exist: every `get(0)`
   * it performs is on a non-empty list.
   */
  predicate Comparable(p1: Port, p2: Port) {
    && (|p1.outgoing| == 0 && |p2.outgoing| == 0 ==> |p1.incoming| > 0 && |p2.incoming| > 0)
    && (|p1.incoming| == 0 && |p2.incoming| == 0 ==> |p1.outgoing| > 0 && |p2.outgoing| > 0)
  }

  class ModelOrderPortComparator {

    /** The already ordered previous layer, as its sequence of nodes. */
    const previousLayer: seq<NodeId>

    constructor (previousLayer: seq<NodeId>)
      ensures this.previousLayer == previousLayer
    {
      this.previousLayer := previousLayer;
    }

    /**
     * The first branch of `compare`, taken when neither port has outgoing edges:
     * the value it returns, or None when the scan of the previous layer finds
     * neither source node and control falls through.
     */
    function CompareIncoming(p1: Port, p2: Port): (r: Option<int>)
      requires |p1.outgoing| == 0 && |p2.outgoing| == 0
      requires |p1.incoming| > 0 && |p2.incoming| > 0
      ensures r.Some? ==> -1 <= r.value <= 1
      ensures r == None <==>
        p1.incoming[0].source != p2.incoming[0].source &&
        p1.incoming[0].source !in previousLayer && p2.incoming[0].source !in previousLayer
    {
      var p1Node := p1.incoming[0].source;
      var p2Node := p2.incoming[0].source;
      if p1Node == p2Node then
        Some(IntegerCompare(p1.incoming[0].modelOrder, p2.incoming[0].modelOrder))
      else
        ScanPreviousLayer(previousLayer, p1Node, p2Node)
    }

    /** `compare(p1, p2)`: negative orders p1 first, positive orders p2 first. */
    function Compare(p1: Port, p2: Port): (r: int)
      requires Comparable(p1, p2)
      ensures -1 <= r <= 1
    {
      var incoming :=
        if |p1.outgoing| == 0 && |p2.outgoing| == 0 then CompareIncoming(p1, p2) else None;
      if incoming.Some? then
        incoming.value
      else if |p1.incoming| == 0 && |p2.incoming| == 0 then
        IntegerCompare(p1.outgoing[0].modelOrder, p2.outgoing[0].modelOrder)
      else if |p1.outgoing| == 0 && |p2.incoming| == 0 then
        1
      else
        -1
    }
  }
}
