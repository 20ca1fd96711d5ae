/**
 * What `ModelOrderPortComparator.compare` promises, case by case, and the
 * comparator contract it meets on the ports its rule is designed for.
 */
module PreserveOrderProperties {
  import opened LayeredGraph
  import opened PreserveOrder

  /** Incoming ports fed from the same node are ordered by their edges' model order. */
  lemma SameSourceOrdersByModelOrder(c: ModelOrderPortComparator, p1: Port, p2: Port)
    requires IsIncomingOnly(p1) && IsIncomingOnly(p2)
    requires p1.incoming[0].source == p2.incoming[0].source
    ensures Comparable(p1, p2)
    ensures c.Compare(p1, p2) == -1 <==> p1.incoming[0].modelOrder < p2.incoming[0].modelOrder
    ensures c.Compare(p1, p2) == 0 <==> p1.incoming[0].modelOrder == p2.incoming[0].modelOrder
    ensures c.Compare(p1, p2) == 1 <==> p1.incoming[0].modelOrder > p2.incoming[0].modelOrder
  {
  }

  /**
   * Incoming ports fed from distinct nodes follow the previous layer, reversed:
   * the port whose source node is met first in the scan is ordered later.
   * A source node missing from the previous layer counts as met last, and when
   * both are missing the result is -1.
   */
  lemma DistinctSourcesFollowPreviousLayer(c: ModelOrderPortComparator, p1: Port, p2: Port)
    requires IsIncomingOnly(p1) && IsIncomingOnly(p2)
    requires p1.incoming[0].source != p2.incoming[0].source
    ensures Comparable(p1, p2)
    ensures
      var n1, n2, layer := p1.incoming[0].source, p2.incoming[0].source, c.previousLayer;
      && (n1 in layer && (n2 !in layer || IndexOf(layer, n1) < IndexOf(layer, n2)) ==> c.Compare(p1, p2) == 1)
      && (n2 in layer && (n1 !in layer || IndexOf(layer, n2) < IndexOf(layer, n1)) ==> c.Compare(p1, p2) == -1)
      && (n1 !in layer && n2 !in layer ==> c.Compare(p1, p2) == -1)
      && c.Compare(p1, p2) != 0
  {
    var n1, n2, layer := p1.incoming[0].source, p2.incoming[0].source, c.previousLayer;
    if n1 in layer && n2 in layer {
      assert IndexOf(layer, n1) != IndexOf(layer, n2);
    }
  }

  /** Outgoing ports are ordered by the model order of their first outgoing edges. */
  lemma OutgoingOnlyOrdersByModelOrder(c: ModelOrderPortComparator, p1: Port, p2: Port)
    requires IsOutgoingOnly(p1) && IsOutgoingOnly(p2)
    ensures Comparable(p1, p2)
    ensures c.Compare(p1, p2) == -1 <==> p1.outgoing[0].modelOrder < p2.outgoing[0].modelOrder
    ensures c.Compare(p1, p2) == 0 <==> p1.outgoing[0].modelOrder == p2.outgoing[0].modelOrder
    ensures c.Compare(p1, p2) == 1 <==> p1.outgoing[0].modelOrder > p2.outgoing[0].modelOrder
  {
  }

  /** Two ports look alike to the comparator: same empty lists, same first edges. */
  predicate SameFirstEdges(p: Port, q: Port) {
    && (|p.incoming| == 0 <==> |q.incoming| == 0)
    && (|p.outgoing| == 0 <==> |q.outgoing| == 0)
    && (|p.incoming| > 0 ==> p.incoming[0] == q.incoming[0])
    && (|p.outgoing| > 0 ==> p.outgoing[0] == q.outgoing[0])
  }

  /** Only index 0 of each edge list is ever read. */
  lemma OnlyFirstEdgesAreRead(c: ModelOrderPortComparator, p1: Port, p2: Port, q1: Port, q2: Port)
    requires Comparable(p1, p2)
    requires SameFirstEdges(p1, q1) && SameFirstEdges(p2, q2)
    ensures Comparable(q1, q2)
    ensures c.Compare(q1, q2) == c.Compare(p1, p2)
  {
  }

  /** Outgoing ports come before incoming ports, whichever argument they are. */
  lemma OutgoingBeforeIncoming(c: ModelOrderPortComparator, out: Port, inc: Port)
    requires IsOutgoingOnly(out) && IsIncomingOnly(inc)
    ensures Comparable(out, inc) && Comparable(inc, out)
    ensures c.Compare(out, inc) == -1
    ensures c.Compare(inc, out) == 1
  {
  }

  /**
   * When neither source node is in the previous layer the scan falls through and
   * both argument orders return -1: antisymmetry fails for such a pair.
   */
  lemma AbsentSourcesBreakAntisymmetry(c: ModelOrderPortComparator, p1: Port, p2: Port)
    requires IsIncomingOnly(p1) && IsIncomingOnly(p2)
    requires p1.incoming[0].source != p2.incoming[0].source
    requires p1.incoming[0].source !in c.previousLayer && p2.incoming[0].source !in c.previousLayer
    ensures Comparable(p1, p2) && Comparable(p2, p1)
    ensures c.Compare(p1, p2) == -1 && c.Compare(p2, p1) == -1
  {
  }

  /**
   * A mixed port compares as less than anything, from either side; an
   * unconnected port can only be compared with a mixed one.
   */
  lemma UnhandledShapesCompareLess(c: ModelOrderPortComparator, p1: Port, p2: Port)
    requires Comparable(p1, p2)
    requires IsMixed(p1) || IsUnconnected(p1) || IsMixed(p2) || IsUnconnected(p2)
    ensures IsUnconnected(p1) ==> IsMixed(p2)
    ensures IsUnconnected(p2) ==> IsMixed(p1)
    ensures c.Compare(p1, p2) == -1
  {
  }

  /** Every result lies in {-1, 0, 1}, and 0 arises only from two equal model orders. */
  lemma ZeroOnlyForEqualModelOrders(c: ModelOrderPortComparator, p1: Port, p2: Port)
    requires Comparable(p1, p2)
    ensures c.Compare(p1, p2) in {-1, 0, 1}
    ensures c.Compare(p1, p2) == 0 <==>
      || (&& |p1.outgoing| == 0 && |p2.outgoing| == 0
          && p1.incoming[0].source == p2.incoming[0].source
          && p1.incoming[0].modelOrder == p2.incoming[0].modelOrder)
      || (&& |p1.incoming| == 0 && |p2.incoming| == 0
          && p1.outgoing[0].modelOrder == p2.outgoing[0].modelOrder)
  {
  }

  /**
   * Swapping well-formed arguments negates the result, except for two incoming
   * ports fed from distinct nodes that are both missing from the previous layer.
   */
  lemma WellFormedPortsAreAntisymmetric(c: ModelOrderPortComparator, p1: Port, p2: Port)
    requires IsWellFormed(p1) && IsWellFormed(p2)
    requires !(&& IsIncomingOnly(p1) && IsIncomingOnly(p2)
               && p1.incoming[0].source != p2.incoming[0].source
               && p1.incoming[0].source !in c.previousLayer
               && p2.incoming[0].source !in c.previousLayer)
    ensures Comparable(p1, p2) && Comparable(p2, p1)
    ensures c.Compare(p2, p1) == -c.Compare(p1, p2)
  {
    if IsIncomingOnly(p1) && IsIncomingOnly(p2) && p1.incoming[0].source != p2.incoming[0].source {
      DistinctSourcesFollowPreviousLayer(c, p1, p2);
      DistinctSourcesFollowPreviousLayer(c, p2, p1);
    }
  }

  /**
   * An independent reference order: outgoing ports first, by model order; then
   * incoming ports by descending position of their source node in the previous
   * layer, and by model order among ports fed from the same node.
   */
  datatype SortKey = SortKey(side: int, rank: int, order: int)

  /** A well-formed port whose position the previous layer determines. */
  predicate Ranked(layer: seq<NodeId>, p: Port) {
    IsOutgoingOnly(p) || (IsIncomingOnly(p) && p.incoming[0].source in layer)
  }

  function KeyOf(layer: seq<NodeId>, p: Port): SortKey
    requires Ranked(layer, p)
  {
    if IsOutgoingOnly(p) then SortKey(0, 0, p.outgoing[0].modelOrder)
    else SortKey(1, -(IndexOf(layer, p.incoming[0].source) as int), p.incoming[0].modelOrder)
  }

  /** Lexicographic comparison of sort keys. */
  function CompareKeys(a: SortKey, b: SortKey): (r: int)
    ensures r == 0 <==> a == b
  {
    if a.side != b.side then IntegerCompare(a.side, b.side)
    else if a.rank != b.rank then IntegerCompare(a.rank, b.rank)
    else IntegerCompare(a.order, b.order)
  }

  /** Sort keys are totally ordered: antisymmetric and transitive. */
  lemma CompareKeysIsTotalOrder(a: SortKey, b: SortKey, d: SortKey)
    ensures CompareKeys(b, a) == -CompareKeys(a, b)
    ensures CompareKeys(a, b) > 0 && CompareKeys(b, d) > 0 ==> CompareKeys(a, d) > 0
  {
  }

  /** On ranked ports the comparator is exactly the lexicographic order of their keys. */
  lemma CompareAgreesWithSortKey(c: ModelOrderPortComparator, p1: Port, p2: Port)
    requires Ranked(c.previousLayer, p1) && Ranked(c.previousLayer, p2)
    ensures Comparable(p1, p2)
    ensures c.Compare(p1, p2) == CompareKeys(KeyOf(c.previousLayer, p1), KeyOf(c.previousLayer, p2))
  {
    if IsIncomingOnly(p1) && IsIncomingOnly(p2) && p1.incoming[0].source != p2.incoming[0].source {
      DistinctSourcesFollowPreviousLayer(c, p1, p2);
    }
  }

  /**
   * The java.util.Comparator contract on ranked ports: swapping the arguments
   * negates the result, the order is transitive, and ports comparing equal
   * compare alike with every third port.
   */
  lemma RankedPortsMeetComparatorContract(c: ModelOrderPortComparator, x: Port, y: Port, z: Port)
    requires Ranked(c.previousLayer, x) && Ranked(c.previousLayer, y) && Ranked(c.previousLayer, z)
    ensures Comparable(x, y) && Comparable(y, x) && Comparable(y, z) && Comparable(x, z)
    ensures c.Compare(y, x) == -c.Compare(x, y)
    ensures c.Compare(x, y) > 0 && c.Compare(y, z) > 0 ==> c.Compare(x, z) > 0
    ensures c.Compare(x, y) == 0 ==> c.Compare(x, z) == c.Compare(y, z)
  {
    var layer := c.previousLayer;
    CompareAgreesWithSortKey(c, x, y);
    CompareAgreesWithSortKey(c, y, x);
    CompareAgreesWithSortKey(c, y, z);
    CompareAgreesWithSortKey(c, x, z);
    CompareKeysIsTotalOrder(KeyOf(layer, x), KeyOf(layer, y), KeyOf(layer, z));
  }

  /**
   * Previous layer [N1, N2, N3]; one incoming port fed by N3 (model order 5),
   * one fed by N1 (model order 2): the port fed by N1 compares greater, so a
   * sort places the port fed by N3 first.
   */
  lemma PreviousLayerScenario(c: ModelOrderPortComparator)
    requires c.previousLayer == [1, 2, 3]
    ensures
      var fromN1, fromN3 := Port([Edge(1, 2)], []), Port([Edge(3, 5)], []);
      Comparable(fromN1, fromN3) && c.Compare(fromN1, fromN3) == 1
  {
  }
}
