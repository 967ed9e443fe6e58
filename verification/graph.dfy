/** The road network as loaded from its JSON description: nodes with planar
    coordinates and edges carrying physical and pricing attributes, plus the
    two derived fields the loader attaches to each edge. */
module Graph {
  import opened Common

  type NodeId = string

  /** A location. The coordinates are only used for drawing. */
  datatype Node = Node(id: NodeId, x: real, y: real)

  /** A road segment. `fuelUsed` and `toll` are absent until the loader
      computes them from the base attributes. */
  datatype Edge = Edge(
    from: NodeId,
    to: NodeId,
    length: real,
    efficiency: real,
    consumptionFactor: real,
    trafficWeight: real,
    fuelUsed: Option<real>,
    toll: Option<real>)

  datatype Graph = Graph(nodes: seq<Node>, edges: seq<Edge>)

  function NodeIds(g: Graph): set<NodeId> {
    set n | n in g.nodes :: n.id
  }

  /** Two edges describe the same road: equal endpoints and base attributes
      (the derived fields may differ). */
  predicate SameRoad(a: Edge, b: Edge) {
    && a.from == b.from && a.to == b.to
    && a.length == b.length && a.efficiency == b.efficiency
    && a.consumptionFactor == b.consumptionFactor && a.trafficWeight == b.trafficWeight
  }

  /** Attribute signs under which costs are defined and non-negative. */
  predicate ValidAttributes(e: Edge) {
    e.length >= 0.0 && e.efficiency > 0.0 && e.consumptionFactor >= 0.0
  }

  predicate AllValidAttributes(edges: seq<Edge>) {
    forall i :: 0 <= i < |edges| ==> ValidAttributes(edges[i])
  }

  predicate AllPositiveEfficiency(edges: seq<Edge>) {
    forall i :: 0 <= i < |edges| ==> edges[i].efficiency > 0.0
  }

  /** Every edge joins two nodes of the graph. */
  predicate EndpointsKnown(g: Graph) {
    forall i :: 0 <= i < |g.edges| ==> g.edges[i].from in NodeIds(g) && g.edges[i].to in NodeIds(g)
  }
}
