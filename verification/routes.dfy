/** Routes through the neighbour index and what they cost: the cost of one
    hop as the search prices it, the cheapest hop between two nodes, and the
    cost of a whole route. These are the yardsticks the search's answer is
    measured against. */
module Routes {
  import opened Common
  import opened Graph
  import opened CostModel
  import opened Adjacency

  /** What a search needs: a loaded graph and its neighbour index. */
  predicate Ready(g: Graph, adj: AdjacencyList) {
    && Loaded(g)
    && EndpointsKnown(g)
    && IsAdjacencyOf(adj, g)
  }

  /** Cost of leaving `u` along entry `n`: its fuel at the fuel price plus
      the toll of the first stored edge joining `u` and `n.to`. */
  function Cost(g: Graph, u: NodeId, n: Neighbor): real
    requires Loaded(g)
  {
    HopCost(g.edges, u, n.to, n.fuelUsed)
  }

  lemma CostNonNegative(g: Graph, adj: AdjacencyList, u: NodeId, j: nat)
    requires Ready(g, adj) && u in adj && j < |adj[u]|
    ensures adj[u][j].to in adj
    ensures Cost(g, u, adj[u][j]) >= 0.0
  {
    EntriesAreNodes(adj, g, u, j);
  }

  /** `v` is listed under `u`. */
  predicate IsNeighbour(adj: AdjacencyList, u: NodeId, v: NodeId) {
    u in adj && exists j :: 0 <= j < |adj[u]| && adj[u][j].to == v
  }

  /** A route: a non-empty node sequence whose consecutive nodes are
      neighbours. */
  predicate IsRoute(adj: AdjacencyList, p: seq<NodeId>) {
    |p| >= 1 && forall i :: 0 <= i < |p| - 1 ==> IsNeighbour(adj, p[i], p[i + 1])
  }

  /** A route from `a` to `b`. */
  predicate IsRouteFrom(adj: AdjacencyList, p: seq<NodeId>, a: NodeId, b: NodeId) {
    IsRoute(adj, p) && p[0] == a && p[|p| - 1] == b
  }

  ghost predicate Reachable(adj: AdjacencyList, a: NodeId, b: NodeId) {
    exists p :: IsRouteFrom(adj, p, a, b)
  }

  /** Cheapest entry among `ns` (the list of `u`) leading to `v`; Infinity
      when none does. */
  function MinCost(g: Graph, u: NodeId, ns: seq<Neighbor>, v: NodeId): (c: Ext)
    requires Loaded(g)
    ensures c.Fin? <==> exists j :: 0 <= j < |ns| && ns[j].to == v
    ensures forall j :: 0 <= j < |ns| && ns[j].to == v ==> c.AtMost(Fin(Cost(g, u, ns[j])))
    ensures c.Fin? ==> exists j :: 0 <= j < |ns| && ns[j].to == v && c == Fin(Cost(g, u, ns[j]))
    decreases |ns|
  {
    if |ns| == 0 then Inf
    else
      var rest := MinCost(g, u, ns[1..], v);
      assert forall j :: 1 <= j < |ns| ==> ns[j] == ns[1..][j - 1];
      if ns[0].to == v && Fin(Cost(g, u, ns[0])).Below(rest) then Fin(Cost(g, u, ns[0])) else rest
  }

  /** The cheapest single hop from `u` to `v`. */
  function BestHop(g: Graph, adj: AdjacencyList, u: NodeId, v: NodeId): Ext
    requires Loaded(g)
  {
    if u in adj then MinCost(g, u, adj[u], v) else Inf
  }

  /** The cost of a route, each hop at its cheapest. */
  function PathCost(g: Graph, adj: AdjacencyList, p: seq<NodeId>): Ext
    requires Loaded(g)
    decreases |p|
  {
    if |p| <= 1 then Fin(0.0)
    else PathCost(g, adj, p[..|p| - 1]).Add(BestHop(g, adj, p[|p| - 2], p[|p| - 1]))
  }

  /** Hops are never negative, and a route costs a finite, non-negative
      amount. */
  lemma {:induction false} RouteCostFinite(g: Graph, adj: AdjacencyList, p: seq<NodeId>)
    requires Ready(g, adj) && IsRoute(adj, p)
    ensures PathCost(g, adj, p).Fin? && PathCost(g, adj, p).value >= 0.0
    decreases |p|
  {
    if |p| > 1 {
      var q := p[..|p| - 1];
      assert forall i :: 0 <= i < |q| ==> q[i] == p[i];
      RouteCostFinite(g, adj, q);
      BestHopNonNegative(g, adj, p[|p| - 2], p[|p| - 1]);
    }
  }

  lemma BestHopNonNegative(g: Graph, adj: AdjacencyList, u: NodeId, v: NodeId)
    requires Ready(g, adj)
    ensures IsNeighbour(adj, u, v) <==> BestHop(g, adj, u, v).Fin?
    ensures BestHop(g, adj, u, v).Fin? ==> BestHop(g, adj, u, v).value >= 0.0
  {
    if BestHop(g, adj, u, v).Fin? {
      var j :| 0 <= j < |adj[u]| && adj[u][j].to == v && BestHop(g, adj, u, v) == Fin(Cost(g, u, adj[u][j]));
      CostNonNegative(g, adj, u, j);
    }
  }

  /** Extending a route never makes it cheaper. */
  lemma {:induction false} PrefixCostAtMost(g: Graph, adj: AdjacencyList, p: seq<NodeId>, k: nat)
    requires Ready(g, adj) && 1 <= k <= |p|
    ensures PathCost(g, adj, p[..k]).AtMost(PathCost(g, adj, p))
    decreases |p| - k
  {
    if k < |p| {
      PrefixCostAtMost(g, adj, p, k + 1);
      BestHopNonNegative(g, adj, p[k - 1], p[k]);
      PathCostStep(g, adj, p, k);
    } else {
      assert p[..k] == p;
    }
  }

  /** The prefix of length `k + 1` costs the prefix of length `k` plus the
      cheapest hop between their last nodes. */
  lemma PathCostStep(g: Graph, adj: AdjacencyList, p: seq<NodeId>, k: nat)
    requires Loaded(g) && 1 <= k < |p|
    ensures PathCost(g, adj, p[..k + 1]) == PathCost(g, adj, p[..k]).Add(BestHop(g, adj, p[k - 1], p[k]))
  {
    var q := p[..k + 1];
    assert q[..k] == p[..k] && q[k - 1] == p[k - 1] && q[k] == p[k];
  }
}
