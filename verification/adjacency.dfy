/** The neighbour index of the toll-aware planner: every stored edge is
    entered twice, once under each endpoint, with the fuel figure of the
    edge. */
module Adjacency {
  import opened Common
  import opened Graph
  import opened CostModel

  /** One neighbour entry: the node reached and the fuel burnt getting there. */
  datatype Neighbor = Neighbor(to: NodeId, fuelUsed: real)

  type AdjacencyList = map<NodeId, seq<Neighbor>>

  /** The entries one edge gives node `k`: the forward entry if `k` is its
      `from`, then the backward entry if `k` is its `to`. */
  function Contribution(e: Edge, k: NodeId): seq<Neighbor>
    requires e.efficiency > 0.0
  {
    (if e.from == k then [Neighbor(e.to, FuelUsed(e))] else [])
    + (if e.to == k then [Neighbor(e.from, FuelUsed(e))] else [])
  }

  /** Reference definition of the list of node `k`: the contributions of
      the edges, in edge order. */
  function NeighboursOf(edges: seq<Edge>, k: NodeId): seq<Neighbor>
    requires AllPositiveEfficiency(edges)
  {
    if |edges| == 0 then []
    else NeighboursOf(edges[..|edges| - 1], k) + Contribution(edges[|edges| - 1], k)
  }

  /** `adj` is the index of `g`: one list per node id, holding its entries. */
  predicate IsAdjacencyOf(adj: AdjacencyList, g: Graph)
    requires AllPositiveEfficiency(g.edges)
  {
    && adj.Keys == NodeIds(g)
    && forall k :: k in adj ==> adj[k] == NeighboursOf(g.edges, k)
  }

  /** Edge `e` joins `k` to the entry `n`, in either orientation. */
  predicate Yields(e: Edge, k: NodeId, n: Neighbor)
    requires e.efficiency > 0.0
  {
    (e.from == k && n == Neighbor(e.to, FuelUsed(e))) || (e.to == k && n == Neighbor(e.from, FuelUsed(e)))
  }

  /** An entry is in the list of `k` exactly when some edge yields it. */
  lemma {:induction false} NeighboursMembership(edges: seq<Edge>, k: NodeId, n: Neighbor)
    requires AllPositiveEfficiency(edges)
    ensures n in NeighboursOf(edges, k) <==> exists i :: 0 <= i < |edges| && Yields(edges[i], k, n)
    decreases |edges|
  {
    if |edges| > 0 {
      var init := edges[..|edges| - 1];
      NeighboursMembership(init, k, n);
      assert forall i :: 0 <= i < |init| ==> init[i] == edges[i];
      if n in NeighboursOf(edges, k) && n !in NeighboursOf(init, k) {
        assert Yields(edges[|edges| - 1], k, n);
      }
    }
  }

  /** The index is symmetric: `v` is listed under `u` with fuel `f` exactly
      when `u` is listed under `v` with fuel `f`. */
  lemma NeighboursSymmetric(edges: seq<Edge>, u: NodeId, v: NodeId, f: real)
    requires AllPositiveEfficiency(edges)
    ensures Neighbor(v, f) in NeighboursOf(edges, u) <==> Neighbor(u, f) in NeighboursOf(edges, v)
  {
    NeighboursMembership(edges, u, Neighbor(v, f));
    NeighboursMembership(edges, v, Neighbor(u, f));
    if Neighbor(v, f) in NeighboursOf(edges, u) {
      var i :| 0 <= i < |edges| && Yields(edges[i], u, Neighbor(v, f));
      assert Yields(edges[i], v, Neighbor(u, f));
    }
    if Neighbor(u, f) in NeighboursOf(edges, v) {
      var i :| 0 <= i < |edges| && Yields(edges[i], v, Neighbor(u, f));
      assert Yields(edges[i], u, Neighbor(v, f));
    }
  }

  /** Number of edges whose `from` (resp. `to`) is `k`. */
  function CountFrom(edges: seq<Edge>, k: NodeId): nat {
    if |edges| == 0 then 0
    else CountFrom(edges[..|edges| - 1], k) + (if edges[|edges| - 1].from == k then 1 else 0)
  }

  function CountTo(edges: seq<Edge>, k: NodeId): nat {
    if |edges| == 0 then 0
    else CountTo(edges[..|edges| - 1], k) + (if edges[|edges| - 1].to == k then 1 else 0)
  }

  /** Each edge adds one entry per endpoint: the list of `k` is as long as
      the number of edge ends at `k` (a self-loop counts twice). */
  lemma {:induction false} NeighboursLength(edges: seq<Edge>, k: NodeId)
    requires AllPositiveEfficiency(edges)
    ensures |NeighboursOf(edges, k)| == CountFrom(edges, k) + CountTo(edges, k)
    decreases |edges|
  {
    if |edges| > 0 {
      NeighboursLength(edges[..|edges| - 1], k);
    }
  }

  /** Every entry of a well-formed index names a key of the index, and
      carries a non-negative fuel figure when attributes are valid. */
  lemma EntriesAreNodes(adj: AdjacencyList, g: Graph, k: NodeId, j: nat)
    requires AllPositiveEfficiency(g.edges) && IsAdjacencyOf(adj, g) && EndpointsKnown(g)
    requires k in adj && j < |adj[k]|
    ensures adj[k][j].to in adj
    ensures AllValidAttributes(g.edges) ==> adj[k][j].fuelUsed >= 0.0
  {
    NeighboursMembership(g.edges, k, adj[k][j]);
    var i :| 0 <= i < |g.edges| && Yields(g.edges[i], k, adj[k][j]);
    if AllValidAttributes(g.edges) {
      assert ValidAttributes(g.edges[i]);
    }
  }

  /** The list of `k` grows by the contribution of the next edge. */
  lemma NeighboursStep(edges: seq<Edge>, i: nat, k: NodeId)
    requires AllPositiveEfficiency(edges) && i < |edges|
    ensures NeighboursOf(edges[..i + 1], k) == NeighboursOf(edges[..i], k) + Contribution(edges[i], k)
  {
    assert edges[..i + 1][..i] == edges[..i];
  }

  /** Pushing the two entries of edge `i` onto the lists built from the
      edges before it yields the lists built from the edges up to it. */
  lemma PushBothEntries(edges: seq<Edge>, i: nat, before: AdjacencyList, after: AdjacencyList)
    requires AllPositiveEfficiency(edges) && i < |edges|
    requires edges[i].from in before && edges[i].to in before
    requires forall k :: k in before ==> before[k] == NeighboursOf(edges[..i], k)
    requires var e := edges[i];
             var mid := before[e.from := before[e.from] + [Neighbor(e.to, FuelUsed(e))]];
             after == mid[e.to := mid[e.to] + [Neighbor(e.from, FuelUsed(e))]]
    ensures after.Keys == before.Keys
    ensures forall k :: k in after ==> after[k] == NeighboursOf(edges[..i + 1], k)
  {
    forall k | k in after
      ensures after[k] == NeighboursOf(edges[..i + 1], k)
    {
      NeighboursStep(edges, i, k);
    }
  }

  /** Every edge of `edges` joins two ids of `ids`. */
  predicate EndsAmong(edges: seq<Edge>, ids: set<NodeId>) {
    forall t :: 0 <= t < |edges| ==> edges[t].from in ids && edges[t].to in ids
  }

  lemma EndsAmongStep(edges: seq<Edge>, i: nat, ids: set<NodeId>)
    requires i < |edges| && EndsAmong(edges[..i], ids)
    requires edges[i].from in ids && edges[i].to in ids
    ensures EndsAmong(edges[..i + 1], ids)
  {
    assert forall t :: 0 <= t < i ==> edges[..i + 1][t] == edges[..i][t];
  }

  /** An empty list for every node id (ids repeated in the node list map to
      the same key). */
  method EmptyLists(nodes: seq<Node>) returns (adj: AdjacencyList)
    ensures adj.Keys == NodeIds(Graph(nodes, []))
    ensures forall k :: k in adj ==> adj[k] == []
  {
    adj := map[];
    var j := 0;
    while j < |nodes|
      invariant j <= |nodes|
      invariant adj.Keys == set n | n in nodes[..j] :: n.id
      invariant forall k :: k in adj ==> adj[k] == []
    {
      assert nodes[..j + 1] == nodes[..j] + [nodes[j]];
      adj := adj[nodes[j].id := []];
      j := j + 1;
    }
    assert nodes[..j] == nodes;
  }

  /** `buildAdjacencyList`: an empty list per node, then both entries of
      every edge. An edge naming an unknown node makes the source push onto
      a missing list, which throws. */
  method BuildAdjacency(g: Graph) returns (r: Result<AdjacencyList, JsError>)
    requires AllPositiveEfficiency(g.edges)
    ensures r.Success? <==> EndpointsKnown(g)
    ensures r.Success? ==> IsAdjacencyOf(r.value, g)
  {
    var adj := EmptyLists(g.nodes);
    ghost var ids := NodeIds(g);
    assert NodeIds(Graph(g.nodes, [])) == ids;
    var i := 0;
    while i < |g.edges|
      invariant i <= |g.edges|
      invariant adj.Keys == ids
      invariant forall k :: k in adj ==> adj[k] == NeighboursOf(g.edges[..i], k)
      invariant EndsAmong(g.edges[..i], ids)
    {
      var e := g.edges[i];
      var fuel := FuelUsed(e);
      if e.from !in adj {
        return Failure(TypeError);
      }
      ghost var before := adj;
      adj := adj[e.from := adj[e.from] + [Neighbor(e.to, fuel)]];
      if e.to !in adj {
        return Failure(TypeError);
      }
      adj := adj[e.to := adj[e.to] + [Neighbor(e.from, fuel)]];
      PushBothEntries(g.edges, i, before, adj);
      EndsAmongStep(g.edges, i, ids);
      i := i + 1;
    }
    assert g.edges[..i] == g.edges;
    return Success(adj);
  }
}
