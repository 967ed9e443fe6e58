/** The state of the toll-aware planner's search and the facts about it
    that the loop keeps: tentative distances, predecessors, the frontier,
    and what relaxing a hop means. */
module SearchState {
  import opened Common
  import opened Graph
  import opened CostModel
  import opened MinHeap
  import opened Adjacency
  import opened Routes

  /** Tentative distances, predecessors (`None` is the source's `null`; a
      missing key is `undefined`) and the frontier. */
  datatype State = State(dist: map<NodeId, Ext>, prev: map<NodeId, Option<NodeId>>, heap: seq<Entry>)

  /** The search's answer; "no path" is the empty path with Infinity. */
  datatype Answer = Answer(path: seq<NodeId>, totalCost: Ext)

  /** The search state before the first pop: only the start is at a finite
      distance (0), no node has a predecessor, and the frontier holds just
      the start. */
  function InitialState(g: Graph, start: NodeId): (s: State)
    ensures s.dist.Keys == NodeIds(g) + {start} && s.prev.Keys == NodeIds(g)
    ensures forall v :: v in s.dist ==> (s.dist[v].Fin? <==> v == start)
    ensures s.dist[start] == Fin(0.0)
    ensures forall v :: v in s.prev ==> s.prev[v] == None
    ensures IsHeap(s.heap) && multiset(s.heap) == multiset{Entry(start, 0.0)}
  {
    var dist := map v | v in NodeIds(g) :: Inf;
    var prev := map v | v in NodeIds(g) :: None;
    State(dist[start := Fin(0.0)], prev, [Entry(start, 0.0)])
  }

  /** Every hop along `ns` out of `u` is already no shorter than its
      target's distance. */
  predicate RelaxedOver(g: Graph, u: NodeId, ns: seq<Neighbor>, dist: map<NodeId, Ext>)
    requires Loaded(g) && u in dist
  {
    forall j :: 0 <= j < |ns| ==> ns[j].to in dist && dist[ns[j].to].AtMost(dist[u].Plus(Cost(g, u, ns[j])))
  }

  /** Every hop out of `u` is already no shorter than its target's distance. */
  predicate RelaxedAt(g: Graph, adj: AdjacencyList, u: NodeId, dist: map<NodeId, Ext>)
    requires Loaded(g) && u in adj && u in dist
  {
    RelaxedOver(g, u, adj[u], dist)
  }

  /** Distances cover every node and the start, which is at 0; predecessor
      slots cover every node; finite distances are non-negative. */
  ghost predicate Shaped(adj: AdjacencyList, start: NodeId, s: State) {
    && s.dist.Keys == adj.Keys + {start}
    && s.prev.Keys == adj.Keys
    && s.dist[start] == Fin(0.0)
    && forall v :: v in s.dist && s.dist[v].Fin? ==> s.dist[v].value >= 0.0
  }

  /** Every frontier entry is at least its node's current distance, and
      every unsettled node at a finite distance has an entry at exactly that
      distance. */
  ghost predicate FrontierOk(s: State, done: set<NodeId>) {
    && (forall e :: e in s.heap ==> e.id in s.dist && s.dist[e.id].Fin? && s.dist[e.id].value <= e.dist)
    && (forall v :: v in s.dist && s.dist[v].Fin? && v !in done ==> Entry(v, s.dist[v].value) in s.heap)
  }

  /** Settled nodes (those expanded so far) are nodes other than the
      destination, at finite distances no larger than any frontier entry,
      with every hop out of them relaxed. */
  ghost predicate SettledOk(g: Graph, adj: AdjacencyList, end: NodeId, s: State, done: set<NodeId>)
    requires Loaded(g)
  {
    && done <= adj.Keys && done <= s.dist.Keys && end !in done
    && forall u :: u in done ==>
         && s.dist[u].Fin?
         && (forall e :: e in s.heap ==> s.dist[u].value <= e.dist)
         && RelaxedAt(g, adj, u, s.dist)
  }

  /** The distance of `v` is that of `u` plus the cost of some entry of
      `u` leading to `v`. */
  ghost predicate LinkRealised(g: Graph, adj: AdjacencyList, dist: map<NodeId, Ext>, u: NodeId, v: NodeId)
    requires Loaded(g)
  {
    && u in adj && u in dist && v in dist && dist[u].Fin? && dist[v].Fin?
    && exists j :: 0 <= j < |adj[u]| && adj[u][j].to == v && dist[v] == dist[u].Plus(Cost(g, u, adj[u][j]))
  }

  /** Every recorded predecessor realises its node's distance; every node
      other than the start at a finite distance has one; the start has
      none. */
  ghost predicate LinksOk(g: Graph, adj: AdjacencyList, start: NodeId, s: State)
    requires Loaded(g)
  {
    && (forall v :: v in s.prev && s.prev[v].Some? ==> LinkRealised(g, adj, s.dist, s.prev[v].value, v))
    && (forall v :: v in s.prev && v in s.dist && v != start && s.dist[v].Fin? ==> s.prev[v].Some?)
    && (start in s.prev ==> s.prev[start].None?)
  }

  /** Relaxed hops stay relaxed when the source keeps its distance and
      targets only get closer. */
  lemma RelaxedStays(g: Graph, adj: AdjacencyList, u: NodeId, d0: map<NodeId, Ext>, d1: map<NodeId, Ext>)
    requires Loaded(g) && u in adj && u in d0 && RelaxedAt(g, adj, u, d0)
    requires d1.Keys == d0.Keys && d1[u] == d0[u] && forall v :: v in d0 ==> d1[v].AtMost(d0[v])
    ensures RelaxedAt(g, adj, u, d1)
  {
    forall j | 0 <= j < |adj[u]|
      ensures d1[adj[u][j].to].AtMost(d1[u].Plus(Cost(g, u, adj[u][j])))
    {
      assert d0[adj[u][j].to].AtMost(d0[u].Plus(Cost(g, u, adj[u][j])));
    }
  }

  /** The shape of a state and its links depend on its tables only, not
      on its frontier. */
  lemma TablesOnly(g: Graph, adj: AdjacencyList, start: NodeId, s: State, t: State)
    requires Loaded(g) && t.dist == s.dist && t.prev == s.prev
    ensures Shaped(adj, start, t) == Shaped(adj, start, s)
    ensures LinksOk(g, adj, start, t) == LinksOk(g, adj, start, s)
  {
  }

  /** An expansion of `u` keeps the key sets of both tables and `u`'s own
      distance. */
  ghost predicate KeepsTables(u: NodeId, s: State, r: State) {
    && r.dist.Keys == s.dist.Keys && r.prev.Keys == s.prev.Keys
    && u in s.dist && u in r.dist && r.dist[u] == s.dist[u]
  }

  /** No distance grows. */
  ghost predicate NoneGrew(s: State, r: State) {
    forall v :: v in s.dist ==> v in r.dist && r.dist[v].AtMost(s.dist[v])
  }

  /** Every node whose distance dropped has `u` as predecessor, a frontier
      entry at its new distance, and that distance is realised by one of the
      hops `ns` out of `u`. */
  ghost predicate LoweredVia(g: Graph, u: NodeId, ns: seq<Neighbor>, s: State, r: State)
    requires Loaded(g) && u in s.dist
  {
    forall v :: v in s.dist && v in r.dist && r.dist[v] != s.dist[v] ==>
      && v in r.prev && r.prev[v] == Some(u)
      && r.dist[v].Fin? && Entry(v, r.dist[v].value) in r.heap
      && exists i :: 0 <= i < |ns| && ns[i].to == v && r.dist[v] == s.dist[u].Plus(Cost(g, u, ns[i]))
  }

  /** Nodes that keep their distance keep their predecessor. */
  ghost predicate PrevKept(s: State, r: State) {
    forall v :: v in s.prev && v in s.dist && v in r.dist && r.dist[v] == s.dist[v] ==>
      v in r.prev && r.prev[v] == s.prev[v]
  }

  /** The frontier only gains entries, each no shorter than `u`'s distance
      and no shorter than its node's new distance. */
  ghost predicate HeapGrew(u: NodeId, s: State, r: State)
    requires u in s.dist && s.dist[u].Fin?
  {
    && multiset(s.heap) <= multiset(r.heap)
    && forall e :: e in r.heap ==>
         e in s.heap || (e.id in s.dist && e.id in r.dist && r.dist[e.id].Fin? && r.dist[e.id].value <= e.dist && s.dist[u].value <= e.dist)
  }
}
