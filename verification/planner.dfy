/** The driver of the toll-aware planner's search: the loop that pops,
    expands and stops, and the answer it reports. */
module Planner {
  import opened Common
  import opened Graph
  import opened MinHeap
  import opened Adjacency
  import opened Routes
  import opened PathWalk
  import opened SearchState
  import opened Search

  /** How one pass of the main loop ends: the loop goes on, the destination
      was popped, or the expansion threw. */
  datatype Outcome = Continue | Arrived | Threw

  /** One pass of the main loop: pop the nearest entry; stop at the
      destination; throw on a popped id with no neighbour list; otherwise
      expand the popped node with its current distance. */
  method Iterate(g: Graph, start: NodeId, end: NodeId, adj: AdjacencyList, s: State,
                 ghost done: set<NodeId>, ghost rank: map<NodeId, nat>)
      returns (o: Outcome, r: State, ghost done': set<NodeId>, ghost rank': map<NodeId, nat>)
    requires Ready(g, adj) && Invariant(g, adj, start, end, s, done, rank) && !IsEmpty(s.heap)
    ensures o.Threw? ==> start !in adj && start != end
    ensures o.Arrived? ==> Finished(g, adj, start, end, r, done', rank', true) && (start in adj || start == end)
    ensures o.Continue? ==> Invariant(g, adj, start, end, r, done', rank') && start in adj
    ensures o.Continue? ==> |adj.Keys - done'| < |adj.Keys - done| || (done' == done && |r.heap| < |s.heap|)
  {
    var top, rest := ExtractMin(s.heap);
    var e := top.value;
    if e.id == end {
      Arrive(g, adj, start, end, s, done, rank, e);
      return Arrived, s, done, rank;
    }
    if e.id !in adj {
      assert e.id in s.dist;
      return Threw, s, done, rank;
    }
    PoppedIsFinite(adj, start, s, done, e);
    r := ProcessNode(g, adj, e.id, s.(heap := rest));
    done', rank' := Advance(g, adj, start, end, s, done, rank, e, rest, r);
    o := Continue;
  }

  /** The main loop of `dijkstra`: repeatedly pops the nearest frontier
      entry, stops when it is the destination, and otherwise expands the
      popped node with its current distance. A start that is not a node
      makes the expansion read a missing list, which throws, unless it is
      also the destination. */
  method MainLoop(g: Graph, start: NodeId, end: NodeId, adj: AdjacencyList)
    returns (failed: bool, s: State, ghost done: set<NodeId>, ghost rank: map<NodeId, nat>, ghost reached: bool)
    requires Ready(g, adj)
    ensures failed <==> start !in adj && start != end
    ensures !failed ==> Finished(g, adj, start, end, s, done, rank, reached)
  {
    s := InitialState(g, start);
    done, rank, reached, failed := {}, map[], false, false;
    InitialInvariant(g, adj, start, end);
    while !IsEmpty(s.heap)
      invariant Invariant(g, adj, start, end, s, done, rank)
      invariant IsEmpty(s.heap) ==> start in adj || start == end
      decreases |adj.Keys - done|, |s.heap|
    {
      var o, next, done', rank' := Iterate(g, start, end, adj, s, done, rank);
      if o.Threw? {
        failed := true;
        break;
      }
      s, done, rank := next, done', rank';
      if o.Arrived? {
        reached := true;
        break;
      }
    }
  }

  /** `dijkstra`: the main loop, then the walk back from the destination;
      a path of one node, or an unreached destination, is reported as no
      path (empty, at Infinity). */
  method Dijkstra(g: Graph, start: NodeId, end: NodeId, adj: AdjacencyList) returns (r: Result<Answer, JsError>)
    requires Ready(g, adj)
    ensures r.Failure? <==> start !in adj && start != end
    ensures r.Success? ==> var a := r.value;
              && (a.path == [] <==> a.totalCost == Inf)
              && (a.path != [] <==> start != end && Reachable(adj, start, end))
              && (a.path != [] ==>
                    && |a.path| >= 2 && IsRouteFrom(adj, a.path, start, end)
                    && (forall i, k :: 0 <= i < k < |a.path| ==> a.path[i] != a.path[k])
                    && a.totalCost == PathCost(g, adj, a.path))
              && (start != end ==> forall p :: IsRouteFrom(adj, p, start, end) ==> a.totalCost.AtMost(PathCost(g, adj, p)))
  {
    var failed, s, done, rank, reached := MainLoop(g, start, end, adj);
    if failed {
      return Failure(TypeError);
    }
    var path := WalkBack(s.prev, end, done, rank);
    var answer := if |path| > 1 && end in s.dist && s.dist[end] != Inf then Answer(path, s.dist[end]) else Answer([], Inf);
    Conclude(g, adj, start, end, s, done, rank, reached, path, answer);
    r := Success(answer);
  }
}
