/** Dijkstra's search of the toll-aware planner over the neighbour index,
    with a binary min-heap frontier and no visited set: every popped entry
    is expanded with the node's current distance, so stale entries are
    harmless. */
module Search {
  import opened Common
  import opened Graph
  import opened CostModel
  import opened MinHeap
  import opened Adjacency
  import opened Routes
  import opened PathWalk
  import opened SearchState

  /** One relaxation: the hop from `u` along `n` replaces the neighbour's
      distance when strictly shorter, recording `u` as its predecessor and
      pushing the new distance. Distances never grow. */
  method Relax(g: Graph, u: NodeId, n: Neighbor, s: State) returns (r: State)
    requires Loaded(g) && u in s.dist && s.dist[u].Fin? && IsHeap(s.heap)
    ensures IsHeap(r.heap) && r.dist.Keys == s.dist.Keys
    ensures forall v :: v in s.dist ==> r.dist[v].AtMost(s.dist[v])
    ensures n.to in s.dist ==> r.dist[n.to].AtMost(s.dist[u].Plus(Cost(g, u, n)))
    ensures forall v :: v in s.dist && r.dist[v] != s.dist[v] ==>
              && v == n.to
              && r.dist[v] == s.dist[u].Plus(Cost(g, u, n))
              && r.prev == s.prev[v := Some(u)]
              && multiset(r.heap) == multiset(s.heap) + multiset{Entry(v, r.dist[v].value)}
    ensures r.dist == s.dist ==> r == s
    ensures r != s <==> n.to in s.dist && s.dist[u].Plus(Cost(g, u, n)).Below(s.dist[n.to])
    ensures r != s ==> r.dist == s.dist[n.to := s.dist[u].Plus(Cost(g, u, n))] && r.prev == s.prev[n.to := Some(u)]
    ensures r != s ==> multiset(r.heap) == multiset(s.heap) + multiset{Entry(n.to, s.dist[u].value + Cost(g, u, n))}
  {
    var newDist := s.dist[u].value + Cost(g, u, n);
    if n.to in s.dist && Fin(newDist).Below(s.dist[n.to]) {
      var heap := Insert(s.heap, Entry(n.to, newDist));
      r := State(s.dist[n.to := Fin(newDist)], s.prev[n.to := Some(u)], heap);
    } else {
      r := s;
    }
  }

  /** The entries `ns` of `u` lead to known nodes at non-negative cost, and
      `u` is at a finite distance. */
  predicate Hops(g: Graph, u: NodeId, ns: seq<Neighbor>, s: State) {
    && Loaded(g) && u in s.dist && s.dist[u].Fin?
    && forall i :: 0 <= i < |ns| ==> ns[i].to in s.dist && ns[i].to in s.prev && Cost(g, u, ns[i]) >= 0.0
  }

  /** What holds after the first `j` entries `ns` of `u` have been relaxed,
      starting from `s`. */
  ghost predicate ExpandedUpTo(g: Graph, u: NodeId, ns: seq<Neighbor>, s: State, r: State, j: nat)
    requires Hops(g, u, ns, s)
  {
    && j <= |ns|
    && KeepsTables(u, s, r)
    && NoneGrew(s, r)
    && RelaxedOver(g, u, ns[..j], r.dist)
    && LoweredVia(g, u, ns[..j], s, r)
    && PrevKept(s, r)
    && HeapGrew(u, s, r)
    && (RelaxedOver(g, u, ns, s.dist) ==> r == s)
  }

  /** Relaxing entry `j` of `ns` lowered its target's distance, turning
      `before` into `r`. */
  ghost predicate Lowers(g: Graph, u: NodeId, ns: seq<Neighbor>, before: State, r: State, j: nat)
    requires Loaded(g) && j < |ns| && u in before.dist
  {
    var n := ns[j];
    var d := before.dist[u].Plus(Cost(g, u, n));
    && n.to in before.dist && d.Below(before.dist[n.to])
    && r.dist == before.dist[n.to := d] && r.prev == before.prev[n.to := Some(u)]
    && multiset(r.heap) == multiset(before.heap) + multiset{Entry(n.to, d.value)}
  }

  /** Relaxing entry `j` extends what holds to the first `j + 1` entries. */
  lemma ExpandStep(g: Graph, u: NodeId, ns: seq<Neighbor>, s: State, before: State, r: State, j: nat)
    requires Hops(g, u, ns, s) && j < |ns| && ExpandedUpTo(g, u, ns, s, before, j)
    requires var n := ns[j];
             var d := before.dist[u].Plus(Cost(g, u, n));
             && (r != before <==> n.to in before.dist && d.Below(before.dist[n.to]))
             && (r != before ==> r.dist == before.dist[n.to := d] && r.prev == before.prev[n.to := Some(u)])
             && (r != before ==> multiset(r.heap) == multiset(before.heap) + multiset{Entry(n.to, d.value)})
    ensures ExpandedUpTo(g, u, ns, s, r, j + 1)
  {
    if r == before {
      KeptStep(g, u, ns, s, r, j);
    } else {
      assert Lowers(g, u, ns, before, r, j);
      LoweredStep(g, u, ns, s, before, r, j);
    }
  }

  /** Entry `j` was already relaxed: nothing changes. */
  lemma KeptStep(g: Graph, u: NodeId, ns: seq<Neighbor>, s: State, r: State, j: nat)
    requires Hops(g, u, ns, s) && j < |ns| && ExpandedUpTo(g, u, ns, s, r, j)
    requires ns[j].to in r.dist ==> !r.dist[u].Plus(Cost(g, u, ns[j])).Below(r.dist[ns[j].to])
    ensures ExpandedUpTo(g, u, ns, s, r, j + 1)
  {
    RelaxedOverLonger(g, u, ns, r.dist, j);
    LoweredViaLonger(g, u, ns, s, r, j);
  }

  /** Entry `j` lowered its target's distance. */
  lemma LoweredStep(g: Graph, u: NodeId, ns: seq<Neighbor>, s: State, before: State, r: State, j: nat)
    requires Hops(g, u, ns, s) && j < |ns| && ExpandedUpTo(g, u, ns, s, before, j)
    requires Lowers(g, u, ns, before, r, j)
    ensures ExpandedUpTo(g, u, ns, s, r, j + 1)
  {
    ChangedDistances(g, u, ns, s, before, r, j);
    ChangedFrontier(g, u, ns, s, before, r, j);
    ChangedNodes(g, u, ns, s, before, r, j);
    assert before == s ==> !s.dist[ns[j].to].AtMost(s.dist[u].Plus(Cost(g, u, ns[j])));
  }

  /** A relaxed hop extends the relaxed prefix by one entry. */
  lemma RelaxedOverLonger(g: Graph, u: NodeId, ns: seq<Neighbor>, dist: map<NodeId, Ext>, j: nat)
    requires Loaded(g) && u in dist && j < |ns| && RelaxedOver(g, u, ns[..j], dist)
    requires ns[j].to in dist && dist[ns[j].to].AtMost(dist[u].Plus(Cost(g, u, ns[j])))
    ensures RelaxedOver(g, u, ns[..j + 1], dist)
  {
    var ms, ls := ns[..j + 1], ns[..j];
    forall i | 0 <= i < |ms|
      ensures ms[i].to in dist && dist[ms[i].to].AtMost(dist[u].Plus(Cost(g, u, ms[i])))
    {
      if i < j {
        assert ms[i] == ls[i];
      }
    }
  }

  /** A hop among the first `j` entries is among the first `j + 1`. */
  lemma LoweredViaLonger(g: Graph, u: NodeId, ns: seq<Neighbor>, s: State, r: State, j: nat)
    requires Loaded(g) && u in s.dist && j < |ns| && LoweredVia(g, u, ns[..j], s, r)
    ensures LoweredVia(g, u, ns[..j + 1], s, r)
  {
    var ms, ls := ns[..j + 1], ns[..j];
    forall v | v in s.dist && v in r.dist && r.dist[v] != s.dist[v]
      ensures exists i :: 0 <= i < |ms| && ms[i].to == v && r.dist[v] == s.dist[u].Plus(Cost(g, u, ms[i]))
    {
      var i :| 0 <= i < |ls| && ls[i].to == v && r.dist[v] == s.dist[u].Plus(Cost(g, u, ls[i]));
      assert ms[i] == ls[i];
    }
  }

  lemma ChangedDistances(g: Graph, u: NodeId, ns: seq<Neighbor>, s: State, before: State, r: State, j: nat)
    requires Hops(g, u, ns, s) && j < |ns|
    requires KeepsTables(u, s, before) && NoneGrew(s, before) && PrevKept(s, before)
    requires RelaxedOver(g, u, ns[..j], before.dist)
    requires Lowers(g, u, ns, before, r, j)
    ensures KeepsTables(u, s, r) && NoneGrew(s, r) && PrevKept(s, r)
    ensures RelaxedOver(g, u, ns[..j + 1], r.dist)
  {
    assert ns[j].to != u;
    forall i | 0 <= i < j + 1
      ensures ns[i].to in r.dist && r.dist[ns[i].to].AtMost(r.dist[u].Plus(Cost(g, u, ns[i])))
    {
      if i < j {
        assert ns[..j][i] == ns[i];
      }
    }
  }

  lemma ChangedFrontier(g: Graph, u: NodeId, ns: seq<Neighbor>, s: State, before: State, r: State, j: nat)
    requires Hops(g, u, ns, s) && j < |ns|
    requires KeepsTables(u, s, before) && HeapGrew(u, s, before)
    requires Lowers(g, u, ns, before, r, j)
    ensures HeapGrew(u, s, r)
  {
    forall e | e in r.heap
      ensures e in s.heap || (e.id in s.dist && e.id in r.dist && r.dist[e.id].Fin? && r.dist[e.id].value <= e.dist && s.dist[u].value <= e.dist)
    {
      if e !in before.heap {
        assert e in multiset(r.heap);
      }
    }
  }

  lemma ChangedNodes(g: Graph, u: NodeId, ns: seq<Neighbor>, s: State, before: State, r: State, j: nat)
    requires Hops(g, u, ns, s) && j < |ns|
    requires KeepsTables(u, s, before) && LoweredVia(g, u, ns[..j], s, before)
    requires Lowers(g, u, ns, before, r, j)
    ensures LoweredVia(g, u, ns[..j + 1], s, r)
  {
    var n, ms := ns[j], ns[..j + 1];
    LoweredViaLonger(g, u, ns, s, before, j);
    forall v | v in s.dist && v in r.dist && r.dist[v] != s.dist[v]
      ensures v in r.prev && r.prev[v] == Some(u)
      ensures r.dist[v].Fin? && Entry(v, r.dist[v].value) in r.heap
      ensures exists i :: 0 <= i < |ms| && ms[i].to == v && r.dist[v] == s.dist[u].Plus(Cost(g, u, ms[i]))
    {
      if v == n.to {
        assert Entry(v, r.dist[v].value) in multiset(r.heap);
        assert ms[j] == n;
      } else {
        assert Entry(v, r.dist[v].value) in multiset(before.heap);
        assert Entry(v, r.dist[v].value) in multiset(r.heap);
      }
    }
  }

  /** What expanding `u` (the `forEach` over its entries) does to a state:
      afterwards every hop out of `u` is relaxed; `u` keeps its distance; no
      distance grows; every node whose distance dropped now has `u` as
      predecessor, a frontier entry at its new distance, and that distance
      is realised by a hop from `u`; other nodes keep their predecessor; the
      frontier only gains entries, each no shorter than `u`'s distance.
      Expanding a node whose hops are all relaxed already changes nothing. */
  ghost predicate Expanded(g: Graph, adj: AdjacencyList, u: NodeId, s: State, r: State)
    requires Loaded(g) && u in adj && u in s.dist && s.dist[u].Fin?
  {
    && KeepsTables(u, s, r)
    && NoneGrew(s, r)
    && RelaxedAt(g, adj, u, r.dist)
    && LoweredVia(g, u, adj[u], s, r)
    && PrevKept(s, r)
    && HeapGrew(u, s, r)
    && (RelaxedAt(g, adj, u, s.dist) ==> r == s)
  }

  /** Expanding the popped node `u`. */
  method ProcessNode(g: Graph, adj: AdjacencyList, u: NodeId, s: State) returns (r: State)
    requires Ready(g, adj) && u in adj
    requires adj.Keys <= s.dist.Keys && s.prev.Keys == adj.Keys
    requires s.dist[u].Fin? && IsHeap(s.heap)
    ensures IsHeap(r.heap) && Expanded(g, adj, u, s, r)
  {
    var ns := adj[u];
    forall i | 0 <= i < |ns|
      ensures ns[i].to in adj && Cost(g, u, ns[i]) >= 0.0
    {
      CostNonNegative(g, adj, u, i);
    }
    r := ExpandAll(g, u, ns, s);
    ExpandedAll(g, adj, u, s, r);
  }

  lemma ExpandedAll(g: Graph, adj: AdjacencyList, u: NodeId, s: State, r: State)
    requires Ready(g, adj) && u in adj && u in s.dist && s.dist[u].Fin?
    requires Hops(g, u, adj[u], s) && ExpandedUpTo(g, u, adj[u], s, r, |adj[u]|)
    ensures Expanded(g, adj, u, s, r)
  {
    assert adj[u][..|adj[u]|] == adj[u];
  }

  /** The loop of `ProcessNode` over an explicit entry list. */
  method ExpandAll(g: Graph, u: NodeId, ns: seq<Neighbor>, s: State) returns (r: State)
    requires Hops(g, u, ns, s) && IsHeap(s.heap)
    ensures IsHeap(r.heap) && ExpandedUpTo(g, u, ns, s, r, |ns|)
  {
    r := s;
    var j := 0;
    ExpandedNone(g, u, ns, s);
    while j < |ns|
      invariant IsHeap(r.heap)
      invariant ExpandedUpTo(g, u, ns, s, r, j)
    {
      ghost var before := r;
      r := Relax(g, u, ns[j], r);
      ExpandStep(g, u, ns, s, before, r, j);
      j := j + 1;
    }
  }

  /** Before any entry is relaxed nothing has changed. */
  lemma ExpandedNone(g: Graph, u: NodeId, ns: seq<Neighbor>, s: State)
    requires Hops(g, u, ns, s)
    ensures ExpandedUpTo(g, u, ns, s, s, 0)
  {
    assert ns[..0] == [];
  }

  /** The loop invariant of the search; `done` and `rank` are the settled
      nodes and the order they were settled in. A start that is not a node
      is never expanded. */
  ghost predicate Invariant(g: Graph, adj: AdjacencyList, start: NodeId, end: NodeId, s: State,
                            done: set<NodeId>, rank: map<NodeId, nat>)
    requires Ready(g, adj)
  {
    && Shaped(adj, start, s) && IsHeap(s.heap)
    && FrontierOk(s, done)
    && SettledOk(g, adj, end, s, done)
    && LinksOk(g, adj, start, s)
    && Ranked(s.prev, done, rank)
    && (start !in adj ==> s == InitialState(g, start) && done == {})
  }

  lemma InitialInvariant(g: Graph, adj: AdjacencyList, start: NodeId, end: NodeId)
    requires Ready(g, adj)
    ensures Invariant(g, adj, start, end, InitialState(g, start), {}, map[])
  {
    var s := InitialState(g, start);
    assert adj.Keys == NodeIds(g);
    assert Shaped(adj, start, s);
    assert FrontierOk(s, {}) by {
      assert s.heap == [Entry(start, 0.0)] by {
        assert Entry(start, 0.0) in multiset(s.heap);
      }
    }
    assert SettledOk(g, adj, end, s, {});
    assert LinksOk(g, adj, start, s);
    assert Ranked(s.prev, {}, map[]);
  }

  /** An entry popped for a node not yet settled carries its current
      distance. */
  lemma PoppedIsCurrent(g: Graph, adj: AdjacencyList, start: NodeId, end: NodeId, s: State,
                        done: set<NodeId>, rank: map<NodeId, nat>, e: Entry)
    requires Ready(g, adj) && Invariant(g, adj, start, end, s, done, rank)
    requires e in s.heap && (forall x :: x in s.heap ==> e.dist <= x.dist) && e.id !in done
    ensures s.dist[e.id] == Fin(e.dist)
  {
    assert Entry(e.id, s.dist[e.id].value) in s.heap;
  }

  /** Popping an entry of a settled node: its hops are all relaxed, so the
      expansion changes nothing, and dropping the entry keeps the
      invariant. */
  lemma StaleStep(g: Graph, adj: AdjacencyList, start: NodeId, end: NodeId, s: State,
                  done: set<NodeId>, rank: map<NodeId, nat>, e: Entry, rest: seq<Entry>)
    requires Ready(g, adj) && Invariant(g, adj, start, end, s, done, rank)
    requires e in s.heap && multiset(rest) + multiset{e} == multiset(s.heap) && IsHeap(rest)
    requires e.id in done
    ensures e.id in adj && RelaxedAt(g, adj, e.id, s.dist)
    ensures Invariant(g, adj, start, end, s.(heap := rest), done, rank)
  {
    var t := s.(heap := rest);
    TablesOnly(g, adj, start, s, t);
    forall x | x in rest
      ensures x in s.heap
    {
      assert x in multiset(s.heap);
    }
    StaleFrontier(s, done, e, rest);
    StaleSettled(g, adj, end, s, done, rest);
    assert start in adj;
  }

  /** Dropping an entry of a settled node keeps every unsettled node's entry. */
  lemma StaleFrontier(s: State, done: set<NodeId>, e: Entry, rest: seq<Entry>)
    requires FrontierOk(s, done) && e.id in done && multiset(rest) + multiset{e} == multiset(s.heap)
    requires forall x :: x in rest ==> x in s.heap
    ensures FrontierOk(s.(heap := rest), done)
  {
    forall v | v in s.dist && s.dist[v].Fin? && v !in done
      ensures Entry(v, s.dist[v].value) in rest
    {
      assert Entry(v, s.dist[v].value) in multiset(s.heap);
    }
  }

  /** Dropping frontier entries keeps settled nodes below the frontier. */
  lemma StaleSettled(g: Graph, adj: AdjacencyList, end: NodeId, s: State, done: set<NodeId>, rest: seq<Entry>)
    requires Loaded(g) && SettledOk(g, adj, end, s, done)
    requires forall x :: x in rest ==> x in s.heap
    ensures SettledOk(g, adj, end, s.(heap := rest), done)
  {
  }

  /** Facts about a fresh pop: distances of settled nodes stay put, and a
      node whose distance dropped was unsettled, is not the popped node and
      now sits no lower than it. */
  lemma FreshBasics(g: Graph, adj: AdjacencyList, start: NodeId, end: NodeId, s: State,
                    done: set<NodeId>, e: Entry, rest: seq<Entry>, r: State)
    requires Ready(g, adj) && Shaped(adj, start, s) && SettledOk(g, adj, end, s, done)
    requires start !in adj ==> s == InitialState(g, start)
    requires e in s.heap && e.id !in done && e.id in adj && s.dist[e.id] == Fin(e.dist)
    requires Expanded(g, adj, e.id, s.(heap := rest), r)
    ensures start in adj
    ensures forall u :: u in done ==> r.dist[u] == s.dist[u]
    ensures forall v :: v in s.dist && r.dist[v] != s.dist[v] ==>
              v !in done && v != e.id && v != start && r.dist[v].Fin? && e.dist <= r.dist[v].value
  {
    var t := s.(heap := rest);
    assert start !in adj ==> e.id == start by {
      if start !in adj {
        assert e in InitialState(g, start).heap;
      }
    }
    forall v | v in s.dist && r.dist[v] != s.dist[v]
      ensures v !in done && v != e.id && v != start && r.dist[v].Fin? && e.dist <= r.dist[v].value
    {
      var j :| 0 <= j < |adj[e.id]| && adj[e.id][j].to == v && r.dist[v] == t.dist[e.id].Plus(Cost(g, e.id, adj[e.id][j]));
      CostNonNegative(g, adj, e.id, j);
    }
  }

  lemma FreshShape(g: Graph, adj: AdjacencyList, start: NodeId, s: State,
                   done: set<NodeId>, e: Entry, rest: seq<Entry>, r: State)
    requires Ready(g, adj) && Shaped(adj, start, s) && FrontierOk(s, done)
    requires multiset(rest) + multiset{e} == multiset(s.heap)
    requires e.id in adj && s.dist[e.id] == Fin(e.dist)
    requires Expanded(g, adj, e.id, s.(heap := rest), r)
    requires forall v :: v in s.dist && r.dist[v] != s.dist[v] ==>
               v != e.id && v != start && r.dist[v].Fin? && e.dist <= r.dist[v].value
    ensures Shaped(adj, start, r) && FrontierOk(r, done + {e.id})
  {
    FreshShaped(g, adj, start, s, e, rest, r);
    FreshEntriesAbove(g, adj, s, done, e, rest, r);
    FreshEntriesPresent(g, adj, s, done, e, rest, r);
  }

  lemma FreshShaped(g: Graph, adj: AdjacencyList, start: NodeId, s: State, e: Entry, rest: seq<Entry>, r: State)
    requires Ready(g, adj) && Shaped(adj, start, s)
    requires e.id in adj && s.dist[e.id] == Fin(e.dist)
    requires Expanded(g, adj, e.id, s.(heap := rest), r)
    requires forall v :: v in s.dist && r.dist[v] != s.dist[v] ==>
               v != start && r.dist[v].Fin? && e.dist <= r.dist[v].value
    ensures Shaped(adj, start, r)
  {
  }

  /** Every frontier entry is still no shorter than its node's distance. */
  lemma FreshEntriesAbove(g: Graph, adj: AdjacencyList, s: State, done: set<NodeId>, e: Entry, rest: seq<Entry>, r: State)
    requires Ready(g, adj) && FrontierOk(s, done)
    requires multiset(rest) + multiset{e} == multiset(s.heap)
    requires e.id in adj && e.id in s.dist && s.dist[e.id] == Fin(e.dist)
    requires Expanded(g, adj, e.id, s.(heap := rest), r)
    ensures forall x :: x in r.heap ==> x.id in r.dist && r.dist[x.id].Fin? && r.dist[x.id].value <= x.dist
  {
    forall x | x in r.heap
      ensures x.id in r.dist && r.dist[x.id].Fin? && r.dist[x.id].value <= x.dist
    {
      if x in rest {
        assert x in multiset(s.heap);
      }
    }
  }

  /** Every unsettled node at a finite distance still has an entry at
      exactly that distance. */
  lemma FreshEntriesPresent(g: Graph, adj: AdjacencyList, s: State, done: set<NodeId>, e: Entry, rest: seq<Entry>, r: State)
    requires Ready(g, adj) && FrontierOk(s, done)
    requires multiset(rest) + multiset{e} == multiset(s.heap)
    requires e.id in adj && e.id in s.dist && s.dist[e.id] == Fin(e.dist)
    requires Expanded(g, adj, e.id, s.(heap := rest), r)
    ensures forall v :: v in r.dist && r.dist[v].Fin? && v !in done + {e.id} ==> Entry(v, r.dist[v].value) in r.heap
  {
    forall v | v in r.dist && r.dist[v].Fin? && v !in done + {e.id}
      ensures Entry(v, r.dist[v].value) in r.heap
    {
      if r.dist[v] == s.dist[v] {
        assert Entry(v, s.dist[v].value) in multiset(s.heap);
        assert Entry(v, s.dist[v].value) in multiset(rest);
        assert Entry(v, s.dist[v].value) in multiset(r.heap);
      }
    }
  }

  lemma FreshSettled(g: Graph, adj: AdjacencyList, end: NodeId, s: State,
                     done: set<NodeId>, e: Entry, rest: seq<Entry>, r: State)
    requires Ready(g, adj) && SettledOk(g, adj, end, s, done)
    requires e in s.heap && (forall x :: x in s.heap ==> e.dist <= x.dist)
    requires multiset(rest) + multiset{e} == multiset(s.heap)
    requires e.id !in done && e.id in adj && e.id != end && e.id in s.dist && s.dist[e.id] == Fin(e.dist)
    requires Expanded(g, adj, e.id, s.(heap := rest), r)
    requires forall u :: u in done ==> r.dist[u] == s.dist[u]
    ensures SettledOk(g, adj, end, r, done + {e.id})
  {
    forall x | x in rest
      ensures x in s.heap
    {
      assert x in multiset(s.heap);
    }
    forall u | u in done + {e.id}
      ensures r.dist[u].Fin?
      ensures forall x :: x in r.heap ==> r.dist[u].value <= x.dist
      ensures RelaxedAt(g, adj, u, r.dist)
    {
      FreshSettledNode(g, adj, end, s, done, e, rest, r, u);
    }
  }

  /** A settled node, old or just popped, stays finite, no larger than any
      frontier entry, and relaxed. */
  lemma FreshSettledNode(g: Graph, adj: AdjacencyList, end: NodeId, s: State,
                         done: set<NodeId>, e: Entry, rest: seq<Entry>, r: State, u: NodeId)
    requires Ready(g, adj) && SettledOk(g, adj, end, s, done)
    requires e in s.heap && (forall x :: x in s.heap ==> e.dist <= x.dist)
    requires forall x :: x in rest ==> x in s.heap
    requires e.id in adj && e.id in s.dist && s.dist[e.id] == Fin(e.dist)
    requires Expanded(g, adj, e.id, s.(heap := rest), r)
    requires forall u :: u in done ==> r.dist[u] == s.dist[u]
    requires u in done + {e.id}
    ensures r.dist[u].Fin?
    ensures forall x :: x in r.heap ==> r.dist[u].value <= x.dist
    ensures RelaxedAt(g, adj, u, r.dist)
  {
    if u in done {
      RelaxedStays(g, adj, u, s.dist, r.dist);
    }
    forall x | x in r.heap
      ensures r.dist[u].value <= x.dist
    {
      if x in rest {
        assert x in s.heap;
      }
    }
  }

  lemma FreshLinks(g: Graph, adj: AdjacencyList, start: NodeId, s: State,
                   done: set<NodeId>, rank: map<NodeId, nat>, e: Entry, rest: seq<Entry>, r: State)
    requires Ready(g, adj) && LinksOk(g, adj, start, s) && Ranked(s.prev, done, rank)
    requires adj.Keys <= s.dist.Keys && s.prev.Keys <= s.dist.Keys && done <= s.dist.Keys
    requires e.id in adj && s.dist[e.id] == Fin(e.dist)
    requires Expanded(g, adj, e.id, s.(heap := rest), r)
    requires forall u :: u in done ==> r.dist[u] == s.dist[u]
    requires forall v :: v in s.dist && r.dist[v] != s.dist[v] ==> v != start
    ensures LinksOk(g, adj, start, r)
  {
    forall v | v in r.prev && r.prev[v].Some?
      ensures LinkRealised(g, adj, r.dist, r.prev[v].value, v)
    {
      FreshLink(g, adj, start, s, done, rank, e, rest, r, v);
    }
    forall v | v in r.prev && v in r.dist && v != start && r.dist[v].Fin?
      ensures r.prev[v].Some?
    {
      if r.dist[v] == s.dist[v] {
        assert r.prev[v] == s.prev[v];
      }
    }
    if start in r.prev {
      assert r.dist[start] == s.dist[start];
      assert r.prev[start] == s.prev[start];
    }
  }

  /** A recorded predecessor realises its node's distance after the
      expansion: a re-linked node through the popped node's hop, any other
      through its settled predecessor, whose distance is unchanged. */
  lemma FreshLink(g: Graph, adj: AdjacencyList, start: NodeId, s: State,
                  done: set<NodeId>, rank: map<NodeId, nat>, e: Entry, rest: seq<Entry>, r: State, v: NodeId)
    requires Ready(g, adj) && LinksOk(g, adj, start, s) && Ranked(s.prev, done, rank)
    requires adj.Keys <= s.dist.Keys && s.prev.Keys <= s.dist.Keys && done <= s.dist.Keys
    requires e.id in adj && s.dist[e.id] == Fin(e.dist)
    requires Expanded(g, adj, e.id, s.(heap := rest), r)
    requires forall u :: u in done ==> r.dist[u] == s.dist[u]
    requires v in r.prev && r.prev[v].Some?
    ensures LinkRealised(g, adj, r.dist, r.prev[v].value, v)
  {
    if r.dist[v] == s.dist[v] {
      var w := s.prev[v].value;
      var j :| 0 <= j < |adj[w]| && adj[w][j].to == v && s.dist[v] == s.dist[w].Plus(Cost(g, w, adj[w][j]));
      assert r.dist[v] == r.dist[w].Plus(Cost(g, w, adj[w][j]));
    }
  }

  /** Settling `u` after an expansion that only re-linked unsettled nodes
      (other than `u`) to `u` keeps the ranks increasing along links. */
  lemma RankedStep(s: State, r: State, done: set<NodeId>, rank: map<NodeId, nat>, u: NodeId)
    requires Ranked(s.prev, done, rank) && u !in done && s.prev.Keys <= s.dist.Keys
    requires r.dist.Keys == s.dist.Keys && r.prev.Keys == s.prev.Keys
    requires forall v :: v in s.dist && r.dist[v] != s.dist[v] ==>
               v in r.prev && r.prev[v] == Some(u) && v !in done && v != u
    requires forall v :: v in s.prev && v in s.dist && r.dist[v] == s.dist[v] ==> r.prev[v] == s.prev[v]
    ensures Ranked(r.prev, done + {u}, rank[u := |done|])
  {
    var done', rank' := done + {u}, rank[u := |done|];
    assert |done'| == |done| + 1;
    forall v | v in r.prev && r.prev[v].Some?
      ensures r.prev[v].value in done' && (v in done' ==> rank'[r.prev[v].value] < rank'[v])
    {
      if r.dist[v] == s.dist[v] {
        assert s.prev[v].value in done;
      }
    }
  }

  /** Expanding a freshly popped node and settling it keeps the invariant. */
  lemma FreshStep(g: Graph, adj: AdjacencyList, start: NodeId, end: NodeId, s: State,
                  done: set<NodeId>, rank: map<NodeId, nat>, e: Entry, rest: seq<Entry>, r: State)
    requires Ready(g, adj) && Invariant(g, adj, start, end, s, done, rank)
    requires e in s.heap && (forall x :: x in s.heap ==> e.dist <= x.dist)
    requires multiset(rest) + multiset{e} == multiset(s.heap) && IsHeap(rest)
    requires e.id !in done && e.id in adj && e.id != end && s.dist[e.id] == Fin(e.dist)
    requires IsHeap(r.heap) && Expanded(g, adj, e.id, s.(heap := rest), r)
    ensures Invariant(g, adj, start, end, r, done + {e.id}, rank[e.id := |done|])
  {
    FreshBasics(g, adj, start, end, s, done, e, rest, r);
    FreshShape(g, adj, start, s, done, e, rest, r);
    FreshSettled(g, adj, end, s, done, e, rest, r);
    FreshLinks(g, adj, start, s, done, rank, e, rest, r);
    RankedStep(s, r, done, rank, e.id);
  }

  /** Along a route from the start whose first `k` nodes are settled, the
      distance of node `k` is at most the cost of the route up to it. */
  lemma {:induction false} SettledPrefixBound(g: Graph, adj: AdjacencyList, start: NodeId, dist: map<NodeId, Ext>,
                                             done: set<NodeId>, p: seq<NodeId>, k: nat)
    requires Ready(g, adj) && IsRoute(adj, p) && p[0] == start && k < |p|
    requires start in dist && dist[start] == Fin(0.0) && adj.Keys <= dist.Keys
    requires forall u :: u in done ==> u in adj && RelaxedAt(g, adj, u, dist)
    requires forall i :: 0 <= i < k ==> p[i] in done
    ensures p[k] in dist && dist[p[k]].AtMost(PathCost(g, adj, p[..k + 1]))
    decreases k
  {
    if k == 0 {
      assert |p[..1]| == 1;
    } else {
      SettledPrefixBound(g, adj, start, dist, done, p, k - 1);
      assert IsNeighbour(adj, p[k - 1], p[k]);
      assert p[k - 1] in done;
      SettledHop(g, adj, dist, p, k);
    }
  }

  /** A relaxed hop out of a settled node extends the bound by one hop. */
  lemma SettledHop(g: Graph, adj: AdjacencyList, dist: map<NodeId, Ext>, p: seq<NodeId>, k: nat)
    requires Ready(g, adj) && 1 <= k < |p| && p[k - 1] in adj && p[k - 1] in dist
    requires IsNeighbour(adj, p[k - 1], p[k]) && RelaxedAt(g, adj, p[k - 1], dist)
    requires dist[p[k - 1]].AtMost(PathCost(g, adj, p[..k]))
    ensures p[k] in dist && dist[p[k]].AtMost(PathCost(g, adj, p[..k + 1]))
  {
    var u, v := p[k - 1], p[k];
    BestHopNonNegative(g, adj, u, v);
    var j :| 0 <= j < |adj[u]| && adj[u][j].to == v && BestHop(g, adj, u, v) == Fin(Cost(g, u, adj[u][j]));
    CostNonNegative(g, adj, u, j);
    assert dist[v].AtMost(dist[u].Plus(Cost(g, u, adj[u][j])));
    PathCostStep(g, adj, p, k);
  }

  /** The first unsettled node of a route that ends unsettled. */
  lemma FirstUnsettled(p: seq<NodeId>, done: set<NodeId>) returns (k: nat)
    requires |p| >= 1 && p[|p| - 1] !in done
    ensures k < |p| && p[k] !in done && forall i :: 0 <= i < k ==> p[i] in done
  {
    k := 0;
    while p[k] in done
      invariant k < |p| && forall i :: 0 <= i < k ==> p[i] in done
      decreases |p| - k
    {
      k := k + 1;
    }
  }

  /** Every route from the start to an unsettled node crosses the frontier:
      some entry is no dearer than the route. */
  lemma FrontierCut(g: Graph, adj: AdjacencyList, start: NodeId, end: NodeId, s: State,
                    done: set<NodeId>, rank: map<NodeId, nat>, p: seq<NodeId>)
    requires Ready(g, adj) && Invariant(g, adj, start, end, s, done, rank)
    requires IsRoute(adj, p) && p[0] == start && p[|p| - 1] !in done
    ensures exists x :: x in s.heap && Fin(x.dist).AtMost(PathCost(g, adj, p))
  {
    var k := FirstUnsettled(p, done);
    SettledPrefixBound(g, adj, start, s.dist, done, p, k);
    PrefixCostAtMost(g, adj, p, k + 1);
    RouteCostFinite(g, adj, p);
    assert Entry(p[k], s.dist[p[k]].value) in s.heap;
  }

  /** A reachable destination keeps the frontier non-empty. */
  lemma ReachableKeepsFrontier(g: Graph, adj: AdjacencyList, start: NodeId, end: NodeId, s: State,
                               done: set<NodeId>, rank: map<NodeId, nat>)
    requires Ready(g, adj) && Invariant(g, adj, start, end, s, done, rank)
    ensures Reachable(adj, start, end) ==> s.heap != []
    ensures end in s.dist && s.dist[end].Fin? ==> s.heap != []
  {
    forall p | IsRouteFrom(adj, p, start, end)
      ensures s.heap != []
    {
      FrontierCut(g, adj, start, end, s, done, rank, p);
    }
    if end in s.dist && s.dist[end].Fin? {
      assert Entry(end, s.dist[end].value) in s.heap;
    }
  }

  /** When the destination is popped, its distance is that of the entry and
      no route from the start to it is cheaper. */
  lemma DestinationOptimal(g: Graph, adj: AdjacencyList, start: NodeId, end: NodeId, s: State,
                           done: set<NodeId>, rank: map<NodeId, nat>, e: Entry)
    requires Ready(g, adj) && Invariant(g, adj, start, end, s, done, rank)
    requires e in s.heap && (forall x :: x in s.heap ==> e.dist <= x.dist) && e.id == end
    ensures end in s.dist && s.dist[end] == Fin(e.dist) && Entry(end, e.dist) in s.heap
    ensures forall p :: IsRouteFrom(adj, p, start, end) ==> s.dist[end].AtMost(PathCost(g, adj, p))
  {
    PoppedIsCurrent(g, adj, start, end, s, done, rank, e);
    forall p | IsRouteFrom(adj, p, start, end)
      ensures s.dist[end].AtMost(PathCost(g, adj, p))
    {
      FrontierCut(g, adj, start, end, s, done, rank, p);
    }
  }

  /** Every hop of `path` realises the distance of its target. */
  ghost predicate ChainLinked(g: Graph, adj: AdjacencyList, s: State, path: seq<NodeId>)
    requires Loaded(g)
  {
    forall i :: 0 < i < |path| ==> LinkRealised(g, adj, s.dist, path[i - 1], path[i])
  }

  /** A predecessor chain from the start costs, hop by hop at the cheapest,
      at most the distance of its last node. */
  lemma {:induction false} ChainCost(g: Graph, adj: AdjacencyList, start: NodeId, s: State, path: seq<NodeId>, k: nat)
    requires Loaded(g) && ChainLinked(g, adj, s, path)
    requires |path| >= 1 && path[0] == start && start in s.dist && s.dist[start] == Fin(0.0)
    requires k < |path|
    ensures path[k] in s.dist && PathCost(g, adj, path[..k + 1]).AtMost(s.dist[path[k]])
    decreases k
  {
    if k == 0 {
      assert |path[..1]| == 1;
    } else {
      ChainCost(g, adj, start, s, path, k - 1);
      var u, v := path[k - 1], path[k];
      assert LinkRealised(g, adj, s.dist, u, v);
      var j :| 0 <= j < |adj[u]| && adj[u][j].to == v && s.dist[v] == s.dist[u].Plus(Cost(g, u, adj[u][j]));
      assert BestHop(g, adj, u, v).AtMost(Fin(Cost(g, u, adj[u][j])));
      PathCostStep(g, adj, path, k);
    }
  }

  /** A predecessor chain is a route whose every hop realises its target's
      distance. */
  lemma ChainIsRoute(g: Graph, adj: AdjacencyList, start: NodeId, s: State, path: seq<NodeId>)
    requires Ready(g, adj) && LinksOk(g, adj, start, s)
    requires |path| >= 1 && IsChain(s.prev, path)
    ensures IsRoute(adj, path) && ChainLinked(g, adj, s, path)
  {
    forall i | 0 < i < |path|
      ensures LinkRealised(g, adj, s.dist, path[i - 1], path[i])
    {
      assert s.prev[path[i]] == Some(path[i - 1]);
    }
    forall i | 0 <= i < |path| - 1
      ensures IsNeighbour(adj, path[i], path[i + 1])
    {
      assert LinkRealised(g, adj, s.dist, path[i], path[i + 1]);
    }
  }

  /** The search state when the loop ends normally: the destination was
      popped (and is then optimal), or the frontier ran dry. */
  ghost predicate Finished(g: Graph, adj: AdjacencyList, start: NodeId, end: NodeId, s: State,
                           done: set<NodeId>, rank: map<NodeId, nat>, reached: bool)
    requires Ready(g, adj)
  {
    && Invariant(g, adj, start, end, s, done, rank)
    && (reached ==> end in s.dist && s.dist[end].Fin? && Entry(end, s.dist[end].value) in s.heap)
    && (reached ==> forall p :: IsRouteFrom(adj, p, start, end) ==> s.dist[end].AtMost(PathCost(g, adj, p)))
    && (!reached ==> s.heap == [])
  }

  /** A normal end means the start is a node or is the destination. */
  lemma FinishedStart(g: Graph, adj: AdjacencyList, start: NodeId, end: NodeId, s: State,
                      done: set<NodeId>, rank: map<NodeId, nat>, reached: bool)
    requires Ready(g, adj) && Finished(g, adj, start, end, s, done, rank, reached)
    ensures start in adj || start == end
  {
    assert start !in adj ==> s.heap == [Entry(start, 0.0)];
  }

  /** A reconstructed path of two nodes or more is a repetition-free route
      from the start to the destination, costing exactly the destination's
      distance, and no route is cheaper. */
  lemma ConcludeFound(g: Graph, adj: AdjacencyList, start: NodeId, end: NodeId, s: State,
                      done: set<NodeId>, rank: map<NodeId, nat>, reached: bool, path: seq<NodeId>)
    requires Ready(g, adj) && Finished(g, adj, start, end, s, done, rank, reached)
    requires |path| >= 1 && path[|path| - 1] == end
    requires IsChain(s.prev, path) && Unlinked(s.prev, path[0])
    requires forall i :: 0 <= i < |path| - 1 ==> path[i] in done
    requires |path| > 1 && end in s.dist && s.dist[end] != Inf
    ensures start != end && Reachable(adj, start, end) && IsRouteFrom(adj, path, start, end)
    ensures s.dist[end] == PathCost(g, adj, path)
    ensures forall p :: IsRouteFrom(adj, p, start, end) ==> s.dist[end].AtMost(PathCost(g, adj, p))
  {
    ReachableKeepsFrontier(g, adj, start, end, s, done, rank);
    assert path[0] in done;
    ChainIsRoute(g, adj, start, s, path);
    ChainCost(g, adj, start, s, path, |path| - 1);
    assert path[..|path|] == path;
    assert path[0] == start;
    assert IsRouteFrom(adj, path, start, end);
  }

  /** Otherwise the destination is the start or cannot be reached. */
  lemma ConcludeEmpty(g: Graph, adj: AdjacencyList, start: NodeId, end: NodeId, s: State,
                      done: set<NodeId>, rank: map<NodeId, nat>, reached: bool, path: seq<NodeId>)
    requires Ready(g, adj) && Finished(g, adj, start, end, s, done, rank, reached)
    requires |path| >= 1 && path[|path| - 1] == end && Unlinked(s.prev, path[0])
    requires !(|path| > 1 && end in s.dist && s.dist[end] != Inf)
    ensures !(start != end && Reachable(adj, start, end))
    ensures start != end ==> forall p :: !IsRouteFrom(adj, p, start, end)
  {
    ReachableKeepsFrontier(g, adj, start, end, s, done, rank);
    EndLinked(adj, start, end, s, reached, path);
  }

  /** A reached destination other than the start has a predecessor, so the
      walk back from it yields at least two nodes. */
  lemma EndLinked(adj: AdjacencyList, start: NodeId, end: NodeId, s: State, reached: bool, path: seq<NodeId>)
    requires s.dist.Keys == adj.Keys + {start} && s.prev.Keys == adj.Keys
    requires forall v :: v in s.prev && v in s.dist && v != start && s.dist[v].Fin? ==> s.prev[v].Some?
    requires reached ==> end in s.dist && s.dist[end].Fin?
    requires |path| >= 1 && path[|path| - 1] == end && Unlinked(s.prev, path[0])
    ensures reached && start != end ==> |path| > 1 && s.dist[end] != Inf
  {
    assert |path| == 1 ==> path[0] == end;
  }

  /** Everything the search promises about its answer. */
  lemma Conclude(g: Graph, adj: AdjacencyList, start: NodeId, end: NodeId, s: State,
                 done: set<NodeId>, rank: map<NodeId, nat>, reached: bool, path: seq<NodeId>, a: Answer)
    requires Ready(g, adj) && Finished(g, adj, start, end, s, done, rank, reached)
    requires |path| >= 1 && path[|path| - 1] == end
    requires IsChain(s.prev, path) && Unlinked(s.prev, path[0])
    requires forall i :: 0 <= i < |path| - 1 ==> path[i] in done
    requires forall i, k :: 0 <= i < k < |path| ==> path[i] != path[k]
    requires a == if |path| > 1 && end in s.dist && s.dist[end] != Inf then Answer(path, s.dist[end]) else Answer([], Inf)
    ensures
              && (a.path == [] <==> a.totalCost == Inf)
              && (a.path != [] <==> start != end && Reachable(adj, start, end))
              && (a.path != [] ==>
                    && |a.path| >= 2 && IsRouteFrom(adj, a.path, start, end)
                    && (forall i, k :: 0 <= i < k < |a.path| ==> a.path[i] != a.path[k])
                    && a.totalCost == PathCost(g, adj, a.path))
              && (start != end ==> forall p :: IsRouteFrom(adj, p, start, end) ==> a.totalCost.AtMost(PathCost(g, adj, p)))
  {
    if |path| > 1 && end in s.dist && s.dist[end] != Inf {
      ConcludeFound(g, adj, start, end, s, done, rank, reached, path);
    } else {
      ConcludeEmpty(g, adj, start, end, s, done, rank, reached, path);
    }
  }

  /** Settling one more node leaves fewer to settle. */
  lemma SettlingShrinks(nodes: set<NodeId>, done: set<NodeId>, u: NodeId)
    requires u in nodes && u !in done
    ensures |nodes - (done + {u})| < |nodes - done|
  {
    assert nodes - done == (nodes - (done + {u})) + {u};
  }

  /** A popped entry names a node with a distance: a finite one. */
  lemma PoppedIsFinite(adj: AdjacencyList, start: NodeId, s: State, done: set<NodeId>, e: Entry)
    requires Shaped(adj, start, s) && FrontierOk(s, done) && e in s.heap
    ensures adj.Keys <= s.dist.Keys && s.prev.Keys == adj.Keys
    ensures e.id in s.dist && s.dist[e.id].Fin?
  {
  }

  /** What the expansion of a popped node needs: the node is at a finite
      distance, equal to the entry's unless the node is settled, in which
      case its hops are relaxed already and dropping the entry keeps the
      invariant. */
  lemma Popped(g: Graph, adj: AdjacencyList, start: NodeId, end: NodeId, s: State,
               done: set<NodeId>, rank: map<NodeId, nat>, e: Entry, rest: seq<Entry>)
    requires Ready(g, adj) && Invariant(g, adj, start, end, s, done, rank)
    requires e in s.heap && (forall x :: x in s.heap ==> e.dist <= x.dist)
    requires multiset(rest) + multiset{e} == multiset(s.heap) && IsHeap(rest)
    requires e.id in adj
    ensures start in adj
    ensures adj.Keys <= s.dist.Keys && s.prev.Keys == adj.Keys && s.dist[e.id].Fin?
    ensures e.id in done ==> RelaxedAt(g, adj, e.id, s.dist) && Invariant(g, adj, start, end, s.(heap := rest), done, rank)
    ensures e.id !in done ==> s.dist[e.id] == Fin(e.dist)
  {
    if e.id in done {
      StaleStep(g, adj, start, end, s, done, rank, e, rest);
    } else {
      PoppedIsCurrent(g, adj, start, end, s, done, rank, e);
    }
  }

  /** One pass of the loop after the expansion of the popped node: the
      invariant holds again, with the node settled if it was not, and
      either one more node is settled or the frontier is shorter. */
  lemma Advance(g: Graph, adj: AdjacencyList, start: NodeId, end: NodeId, s: State,
                done: set<NodeId>, rank: map<NodeId, nat>, e: Entry, rest: seq<Entry>, next: State)
      returns (done': set<NodeId>, rank': map<NodeId, nat>)
    requires Ready(g, adj) && Invariant(g, adj, start, end, s, done, rank)
    requires e in s.heap && (forall x :: x in s.heap ==> e.dist <= x.dist)
    requires multiset(rest) + multiset{e} == multiset(s.heap) && IsHeap(rest)
    requires e.id in adj && e.id != end && e.id in s.dist && s.dist[e.id].Fin?
    requires IsHeap(next.heap) && Expanded(g, adj, e.id, s.(heap := rest), next)
    ensures Invariant(g, adj, start, end, next, done', rank') && start in adj
    ensures (done' == done && |next.heap| < |s.heap|) || |adj.Keys - done'| < |adj.Keys - done|
  {
    Popped(g, adj, start, end, s, done, rank, e, rest);
    if e.id in done {
      assert next == s.(heap := rest);
      assert |multiset(rest)| + 1 == |multiset(s.heap)|;
      done', rank' := done, rank;
    } else {
      FreshStep(g, adj, start, end, s, done, rank, e, rest, next);
      SettlingShrinks(adj.Keys, done, e.id);
      done', rank' := done + {e.id}, rank[e.id := |done|];
    }
  }

  /** The destination was popped: the search ends normally, and the start
      is a node or is the destination. */
  lemma Arrive(g: Graph, adj: AdjacencyList, start: NodeId, end: NodeId, s: State,
               done: set<NodeId>, rank: map<NodeId, nat>, e: Entry)
    requires Ready(g, adj) && Invariant(g, adj, start, end, s, done, rank)
    requires e in s.heap && (forall x :: x in s.heap ==> e.dist <= x.dist) && e.id == end
    ensures Finished(g, adj, start, end, s, done, rank, true)
    ensures start in adj || start == end
  {
    DestinationOptimal(g, adj, start, end, s, done, rank, e);
    FinishedStart(g, adj, start, end, s, done, rank, true);
  }
}
