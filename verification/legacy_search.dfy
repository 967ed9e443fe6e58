/** Dijkstra's search of the older planner. Edges are directed and read
    straight from the edge list, the frontier is an array sorted before
    every removal, a visited set keeps visited nodes from being relaxed
    again, and the walk back from the destination stops at the first
    falsy predecessor. The frontier is drained completely: there is no
    early exit at the destination. */
module LegacySearch {
  import opened Common
  import opened Graph
  import opened CostModel
  import opened MinHeap
  import opened SortedQueue
  import opened PathWalk
  import Search

  /** Fuel figures are never negative where present. */
  predicate FuelsNonNegative(edges: seq<Edge>) {
    forall e :: e in edges && e.fuelUsed.Some? ==> e.fuelUsed.value >= 0.0
  }

  /** The fuel pass (the same formula as the toll-aware planner's) sets the
      fuel figure of every edge, and on valid attributes every figure is
      non-negative. */
  lemma FuelPassNonNegative(edges: seq<Edge>)
    requires AllValidAttributes(edges)
    ensures AllPositiveEfficiency(edges)
    ensures forall e :: e in CalculateFuelUsed(edges) ==> e.fuelUsed.Some?
    ensures FuelsNonNegative(CalculateFuelUsed(edges))
  {
    assert AllPositiveEfficiency(edges) by {
      forall i | 0 <= i < |edges|
        ensures edges[i].efficiency > 0.0
      {
        assert ValidAttributes(edges[i]);
      }
    }
    var r := CalculateFuelUsed(edges);
    forall e | e in r
      ensures e.fuelUsed.Some? && e.fuelUsed.value >= 0.0
    {
      var i :| 0 <= i < |r| && r[i] == e;
      assert ValidAttributes(edges[i]);
    }
  }

  /** The ids the search knows a distance for: every node id, and the start. */
  function Known(g: Graph, start: NodeId): set<NodeId> {
    NodeIds(g) + {start}
  }

  /** The edges leaving `u`, in edge-list order. */
  function Outgoing(edges: seq<Edge>, u: NodeId): (r: seq<Edge>)
    ensures forall e :: e in r <==> e in edges && e.from == u
    ensures |r| <= |edges|
    decreases |edges|
  {
    if |edges| == 0 then []
    else
      assert edges == [edges[0]] + edges[1..];
      (if edges[0].from == u then [edges[0]] else []) + Outgoing(edges[1..], u)
  }

  /** `filter` keeps order and multiplicity: filtering a concatenation
      filters each part, and a single edge is kept exactly when it leaves
      `u`. */
  lemma {:induction false} OutgoingConcat(a: seq<Edge>, b: seq<Edge>, u: NodeId)
    ensures Outgoing(a + b, u) == Outgoing(a, u) + Outgoing(b, u)
    ensures |a| == 1 ==> Outgoing(a, u) == if a[0].from == u then a else []
    decreases |a|
  {
    if |a| == 0 {
      assert a + b == b;
    } else {
      var head := if a[0].from == u then [a[0]] else [];
      assert (a + b)[0] == a[0] && (a + b)[1..] == a[1..] + b;
      calc {
        Outgoing(a + b, u);
        head + Outgoing(a[1..] + b, u);
        { OutgoingConcat(a[1..], b, u); }
        head + (Outgoing(a[1..], u) + Outgoing(b, u));
        (head + Outgoing(a[1..], u)) + Outgoing(b, u);
        Outgoing(a, u) + Outgoing(b, u);
      }
      if |a| == 1 {
        assert a[1..] == [];
      }
    }
  }

  /** Distances (a missing key is `undefined`), the visited set (the ids
      marked `true`), predecessors and the frontier array. */
  datatype LState = LState(dist: map<NodeId, Ext>, visited: set<NodeId>, prev: Prev, queue: seq<Entry>)

  /** What the search returns: the reconstructed path and the destination's
      distance, which is absent (`undefined`) for an id it does not know. */
  datatype LegacyAnswer = LegacyAnswer(path: seq<NodeId>, fuelUsed: Option<Ext>)

  /** Before the loop: Infinity everywhere except 0 at the start, nothing
      visited, no predecessors, the start alone on the frontier. */
  function InitialState(g: Graph, start: NodeId): (s: LState)
    ensures s.dist.Keys == Known(g, start)
    ensures forall v :: v in s.dist ==> (s.dist[v].Fin? <==> v == start)
    ensures s.dist[start] == Fin(0.0)
    ensures s.visited == {} && s.prev == map[] && s.queue == [Entry(start, 0.0)]
  {
    var dist := map v | v in NodeIds(g) :: Inf;
    LState(dist[start := Fin(0.0)], {}, map[], [Entry(start, 0.0)])
  }

  /** One round of the inner loop, for edge `e` leaving `u`. A visited
      target is skipped. Otherwise the target takes the new distance when
      it is strictly smaller, records `u` and is pushed. A missing fuel
      figure makes the sum NaN, and a target without a distance compares
      against `undefined`; neither comparison holds. */
  function RelaxEdge(u: NodeId, e: Edge, s: LState): (r: LState)
    requires u in s.dist
    ensures r.dist.Keys == s.dist.Keys && r.visited == s.visited
    ensures r != s <==> && e.to !in s.visited && e.to in s.dist && e.fuelUsed.Some?
                        && s.dist[u].Plus(e.fuelUsed.value).Below(s.dist[e.to])
    ensures r != s ==> var d := s.dist[u].Plus(e.fuelUsed.value);
              && d.Fin? && r.dist == s.dist[e.to := d] && r.prev == s.prev[e.to := Some(u)]
              && r.queue == s.queue + [Entry(e.to, d.value)]
  {
    if e.to in s.visited || e.to !in s.dist || e.fuelUsed.None? then s
    else
      var d := s.dist[u].Plus(e.fuelUsed.value);
      if d.Below(s.dist[e.to]) then
        LState(s.dist[e.to := d], s.visited, s.prev[e.to := Some(u)], s.queue + [Entry(e.to, d.value)])
      else s
  }

  /** Every edge of `es` leaving `u` with a fuel figure, towards an
      unvisited id with a distance, is no shorter than that distance. */
  predicate RelaxedOver(es: seq<Edge>, u: NodeId, s: LState)
    requires u in s.dist
  {
    forall e :: e in es && e.from == u && e.fuelUsed.Some? && e.to in s.dist && e.to !in s.visited ==>
      s.dist[e.to].AtMost(s.dist[u].Plus(e.fuelUsed.value))
  }

  /** `u` is visited at a finite distance, and `out` are edges leaving it
      with non-negative fuel figures. */
  predicate CanExpand(out: seq<Edge>, u: NodeId, s: LState) {
    && u in s.dist && s.dist[u].Fin? && u in s.visited
    && forall e :: e in out ==> e.from == u && (e.fuelUsed.Some? ==> e.fuelUsed.value >= 0.0)
  }

  /** `v` got its distance from `u`: it is unvisited, `u` is its
      predecessor, its new distance is on the frontier and is the distance
      of `u` plus the fuel of some edge of `out` leading to it. */
  ghost predicate Improved(out: seq<Edge>, u: NodeId, s: LState, r: LState, v: NodeId)
    requires u in s.dist && v in r.dist
  {
    && v !in s.visited
    && v in r.prev && r.prev[v] == Some(u)
    && r.dist[v].Fin? && Entry(v, r.dist[v].value) in r.queue
    && exists e :: e in out && e.to == v && e.fuelUsed.Some? && r.dist[v] == s.dist[u].Plus(e.fuelUsed.value)
  }

  /** Ids keep their keys and visited ids their distances; no distance
      grows. */
  ghost predicate DistancesKept(s: LState, r: LState) {
    && r.dist.Keys == s.dist.Keys && r.visited == s.visited
    && (forall v :: v in s.visited && v in s.dist ==> r.dist[v] == s.dist[v])
    && (forall v :: v in s.dist ==> r.dist[v].AtMost(s.dist[v]))
  }

  /** Every id whose distance changed was improved from `u`; every other
      predecessor is as it was. */
  ghost predicate LinksKept(out: seq<Edge>, u: NodeId, s: LState, r: LState)
    requires u in s.dist && r.dist.Keys == s.dist.Keys
  {
    && (forall v :: v in s.dist && r.dist[v] != s.dist[v] ==> Improved(out, u, s, r, v))
    && (forall v :: v in r.prev && (v !in s.dist || r.dist[v] == s.dist[v]) ==> v in s.prev && r.prev[v] == s.prev[v])
    && s.prev.Keys <= r.prev.Keys
  }

  /** The frontier only grows, by entries for ids with a distance, no
      smaller than that distance nor than the distance of `u`. */
  ghost predicate QueueGrown(u: NodeId, s: LState, r: LState)
    requires u in s.dist && s.dist[u].Fin? && r.dist.Keys == s.dist.Keys
  {
    && (forall x :: x in s.queue ==> x in r.queue)
    && (forall x :: x in r.queue && x !in s.queue ==>
          x.id in s.dist && r.dist[x.id].AtMost(Fin(x.dist)) && s.dist[u].value <= x.dist)
  }

  /** What holds after the first `j` edges of `out` have been relaxed,
      starting from `s`. */
  ghost predicate ExpandedUpTo(out: seq<Edge>, u: NodeId, s: LState, r: LState, j: nat)
    requires CanExpand(out, u, s)
  {
    && j <= |out|
    && DistancesKept(s, r)
    && RelaxedOver(out[..j], u, r)
    && LinksKept(out, u, s, r)
    && QueueGrown(u, s, r)
    && (RelaxedOver(out, u, s) ==> r == s)
  }

  /** `r` is `before` with edge `e` leaving `u` relaxed into its target. */
  predicate RelaxedInto(u: NodeId, e: Edge, before: LState, r: LState)
    requires u in before.dist
  {
    && e.to !in before.visited && e.to in before.dist && e.fuelUsed.Some?
    && var d := before.dist[u].Plus(e.fuelUsed.value);
       && d.Below(before.dist[e.to])
       && r == before.(dist := before.dist[e.to := d], prev := before.prev[e.to := Some(u)],
                       queue := before.queue + [Entry(e.to, d.value)])
  }

  /** Relaxing edge `j` extends what holds to the first `j + 1` edges. */
  lemma ExpandStep(out: seq<Edge>, u: NodeId, s: LState, before: LState, r: LState, j: nat)
    requires CanExpand(out, u, s) && j < |out| && ExpandedUpTo(out, u, s, before, j)
    requires r == RelaxEdge(u, out[j], before)
    ensures ExpandedUpTo(out, u, s, r, j + 1)
  {
    assert out[..j + 1] == out[..j] + [out[j]];
    assert before.dist[u] == s.dist[u];
    if r != before {
      assert RelaxedInto(u, out[j], before, r);
      ChangedDistances(out, u, s, before, r, j);
      ChangedRelaxed(out, u, s, before, r, j);
      ChangedLinks(out, u, s, before, r, j);
      ChangedQueue(out, u, s, before, r, j);
      assert RelaxedOver(out, u, s) ==> before == s;
      assert out[j] in out;
    }
  }

  lemma ChangedDistances(out: seq<Edge>, u: NodeId, s: LState, before: LState, r: LState, j: nat)
    requires CanExpand(out, u, s) && j < |out| && DistancesKept(s, before)
    requires RelaxedInto(u, out[j], before, r)
    ensures DistancesKept(s, r)
  {
  }

  lemma ChangedRelaxed(out: seq<Edge>, u: NodeId, s: LState, before: LState, r: LState, j: nat)
    requires CanExpand(out, u, s) && j < |out| && DistancesKept(s, before)
    requires RelaxedOver(out[..j], u, before)
    requires RelaxedInto(u, out[j], before, r)
    ensures RelaxedOver(out[..j + 1], u, r)
  {
    assert out[..j + 1] == out[..j] + [out[j]];
    assert before.dist[u] == s.dist[u] == r.dist[u];
  }

  lemma ChangedLinks(out: seq<Edge>, u: NodeId, s: LState, before: LState, r: LState, j: nat)
    requires CanExpand(out, u, s) && j < |out| && DistancesKept(s, before) && LinksKept(out, u, s, before)
    requires RelaxedInto(u, out[j], before, r)
    ensures LinksKept(out, u, s, r)
  {
    var e := out[j];
    assert e in out;
    assert before.dist[u] == s.dist[u];
    forall w | w in s.dist && r.dist[w] != s.dist[w]
      ensures Improved(out, u, s, r, w)
    {
      if w != e.to {
        assert Improved(out, u, s, before, w);
      }
    }
  }

  lemma ChangedQueue(out: seq<Edge>, u: NodeId, s: LState, before: LState, r: LState, j: nat)
    requires CanExpand(out, u, s) && j < |out| && DistancesKept(s, before) && QueueGrown(u, s, before)
    requires RelaxedInto(u, out[j], before, r)
    ensures QueueGrown(u, s, r)
  {
    assert out[j] in out;
    assert before.dist[u] == s.dist[u];
  }

  /** The inner loop over the edges `out` leaving `u`. */
  method RelaxAll(out: seq<Edge>, u: NodeId, s: LState) returns (r: LState)
    requires CanExpand(out, u, s)
    ensures ExpandedUpTo(out, u, s, r, |out|)
  {
    r := s;
    var j := 0;
    while j < |out|
      invariant ExpandedUpTo(out, u, s, r, j)
    {
      var next := RelaxEdge(u, out[j], r);
      ExpandStep(out, u, s, r, next, j);
      r := next;
      j := j + 1;
    }
  }

  /** Processing a popped, visited id `u`: the edges leaving it, each
      relaxed in turn. */
  method ProcessNode(edges: seq<Edge>, u: NodeId, s: LState) returns (r: LState)
    requires FuelsNonNegative(edges) && u in s.dist && s.dist[u].Fin? && u in s.visited
    ensures CanExpand(Outgoing(edges, u), u, s)
    ensures ExpandedUpTo(Outgoing(edges, u), u, s, r, |Outgoing(edges, u)|)
  {
    var out := Outgoing(edges, u);
    r := RelaxAll(out, u, s);
  }

  /** Distances for exactly the known ids, visited ids and predecessors
      among them, no negative distance, the start at most 0, and every
      frontier entry at least its id's distance. */
  ghost predicate Shaped(g: Graph, start: NodeId, s: LState) {
    && s.dist.Keys == Known(g, start)
    && s.visited <= s.dist.Keys && s.prev.Keys <= s.dist.Keys
    && s.dist[start].AtMost(Fin(0.0))
    && (forall v :: v in s.dist && s.dist[v].Fin? ==> s.dist[v].value >= 0.0)
    && (forall x :: x in s.queue ==> x.id in s.dist && s.dist[x.id].AtMost(Fin(x.dist)))
  }

  /** Every unvisited id at a finite distance has an entry at exactly that
      distance. */
  ghost predicate FrontierOk(s: LState) {
    forall v :: v in s.dist && v !in s.visited && s.dist[v].Fin? ==> Entry(v, s.dist[v].value) in s.queue
  }

  /** Visited ids are at finite distances no larger than any entry. */
  ghost predicate VisitedFirst(s: LState) {
    forall v :: v in s.visited ==>
      v in s.dist && s.dist[v].Fin? && forall x :: x in s.queue ==> s.dist[v].value <= x.dist
  }

  /** Every edge leaving a visited id is relaxed, whatever its target. */
  ghost predicate RelaxedOk(edges: seq<Edge>, s: LState) {
    forall e :: e in edges && e.from in s.visited && e.from in s.dist && e.fuelUsed.Some? && e.to in s.dist ==>
      s.dist[e.to].AtMost(s.dist[e.from].Plus(e.fuelUsed.value))
  }

  /** The distance of `v` is that of `u` plus the fuel of some edge from
      `u` to `v`. */
  ghost predicate LinkRealised(edges: seq<Edge>, dist: map<NodeId, Ext>, u: NodeId, v: NodeId)
    requires u in dist && v in dist
  {
    exists e :: e in edges && e.from == u && e.to == v && e.fuelUsed.Some? && dist[v] == dist[u].Plus(e.fuelUsed.value)
  }

  /** Every predecessor is an id and realises its node's distance; every id
      other than the start at a finite distance has one; the start has
      none. */
  ghost predicate LinksOk(edges: seq<Edge>, start: NodeId, s: LState) {
    && (forall v :: v in s.prev ==>
          s.prev[v].Some? && s.prev[v].value in s.dist && v in s.dist && LinkRealised(edges, s.dist, s.prev[v].value, v))
    && (forall v :: v in s.dist && v != start && s.dist[v].Fin? ==> v in s.prev)
    && start !in s.prev
  }

  /** The loop invariant; `rank` is the order ids were first visited in. */
  ghost predicate Invariant(g: Graph, start: NodeId, s: LState, rank: map<NodeId, nat>) {
    && Shaped(g, start, s)
    && FrontierOk(s)
    && VisitedFirst(s)
    && RelaxedOk(g.edges, s)
    && LinksOk(g.edges, start, s)
    && Ranked(s.prev, s.visited, rank)
  }

  lemma InitialInvariant(g: Graph, start: NodeId)
    ensures Invariant(g, start, InitialState(g, start), map[])
  {
  }

  /** The queue after a removal holds exactly the other entries. */
  lemma PopKeeps(q: seq<Entry>, top: Entry, rest: seq<Entry>)
    requires multiset(rest) + multiset{top} == multiset(q)
    ensures forall x :: x in rest ==> x in q
    ensures forall x :: x in q && x != top ==> x in rest
    ensures |rest| == |q| - 1
  {
    forall x | x in rest
      ensures x in q
    {
      assert x in multiset(q);
    }
    forall x | x in q && x != top
      ensures x in rest
    {
      assert x in multiset(q);
    }
    assert |multiset(rest)| + 1 == |multiset(q)|;
  }

  /** A popped entry of an unvisited id carries the id's current distance. */
  lemma PoppedIsCurrent(g: Graph, start: NodeId, s: LState, rank: map<NodeId, nat>, top: Entry)
    requires Invariant(g, start, s, rank)
    requires top in s.queue && (forall x :: x in s.queue ==> top.dist <= x.dist) && top.id !in s.visited
    ensures top.id in s.dist && s.dist[top.id] == Fin(top.dist)
  {
    assert Entry(top.id, s.dist[top.id].value) in s.queue;
  }

  /** Popping an entry of a visited id: every edge leaving it is relaxed,
      so processing changes nothing, and dropping the entry keeps the
      invariant. */
  lemma StaleStep(g: Graph, start: NodeId, s: LState, rank: map<NodeId, nat>, top: Entry, rest: seq<Entry>)
    requires Invariant(g, start, s, rank)
    requires top in s.queue && multiset(rest) + multiset{top} == multiset(s.queue)
    requires top.id in s.visited
    ensures var m := s.(visited := s.visited + {top.id}, queue := rest);
            && m == s.(queue := rest) && |rest| < |s.queue|
            && top.id in m.dist && m.dist[top.id].Fin?
            && RelaxedOver(Outgoing(g.edges, top.id), top.id, m)
            && Invariant(g, start, m, rank)
  {
    PopKeeps(s.queue, top, rest);
    assert s.visited + {top.id} == s.visited;
  }

  /** Facts about processing a freshly popped id `u`: visited ids keep
      their distances, and an id whose distance dropped was unvisited, is
      not `u` or the start, and now sits at least as far as `u`. */
  lemma FreshBasics(g: Graph, start: NodeId, s: LState, rank: map<NodeId, nat>, top: Entry, rest: seq<Entry>, r: LState)
    requires FuelsNonNegative(g.edges) && Invariant(g, start, s, rank)
    requires top in s.queue && top.id !in s.visited && top.id in s.dist && s.dist[top.id] == Fin(top.dist)
    requires var m := s.(visited := s.visited + {top.id}, queue := rest);
             CanExpand(Outgoing(g.edges, top.id), top.id, m)
             && ExpandedUpTo(Outgoing(g.edges, top.id), top.id, m, r, |Outgoing(g.edges, top.id)|)
    ensures forall v :: v in s.visited ==> r.dist[v] == s.dist[v]
    ensures r.dist[top.id] == s.dist[top.id]
    ensures forall v :: v in s.dist && r.dist[v] != s.dist[v] ==>
              && v !in s.visited && v != top.id && v != start && r.dist[v].Fin? && top.dist <= r.dist[v].value
              && v in r.prev && r.prev[v] == Some(top.id) && Entry(v, r.dist[v].value) in r.queue
              && LinkRealised(g.edges, r.dist, top.id, v)
  {
    var u := top.id;
    var out := Outgoing(g.edges, u);
    var m := s.(visited := s.visited + {u}, queue := rest);
    forall v | v in s.dist && r.dist[v] != s.dist[v]
      ensures && v !in s.visited && v != u && v != start && r.dist[v].Fin? && top.dist <= r.dist[v].value
              && v in r.prev && r.prev[v] == Some(u) && Entry(v, r.dist[v].value) in r.queue
              && LinkRealised(g.edges, r.dist, u, v)
    {
      assert Improved(out, u, m, r, v);
      var e :| e in out && e.to == v && e.fuelUsed.Some? && r.dist[v] == m.dist[u].Plus(e.fuelUsed.value);
      assert e in g.edges;
      assert r.dist[u] == m.dist[u];
    }
  }

  lemma FreshShape(g: Graph, start: NodeId, s: LState, rank: map<NodeId, nat>, top: Entry, rest: seq<Entry>, r: LState)
    requires FuelsNonNegative(g.edges) && Invariant(g, start, s, rank)
    requires top in s.queue && multiset(rest) + multiset{top} == multiset(s.queue)
    requires top.id !in s.visited && top.id in s.dist && s.dist[top.id] == Fin(top.dist)
    requires var m := s.(visited := s.visited + {top.id}, queue := rest);
             CanExpand(Outgoing(g.edges, top.id), top.id, m)
             && ExpandedUpTo(Outgoing(g.edges, top.id), top.id, m, r, |Outgoing(g.edges, top.id)|)
    ensures Shaped(g, start, r)
  {
    FreshBasics(g, start, s, rank, top, rest, r);
    PopKeeps(s.queue, top, rest);
    var u := top.id;
    var m := s.(visited := s.visited + {u}, queue := rest);
    assert QueueGrown(u, m, r);
    forall x | x in r.queue
      ensures x.id in r.dist && r.dist[x.id].AtMost(Fin(x.dist))
    {
      if x in rest {
        assert x in s.queue;
        assert r.dist[x.id].AtMost(s.dist[x.id]);
      }
    }
    forall v | v in r.dist && r.dist[v].Fin?
      ensures r.dist[v].value >= 0.0
    {
      if r.dist[v] != s.dist[v] {
        assert top.dist <= r.dist[v].value;
      }
    }
  }

  lemma FreshFrontier(g: Graph, start: NodeId, s: LState, rank: map<NodeId, nat>, top: Entry, rest: seq<Entry>, r: LState)
    requires FuelsNonNegative(g.edges) && Invariant(g, start, s, rank)
    requires top in s.queue && multiset(rest) + multiset{top} == multiset(s.queue)
    requires top.id !in s.visited && top.id in s.dist && s.dist[top.id] == Fin(top.dist)
    requires var m := s.(visited := s.visited + {top.id}, queue := rest);
             CanExpand(Outgoing(g.edges, top.id), top.id, m)
             && ExpandedUpTo(Outgoing(g.edges, top.id), top.id, m, r, |Outgoing(g.edges, top.id)|)
    ensures FrontierOk(r)
  {
    FreshBasics(g, start, s, rank, top, rest, r);
    PopKeeps(s.queue, top, rest);
    forall v | v in r.dist && v !in r.visited && r.dist[v].Fin?
      ensures Entry(v, r.dist[v].value) in r.queue
    {
      if r.dist[v] == s.dist[v] {
        assert Entry(v, s.dist[v].value) in rest;
      }
    }
  }

  lemma FreshOrder(g: Graph, start: NodeId, s: LState, rank: map<NodeId, nat>, top: Entry, rest: seq<Entry>, r: LState)
    requires FuelsNonNegative(g.edges) && Invariant(g, start, s, rank)
    requires top in s.queue && (forall x :: x in s.queue ==> top.dist <= x.dist)
    requires multiset(rest) + multiset{top} == multiset(s.queue)
    requires top.id !in s.visited && top.id in s.dist && s.dist[top.id] == Fin(top.dist)
    requires var m := s.(visited := s.visited + {top.id}, queue := rest);
             CanExpand(Outgoing(g.edges, top.id), top.id, m)
             && ExpandedUpTo(Outgoing(g.edges, top.id), top.id, m, r, |Outgoing(g.edges, top.id)|)
    ensures VisitedFirst(r)
  {
    FreshBasics(g, start, s, rank, top, rest, r);
    PopKeeps(s.queue, top, rest);
    forall v | v in r.visited
      ensures v in r.dist && r.dist[v].Fin? && forall x :: x in r.queue ==> r.dist[v].value <= x.dist
    {
      forall x | x in r.queue
        ensures r.dist[v].value <= x.dist
      {
        if x in rest {
          assert x in s.queue;
        }
      }
    }
  }

  lemma FreshRelaxed(g: Graph, start: NodeId, s: LState, rank: map<NodeId, nat>, top: Entry, rest: seq<Entry>, r: LState)
    requires FuelsNonNegative(g.edges) && Invariant(g, start, s, rank)
    requires top in s.queue && (forall x :: x in s.queue ==> top.dist <= x.dist)
    requires top.id !in s.visited && top.id in s.dist && s.dist[top.id] == Fin(top.dist)
    requires var m := s.(visited := s.visited + {top.id}, queue := rest);
             CanExpand(Outgoing(g.edges, top.id), top.id, m)
             && ExpandedUpTo(Outgoing(g.edges, top.id), top.id, m, r, |Outgoing(g.edges, top.id)|)
    ensures RelaxedOk(g.edges, r)
  {
    FreshBasics(g, start, s, rank, top, rest, r);
    var u := top.id;
    var out := Outgoing(g.edges, u);
    assert out[..|out|] == out;
    forall e | e in g.edges && e.from in r.visited && e.from in r.dist && e.fuelUsed.Some? && e.to in r.dist
      ensures r.dist[e.to].AtMost(r.dist[e.from].Plus(e.fuelUsed.value))
    {
      if e.from == u {
        assert e in out;
        if e.to in s.visited {
          assert s.dist[e.to].value <= top.dist;
        }
      } else {
        assert s.dist[e.to].AtMost(s.dist[e.from].Plus(e.fuelUsed.value));
      }
    }
  }

  lemma FreshLinks(g: Graph, start: NodeId, s: LState, rank: map<NodeId, nat>, top: Entry, rest: seq<Entry>, r: LState)
    requires FuelsNonNegative(g.edges) && Invariant(g, start, s, rank)
    requires top in s.queue && top.id !in s.visited && top.id in s.dist && s.dist[top.id] == Fin(top.dist)
    requires var m := s.(visited := s.visited + {top.id}, queue := rest);
             CanExpand(Outgoing(g.edges, top.id), top.id, m)
             && ExpandedUpTo(Outgoing(g.edges, top.id), top.id, m, r, |Outgoing(g.edges, top.id)|)
    ensures LinksOk(g.edges, start, r)
    ensures Ranked(r.prev, s.visited + {top.id}, rank[top.id := |s.visited|])
  {
    FreshBasics(g, start, s, rank, top, rest, r);
    var u := top.id;
    forall v | v in r.prev
      ensures r.prev[v].Some? && r.prev[v].value in r.dist && v in r.dist && LinkRealised(g.edges, r.dist, r.prev[v].value, v)
    {
      if v !in s.dist || r.dist[v] == s.dist[v] {
        var w := s.prev[v].value;
        assert w in s.visited;
        var e :| e in g.edges && e.from == w && e.to == v && e.fuelUsed.Some? && s.dist[v] == s.dist[w].Plus(e.fuelUsed.value);
        assert r.dist[v] == r.dist[w].Plus(e.fuelUsed.value);
      }
    }
    RankedStep(s, r, rank, u);
  }

  /** Visiting `u` after an expansion that only re-linked unvisited ids
      other than `u` to `u` keeps ranks increasing along links. */
  lemma RankedStep(s: LState, r: LState, rank: map<NodeId, nat>, u: NodeId)
    requires Ranked(s.prev, s.visited, rank) && u !in s.visited && s.prev.Keys <= s.dist.Keys
    requires r.dist.Keys == s.dist.Keys
    requires forall v :: v in s.dist && r.dist[v] != s.dist[v] ==>
               v in r.prev && r.prev[v] == Some(u) && v !in s.visited && v != u
    requires forall v :: v in r.prev && (v !in s.dist || r.dist[v] == s.dist[v]) ==> v in s.prev && r.prev[v] == s.prev[v]
    ensures Ranked(r.prev, s.visited + {u}, rank[u := |s.visited|])
  {
    var done', rank' := s.visited + {u}, rank[u := |s.visited|];
    assert |done'| == |s.visited| + 1;
    forall v | v in r.prev && r.prev[v].Some?
      ensures r.prev[v].value in done' && (v in done' ==> rank'[r.prev[v].value] < rank'[v])
    {
      if v !in s.dist || r.dist[v] == s.dist[v] {
        assert s.prev[v].value in s.visited;
      }
    }
  }

  /** Visiting a freshly popped id and processing it keeps the invariant. */
  lemma FreshStep(g: Graph, start: NodeId, s: LState, rank: map<NodeId, nat>, top: Entry, rest: seq<Entry>, r: LState)
    requires FuelsNonNegative(g.edges) && Invariant(g, start, s, rank)
    requires top in s.queue && (forall x :: x in s.queue ==> top.dist <= x.dist)
    requires multiset(rest) + multiset{top} == multiset(s.queue)
    requires top.id !in s.visited && top.id in s.dist && s.dist[top.id] == Fin(top.dist)
    requires var m := s.(visited := s.visited + {top.id}, queue := rest);
             CanExpand(Outgoing(g.edges, top.id), top.id, m)
             && ExpandedUpTo(Outgoing(g.edges, top.id), top.id, m, r, |Outgoing(g.edges, top.id)|)
    ensures Invariant(g, start, r, rank[top.id := |s.visited|])
  {
    FreshShape(g, start, s, rank, top, rest, r);
    FreshFrontier(g, start, s, rank, top, rest, r);
    FreshOrder(g, start, s, rank, top, rest, r);
    FreshRelaxed(g, start, s, rank, top, rest, r);
    FreshLinks(g, start, s, rank, top, rest, r);
  }

  /** The main loop: pop the earliest entry of minimal distance, mark its
      id visited and process the edges leaving it, until the frontier is
      empty. */
  method Drain(g: Graph, start: NodeId) returns (s: LState, ghost rank: map<NodeId, nat>)
    requires FuelsNonNegative(g.edges)
    ensures Invariant(g, start, s, rank) && s.queue == []
  {
    s := InitialState(g, start);
    rank := map[];
    InitialInvariant(g, start);
    while |s.queue| > 0
      invariant Invariant(g, start, s, rank)
      decreases |Known(g, start) - s.visited|, |s.queue|
    {
      var popped := SortAndShift(s.queue);
      var top, rest := popped.0, popped.1;
      var u := top.id;
      ghost var firstVisit := u !in s.visited;
      if firstVisit {
        PoppedIsCurrent(g, start, s, rank, top);
      } else {
        StaleStep(g, start, s, rank, top, rest);
      }
      var marked := s.(visited := s.visited + {u}, queue := rest);
      var next := ProcessNode(g.edges, u, marked);
      if firstVisit {
        FreshStep(g, start, s, rank, top, rest, next);
        Search.SettlingShrinks(Known(g, start), s.visited, u);
        rank := rank[u := |s.visited|];
      } else {
        assert next == marked;
      }
      s := next;
    }
  }

  /** Some edge leads from `u` to `v` with a fuel figure. */
  predicate HasArc(edges: seq<Edge>, u: NodeId, v: NodeId) {
    exists e :: e in edges && e.from == u && e.to == v && e.fuelUsed.Some?
  }

  /** A directed route through known ids: every node is known and each
      consecutive pair is joined by an edge in its direction. */
  predicate IsDirectedRoute(edges: seq<Edge>, known: set<NodeId>, p: seq<NodeId>) {
    && |p| >= 1
    && (forall i :: 0 <= i < |p| ==> p[i] in known)
    && forall i :: 0 <= i < |p| - 1 ==> HasArc(edges, p[i], p[i + 1])
  }

  predicate IsDirectedRouteFrom(edges: seq<Edge>, known: set<NodeId>, p: seq<NodeId>, a: NodeId, b: NodeId) {
    IsDirectedRoute(edges, known, p) && p[0] == a && p[|p| - 1] == b
  }

  ghost predicate DirectedReachable(edges: seq<Edge>, known: set<NodeId>, a: NodeId, b: NodeId) {
    exists p :: IsDirectedRouteFrom(edges, known, p, a, b)
  }

  /** The smallest fuel figure among the edges from `u` to `v`; Infinity
      when there is none. */
  function CheapestArc(edges: seq<Edge>, u: NodeId, v: NodeId): (c: Ext)
    ensures c.Fin? <==> HasArc(edges, u, v)
    ensures forall e :: e in edges && e.from == u && e.to == v && e.fuelUsed.Some? ==> c.AtMost(Fin(e.fuelUsed.value))
    ensures c.Fin? ==> exists e :: e in edges && e.from == u && e.to == v && e.fuelUsed.Some? && c == Fin(e.fuelUsed.value)
    decreases |edges|
  {
    if |edges| == 0 then Inf
    else
      var rest := CheapestArc(edges[1..], u, v);
      var e := edges[0];
      assert edges == [e] + edges[1..];
      if e.from == u && e.to == v && e.fuelUsed.Some? && Fin(e.fuelUsed.value).Below(rest) then Fin(e.fuelUsed.value)
      else rest
  }

  /** The fuel of a directed route, each hop at its cheapest edge. */
  function DirectedCost(edges: seq<Edge>, p: seq<NodeId>): Ext
    decreases |p|
  {
    if |p| <= 1 then Fin(0.0)
    else DirectedCost(edges, p[..|p| - 1]).Add(CheapestArc(edges, p[|p| - 2], p[|p| - 1]))
  }

  /** With the frontier drained, the distance of every node of a directed
      route from the start is at most the fuel of the route up to it, which
      is finite. */
  lemma {:induction false} DrainedBound(g: Graph, start: NodeId, s: LState, p: seq<NodeId>, k: nat)
    requires s.dist.Keys == Known(g, start) && s.dist[start].AtMost(Fin(0.0))
    requires FrontierOk(s) && s.queue == [] && RelaxedOk(g.edges, s)
    requires IsDirectedRoute(g.edges, Known(g, start), p) && p[0] == start && k < |p|
    ensures DirectedCost(g.edges, p[..k + 1]).Fin?
    ensures s.dist[p[k]].AtMost(DirectedCost(g.edges, p[..k + 1]))
    decreases k
  {
    if k == 0 {
      assert |p[..1]| == 1;
    } else {
      DrainedBound(g, start, s, p, k - 1);
      DrainedVisited(s, p[k - 1]);
      assert HasArc(g.edges, p[k - 1], p[k]);
      DrainedHop(g.edges, s.dist, p, k);
    }
  }

  /** A relaxed arc extends the bound by one hop. */
  lemma DrainedHop(edges: seq<Edge>, dist: map<NodeId, Ext>, p: seq<NodeId>, k: nat)
    requires 1 <= k < |p| && p[k - 1] in dist && p[k] in dist && HasArc(edges, p[k - 1], p[k])
    requires DirectedCost(edges, p[..k]).Fin? && dist[p[k - 1]].AtMost(DirectedCost(edges, p[..k]))
    requires forall e :: e in edges && e.from == p[k - 1] && e.to == p[k] && e.fuelUsed.Some? ==>
               dist[p[k]].AtMost(dist[p[k - 1]].Plus(e.fuelUsed.value))
    ensures DirectedCost(edges, p[..k + 1]).Fin? && dist[p[k]].AtMost(DirectedCost(edges, p[..k + 1]))
  {
    var u, v := p[k - 1], p[k];
    var e :| e in edges && e.from == u && e.to == v && e.fuelUsed.Some? && CheapestArc(edges, u, v) == Fin(e.fuelUsed.value);
    assert dist[v].AtMost(dist[u].Plus(e.fuelUsed.value));
    DirectedCostStep(edges, p, k);
  }

  /** The cost of a prefix one node longer adds the cheapest arc of its last
      hop. */
  lemma DirectedCostStep(edges: seq<Edge>, p: seq<NodeId>, k: nat)
    requires 1 <= k < |p|
    ensures DirectedCost(edges, p[..k + 1]) == DirectedCost(edges, p[..k]).Add(CheapestArc(edges, p[k - 1], p[k]))
  {
    var q := p[..k + 1];
    assert q[..k] == p[..k] && q[k - 1] == p[k - 1] && q[k] == p[k];
  }

  /** No directed route from the start is cheaper than the drained
      distance of its last node, and every such node is at a finite
      distance. */
  lemma DrainedOptimal(g: Graph, start: NodeId, s: LState, rank: map<NodeId, nat>, end: NodeId)
    requires Invariant(g, start, s, rank) && s.queue == []
    ensures forall p :: IsDirectedRouteFrom(g.edges, Known(g, start), p, start, end) ==>
              DirectedCost(g.edges, p).Fin? && s.dist[end].AtMost(DirectedCost(g.edges, p))
  {
    forall p | IsDirectedRouteFrom(g.edges, Known(g, start), p, start, end)
      ensures DirectedCost(g.edges, p).Fin? && s.dist[end].AtMost(DirectedCost(g.edges, p))
    {
      DrainedBound(g, start, s, p, |p| - 1);
      assert p[..|p|] == p;
    }
  }

  /** With the frontier drained, every id at a finite distance is visited. */
  lemma DrainedVisited(s: LState, v: NodeId)
    requires FrontierOk(s) && s.queue == [] && v in s.dist && s.dist[v].Fin?
    ensures v in s.visited
  {
  }

  /** With the frontier drained, every id at a finite distance is reached
      by a directed route from the start, found by following predecessors. */
  lemma RouteBack(g: Graph, start: NodeId, s: LState, rank: map<NodeId, nat>, v: NodeId) returns (p: seq<NodeId>)
    requires s.dist.Keys == Known(g, start) && FrontierOk(s) && s.queue == []
    requires LinksOk(g.edges, start, s) && Ranked(s.prev, s.visited, rank)
    requires v in s.dist && s.dist[v].Fin?
    ensures IsDirectedRouteFrom(g.edges, Known(g, start), p, start, v)
    decreases if v in rank then rank[v] else 0
  {
    DrainedVisited(s, v);
    if v == start {
      p := [start];
    } else {
      var w := s.prev[v].value;
      assert LinkRealised(g.edges, s.dist, w, v);
      var e :| e in g.edges && e.from == w && e.to == v && e.fuelUsed.Some? && s.dist[v] == s.dist[w].Plus(e.fuelUsed.value);
      assert HasArc(g.edges, w, v);
      DrainedVisited(s, w);
      var q := RouteBack(g, start, s, rank, w);
      p := q + [v];
      DirectedRouteExtend(g.edges, Known(g, start), q, v);
    }
  }

  /** A directed route extended by an arc out of its last node. */
  lemma DirectedRouteExtend(edges: seq<Edge>, known: set<NodeId>, q: seq<NodeId>, v: NodeId)
    requires IsDirectedRoute(edges, known, q) && v in known && HasArc(edges, q[|q| - 1], v)
    ensures IsDirectedRoute(edges, known, q + [v]) && (q + [v])[0] == q[0] && (q + [v])[|q|] == v
  {
    var p := q + [v];
    assert forall i :: 0 <= i < |q| ==> p[i] == q[i];
  }

  /** Predecessor links are edges: consecutive nodes of a chain are joined
      in their direction. */
  lemma ChainArcs(edges: seq<Edge>, start: NodeId, s: LState, path: seq<NodeId>)
    requires LinksOk(edges, start, s) && IsChain(s.prev, path)
    ensures forall i :: 0 <= i < |path| - 1 ==> HasArc(edges, path[i], path[i + 1])
  {
    forall i | 0 <= i < |path| - 1
      ensures HasArc(edges, path[i], path[i + 1])
    {
      assert s.prev[path[i + 1]] == Some(path[i]);
      assert LinkRealised(edges, s.dist, path[i], path[i + 1]);
    }
  }

  /** Going back along a chain from a node at a finite distance only meets
      nodes at finite distances. */
  lemma {:induction false} ChainFinite(edges: seq<Edge>, start: NodeId, s: LState, path: seq<NodeId>, k: nat)
    requires LinksOk(edges, start, s) && IsChain(s.prev, path)
    requires k < |path| && path[k] in s.dist && s.dist[path[k]].Fin?
    ensures path[0] in s.dist && s.dist[path[0]].Fin?
    decreases k
  {
    if k > 0 {
      var u, v := path[k - 1], path[k];
      assert s.prev[v] == Some(u);
      assert LinkRealised(edges, s.dist, u, v);
      ChainFinite(edges, start, s, path, k - 1);
    }
  }

  /** A chain from the start costs, hop by hop at the cheapest edge, at most
      the distance of its last node. */
  lemma {:induction false} ChainCost(edges: seq<Edge>, start: NodeId, s: LState, path: seq<NodeId>, k: nat)
    requires LinksOk(edges, start, s) && IsChain(s.prev, path)
    requires |path| >= 1 && path[0] == start && start in s.dist && s.dist[start] == Fin(0.0) && k < |path|
    ensures path[k] in s.dist && DirectedCost(edges, path[..k + 1]).AtMost(s.dist[path[k]])
    decreases k
  {
    if k == 0 {
      assert |path[..1]| == 1;
    } else {
      ChainCost(edges, start, s, path, k - 1);
      assert s.prev[path[k]] == Some(path[k - 1]);
      ChainHop(edges, s.dist, path, k);
    }
  }

  /** One more hop along a chain adds at most the fuel of the edge that
      realises the hop. */
  lemma ChainHop(edges: seq<Edge>, dist: map<NodeId, Ext>, path: seq<NodeId>, k: nat)
    requires 1 <= k < |path| && path[k - 1] in dist && path[k] in dist
    requires LinkRealised(edges, dist, path[k - 1], path[k])
    requires DirectedCost(edges, path[..k]).AtMost(dist[path[k - 1]])
    ensures DirectedCost(edges, path[..k + 1]).AtMost(dist[path[k]])
  {
    var u, v := path[k - 1], path[k];
    var e :| e in edges && e.from == u && e.to == v && e.fuelUsed.Some? && dist[v] == dist[u].Plus(e.fuelUsed.value);
    assert CheapestArc(edges, u, v).AtMost(Fin(e.fuelUsed.value));
    DirectedCostStep(edges, path, k);
  }

  /** What the drained distances say about the destination. */
  lemma ConcludeDistance(g: Graph, start: NodeId, end: NodeId, s: LState, rank: map<NodeId, nat>, fuel: Option<Ext>)
    requires Invariant(g, start, s, rank) && s.queue == []
    requires fuel == if end in s.dist then Some(s.dist[end]) else None
    ensures fuel.None? <==> end !in Known(g, start)
    ensures s.dist[start] == Fin(0.0)
    ensures end == start ==> fuel == Some(Fin(0.0))
    ensures fuel.Some? ==> (fuel.value.Fin? <==> DirectedReachable(g.edges, Known(g, start), start, end))
    ensures fuel.Some? ==> forall p :: IsDirectedRouteFrom(g.edges, Known(g, start), p, start, end) ==> fuel.value.AtMost(DirectedCost(g.edges, p))
  {
    DrainedOptimal(g, start, s, rank, end);
    if fuel.Some? && fuel.value.Fin? {
      var p := RouteBack(g, start, s, rank, end);
    }
  }

  /** What the walk back says about the returned path. */
  lemma ConcludePath(g: Graph, start: NodeId, end: NodeId, s: LState, rank: map<NodeId, nat>, path: seq<NodeId>, fuel: Option<Ext>)
    requires Invariant(g, start, s, rank) && s.queue == [] && s.dist[start] == Fin(0.0)
    requires fuel == if end in s.dist then Some(s.dist[end]) else None
    requires path != [] ==> && path[|path| - 1] == end && IsChain(s.prev, path)
                            && (path[0] !in s.prev || s.prev[path[0]] == Some(""))
    requires end != "" && end !in s.prev ==> path == [end]
    requires path == [] <==> end == ""
    requires fuel.Some? ==> forall p :: IsDirectedRouteFrom(g.edges, Known(g, start), p, start, end) ==> fuel.value.AtMost(DirectedCost(g.edges, p))
    ensures forall i :: 0 <= i < |path| - 1 ==> HasArc(g.edges, path[i], path[i + 1])
    ensures end != "" && (fuel.None? || fuel.value.Inf?) ==> path == [end]
    ensures fuel.Some? && fuel.value.Fin? && "" !in Known(g, start) ==>
              IsDirectedRouteFrom(g.edges, Known(g, start), path, start, end) && fuel.value == DirectedCost(g.edges, path)
  {
    ChainArcs(g.edges, start, s, path);
    if end in s.prev {
      assert s.dist[end].Fin? by {
        var w := s.prev[end].value;
        assert LinkRealised(g.edges, s.dist, w, end);
      }
    }
    if fuel.Some? && fuel.value.Fin? && "" !in Known(g, start) {
      ChainFinite(g.edges, start, s, path, |path| - 1);
      assert path[0] == start;
      ChainCost(g.edges, start, s, path, |path| - 1);
      assert path[..|path|] == path;
      assert IsDirectedRouteFrom(g.edges, Known(g, start), path, start, end);
    }
  }

  /** The older `dijkstra`: drain the frontier, then walk back from the
      destination while the cursor is truthy. The path is empty only for
      the empty destination; it always ends at the destination and follows
      edges in their direction. The fuel figure is absent for an unknown
      destination, finite exactly when the destination is reachable, and
      then no directed route is cheaper and the path is such a route at
      exactly that cost (when the empty id is not in play). An unreached
      destination comes back alone. */
  method Dijkstra(g: Graph, start: NodeId, end: NodeId) returns (a: LegacyAnswer)
    requires FuelsNonNegative(g.edges)
    ensures a.path == [] <==> end == ""
    ensures a.path != [] ==> a.path[|a.path| - 1] == end
    ensures forall i :: 0 <= i < |a.path| - 1 ==> HasArc(g.edges, a.path[i], a.path[i + 1])
    ensures forall i, k :: 0 <= i < k < |a.path| ==> a.path[i] != a.path[k]
    ensures a.fuelUsed.None? <==> end !in Known(g, start)
    ensures end == start ==> a.fuelUsed == Some(Fin(0.0))
    ensures a.fuelUsed.Some? ==> (a.fuelUsed.value.Fin? <==> DirectedReachable(g.edges, Known(g, start), start, end))
    ensures a.fuelUsed.Some? ==> forall p :: IsDirectedRouteFrom(g.edges, Known(g, start), p, start, end) ==>
              a.fuelUsed.value.AtMost(DirectedCost(g.edges, p))
    ensures end != "" && (a.fuelUsed.None? || a.fuelUsed.value.Inf?) ==> a.path == [end]
    ensures a.fuelUsed.Some? && a.fuelUsed.value.Fin? && "" !in Known(g, start) ==>
              && IsDirectedRouteFrom(g.edges, Known(g, start), a.path, start, end)
              && a.fuelUsed.value == DirectedCost(g.edges, a.path)
  {
    var s, rank := Drain(g, start);
    var path := WalkBackWhileTruthy(s.prev, end, s.visited, rank);
    var fuel := if end in s.dist then Some(s.dist[end]) else None;
    ConcludeDistance(g, start, end, s, rank, fuel);
    ConcludePath(g, start, end, s, rank, path, fuel);
    a := LegacyAnswer(path, fuel);
  }
}
