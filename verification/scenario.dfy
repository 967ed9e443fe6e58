/** A worked example run end to end: a short efficient road from A to B and
    a long, congested, inefficient one from B to C, loaded, indexed and
    searched by the toll-aware planner. */
module Scenario {
  import opened Common
  import opened Graph
  import opened CostModel
  import opened Adjacency
  import opened Routes
  import opened SearchState
  import opened Planner

  const AB: Edge := Edge("A", "B", 50.0, 20.0, 1.0, 1.0, None, None)
  const BC: Edge := Edge("B", "C", 150.0, 10.0, 1.0, 1.5, None, None)
  const Raw: Graph := Graph([Node("A", 0.0, 0.0), Node("B", 1.0, 0.0), Node("C", 2.0, 0.0)], [AB, BC])

  /** The two edges after the load step. */
  const LoadedAB: Edge := AB.(fuelUsed := Some(2.5), toll := Some(0.0))
  const LoadedBC: Edge := BC.(fuelUsed := Some(15.0), toll := Some(180.0))

  /** The neighbour index of the loaded graph. */
  const Index: AdjacencyList := map["A" := [Neighbor("B", 2.5)],
                                    "B" := [Neighbor("A", 2.5), Neighbor("C", 15.0)],
                                    "C" := [Neighbor("B", 15.0)]]

  /** Loading attaches 2.5 fuel and no toll to the short road, 15 fuel and
      a toll of 180 to the long one. */
  lemma LoadedScenario()
    ensures AllPositiveEfficiency(Raw.edges)
    ensures Load(Raw) == Graph(Raw.nodes, [LoadedAB, LoadedBC])
    ensures Loaded(Load(Raw)) && EndpointsKnown(Load(Raw))
    ensures NodeIds(Load(Raw)) == {"A", "B", "C"}
  {
    var g := Load(Raw);
    assert TollOf(AB) == 0.0 && FuelUsed(AB) == 2.5;
    assert TollOf(BC) == 180.0 && FuelUsed(BC) == 15.0;
    assert g.edges[0] == LoadedAB && g.edges[1] == LoadedBC;
    assert g.edges == [LoadedAB, LoadedBC];
    assert TollOf(LoadedAB) == 0.0 && TollOf(LoadedBC) == 180.0;
    assert NodeIds(g) == {"A", "B", "C"} by {
      assert g.nodes[0].id == "A" && g.nodes[1].id == "B" && g.nodes[2].id == "C";
    }
  }

  /** The index of the loaded graph is `Index`: each road listed under both
      of its ends. */
  lemma IndexOfScenario(adj: AdjacencyList)
    requires AllPositiveEfficiency(Load(Raw).edges) && IsAdjacencyOf(adj, Load(Raw))
    ensures adj == Index
  {
    LoadedScenario();
    var edges := [LoadedAB, LoadedBC];
    assert FuelUsed(LoadedAB) == 2.5 && FuelUsed(LoadedBC) == 15.0;
    assert edges[..1] == [LoadedAB] && [LoadedAB][..0] == [];
    forall k | k in {"A", "B", "C"}
      ensures NeighboursOf(edges, k) == Contribution(LoadedAB, k) + Contribution(LoadedBC, k)
    {
      assert NeighboursOf([LoadedAB], k) == [] + Contribution(LoadedAB, k);
    }
    assert adj["A"] == Index["A"];
    assert adj["B"] == Index["B"];
    assert adj["C"] == Index["C"];
  }

  /** A repetition-free route from A to C through `Index` can only be
      A, B, C. */
  lemma OnlyRoute(p: seq<NodeId>)
    requires IsRouteFrom(Index, p, "A", "C") && forall i, k :: 0 <= i < k < |p| ==> p[i] != p[k]
    ensures p == ["A", "B", "C"]
  {
    assert |p| >= 2;
    assert IsNeighbour(Index, p[0], p[1]);
    assert p[1] == "B";
    assert |p| >= 3;
    assert IsNeighbour(Index, p[1], p[2]);
    assert p[2] == "C";
  }

  /** The route A, B, C costs 2.5 for the first hop and 15 + 180 for the
      second. */
  lemma RouteCost(g: Graph)
    requires g == Graph(Raw.nodes, [LoadedAB, LoadedBC]) && Loaded(g)
    ensures IsRouteFrom(Index, ["A", "B", "C"], "A", "C")
    ensures PathCost(g, Index, ["A", "B", "C"]) == Fin(197.5)
  {
    var p := ["A", "B", "C"];
    assert Index["A"][0].to == "B" && Index["B"][1].to == "C";
    assert FindEdge(g.edges, "A", "B") == Some(LoadedAB);
    assert FindEdge(g.edges, "B", "C") == Some(LoadedBC);
    assert BestHop(g, Index, "A", "B") == Fin(2.5);
    assert BestHop(g, Index, "B", "C") == Fin(195.0);
    assert p[..2] == ["A", "B"] && p[..2][..1] == ["A"];
  }

  /** The whole pipeline on the example: load, index, search from A to C.
      The answer is the route A, B, C at 197.5. */
  method ThreeNodeScenario() returns (r: Result<Answer, JsError>)
    ensures r == Success(Answer(["A", "B", "C"], Fin(197.5)))
  {
    LoadedScenario();
    var g := Load(Raw);
    var built := BuildAdjacency(g);
    var adj := built.value;
    IndexOfScenario(adj);
    RouteCost(g);
    r := Dijkstra(g, "A", "C", adj);
    assert Reachable(adj, "A", "C");
    OnlyRoute(r.value.path);
  }
}
