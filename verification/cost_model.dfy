/** The cost model of the toll-aware planner: the fuel formula, the toll rule
    the loader applies to every edge, and the cost of one hop. */
module CostModel {
  import opened Common
  import opened Graph

  /** Price of one unit of fuel. */
  const FuelPrice: real := 1.0
  /** Toll per unit of length. */
  const BaseRate: real := 1.0
  /** Roads up to this length are toll-free. */
  const TollThreshold: real := 100.0
  /** Below this efficiency the toll is discounted. */
  const EfficiencyThreshold: real := 14.0
  const LowEfficiencyDiscount: real := 0.2
  /** Above this traffic weight the toll is multiplied. */
  const TrafficThreshold: real := 1.2
  const CongestionMultiplier: real := 1.5

  /** The discount rate: positive, and below 1, exactly for an efficiency
      under the threshold. */
  function EfficiencyDiscount(e: Edge): (d: real)
    ensures 0.0 <= d < 1.0
    ensures d > 0.0 <==> e.efficiency < EfficiencyThreshold
  {
    if e.efficiency < EfficiencyThreshold then LowEfficiencyDiscount else 0.0
  }

  /** The congestion factor: never below 1, and above 1 exactly for a
      traffic weight over the threshold. */
  function TrafficMultiplier(e: Edge): (m: real)
    ensures m >= 1.0
    ensures m > 1.0 <==> e.trafficWeight > TrafficThreshold
  {
    if e.trafficWeight > TrafficThreshold then CongestionMultiplier else 1.0
  }

  /** The toll rule: free up to the length threshold, otherwise proportional
      to length, between 0.8 and 1.5 times it. */
  function TollOf(e: Edge): (t: real)
    ensures e.length <= TollThreshold ==> t == 0.0
    ensures e.length > TollThreshold ==> 0.8 * e.length <= t <= 1.5 * e.length
    ensures e.length >= 0.0 ==> t >= 0.0
  {
    if e.length > TollThreshold then
      e.length * BaseRate * (1.0 - EfficiencyDiscount(e)) * TrafficMultiplier(e)
    else
      0.0
  }

  /** The four rates of the toll rule, per unit of length, for a road above
      the threshold. */
  lemma TollRates(e: Edge)
    requires e.length > TollThreshold
    ensures e.efficiency < 14.0 && e.trafficWeight > 1.2 ==> TollOf(e) == 1.2 * e.length
    ensures e.efficiency < 14.0 && e.trafficWeight <= 1.2 ==> TollOf(e) == 0.8 * e.length
    ensures e.efficiency >= 14.0 && e.trafficWeight > 1.2 ==> TollOf(e) == 1.5 * e.length
    ensures e.efficiency >= 14.0 && e.trafficWeight <= 1.2 ==> TollOf(e) == e.length
  {
  }

  /** A toll is charged exactly on roads longer than the threshold. */
  lemma TollChargedIffLong(e: Edge)
    ensures TollOf(e) > 0.0 <==> e.length > TollThreshold
  {
  }

  /** The toll does not depend on the nominal direction of the road. */
  lemma TollIgnoresDirection(e: Edge)
    ensures TollOf(e.(from := e.to, to := e.from)) == TollOf(e)
  {
  }

  /** Fuel burnt along a road: length over efficiency, scaled by the
      consumption factor. */
  function FuelUsed(e: Edge): (f: real)
    requires e.efficiency > 0.0
    ensures f * e.efficiency == e.length * e.consumptionFactor
    ensures e.length >= 0.0 && e.consumptionFactor >= 0.0 ==> f >= 0.0
  {
    (e.length / e.efficiency) * e.consumptionFactor
  }

  /** The loader's toll pass: every edge gets its toll, nothing else changes. */
  function AssignTolls(edges: seq<Edge>): (r: seq<Edge>)
    ensures |r| == |edges|
    ensures forall i :: 0 <= i < |r| ==> r[i].toll == Some(TollOf(edges[i]))
    ensures forall i :: 0 <= i < |r| ==> SameRoad(r[i], edges[i]) && r[i].fuelUsed == edges[i].fuelUsed
  {
    seq(|edges|, i requires 0 <= i < |edges| => edges[i].(toll := Some(TollOf(edges[i]))))
  }

  /** The fuel pass: every edge gets its fuel figure, nothing else changes. */
  function CalculateFuelUsed(edges: seq<Edge>): (r: seq<Edge>)
    requires AllPositiveEfficiency(edges)
    ensures |r| == |edges|
    ensures forall i :: 0 <= i < |r| ==> r[i].fuelUsed == Some(FuelUsed(edges[i]))
    ensures forall i :: 0 <= i < |r| ==> SameRoad(r[i], edges[i]) && r[i].toll == edges[i].toll
  {
    seq(|edges|, i requires 0 <= i < |edges| => edges[i].(fuelUsed := Some(FuelUsed(edges[i]))))
  }

  /** Both passes only read base attributes, so running one twice changes
      nothing, and their order does not matter. */
  lemma LoadPassesIdempotentAndCommute(edges: seq<Edge>)
    requires AllPositiveEfficiency(edges)
    ensures AssignTolls(AssignTolls(edges)) == AssignTolls(edges)
    ensures CalculateFuelUsed(CalculateFuelUsed(edges)) == CalculateFuelUsed(edges)
    ensures AssignTolls(CalculateFuelUsed(edges)) == CalculateFuelUsed(AssignTolls(edges))
  {
    var t, f := AssignTolls(edges), CalculateFuelUsed(edges);
    forall i | 0 <= i < |edges|
      ensures AssignTolls(t)[i] == t[i]
      ensures CalculateFuelUsed(f)[i] == f[i]
      ensures AssignTolls(f)[i] == CalculateFuelUsed(t)[i]
    {
      SameRoadSameCosts(t[i], edges[i]);
      SameRoadSameCosts(f[i], edges[i]);
    }
  }

  /** Costs depend on base attributes only. */
  lemma SameRoadSameCosts(a: Edge, b: Edge)
    requires SameRoad(a, b)
    ensures TollOf(a) == TollOf(b)
    ensures b.efficiency > 0.0 ==> FuelUsed(a) == FuelUsed(b)
  {
  }

  /** The complete load step: tolls first, then fuel. */
  function Load(g: Graph): (r: Graph)
    requires AllPositiveEfficiency(g.edges)
    ensures r.nodes == g.nodes && |r.edges| == |g.edges|
    ensures forall i :: 0 <= i < |r.edges| ==>
              && SameRoad(r.edges[i], g.edges[i])
              && r.edges[i].toll == Some(TollOf(g.edges[i]))
              && r.edges[i].fuelUsed == Some(FuelUsed(g.edges[i]))
  {
    var r := Graph(g.nodes, CalculateFuelUsed(AssignTolls(g.edges)));
    assert forall i :: 0 <= i < |r.edges| ==> FuelUsed(AssignTolls(g.edges)[i]) == FuelUsed(g.edges[i]) by {
      forall i | 0 <= i < |r.edges| {
        SameRoadSameCosts(AssignTolls(g.edges)[i], g.edges[i]);
      }
    }
    r
  }

  /** Edges after the load step, with valid attribute signs. */
  predicate LoadedEdges(edges: seq<Edge>) {
    && AllValidAttributes(edges)
    && forall i :: 0 <= i < |edges| ==> edges[i].toll == Some(TollOf(edges[i]))
  }

  predicate Loaded(g: Graph) {
    LoadedEdges(g.edges)
  }

  /** The stored toll of a matched edge, `edge?.toll || 0` in the source:
      0 when no edge matched or its toll is missing. */
  function StoredToll(found: Option<Edge>): (t: real)
    ensures found.None? || found.value.toll.None? ==> t == 0.0
    ensures found.Some? && found.value.toll.Some? ==> t == found.value.toll.value
  {
    match found
    case None => 0.0
    case Some(e) => match e.toll case None => 0.0 case Some(t) => t
  }

  /** `edges.find(...)`: the first stored edge joining `a` and `b` in either
      orientation. */
  function FindEdge(edges: seq<Edge>, a: NodeId, b: NodeId): (r: Option<Edge>)
    ensures r.None? <==> forall i :: 0 <= i < |edges| ==> !Joins(edges[i], a, b)
    ensures r.Some? ==> exists k :: 0 <= k < |edges| && r.value == edges[k] && Joins(edges[k], a, b)
                                      && forall i :: 0 <= i < k ==> !Joins(edges[i], a, b)
  {
    if |edges| == 0 then None
    else if Joins(edges[0], a, b) then Some(edges[0])
    else
      var r := FindEdge(edges[1..], a, b);
      assert forall i :: 1 <= i < |edges| ==> edges[i] == edges[1..][i - 1];
      r
  }

  predicate Joins(e: Edge, a: NodeId, b: NodeId) {
    (e.from == a && e.to == b) || (e.from == b && e.to == a)
  }

  /** Cost of one hop from `a` along a neighbour entry with fuel figure
      `fuel` towards `b`: fuel cost plus the toll of the first stored edge
      joining the two nodes. */
  function HopCost(edges: seq<Edge>, a: NodeId, b: NodeId, fuel: real): (c: real)
    requires LoadedEdges(edges)
    ensures c >= fuel * FuelPrice
  {
    StoredTollNonNegative(edges, a, b);
    fuel * FuelPrice + StoredToll(FindEdge(edges, a, b))
  }

  lemma StoredTollNonNegative(edges: seq<Edge>, a: NodeId, b: NodeId)
    requires LoadedEdges(edges)
    ensures StoredToll(FindEdge(edges, a, b)) >= 0.0
  {
    var found := FindEdge(edges, a, b);
    if found.Some? {
      var k :| 0 <= k < |edges| && found.value == edges[k] && Joins(edges[k], a, b);
      assert TollOf(edges[k]) >= 0.0;
    }
  }

  /** The worked example: a short efficient road and a long, congested,
      inefficient one. */
  lemma ThreeNodeScenarioCosts()
    ensures var ab := Edge("A", "B", 50.0, 20.0, 1.0, 1.0, None, None);
            var bc := Edge("B", "C", 150.0, 10.0, 1.0, 1.5, None, None);
            && FuelUsed(ab) == 2.5 && TollOf(ab) == 0.0
            && FuelUsed(bc) == 15.0 && TollOf(bc) == 180.0
            && FuelUsed(ab) * FuelPrice + TollOf(ab) + FuelUsed(bc) * FuelPrice + TollOf(bc) == 197.5
  {
  }

  /** The thresholds are strict: length 100 is toll-free, efficiency 14 gets
      no discount. */
  lemma ThresholdBoundaries(e: Edge)
    ensures e.length == 100.0 ==> TollOf(e) == 0.0
    ensures e.length == 100.0001 ==> TollOf(e) > 0.0
    ensures e.efficiency == 14.0 ==> EfficiencyDiscount(e) == 0.0
    ensures e.efficiency == 13.999 ==> EfficiencyDiscount(e) == 0.2
    ensures e.trafficWeight == 1.2 ==> TrafficMultiplier(e) == 1.0
  {
  }
}
