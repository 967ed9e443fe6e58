# Fuel- and toll-aware route planner: a Dafny model of its core

The planner loads a road network: nodes with coordinates, and edges with
length, fuel efficiency, consumption factor and traffic weight. Every edge
gets a toll and a fuel figure. The planner then finds the cheapest route
between two nodes with Dijkstra's algorithm. This project models two
generations of that core and proves what they compute.

- **The toll-aware planner** (`script.js`):
  - The toll rule. Roads up to 100 km are free. Longer roads pay 1 per km, with 20 % off for efficiency below 14 and ×1.5 for traffic weight above 1.2.
  - The fuel formula, length / efficiency × consumption factor.
  - A binary min-heap keyed on `dist`.
  - A bidirectional neighbour index.
  - `dijkstra`. It prices a hop as fuel × fuel price plus the toll of the first stored edge joining the two nodes. It stops when the destination is popped and walks the predecessor table back to build the path. The model uses the corrected walk of the finding below, which also stops at a node with no predecessor entry, where the source's walk never ends. A one-node path, or an unreached destination, is reported as "no path" (`[]`, Infinity), so a start equal to the destination yields no path.
- **The older planner** (`js/script.js`):
  - The same fuel pass.
  - A `dijkstra` over directed edges, read straight from the edge list. Its frontier is an array that is stably sorted before each `shift`. A visited table skips visited targets, and the loop drains the frontier completely. The walk back stops at the first falsy predecessor.

Modules, in dependency order:

| module | file | contents |
|---|---|---|
| `Common` | `common.dfy` | `Option`, `Result`, the thrown `TypeError`, costs extended with Infinity (`Ext`) |
| `Graph` | `graph.dfy` | nodes, edges, graphs |
| `CostModel` | `cost_model.dfy` | toll rule, fuel formula, the two load passes, `edges.find`, hop cost |
| `MinHeap` | `min_heap.dfy` | the heap on a sequence: `insert`, `extractMin`, `isEmpty`, `bubbleUp`, `bubbleDown` |
| `Adjacency` | `adjacency.dfy` | `buildAdjacencyList` and a reference definition of each node's list |
| `Routes` | `routes.dfy` | routes through the index and their cost, the yardstick for optimality |
| `PathWalk` | `walk.dfy` | the two walk-back loops, and the toll-aware planner's loop as written |
| `SearchState` | `search_state.dfy` | the toll-aware planner's search state and its invariant's parts |
| `Search` | `search.dfy` | relaxation, node expansion, the loop invariant and its preservation, the final answer |
| `Planner` | `planner.dfy` | the main loop and `dijkstra` of the toll-aware planner |
| `Scenario` | `scenario.dfy` | a three-node example run through loading, indexing and `dijkstra` |
| `SortedQueue` | `sorted_queue.dfy` | the older planner's frontier: stable sort by `dist`, then `shift` |
| `LegacySearch` | `legacy_search.dfy` | the older planner's `dijkstra` |

Modelling conventions:

- Costs are exact reals. Infinity is `Inf`.
- A missing object key (`undefined`) is `None` or an absent map key. The source's `null` predecessor is a present key mapped to `None`.
- A JavaScript exception is `Failure(TypeError)`.
- Mutable heap and queue arrays are values, passed in and returned.
- The ghost `done` and `rank` record which nodes are settled and in what order. They carry the termination and optimality arguments and are not part of the source.

## Model

| member | source | states |
|---|---|---|
| CostModel.EfficiencyDiscount | script.js:27 | the discount is in [0, 1), and positive exactly when the efficiency is below 14 |
| CostModel.TrafficMultiplier | script.js:28 | the traffic factor is at least 1, and above 1 exactly when the traffic weight is above 1.2 |
| CostModel.TollOf | script.js:25-35 | a road up to 100 km long pays no toll; a longer one pays between 0.8 and 1.5 times its length; the toll is never negative for a non-negative length |
| CostModel.TollRates | script.js:26-34 | above 100 km the toll per km is 1.2 when efficiency is below 14 and traffic is above 1.2, 0.8 for low efficiency alone, 1.5 for heavy traffic alone, and 1 otherwise |
| CostModel.TollChargedIffLong | script.js:30-34 | a toll is charged if and only if the road is longer than 100 km, whatever the other attributes |
| CostModel.ThresholdBoundaries | script.js:27-30 | all three thresholds are strict: 100 km is free, efficiency 14 gets no discount, traffic 1.2 gets no surcharge |
| CostModel.TollIgnoresDirection | script.js:25-35 | swapping an edge's endpoints does not change its toll |
| CostModel.FuelUsed | script.js:43-47 | the fuel figure times the efficiency equals length times consumption factor, so it is length/efficiency scaled by the factor; it is non-negative for non-negative inputs |
| CostModel.AssignTolls | script.js:25-35 | the toll pass gives each edge the toll of the rule and leaves its endpoints, base attributes and fuel figure unchanged |
| CostModel.CalculateFuelUsed | script.js:43-47 | the fuel pass, which the older planner repeats word for word, gives each edge its fuel figure and changes nothing else, toll included |
| CostModel.LoadPassesIdempotentAndCommute | script.js:24-36 | running either pass twice changes nothing more, and tolls-then-fuel equals fuel-then-tolls |
| CostModel.SameRoadSameCosts | script.js:26-34 | toll and fuel depend only on an edge's endpoints and base attributes |
| CostModel.Load | script.js:24-36 | after loading, every edge keeps its road attributes and carries both the rule's toll and the formula's fuel figure |
| CostModel.FindEdge | script.js:251 | `edges.find` returns nothing exactly when no edge joins the two nodes in either orientation; otherwise it returns the first edge that does |
| CostModel.StoredToll | script.js:252 | a missing edge or an edge without a toll adds 0; otherwise the hop adds the stored toll |
| CostModel.HopCost | script.js:251-252 | a hop costs at least its fuel at the fuel price, because a missing edge or toll counts as 0 |
| CostModel.StoredTollNonNegative | script.js:252 | the toll added to a hop is never negative on loaded edges |
| CostModel.ThreeNodeScenarioCosts | script.js:25-47 | worked example: a 50 km efficient road costs 2.5 fuel and no toll; a 150 km congested, inefficient road costs 15 fuel and a toll of 180; the two together cost 197.5 |
| MinHeap.Swap | script.js:195 | exchanging two heap slots keeps the multiset, exchanges the two entries and leaves every other slot alone |
| MinHeap.IsEmpty | script.js:187-189 | the heap is empty exactly when it holds no entry, that is, when its multiset is empty |
| MinHeap.HeapRootIsMin | script.js:176-178 | in a heap no entry is below the root |
| MinHeap.BubbleUp | script.js:191-198 | given a heap that is ordered except at one slot, rising that slot yields a heap with the same entries |
| MinHeap.BubbleDown | script.js:200-217 | given a heap that is ordered except below one slot, sinking that slot towards the strictly smaller child yields a heap with the same entries |
| MinHeap.Insert | script.js:171-174 | the result is a heap holding the old entries plus the new one, one longer |
| MinHeap.ExtractMin | script.js:176-189 | an empty heap yields nothing and is unchanged; otherwise the result is an entry of the heap with minimal `dist`, and the rest is a heap of the other entries, one shorter |
| Adjacency.EmptyLists | script.js:221-224 | one empty list per node id |
| Adjacency.BuildAdjacency | script.js:220-232 | throws exactly when an edge names a node that is not in the node list; otherwise every node id has one list, and that list holds the reference entries of the node in edge order |
| Adjacency.PushBothEntries | script.js:226-230 | pushing an edge's two entries onto the lists built from the earlier edges yields the lists built from the edges up to it |
| Adjacency.NeighboursMembership | script.js:226-230 | an entry is in a node's list if and only if some edge leads from the node to the entry's target, in either orientation, with that fuel figure |
| Adjacency.NeighboursSymmetric | script.js:228-229 | `v` is listed under `u` with fuel `f` if and only if `u` is listed under `v` with fuel `f` |
| Adjacency.NeighboursLength | script.js:226-230 | a node's list has one entry per edge end at the node, two per edge in all, and a self-loop gives two |
| Adjacency.EntriesAreNodes | script.js:220-232 | every entry names a node that has a list, and on valid attributes its fuel figure is non-negative |
| Routes.MinCost | script.js:249-253 | the cheapest entry to `v`: finite if and only if some entry leads to `v`, no more than any such entry, and equal to one of them |
| Routes.CostNonNegative | script.js:251-252 | every hop of the index leads to a node and costs a non-negative amount |
| Routes.BestHopNonNegative | script.js:251-252 | the cheapest hop from `u` to `v` is finite if and only if `v` is a neighbour of `u`, and then it is non-negative |
| Routes.RouteCostFinite | script.js:252-253 | every route costs a finite, non-negative amount |
| Routes.PrefixCostAtMost | script.js:252-253 | no prefix of a route costs more than the route |
| SearchState.InitialState | script.js:235-243 | only the start has a finite distance, 0; every node has a null predecessor; the frontier is a heap holding only the start at 0 |
| SearchState.RelaxedStays | script.js:255 | a relaxed hop stays relaxed while its source keeps its distance and distances only fall |
| Search.Relax | script.js:253-259 | a hop replaces the neighbour's distance exactly when it is strictly shorter; then the predecessor is the popped node and the new entry is pushed; otherwise nothing changes; no distance grows |
| Search.ExpandStep | script.js:249-260 | relaxing one more entry extends what holds after the earlier entries |
| Search.ExpandAll | script.js:249-260 | after the `forEach`, every hop out of the node is relaxed; each lowered distance has the node as predecessor, a frontier entry and a realising hop; other predecessors are kept; no distance grows |
| Search.ProcessNode | script.js:249-260 | expanding a popped node of the index keeps the heap and establishes everything `ExpandAll` states for the node's whole list |
| Search.InitialInvariant | script.js:235-243 | the initial state satisfies the loop invariant |
| Search.PoppedIsCurrent | script.js:245-246 | a minimal entry popped for an unsettled node carries the node's current distance |
| Search.StaleStep | script.js:245-260 | popping an entry of a settled node changes nothing in the expansion, because its hops are already relaxed, and the invariant survives dropping the entry |
| Search.FreshStep | script.js:245-261 | expanding a newly settled node keeps the invariant, with the node added to the settled set at the next rank |
| Search.DestinationOptimal | script.js:247 | when the destination is popped, its distance is that of the entry and no route from the start to it is cheaper |
| Search.ChainIsRoute | script.js:256-257 | a predecessor chain from the start is a route through the index, each hop realising its target's distance |
| Search.ChainCost | script.js:256-257 | a predecessor chain from the start costs no more than its last node's distance |
| Search.ConcludeFound | script.js:270-271 | a walked-back path of two or more nodes is a route from the start to the destination, costing exactly the destination's distance, and no route is cheaper |
| Search.ConcludeEmpty | script.js:272-273 | otherwise the destination is the start or is unreachable |
| Search.Conclude | script.js:263-274 | the full answer contract, the same as that of `Planner.Dijkstra` |
| Search.Popped | script.js:245-249 | a popped node with a list is at a finite distance, which is the entry's unless the node is settled |
| Search.Advance | script.js:245-261 | one pass keeps the invariant, and either one more node is settled or the frontier shrinks |
| Search.Arrive | script.js:247 | popping the destination ends the loop normally with an optimal distance |
| Planner.Iterate | script.js:245-261 | one pass either throws, which happens only for a start that is not a node and is not the destination, or arrives with the destination optimal, or continues with the invariant kept and the search measure decreased |
| Planner.MainLoop | script.js:245-261 | the loop throws exactly when the start is not a node and is not the destination; otherwise it stops with the invariant and, if the destination was popped, with its distance optimal |
| Scenario.ThreeNodeScenario | script.js:24-275 | worked example through the whole pipeline: loading a 50 km efficient road A–B and a 150 km congested, inefficient road B–C, indexing them and searching from A to C returns the path A, B, C at 197.5 |
| Planner.Dijkstra | script.js:234-275 | throws exactly when the start is not a node and is not the destination; otherwise the path is empty exactly when the cost is Infinity; it is non-empty exactly when the start differs from the destination and the destination is reachable; a non-empty path has at least two nodes, no repeated node, is a route from start to destination, and costs exactly the reported total; and no route is cheaper than the total |
| PathWalk.WalkBack | script.js:263-268 | the path ends at the destination, follows predecessors back to a node without one, repeats no node and ends; an unknown destination gives a one-node path |
| PathWalk.AsWrittenNeverStops | script.js:264-268 | as written, for a destination with no entry in the predecessor table, the cursor is `undefined` after every pass and never `null`, so the loop never ends |
| PathWalk.WalkBackWhileTruthy | js/script.js:174-179 | the path is empty exactly for the empty destination; otherwise it ends at the destination, follows predecessors back to a missing or empty one, has no empty id and no repeated node |
| SortedQueue.SortByDist | js/script.js:156 | the sort yields a permutation, non-decreasing in `dist`, that keeps entries with equal `dist` in their original order |
| SortedQueue.StableSortUnique | js/script.js:156 | two sorted sequences with the same equal-`dist` classes in the same order are equal, so any stable sort gives the same frontier |
| SortedQueue.SortedHeadIsFirstMin | js/script.js:156-157 | the head of the stable sort is the earliest entry of minimal `dist` |
| SortedQueue.SortAndShift | js/script.js:156-157 | `shift` after the sort removes an entry of minimal `dist`, the earliest in queue order, and leaves the other entries stably sorted: each equal-`dist` class of the rest is that of the queue without the removed occurrence, in queue order |
| SortedQueue.ShiftKeepsClasses | js/script.js:156-157 | dropping the head of a stable sort leaves a stable sort of the queue without the head's first occurrence |
| SortedQueue.WithDistConcat | js/script.js:156 | the equal-`dist` class of a concatenation is the class of the first part followed by that of the second |
| LegacySearch.FuelPassNonNegative | js/script.js:25-29 | on valid attributes the fuel pass gives every edge a fuel figure, and none is negative |
| LegacySearch.Outgoing | js/script.js:160 | the filter keeps exactly the edges leaving the node, and never more edges than there are |
| LegacySearch.OutgoingConcat | js/script.js:160 | the filter keeps order and multiplicity: filtering a concatenation filters each part in turn, and a single edge is kept exactly when it leaves the node |
| LegacySearch.InitialState | js/script.js:145-153 | every node id and the start have a distance, finite only for the start, which is 0; nothing is visited; there are no predecessors; the queue is the start alone |
| LegacySearch.RelaxEdge | js/script.js:161-170 | the edge changes the state exactly when its target is unvisited, has a distance, the edge has a fuel figure and the new sum is strictly smaller; then the distance, predecessor and a pushed entry are set; otherwise nothing changes |
| LegacySearch.ExpandStep | js/script.js:161-171 | relaxing one more edge extends what holds after the earlier edges |
| LegacySearch.RelaxAll | js/script.js:161-171 | after the loop every outgoing edge into an unvisited target is relaxed; visited distances are kept; each lowered distance is linked to the node through an edge and queued; other links are kept |
| LegacySearch.ProcessNode | js/script.js:158-171 | processing a visited node with a finite distance relaxes exactly its outgoing edges |
| LegacySearch.InitialInvariant | js/script.js:147-153 | the initial state satisfies the loop invariant |
| LegacySearch.StaleStep | js/script.js:155-171 | popping an entry of a visited node keeps the invariant, because its edges are already relaxed |
| LegacySearch.FreshStep | js/script.js:155-171 | visiting the popped earliest minimal entry and processing it keeps the invariant |
| LegacySearch.Drain | js/script.js:155-172 | the loop ends with the frontier empty and the invariant kept |
| LegacySearch.CheapestArc | js/script.js:160-165 | the cheapest arc is finite if and only if an edge joins the two nodes in that direction with a fuel figure; it is at most every such figure and equals one of them |
| LegacySearch.DrainedOptimal | js/script.js:155-172 | after draining, no directed route from the start is cheaper than a node's distance |
| LegacySearch.RouteBack | js/script.js:165-169 | after draining, every node at a finite distance is reached by a directed route from the start |
| LegacySearch.ChainArcs | js/script.js:168 | consecutive nodes of a predecessor chain are joined by an edge in their direction |
| LegacySearch.ConcludeDistance | js/script.js:181 | the reported fuel is absent exactly for an unknown destination; it is 0 for the start itself, finite exactly when the destination is reachable, and never more than a directed route's cost |
| LegacySearch.ConcludePath | js/script.js:174-181 | the walked path follows edges in their direction; an unreached destination comes back alone; a reached one gives a directed route from the start at exactly the reported fuel |
| LegacySearch.Dijkstra | js/script.js:144-182 | the path is empty exactly for the empty destination; otherwise it ends there, follows directed edges and repeats no node; the fuel is absent exactly for an unknown destination, finite exactly when the destination is reachable, and no directed route is cheaper; a reached destination gets a route at exactly that cost, and an unreached one comes back alone |

## Left out

- Floating point: costs are exact reals and Infinity is a separate value. IEEE rounding, NaN from arithmetic and division by zero are not modelled. The fuel formula requires a positive efficiency.
- Fetching the JSON, the canvas drawing, pan, zoom and touch handling, the form and `console` output are not modelled. The fuel price is the constant 1.
- Planner.Dijkstra: requires `Ready`. The edges must be loaded with a non-negative length and consumption factor and a positive efficiency. Every edge must join two listed nodes, and the index must be the one `buildAdjacencyList` builds for the graph. The source accepts any inputs, but with negative costs the optimality claims do not hold.
- Planner.Dijkstra: uses the corrected walk of the finding at script.js:263-268; for a destination that is not a node id the source never returns, and the model reports no path.
- Planner.Dijkstra: when several stored edges join the same two nodes, each hop is charged the toll of the first of them, as `edges.find` does. Its route-cost yardstick therefore uses that toll, not the hop's own edge's.
- LegacySearch.Dijkstra: requires every present fuel figure to be non-negative, which `LegacySearch.FuelPassNonNegative` gives for valid attributes.
- LegacySearch.Dijkstra: routes are stated through the ids the search knows, which are the node ids and the start. The path statement assumes no node has the empty id, because the walk stops at the empty id, the only falsy string.
- A node whose id is literally "undefined" or "null" is not modelled in the as-written walk. `PathWalk.AsWrittenNeverStops` requires that no node is called "undefined".
- Ids are strings. JavaScript's coercion of other key values, such as numbers, to strings is not modelled.

## Findings

| source | as written | input that shows it | evidently intended | confidence | as-written member | corrected member |
|---|---|---|---|---|---|---|
| script.js:263-268 | the walk back loops `while (current !== null)`, so a missing predecessor entry reads `undefined`, which is not `null`, and the loop goes on forever through `prev["undefined"]` | any graph, and a destination id that is not a node id, e.g. `dijkstra(g, "A", "Z", adj)` with no node "Z" | the walk stops at a node with no predecessor entry as well, returning `[endId]`, which then reports no path | not executed | PathWalk.AsWrittenNeverStops | PathWalk.WalkBack |
