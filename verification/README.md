# Route planner with traffic: graph builder and route query

This project is a Dafny model of the core of a small route planner. The
planner has eight named locations, A to H, each with plane coordinates. It
has fourteen two-way roads, each with a base travel time in minutes. An
optional traffic table adds a delay to particular roads. The planner builds
an undirected weighted graph (`criar_grafo`) and asks a graph library for
the fastest route between two locations by the edge attribute `time`
(`executar_a_star`).

The model has these parts:

- `Graphs` (graphs.dfy): the adjacency-map graph the planner builds on.
  `AddNode` creates a node or replaces its coordinate. `AddEdge` writes one
  attribute record under both directions of an edge and overwrites an edge
  that already exists.
- `Catalogue` (catalogue.dfy): the fixed locations and roads, in source
  order, and the facts the builder relies on. Names are distinct, no road
  joins a location to itself, at most one road joins an unordered pair, and
  every road end is a listed location.
- `TrafficTable` (traffic.dfy): the traffic table and the penalty lookup
  `traffic.get((u, v), 0) or traffic.get((v, u), 0)`, including Python's
  truthiness of `or`. A zero entry under (u, v) falls through to (v, u).
- `Builder` (builder.dfy): `criar_grafo` as two left folds. Locations are
  added first, then roads, with `time = base + penalty` stored with `base`
  and `penalty`. `BuildWith` takes any catalogue. Its lemmas are proved for
  every consistent catalogue and then applied to the fixed one.
- `Paths` (paths.dfy): routes, their travel time, reachability and
  optimality, and feasible labellings. Feasible labellings are node labels
  that no edge undercuts; they certify optimality.
- `Search` (search.dfy): the route query. `ShortestRoute` relaxes every edge
  until a whole round changes nothing, then returns a shortest route and
  its time. It fails with `NodeNotFound` when an end is not a location and
  with `NoPath` when no route exists. These are the two exceptions the
  library raises.
- `Scenarios` (scenarios.dfy): the two runs of the planner, from A to F
  without traffic and under the simulated table {B-C: 8, C-E: 10, G-H: 7,
  H-F: 12}. It also shows how any table of non-negative delays relates to
  the no-traffic graph. Optimality in the two runs is certified by explicit
  feasible labellings (`FromAClear`, `FromARushHour`). Edges that meet
  those labels exactly ("tight" edges) pin down A, B, E, F as the only
  shortest route in both runs.
- `Estimate` (estimate.dfy): the straight-line estimate `heuristica`, in
  squared integer form. No road is shorter than the straight line between
  its ends, so under a table without negative entries no edge is faster
  than the estimate across it.

Two behaviours of the code are worth stating on their own.

- The penalty lookup ignores the key order of a road only when the table
  does not hold two different nonzero entries for its two orders
  (`TrafficTable.PenaltyOrder`).
- Penalties are integers and the code never checks their sign. The model
  keeps `int` penalties and states non-negativity as an explicit
  hypothesis where it is needed.

## Model

| member | source | states |
|---|---|---|
| Graphs.AddNode | ImplementacaoAlgortimoDeBusca.py:58-59 | adding a location makes it a node with the given coordinate; every other node keeps its coordinate; an existing node keeps its neighbours; no edge appears or changes |
| Graphs.AddEdge | ImplementacaoAlgortimoDeBusca.py:68 | adding road {u, v} makes both ends nodes and stores the same attributes under u→v and v→u, overwriting any earlier edge; every other pair keeps its adjacency and attributes; coordinates are untouched |
| Graphs.AddEdgeUndirected | ImplementacaoAlgortimoDeBusca.py:68 | adding an edge keeps the adjacency symmetric with equal attributes in both directions |
| Catalogue.CityNames | ImplementacaoAlgortimoDeBusca.py:28-37 | the catalogue lists eight locations, named A to H |
| Catalogue.CityNamesDistinct | ImplementacaoAlgortimoDeBusca.py:28-37 | no two catalogue locations share a name |
| Catalogue.RoadEnds | ImplementacaoAlgortimoDeBusca.py:40-55 | fourteen roads; each joins two different locations among A to H and has a positive base time |
| Catalogue.RoadPairsDistinct | ImplementacaoAlgortimoDeBusca.py:40-55 | no two roads join the same unordered pair of locations |
| Catalogue.CatalogueConsistent | ImplementacaoAlgortimoDeBusca.py:28-55 | the fixed catalogue meets every assumption the builder's lemmas make: distinct names, no self-road, no duplicate pair, only listed road ends |
| TrafficTable.Penalty | ImplementacaoAlgortimoDeBusca.py:66 | the delay is the (u, v) entry if present and nonzero, else the (v, u) entry if present, else 0; it is non-negative when all entries are |
| TrafficTable.PenaltyOrder | ImplementacaoAlgortimoDeBusca.py:66 | the two orders of a road get different delays exactly when the table holds two different nonzero entries for them |
| TrafficTable.ReversedKeyApplies | ImplementacaoAlgortimoDeBusca.py:66 | an entry keyed (v, u) is the delay of road (u, v) unless (u, v) has a nonzero entry of its own |
| Builder.TableOf | ImplementacaoAlgortimoDeBusca.py:62 | the table in use is empty exactly when none or an empty one is given; any other table is used unchanged |
| Builder.EdgeFor | ImplementacaoAlgortimoDeBusca.py:66-68 | a road's stored time is its base time plus its delay; it equals the base time under an empty table and is at least the base time when no entry is negative |
| Builder.AddCities | ImplementacaoAlgortimoDeBusca.py:57-59 | the node-adding loop, in catalogue order; what it produces is stated by AddCitiesShape, AddCitiesCoords and AddCitiesKeepsOthers |
| Builder.AddRoads | ImplementacaoAlgortimoDeBusca.py:64-68 | the edge-adding loop, in catalogue order; what it produces is stated by AddRoadsNodes, AddRoadsAdjacent and AddRoadsValue |
| Builder.BuildWith | ImplementacaoAlgortimoDeBusca.py:24-70 | `criar_grafo` over any catalogue; its nodes and edges are stated by BuildWithNodes, BuildWithEdges and BuildWithEdgeOrigin |
| Builder.Build | ImplementacaoAlgortimoDeBusca.py:24-70 | `criar_grafo` on the fixed catalogue; its nodes and edges are stated by BuildNodes and BuildEdges |
| Builder.AddCitiesShape | ImplementacaoAlgortimoDeBusca.py:57-59 | adding the locations makes exactly them new nodes, each with a coordinate, and adds no edge |
| Builder.AddCitiesCoords | ImplementacaoAlgortimoDeBusca.py:57-59 | with distinct names, each added location ends up with its own catalogue coordinate |
| Builder.AddCitiesKeepsOthers | ImplementacaoAlgortimoDeBusca.py:57-59 | a node not among the added locations keeps its coordinate |
| Builder.AddRoadsNodes | ImplementacaoAlgortimoDeBusca.py:64-68 | adding roads between existing nodes changes neither the node set nor any coordinate |
| Builder.AddRoadsAdjacent | ImplementacaoAlgortimoDeBusca.py:64-68 | after adding the roads, two locations are adjacent exactly when they were before or some road joins them; a pair no road joins keeps its attributes |
| Builder.AddRoadsValue | ImplementacaoAlgortimoDeBusca.py:64-68 | when no two roads share a pair, the edge of road i stores base + delay, base and delay of road i, in both directions |
| Builder.BuildWithNodes | ImplementacaoAlgortimoDeBusca.py:24-70 | for a consistent catalogue, the nodes and the coordinate keys are exactly the listed locations, each with its own coordinate |
| Builder.BuildWithEdges | ImplementacaoAlgortimoDeBusca.py:24-70 | for a consistent catalogue, the graph is undirected and has no self-loops; two locations are adjacent exactly when a road joins them, and the edge holds that road's attributes |
| Builder.BuildWithEdgeOrigin | ImplementacaoAlgortimoDeBusca.py:64-68 | every edge comes from one catalogue road and carries that road's attributes |
| Builder.BuildNodes | ImplementacaoAlgortimoDeBusca.py:28-59 | whatever the table, the graph's nodes are exactly A to H, all with coordinates, each the catalogue's |
| Builder.BuildEdges | ImplementacaoAlgortimoDeBusca.py:40-68 | whatever the table, the graph is undirected without self-loops; an edge exists exactly where a catalogue road is; it stores the road's base, the looked-up delay and time = base + delay |
| Builder.NoTrafficEdgesWith | ImplementacaoAlgortimoDeBusca.py:62-68 | for any consistent catalogue built with an empty table, every edge has delay 0 and time equal to base |
| Builder.NoTrafficEdges | ImplementacaoAlgortimoDeBusca.py:62-68 | with no table or an empty one, every edge has delay 0 and time equal to base |
| Builder.NonNegativeTrafficEdges | ImplementacaoAlgortimoDeBusca.py:66-68 | with non-negative table entries every edge has a non-negative delay and time at least base |
| Builder.UnlistedRoadUnchangedWith | ImplementacaoAlgortimoDeBusca.py:66-68 | for a consistent catalogue, a pair with no entry in either order is an edge exactly when it is one without traffic, with identical attributes |
| Builder.UnlistedRoadUnchanged | ImplementacaoAlgortimoDeBusca.py:66-68 | a road with no entry in either order is built exactly as without traffic |
| Builder.ReversedEntryApplies | ImplementacaoAlgortimoDeBusca.py:66-68 | for any catalogue road, a table entry in the reverse order becomes the delay stored on its edge, unless a nonzero entry in the road's own order exists |
| Builder.AddRoadsCongruent | ImplementacaoAlgortimoDeBusca.py:64-68 | two tables that give every road the same delay build the same graph |
| Builder.IrrelevantEntryIgnoredWith | ImplementacaoAlgortimoDeBusca.py:62-68 | for any catalogue, an entry whose key names none of its roads in either order leaves the built graph identical |
| Builder.IrrelevantEntryIgnored | ImplementacaoAlgortimoDeBusca.py:62-68 | an entry whose key names no catalogue road in either order leaves the built graph identical |
| Paths.PathCost | ImplementacaoAlgortimoDeBusca.py:79-83 | the travel time the library reports for a route, the sum of `time` along it; its laws are stated by CostNonNegative, CostAppend and CostMonotone |
| Paths.CostNonNegative | ImplementacaoAlgortimoDeBusca.py:79-83 | with non-negative edge times every route's travel time is non-negative |
| Paths.CostAppend | ImplementacaoAlgortimoDeBusca.py:79-83 | joining two routes at a shared location gives a route whose time is the sum of both |
| Paths.ThreeLegRoute | ImplementacaoAlgortimoDeBusca.py:74-84 | three consecutive edges form a route whose travel time is the sum of their `time` attributes |
| Paths.PotentialBound | ImplementacaoAlgortimoDeBusca.py:74-84 | under a feasible labelling, a route's travel time is at least the difference of the labels of its ends |
| Paths.ShortestByPotential | ImplementacaoAlgortimoDeBusca.py:74-84 | a route whose time equals that label difference is a shortest route |
| Paths.TightEdges | ImplementacaoAlgortimoDeBusca.py:74-84 | under a feasible labelling, a route whose time equals the label difference of its ends moves only along edges whose time equals the label difference of their ends |
| Paths.TightChain | ImplementacaoAlgortimoDeBusca.py:74-84 | when such edges never enter a, and enter b, c, d only from a, b, c, the only route of such edges from a to d is a, b, c, d |
| Paths.SameRoutes | ImplementacaoAlgortimoDeBusca.py:66-67 | slowing edges down keeps exactly the same routes |
| Paths.CostMonotone | ImplementacaoAlgortimoDeBusca.py:66-67 | slowing edges down never makes a route faster |
| Paths.ShortestMonotone | ImplementacaoAlgortimoDeBusca.py:66-67 | slowing edges down never lowers the best travel time between two locations |
| Search.ShortestRoute | ImplementacaoAlgortimoDeBusca.py:73-84 | fails with NodeNotFound exactly when an end is not a location, and with NoPath exactly when both are locations and no route exists; otherwise succeeds with a route from start to destination along edges, whose cost is the sum of `time` along it and which no route undercuts |
| Scenarios.SearchableWith | ImplementacaoAlgortimoDeBusca.py:62-68 | a consistent catalogue with positive base times and a non-negative table builds an undirected graph with non-negative times |
| Scenarios.Searchable | ImplementacaoAlgortimoDeBusca.py:62-68 | the graph built without a table or with a non-negative one is undirected with non-negative times, a valid input of the route query |
| Scenarios.TrafficSlowsDownWith | ImplementacaoAlgortimoDeBusca.py:66-68 | a non-negative table gives the same nodes and edges as no traffic, with no edge faster |
| Scenarios.TrafficNeverShortensWith | ImplementacaoAlgortimoDeBusca.py:62-68 | for any consistent catalogue and non-negative table, the best travel time between two locations is never below the best without traffic |
| Scenarios.TrafficKeepsReachabilityWith | ImplementacaoAlgortimoDeBusca.py:62-68 | for any consistent catalogue, a non-negative table leaves exactly the same locations reachable from each other |
| Scenarios.TrafficNeverShortens | ImplementacaoAlgortimoDeBusca.py:111-126 | under any non-negative table the best travel time between two locations is never below the best without traffic |
| Scenarios.TrafficKeepsReachability | ImplementacaoAlgortimoDeBusca.py:66-68 | a non-negative table leaves exactly the same locations reachable from each other |
| Scenarios.ClearLabelsFeasible | ImplementacaoAlgortimoDeBusca.py:109-112 | the no-traffic travel times from A (A 0, B 10, C 19, D 12, E 24, F 34, G 22, H 29) are undercut by no edge |
| Scenarios.RushHourLabelsFeasible | ImplementacaoAlgortimoDeBusca.py:117-126 | the travel times from A under the simulated table (C 20, H 33, the rest as without traffic) are undercut by no edge |
| Scenarios.RoadEdge | ImplementacaoAlgortimoDeBusca.py:65-68 | each catalogue road is an edge in both directions taking its base time plus its looked-up delay |
| Scenarios.ViaBAndE | ImplementacaoAlgortimoDeBusca.py:65-68 | under any table that delays none of A-B, B-E, E-F, the route A, B, E, F exists and takes 34 minutes |
| Scenarios.PinsWith | ImplementacaoAlgortimoDeBusca.py:64-68 | for a consistent catalogue, if every road meets the labels exactly only when it enters A never, B only from A, E only from B and F only from E, then so does every edge of the built graph |
| Scenarios.ClearPins | ImplementacaoAlgortimoDeBusca.py:109-112 | without traffic, an edge that meets the travel times from A exactly never enters A, and enters B, E and F only from A, B and E |
| Scenarios.RushHourPins | ImplementacaoAlgortimoDeBusca.py:117-126 | the same under the simulated table and its travel times from A |
| Scenarios.ClearScenario | ImplementacaoAlgortimoDeBusca.py:109-112 | without traffic A, B, E, F is a shortest route from A to F, every shortest route takes 34 minutes, and no other route is shortest |
| Scenarios.RushHourScenario | ImplementacaoAlgortimoDeBusca.py:117-126 | under the simulated table A, B, E, F is still a shortest route from A to F, every shortest route takes 34 minutes, and no other route is shortest |
| Scenarios.ScenarioFacts | ImplementacaoAlgortimoDeBusca.py:109-126 | in either run the graph is a valid query input, A and F are locations, F is reachable from A, and the only shortest route is A, B, E, F, taking 34 minutes |
| Scenarios.PlanAToF | ImplementacaoAlgortimoDeBusca.py:109-126 | in either run the route query from A to F succeeds with the route A, B, E, F, which is shortest and takes 34 minutes |
| Graphs.DistanceSymmetric | ImplementacaoAlgortimoDeBusca.py:18-21 | the squared straight-line distance between two locations does not depend on their order |
| Graphs.SquareMonotone | ImplementacaoAlgortimoDeBusca.py:18-21 | comparing squares of non-negative times preserves their order, so squared distances can stand in for distances |
| Estimate.BuiltCoords | ImplementacaoAlgortimoDeBusca.py:28-59 | whatever the table, each of A to H carries its catalogue coordinate in the built graph |
| Estimate.CatalogueRoadsFit | ImplementacaoAlgortimoDeBusca.py:28-55 | at the catalogue's coordinates, every road's base time is at least the straight-line distance between its ends |
| Estimate.RoadsCoverDistance | ImplementacaoAlgortimoDeBusca.py:28-59 | the same for the coordinates stored in the built graph, under any table |
| Estimate.EdgesCoverEstimateWith | ImplementacaoAlgortimoDeBusca.py:64-68 | for a consistent catalogue whose roads fit and a table without negative entries, every edge time is non-negative and at least the straight-line distance between its ends |
| Estimate.EdgesCoverEstimateBuilt | ImplementacaoAlgortimoDeBusca.py:18-21 | in the planner's graph under a table without negative entries, no edge is faster than the straight-line estimate across it |

## Left out

- `heuristica` is not modelled as a function returning a distance: `math.hypot` works in floating point. The model compares squared distances in integers instead (`Graphs.DistanceSquared`, module `Estimate`). The estimate steers the library's search order, and it also decides whether the library's answer is a shortest route (next line).
- Search.ShortestRoute: always returns a shortest route, while the library's A* does so only when the straight-line estimate never exceeds the true remaining travel time. A table with negative entries can break that while every edge time stays non-negative: under {(G, H): 3, (H, F): -8}, A, D, G, H, F takes 32 minutes, but the estimate at H is √13 where the true remaining time is 0, so the library settles F first and returns A, B, E, F at 34. Under a table without negative entries no edge is faster than the estimate across it (`Estimate.EdgesCoverEstimateBuilt`); together with the triangle inequality of the straight-line distance, which is not proved here, that makes the estimate never overestimate, and the two agree on the returned time.
- The library's A* internals are left out; that code is not part of this model. `Search.ShortestRoute` puts an edge-relaxation search in its place.
- Search.ShortestRoute: when several shortest routes exist, the one it returns need not be the one the library returns; only the route's optimality and its time are promised.
- Search.ShortestRoute: requires an undirected graph with non-negative edge times. The library accepts negative times without checking, and its optimality promise does not hold for them either. The planner's own graphs always meet this requirement (`Scenarios.Searchable`).
- `mostrar_grafo` is left out: it only plots with matplotlib.
- `main` is left out: console menu, `input` and `print`. Its two runs appear as `Scenarios.PlanAToF`, `Scenarios.ClearScenario` and `Scenarios.RushHourScenario`.
- The code accepts traffic values of any type. The model keeps to integer delays, integer base times and integer coordinates, which is what the code supplies.
- Builder.BuildEdges: says nothing about the order in which the library stores each node's neighbours. That order is insertion order, and the library's search walks it, so it decides which of several equally fast routes `executar_a_star` returns (see the tie line for `Search.ShortestRoute` above). In the planner's two runs there is no tie: A, B, E, F is the only shortest route (`Scenarios.ScenarioFacts`).
- Routes may revisit a location. With non-negative times, the best time over all routes equals the best over simple routes, so optimality is stated over all routes.
