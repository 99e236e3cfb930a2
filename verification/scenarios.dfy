/**
  The two fixed scenarios of the planner, from A to F without traffic and
  with the simulated traffic table, and how traffic relates the two.
 */
module Scenarios {
  import opened Results
  import opened Graphs
  import opened Catalogue
  import opened TrafficTable
  import opened Builder
  import opened Paths
  import opened Search

  /** The simulated congestion: B-C +8, C-E +10, G-H +7, H-F +12 minutes. */
  const RushHour: Table := map[("B", "C") := 8, ("C", "E") := 10, ("G", "H") := 7, ("H", "F") := 12]

  /** A consistent catalogue whose roads take positive base times builds an
      undirected graph with non-negative edge times from a table of
      non-negative penalties, so the route query may be asked about it. */
  lemma SearchableWith(cs: seq<City>, rs: seq<Road>, t: Table)
    requires Consistent(cs, rs)
    requires forall i :: 0 <= i < |rs| ==> rs[i].base > 0
    requires NonNegative(t)
    ensures Undirected(BuildWith(cs, rs, t))
    ensures NonNegativeTimes(BuildWith(cs, rs, t))
  {
    BuildWithEdges(cs, rs, t);
    forall x, y | Adjacent(BuildWith(cs, rs, t), x, y) ensures BuildWith(cs, rs, t).adj[x][y].time >= 0 {
      BuildWithEdgeOrigin(cs, rs, t, x, y);
    }
  }

  /** Graphs built without traffic or with non-negative penalties are valid
      inputs of the route query. */
  lemma Searchable(traffic: Option<Table>)
    requires traffic.Some? ==> NonNegative(traffic.value)
    ensures Undirected(Build(traffic))
    ensures NonNegativeTimes(Build(traffic))
  {
    CatalogueConsistent();
    RoadEnds();
    SearchableWith(Cities, Roads, TableOf(traffic));
  }

  /** Under a table of non-negative penalties the graph is the no-traffic
      graph with some edges slowed down. */
  lemma TrafficSlowsDownWith(cs: seq<City>, rs: seq<Road>, t: Table)
    requires Consistent(cs, rs)
    requires NonNegative(t)
    ensures SlowerCopy(BuildWith(cs, rs, map[]), BuildWith(cs, rs, t))
  {
    var g0, g1 := BuildWith(cs, rs, map[]), BuildWith(cs, rs, t);
    BuildWithNodes(cs, rs, map[]);
    BuildWithNodes(cs, rs, t);
    BuildWithEdges(cs, rs, map[]);
    BuildWithEdges(cs, rs, t);
    forall u, v | Adjacent(g0, u, v) ensures g0.adj[u][v].time <= g1.adj[u][v].time {
      var i :| 0 <= i < |rs| && Connects(rs[i], u, v);
    }
  }

  /** For a consistent catalogue, a table of non-negative penalties never
      shortens the best travel time between two places. */
  lemma TrafficNeverShortensWith(cs: seq<City>, rs: seq<Road>, t: Table, s: Name, d: Name, p0: seq<Name>, p1: seq<Name>)
    requires Consistent(cs, rs)
    requires NonNegative(t)
    requires IsShortest(BuildWith(cs, rs, map[]), p0, s, d)
    requires IsShortest(BuildWith(cs, rs, t), p1, s, d)
    ensures PathCost(BuildWith(cs, rs, map[]), p0) <= PathCost(BuildWith(cs, rs, t), p1)
  {
    TrafficSlowsDownWith(cs, rs, t);
    ShortestMonotone(BuildWith(cs, rs, map[]), BuildWith(cs, rs, t), p0, p1, s, d);
  }

  /** Traffic with non-negative penalties never shortens the best travel
      time between two places. */
  lemma TrafficNeverShortens(t: Table, s: Name, d: Name, p0: seq<Name>, p1: seq<Name>)
    requires NonNegative(t)
    requires IsShortest(Build(None), p0, s, d)
    requires IsShortest(Build(Some(t)), p1, s, d)
    ensures PathCost(Build(None), p0) <= PathCost(Build(Some(t)), p1)
  {
    CatalogueConsistent();
    assert TableOf(None) == map[];
    TrafficNeverShortensWith(Cities, Roads, t, s, d, p0, p1);
  }

  /** For a consistent catalogue, a table of non-negative penalties leaves
      exactly the same places reachable from each other. */
  lemma TrafficKeepsReachabilityWith(cs: seq<City>, rs: seq<Road>, t: Table, s: Name, d: Name)
    requires Consistent(cs, rs)
    requires NonNegative(t)
    ensures Reachable(BuildWith(cs, rs, map[]), s, d) <==> Reachable(BuildWith(cs, rs, t), s, d)
  {
    TrafficSlowsDownWith(cs, rs, t);
    forall p ensures IsPath(BuildWith(cs, rs, map[]), p, s, d) <==> IsPath(BuildWith(cs, rs, t), p, s, d) {
      SameRoutes(BuildWith(cs, rs, map[]), BuildWith(cs, rs, t), p, s, d);
    }
  }

  /** Any place reachable without traffic is reachable with it, and back. */
  lemma TrafficKeepsReachability(t: Table, s: Name, d: Name)
    requires NonNegative(t)
    ensures Reachable(Build(None), s, d) <==> Reachable(Build(Some(t)), s, d)
  {
    CatalogueConsistent();
    assert TableOf(None) == map[];
    TrafficKeepsReachabilityWith(Cities, Roads, t, s, d);
  }

  /** Road `r` under table `t` cannot undercut labelling `pot`, in either
      direction. */
  predicate RoadRespects(r: Road, t: Table, pot: map<Name, int>)
  {
    && r.u in pot && r.v in pot
    && pot[r.v] <= pot[r.u] + r.base + Penalty(t, r.u, r.v)
    && pot[r.u] <= pot[r.v] + r.base + Penalty(t, r.u, r.v)
  }

  /** A labelling that no road undercuts is feasible for the built graph. */
  lemma FeasibleWith(cs: seq<City>, rs: seq<Road>, t: Table, pot: map<Name, int>)
    requires Consistent(cs, rs)
    requires forall i :: 0 <= i < |rs| ==> RoadRespects(rs[i], t, pot)
    ensures Feasible(BuildWith(cs, rs, t), pot)
  {
    forall u, v | u in pot && Adjacent(BuildWith(cs, rs, t), u, v)
      ensures v in pot && pot[v] <= pot[u] + BuildWith(cs, rs, t).adj[u][v].time
    {
      BuildWithEdgeOrigin(cs, rs, t, u, v);
    }
  }

  /** Travel times from A without traffic. */
  const FromAClear: map<Name, int> :=
    map["A" := 0, "B" := 10, "C" := 19, "D" := 12, "E" := 24, "F" := 34, "G" := 22, "H" := 29]

  /** Travel times from A under the simulated traffic. */
  const FromARushHour: map<Name, int> :=
    map["A" := 0, "B" := 10, "C" := 20, "D" := 12, "E" := 24, "F" := 34, "G" := 22, "H" := 33]

  /** The no-traffic labels respect the first seven roads. */
  lemma ClearLabelsFirstHalf()
    ensures forall i :: 0 <= i < 7 ==> RoadRespects(Roads[i], map[], FromAClear)
  {
  }

  /** The no-traffic labels respect the last seven roads. */
  lemma ClearLabelsSecondHalf()
    ensures forall i :: 7 <= i < 14 ==> RoadRespects(Roads[i], map[], FromAClear)
  {
  }

  lemma ClearLabelsFeasible()
    ensures Feasible(Build(None), FromAClear)
  {
    assert forall i :: 0 <= i < |Roads| ==> RoadRespects(Roads[i], map[], FromAClear) by {
      RoadEnds();
      ClearLabelsFirstHalf();
      ClearLabelsSecondHalf();
    }
    CatalogueConsistent();
    FeasibleWith(Cities, Roads, map[], FromAClear);
  }

  /** The rush-hour labels respect the first seven roads. */
  lemma RushHourLabelsFirstHalf()
    ensures forall i :: 0 <= i < 7 ==> RoadRespects(Roads[i], RushHour, FromARushHour)
  {
  }

  /** The rush-hour labels respect the last seven roads. */
  lemma RushHourLabelsSecondHalf()
    ensures forall i :: 7 <= i < 14 ==> RoadRespects(Roads[i], RushHour, FromARushHour)
  {
  }

  lemma RushHourLabelsFeasible()
    ensures Feasible(Build(Some(RushHour)), FromARushHour)
  {
    assert forall i :: 0 <= i < |Roads| ==> RoadRespects(Roads[i], RushHour, FromARushHour) by {
      RoadEnds();
      RushHourLabelsFirstHalf();
      RushHourLabelsSecondHalf();
    }
    CatalogueConsistent();
    FeasibleWith(Cities, Roads, RushHour, FromARushHour);
  }

  /** A move from `u` to `v` taking `time` that matches the labels exactly
      never enters A, and enters B, E and F only from A, B and E. */
  predicate PinsMove(u: Name, v: Name, time: int, pot: map<Name, int>)
  {
    && u in pot && v in pot
    && (pot[v] == pot[u] + time ==>
          v != "A" && (v == "B" ==> u == "A") && (v == "E" ==> u == "B") && (v == "F" ==> u == "E"))
  }

  /** Road `r` under table `t` pins the route A, B, E, F in both directions. */
  predicate RoadPins(r: Road, t: Table, pot: map<Name, int>)
  {
    && PinsMove(r.u, r.v, r.base + Penalty(t, r.u, r.v), pot)
    && PinsMove(r.v, r.u, r.base + Penalty(t, r.u, r.v), pot)
  }

  /** When every road pins the route, so does every tight edge of the built
      graph. */
  lemma PinsWith(cs: seq<City>, rs: seq<Road>, t: Table, pot: map<Name, int>)
    requires Consistent(cs, rs)
    requires forall i :: 0 <= i < |rs| ==> RoadPins(rs[i], t, pot)
    ensures forall u, v :: Tight(BuildWith(cs, rs, t), pot, u, v) ==>
      v != "A" && (v == "B" ==> u == "A") && (v == "E" ==> u == "B") && (v == "F" ==> u == "E")
  {
    forall u, v | Tight(BuildWith(cs, rs, t), pot, u, v)
      ensures v != "A" && (v == "B" ==> u == "A") && (v == "E" ==> u == "B") && (v == "F" ==> u == "E")
    {
      BuildWithEdgeOrigin(cs, rs, t, u, v);
      var i :| 0 <= i < |rs| && Connects(rs[i], u, v) && BuildWith(cs, rs, t).adj[u][v] == EdgeFor(t, rs[i]);
      assert RoadPins(rs[i], t, pot);
    }
  }

  /** Without traffic, the first seven roads pin the route A, B, E, F. */
  lemma ClearPinsFirstHalf()
    ensures forall i :: 0 <= i < 7 ==> RoadPins(Roads[i], map[], FromAClear)
  {
  }

  /** Without traffic, the last seven roads pin the route A, B, E, F. */
  lemma ClearPinsSecondHalf()
    ensures forall i :: 7 <= i < 14 ==> RoadPins(Roads[i], map[], FromAClear)
  {
  }

  /** Under the simulated traffic, the first seven roads pin the route. */
  lemma RushHourPinsFirstHalf()
    ensures forall i :: 0 <= i < 7 ==> RoadPins(Roads[i], RushHour, FromARushHour)
  {
  }

  /** Under the simulated traffic, the last seven roads pin the route. */
  lemma RushHourPinsSecondHalf()
    ensures forall i :: 7 <= i < 14 ==> RoadPins(Roads[i], RushHour, FromARushHour)
  {
  }

  /** Without traffic, a tight edge never enters A, and enters B, E and F
      only from A, B and E. */
  lemma ClearPins()
    ensures forall u, v :: Tight(Build(None), FromAClear, u, v) ==>
      v != "A" && (v == "B" ==> u == "A") && (v == "E" ==> u == "B") && (v == "F" ==> u == "E")
  {
    assert forall i :: 0 <= i < |Roads| ==> RoadPins(Roads[i], map[], FromAClear) by {
      RoadEnds();
      ClearPinsFirstHalf();
      ClearPinsSecondHalf();
    }
    CatalogueConsistent();
    PinsWith(Cities, Roads, map[], FromAClear);
  }

  /** Under the simulated traffic, a tight edge never enters A, and enters
      B, E and F only from A, B and E. */
  lemma RushHourPins()
    ensures forall u, v :: Tight(Build(Some(RushHour)), FromARushHour, u, v) ==>
      v != "A" && (v == "B" ==> u == "A") && (v == "E" ==> u == "B") && (v == "F" ==> u == "E")
  {
    assert forall i :: 0 <= i < |Roads| ==> RoadPins(Roads[i], RushHour, FromARushHour) by {
      RoadEnds();
      RushHourPinsFirstHalf();
      RushHourPinsSecondHalf();
    }
    CatalogueConsistent();
    PinsWith(Cities, Roads, RushHour, FromARushHour);
  }

  /** The edge of catalogue road `i` under table `t`, in both directions. */
  lemma RoadEdge(t: Table, i: nat)
    requires i < |Roads|
    ensures Adjacent(Build(Some(t)), Roads[i].u, Roads[i].v) && Adjacent(Build(Some(t)), Roads[i].v, Roads[i].u)
    ensures Build(Some(t)).adj[Roads[i].u][Roads[i].v].time == Roads[i].base + Penalty(t, Roads[i].u, Roads[i].v)
  {
    BuildEdges(Some(t));
    assert Connects(Roads[i], Roads[i].u, Roads[i].v) && Connects(Roads[i], Roads[i].v, Roads[i].u);
  }

  /** The route A, B, E, F is open under any table that leaves its three
      roads alone, and then takes 10 + 14 + 10 minutes. */
  lemma ViaBAndE(t: Table)
    requires Penalty(t, "A", "B") == 0 && Penalty(t, "B", "E") == 0 && Penalty(t, "E", "F") == 0
    ensures IsPath(Build(Some(t)), ["A", "B", "E", "F"], "A", "F")
    ensures PathCost(Build(Some(t)), ["A", "B", "E", "F"]) == 34
  {
    assert Roads[0] == Road("A", "B", 10) && Roads[4] == Road("B", "E", 14) && Roads[10] == Road("E", "F", 10);
    RoadEdge(t, 0);
    RoadEdge(t, 4);
    RoadEdge(t, 10);
    ThreeLegRoute(Build(Some(t)), "A", "B", "E", "F");
  }

  /** Without traffic the best route from A to F takes 34 minutes, and
      A, B, E, F is the only such route. */
  lemma ClearScenario()
    ensures IsShortest(Build(None), ["A", "B", "E", "F"], "A", "F")
    ensures forall p :: IsShortest(Build(None), p, "A", "F") ==> PathCost(Build(None), p) == 34
    ensures forall p :: IsShortest(Build(None), p, "A", "F") ==> p == ["A", "B", "E", "F"]
  {
    assert "A" in FromAClear && "F" in FromAClear && FromAClear["F"] - FromAClear["A"] == 34;
    ViaBAndE(map[]);
    ClearLabelsFeasible();
    ShortestByPotential(Build(None), FromAClear, ["A", "B", "E", "F"], "A", "F");
    ClearPins();
    forall p | IsShortest(Build(None), p, "A", "F") ensures p == ["A", "B", "E", "F"] {
      TightEdges(Build(None), FromAClear, p);
      TightChain(Build(None), FromAClear, p, "A", "B", "E", "F");
    }
  }

  /** Under the simulated traffic the best route from A to F still takes 34
      minutes, and A, B, E, F is still the only such route. */
  lemma RushHourScenario()
    ensures IsShortest(Build(Some(RushHour)), ["A", "B", "E", "F"], "A", "F")
    ensures forall p :: IsShortest(Build(Some(RushHour)), p, "A", "F") ==> PathCost(Build(Some(RushHour)), p) == 34
    ensures forall p :: IsShortest(Build(Some(RushHour)), p, "A", "F") ==> p == ["A", "B", "E", "F"]
  {
    assert "A" in FromARushHour && "F" in FromARushHour && FromARushHour["F"] - FromARushHour["A"] == 34;
    ViaBAndE(RushHour);
    RushHourLabelsFeasible();
    ShortestByPotential(Build(Some(RushHour)), FromARushHour, ["A", "B", "E", "F"], "A", "F");
    RushHourPins();
    forall p | IsShortest(Build(Some(RushHour)), p, "A", "F") ensures p == ["A", "B", "E", "F"] {
      TightEdges(Build(Some(RushHour)), FromARushHour, p);
      TightChain(Build(Some(RushHour)), FromARushHour, p, "A", "B", "E", "F");
    }
  }

  /** What the route query needs to know about either scenario graph: it is
      a valid input, both ends are locations, F is reachable from A and
      the one shortest route is A, B, E, F, taking 34 minutes. */
  lemma ScenarioFacts(traffic: Option<Table>)
    requires traffic == None || traffic == Some(RushHour)
    ensures Undirected(Build(traffic)) && NonNegativeTimes(Build(traffic))
    ensures "A" in Build(traffic).adj && "F" in Build(traffic).adj && Reachable(Build(traffic), "A", "F")
    ensures forall p :: IsShortest(Build(traffic), p, "A", "F") ==> PathCost(Build(traffic), p) == 34
    ensures forall p :: IsShortest(Build(traffic), p, "A", "F") ==> p == ["A", "B", "E", "F"]
  {
    assert traffic.Some? ==> NonNegative(traffic.value);
    Searchable(traffic);
    if traffic == None {
      ClearScenario();
    } else {
      RushHourScenario();
    }
    assert IsPath(Build(traffic), ["A", "B", "E", "F"], "A", "F");
  }

  /** The two runs of the planner, from A to F without traffic and under the
      simulated traffic: the query succeeds with the route A, B, E, F,
      which is shortest and takes 34 minutes. */
  method PlanAToF(traffic: Option<Table>) returns (r: Result<Route, SearchError>)
    requires traffic == None || traffic == Some(RushHour)
    ensures r.Success? && r.value.cost == 34
    ensures r.Success? ==> r.value.path == ["A", "B", "E", "F"]
    ensures r.Success? ==> IsShortest(Build(traffic), r.value.path, "A", "F")
  {
    ScenarioFacts(traffic);
    r := ShortestRoute(Build(traffic), "A", "F");
  }
}
