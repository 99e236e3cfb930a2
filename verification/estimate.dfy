/**
  The straight-line estimate the planner hands to the graph library's A*
  search: the Euclidean distance between the `coord` attributes of two
  nodes. The library returns a shortest route only while this estimate
  never exceeds the true remaining travel time. The facts below establish
  the per-edge half of that condition for the planner's graphs: no road is
  shorter than the straight line it spans, so with non-negative delays no
  edge takes less time than the estimate across it. Distances are compared
  squared, so everything stays in integers.
 */
module Estimate {
  import opened Results
  import opened Graphs
  import opened Catalogue
  import opened TrafficTable
  import opened Builder

  /** Both ends of road `r` have a coordinate in `coord`, and its base time
      is at least the straight-line distance between them. */
  predicate RoadFits(coord: map<Name, Coord>, r: Road)
  {
    && r.u in coord && r.v in coord
    && r.base >= 0
    && Square(r.base) >= DistanceSquared(coord[r.u], coord[r.v])
  }

  /** Every edge joins two nodes with coordinates and takes at least the
      straight-line distance between them. */
  ghost predicate EdgesCoverEstimate(g: Graph)
  {
    forall x, y :: Adjacent(g, x, y) ==>
      && x in g.coord && y in g.coord
      && g.adj[x][y].time >= 0
      && Square(g.adj[x][y].time) >= DistanceSquared(g.coord[x], g.coord[y])
  }

  /** The coordinate attribute of every node of the planner's graph. */
  lemma BuiltCoords(traffic: Option<Table>)
    ensures "A" in Build(traffic).coord && Build(traffic).coord["A"] == Coord(0, 0)
    ensures "B" in Build(traffic).coord && Build(traffic).coord["B"] == Coord(4, 1)
    ensures "C" in Build(traffic).coord && Build(traffic).coord["C"] == Coord(8, 0)
    ensures "D" in Build(traffic).coord && Build(traffic).coord["D"] == Coord(4, -3)
    ensures "E" in Build(traffic).coord && Build(traffic).coord["E"] == Coord(12, 3)
    ensures "F" in Build(traffic).coord && Build(traffic).coord["F"] == Coord(16, 0)
    ensures "G" in Build(traffic).coord && Build(traffic).coord["G"] == Coord(10, -4)
    ensures "H" in Build(traffic).coord && Build(traffic).coord["H"] == Coord(14, -3)
  {
    assert Cities[0] == City("A", Coord(0, 0));
    assert Cities[1] == City("B", Coord(4, 1));
    assert Cities[2] == City("C", Coord(8, 0));
    assert Cities[3] == City("D", Coord(4, -3));
    assert Cities[4] == City("E", Coord(12, 3));
    assert Cities[5] == City("F", Coord(16, 0));
    assert Cities[6] == City("G", Coord(10, -4));
    assert Cities[7] == City("H", Coord(14, -3));
    BuildNodes(traffic);
  }

  /** Placed at the catalogue's coordinates, no road is shorter than the
      straight line between its ends. */
  lemma CatalogueRoadsFit(coord: map<Name, Coord>)
    requires "A" in coord && coord["A"] == Coord(0, 0)
    requires "B" in coord && coord["B"] == Coord(4, 1)
    requires "C" in coord && coord["C"] == Coord(8, 0)
    requires "D" in coord && coord["D"] == Coord(4, -3)
    requires "E" in coord && coord["E"] == Coord(12, 3)
    requires "F" in coord && coord["F"] == Coord(16, 0)
    requires "G" in coord && coord["G"] == Coord(10, -4)
    requires "H" in coord && coord["H"] == Coord(14, -3)
    ensures forall i :: 0 <= i < |Roads| ==> RoadFits(coord, Roads[i])
  {
    forall i | 0 <= i < |Roads|
      ensures RoadFits(coord, Roads[i])
    {
      if i == 0 {
        assert Roads[0] == Road("A", "B", 10);
      } else if i == 1 {
        assert Roads[1] == Road("A", "D", 12);
      } else if i == 2 {
        assert Roads[2] == Road("B", "C", 9);
      } else if i == 3 {
        assert Roads[3] == Road("B", "D", 5);
      } else if i == 4 {
        assert Roads[4] == Road("B", "E", 14);
      } else if i == 5 {
        assert Roads[5] == Road("C", "D", 8);
      } else if i == 6 {
        assert Roads[6] == Road("C", "E", 11);
      } else if i == 7 {
        assert Roads[7] == Road("C", "F", 25);
      } else if i == 8 {
        assert Roads[8] == Road("C", "G", 12);
      } else if i == 9 {
        assert Roads[9] == Road("D", "G", 10);
      } else if i == 10 {
        assert Roads[10] == Road("E", "F", 10);
      } else if i == 11 {
        assert Roads[11] == Road("E", "H", 9);
      } else if i == 12 {
        assert Roads[12] == Road("G", "H", 7);
      } else {
        assert Roads[13] == Road("H", "F", 8);
      }
    }
  }

  /** No road of the catalogue is shorter than the straight line between
      the coordinates its ends carry in the planner's graph. */
  lemma RoadsCoverDistance(traffic: Option<Table>)
    ensures forall i :: 0 <= i < |Roads| ==> RoadFits(Build(traffic).coord, Roads[i])
  {
    BuiltCoords(traffic);
    CatalogueRoadsFit(Build(traffic).coord);
  }

  /** For any consistent catalogue whose roads all fit and any table
      without negative entries, no edge is faster than the straight line. */
  lemma EdgesCoverEstimateWith(cs: seq<City>, rs: seq<Road>, t: Table)
    requires Consistent(cs, rs)
    requires forall i :: 0 <= i < |rs| ==> RoadFits(BuildWith(cs, rs, t).coord, rs[i])
    requires NonNegative(t)
    ensures EdgesCoverEstimate(BuildWith(cs, rs, t))
  {
    var g := BuildWith(cs, rs, t);
    forall x, y | Adjacent(g, x, y)
      ensures x in g.coord && y in g.coord
      ensures g.adj[x][y].time >= 0
      ensures Square(g.adj[x][y].time) >= DistanceSquared(g.coord[x], g.coord[y])
    {
      BuildWithEdgeOrigin(cs, rs, t, x, y);
      var i :| 0 <= i < |rs| && Connects(rs[i], x, y) && g.adj[x][y] == EdgeFor(t, rs[i]);
      var r := rs[i];
      assert RoadFits(g.coord, r);
      var e := g.adj[x][y];
      assert e.time == r.base + Penalty(t, r.u, r.v) && Penalty(t, r.u, r.v) >= 0;
      SquareMonotone(r.base, e.time);
      DistanceSymmetric(g.coord[x], g.coord[y]);
    }
  }

  /** For any table without negative entries, every edge of the planner's
      graph takes at least the straight-line distance it spans. */
  lemma EdgesCoverEstimateBuilt(t: Table)
    requires NonNegative(t)
    ensures EdgesCoverEstimate(Build(Some(t)))
  {
    CatalogueConsistent();
    RoadsCoverDistance(Some(t));
    EdgesCoverEstimateWith(Cities, Roads, t);
  }
}
