/**
  The graph builder: the eight catalogue locations become nodes carrying
  their coordinates, and each catalogue road becomes an undirected edge whose
  attributes are its base time, the traffic penalty looked up for it and
  their sum.
 */
module Builder {
  import opened Results
  import opened Graphs
  import opened Catalogue
  import opened TrafficTable

  /** A missing table and an empty one both mean no traffic; any other
      table is used as given. */
  function TableOf(traffic: Option<Table>): (t: Table)
    ensures t == map[] <==> traffic == None || traffic == Some(map[])
    ensures traffic.Some? ==> t == traffic.value
  {
    if traffic.Some? then traffic.value else map[]
  }

  /** The attributes stored for road `r` under table `t`: the stored time
      is the base time plus the delay, equals the base time without a table,
      and is at least the base time when no entry is negative. */
  function EdgeFor(t: Table, r: Road): (e: EdgeData)
    ensures e.base == r.base && e.time == e.base + e.penalty
    ensures t == map[] ==> e.penalty == 0 && e.time == r.base
    ensures NonNegative(t) ==> e.penalty >= 0 && e.time >= r.base
  {
    var p := Penalty(t, r.u, r.v);
    EdgeData(r.base + p, r.base, p)
  }

  /** Adds the locations in order. The graph in the termination measure is
      never needed for termination; it stops the verifier from unfolding the
      fold on the fixed catalogue, which the lemmas below make unnecessary. */
  function AddCities(g: Graph, cs: seq<City>): Graph
    decreases |cs|, g
  {
    if cs == [] then g else AddCities(AddNode(g, cs[0].name, cs[0].coord), cs[1..])
  }

  /** Adds the roads in order, each with its looked-up penalty. The graph in
      the termination measure plays the same part as in `AddCities`. */
  function AddRoads(g: Graph, rs: seq<Road>, t: Table): Graph
    decreases |rs|, g
  {
    if rs == [] then g else AddRoads(AddEdge(g, rs[0].u, rs[0].v, EdgeFor(t, rs[0])), rs[1..], t)
  }

  /** The road network under an optional traffic table. */
  function Build(traffic: Option<Table>): Graph
  {
    BuildWith(Cities, Roads, TableOf(traffic))
  }

  ghost predicate RoadBetween(rs: seq<Road>, x: Name, y: Name)
  {
    exists i :: 0 <= i < |rs| && Connects(rs[i], x, y)
  }

  /** Adding locations makes exactly them nodes besides the old ones, gives
      each a coordinate and leaves the edges alone. */
  lemma {:induction false} AddCitiesShape(g: Graph, cs: seq<City>)
    ensures AddCities(g, cs).adj.Keys == g.adj.Keys + NamesOf(cs)
    ensures AddCities(g, cs).coord.Keys == g.coord.Keys + NamesOf(cs)
    ensures forall u, v :: Adjacent(AddCities(g, cs), u, v) <==> Adjacent(g, u, v)
    decreases |cs|
  {
    if cs != [] {
      var g1 := AddNode(g, cs[0].name, cs[0].coord);
      AddCitiesShape(g1, cs[1..]);
      assert NamesOf(cs) == {cs[0].name} + NamesOf(cs[1..]);
    }
  }

  /** Adding locations with distinct names gives each one its own
      coordinate. */
  lemma {:induction false} AddCitiesCoords(g: Graph, cs: seq<City>)
    requires DistinctNames(cs)
    ensures forall i :: 0 <= i < |cs| ==>
      cs[i].name in AddCities(g, cs).coord && AddCities(g, cs).coord[cs[i].name] == cs[i].coord
    decreases |cs|
  {
    if cs != [] {
      var g1 := AddNode(g, cs[0].name, cs[0].coord);
      var rest := cs[1..];
      var h := AddCities(g, cs);
      assert h == AddCities(g1, rest);
      assert DistinctNames(rest) by {
        forall i, j | 0 <= i < j < |rest| ensures rest[i].name != rest[j].name {
          assert rest[i] == cs[i + 1] && rest[j] == cs[j + 1];
        }
      }
      AddCitiesCoords(g1, rest);
      assert cs[0].name !in NamesOf(rest) by {
        NamesOfMembers(rest, cs[0].name);
        forall j | 0 <= j < |rest| ensures rest[j].name != cs[0].name {
          assert rest[j] == cs[j + 1];
        }
      }
      AddCitiesKeepsOthers(g1, rest, cs[0].name);
      forall i | 1 <= i < |cs| ensures cs[i].name in h.coord && h.coord[cs[i].name] == cs[i].coord {
        assert rest[i - 1] == cs[i];
      }
    }
  }

  /** A location not in `cs` keeps the coordinate it had. */
  lemma {:induction false} AddCitiesKeepsOthers(g: Graph, cs: seq<City>, n: Name)
    requires n in g.coord
    requires n !in NamesOf(cs)
    ensures n in AddCities(g, cs).coord && AddCities(g, cs).coord[n] == g.coord[n]
    decreases |cs|
  {
    if cs != [] {
      AddCitiesKeepsOthers(AddNode(g, cs[0].name, cs[0].coord), cs[1..], n);
    }
  }

  /** A road joins `x` and `y` in `rs` exactly when the first does or one of
      the others does. */
  lemma RoadBetweenCons(rs: seq<Road>, x: Name, y: Name)
    requires rs != []
    ensures RoadBetween(rs, x, y) <==> Connects(rs[0], x, y) || RoadBetween(rs[1..], x, y)
  {
    if RoadBetween(rs[1..], x, y) {
      var j :| 0 <= j < |rs| - 1 && Connects(rs[1..][j], x, y);
      assert Connects(rs[j + 1], x, y);
    }
    if RoadBetween(rs, x, y) && !Connects(rs[0], x, y) {
      var j :| 0 <= j < |rs| && Connects(rs[j], x, y);
      assert Connects(rs[1..][j - 1], x, y);
    }
  }

  /** Adding roads between existing locations adds no location and keeps
      every coordinate. */
  lemma {:induction false} AddRoadsNodes(g: Graph, rs: seq<Road>, t: Table)
    requires EndpointsIn(rs, g.adj.Keys)
    ensures AddRoads(g, rs, t).coord == g.coord
    ensures AddRoads(g, rs, t).adj.Keys == g.adj.Keys
    decreases |rs|
  {
    if rs != [] {
      var rest := rs[1..];
      var g1 := AddEdge(g, rs[0].u, rs[0].v, EdgeFor(t, rs[0]));
      assert EndpointsIn(rest, g1.adj.Keys) by {
        forall i | 0 <= i < |rest| ensures rest[i].u in g1.adj.Keys && rest[i].v in g1.adj.Keys {
          assert rest[i] == rs[i + 1];
        }
      }
      AddRoadsNodes(g1, rest, t);
    }
  }

  /** For one pair of locations: after adding roads, the pair is adjacent
      exactly when it was before or a road joins it, and an edge no road
      joins keeps its attributes. */
  lemma {:induction false} AddRoadsAdjacent(g: Graph, rs: seq<Road>, t: Table, x: Name, y: Name)
    ensures Adjacent(AddRoads(g, rs, t), x, y) <==> Adjacent(g, x, y) || RoadBetween(rs, x, y)
    ensures Adjacent(g, x, y) && !RoadBetween(rs, x, y) ==> AddRoads(g, rs, t).adj[x][y] == g.adj[x][y]
    decreases |rs|
  {
    if rs != [] {
      var g1 := AddEdge(g, rs[0].u, rs[0].v, EdgeFor(t, rs[0]));
      assert AddRoads(g, rs, t) == AddRoads(g1, rs[1..], t);
      AddRoadsAdjacent(g1, rs[1..], t, x, y);
      RoadBetweenCons(rs, x, y);
    }
  }

  /** After adding roads that join distinct pairs, each road's attributes
      are stored on the edge between its ends. */
  lemma {:induction false} AddRoadsValue(g: Graph, rs: seq<Road>, t: Table, i: nat, x: Name, y: Name)
    requires DistinctPairs(rs)
    requires i < |rs| && Connects(rs[i], x, y)
    ensures Adjacent(AddRoads(g, rs, t), x, y) && AddRoads(g, rs, t).adj[x][y] == EdgeFor(t, rs[i])
    decreases |rs|
  {
    var r := rs[0];
    var rest := rs[1..];
    var g1 := AddEdge(g, r.u, r.v, EdgeFor(t, r));
    assert AddRoads(g, rs, t) == AddRoads(g1, rest, t);
    if i == 0 {
      assert !RoadBetween(rest, x, y) by {
        forall j | 0 <= j < |rest| ensures !Connects(rest[j], x, y) {
          assert rest[j] == rs[j + 1];
          assert !Connects(rs[j + 1], r.u, r.v);
        }
      }
      AddRoadsAdjacent(g1, rest, t, x, y);
    } else {
      assert DistinctPairs(rest) by {
        forall a, b | 0 <= a < b < |rest| ensures !Connects(rest[b], rest[a].u, rest[a].v) {
          assert rest[a] == rs[a + 1] && rest[b] == rs[b + 1];
        }
      }
      assert rest[i - 1] == rs[i];
      AddRoadsValue(g1, rest, t, i - 1, x, y);
    }
  }

  /** The graph built from catalogue `cs`, `rs` under table `t`. */
  function BuildWith(cs: seq<City>, rs: seq<Road>, t: Table): Graph
  {
    AddRoads(AddCities(Empty, cs), rs, t)
  }

  /** A consistent catalogue builds a graph whose nodes are exactly its
      locations, each with its own coordinate. */
  lemma BuildWithNodes(cs: seq<City>, rs: seq<Road>, t: Table)
    requires Consistent(cs, rs)
    ensures BuildWith(cs, rs, t).adj.Keys == NamesOf(cs)
    ensures BuildWith(cs, rs, t).coord.Keys == NamesOf(cs)
    ensures forall i :: 0 <= i < |cs| ==>
      cs[i].name in BuildWith(cs, rs, t).coord && BuildWith(cs, rs, t).coord[cs[i].name] == cs[i].coord
  {
    var g0 := AddCities(Empty, cs);
    AddCitiesShape(Empty, cs);
    AddCitiesCoords(Empty, cs);
    AddRoadsNodes(g0, rs, t);
  }

  /** A consistent catalogue builds an undirected graph without self-loops
      with an edge between two locations exactly when a road joins them,
      that road's attributes stored on it. */
  lemma BuildWithEdges(cs: seq<City>, rs: seq<Road>, t: Table)
    requires Consistent(cs, rs)
    ensures Undirected(BuildWith(cs, rs, t))
    ensures NoSelfLoops(BuildWith(cs, rs, t))
    ensures forall x, y :: Adjacent(BuildWith(cs, rs, t), x, y) <==> RoadBetween(rs, x, y)
    ensures forall i, x, y :: 0 <= i < |rs| && Connects(rs[i], x, y) ==>
      Adjacent(BuildWith(cs, rs, t), x, y) && BuildWith(cs, rs, t).adj[x][y] == EdgeFor(t, rs[i])
  {
    var g0 := AddCities(Empty, cs);
    var g := BuildWith(cs, rs, t);
    AddCitiesShape(Empty, cs);
    forall x, y
      ensures Adjacent(g, x, y) <==> RoadBetween(rs, x, y)
      ensures forall i :: 0 <= i < |rs| && Connects(rs[i], x, y) ==> Adjacent(g, x, y) && g.adj[x][y] == EdgeFor(t, rs[i])
    {
      AddRoadsAdjacent(g0, rs, t, x, y);
      forall i | 0 <= i < |rs| && Connects(rs[i], x, y)
        ensures Adjacent(g, x, y) && g.adj[x][y] == EdgeFor(t, rs[i])
      {
        AddRoadsValue(g0, rs, t, i, x, y);
      }
    }
    forall x, y | Adjacent(g, x, y) ensures Adjacent(g, y, x) && g.adj[y][x] == g.adj[x][y] && x != y {
      var i :| 0 <= i < |rs| && Connects(rs[i], x, y);
      assert Connects(rs[i], y, x);
    }
  }

  /** The built graph has exactly the eight catalogue locations as nodes,
      each with its catalogue coordinate, whatever the traffic table. */
  lemma BuildNodes(traffic: Option<Table>)
    ensures Build(traffic).adj.Keys == {"A", "B", "C", "D", "E", "F", "G", "H"}
    ensures Build(traffic).coord.Keys == Build(traffic).adj.Keys
    ensures forall i :: 0 <= i < |Cities| ==>
      Cities[i].name in Build(traffic).coord && Build(traffic).coord[Cities[i].name] == Cities[i].coord
  {
    CatalogueConsistent();
    BuildWithNodes(Cities, Roads, TableOf(traffic));
  }

  /** Whatever the traffic table, the built graph is undirected, has an edge
      between two locations exactly when a catalogue road joins them (so no
      road from a location to itself and at most one edge per pair), and
      every edge stores time = base + penalty, with the base time of its road
      and the penalty the table gives that road. */
  lemma BuildEdges(traffic: Option<Table>)
    ensures Undirected(Build(traffic))
    ensures NoSelfLoops(Build(traffic))
    ensures forall x, y :: Adjacent(Build(traffic), x, y) <==> RoadBetween(Roads, x, y)
    ensures forall i, x, y :: 0 <= i < |Roads| && Connects(Roads[i], x, y) ==>
      Adjacent(Build(traffic), x, y) &&
      Build(traffic).adj[x][y].base == Roads[i].base &&
      Build(traffic).adj[x][y].penalty == Penalty(TableOf(traffic), Roads[i].u, Roads[i].v) &&
      Build(traffic).adj[x][y].time == Roads[i].base + Build(traffic).adj[x][y].penalty
  {
    CatalogueConsistent();
    BuildWithEdges(Cities, Roads, TableOf(traffic));
  }

  /** Each edge of a graph built from a consistent catalogue is the edge
      of one road, with that road's base time and looked-up penalty. */
  lemma BuildWithEdgeOrigin(cs: seq<City>, rs: seq<Road>, t: Table, x: Name, y: Name)
    requires Consistent(cs, rs)
    requires Adjacent(BuildWith(cs, rs, t), x, y)
    ensures exists i :: 0 <= i < |rs| && Connects(rs[i], x, y) && BuildWith(cs, rs, t).adj[x][y] == EdgeFor(t, rs[i])
  {
    BuildWithEdges(cs, rs, t);
  }

  /** Without traffic every edge of a consistent catalogue's graph has no
      penalty and takes exactly its base time. */
  lemma NoTrafficEdgesWith(cs: seq<City>, rs: seq<Road>)
    requires Consistent(cs, rs)
    ensures forall x, y :: Adjacent(BuildWith(cs, rs, map[]), x, y) ==>
      BuildWith(cs, rs, map[]).adj[x][y].penalty == 0 &&
      BuildWith(cs, rs, map[]).adj[x][y].time == BuildWith(cs, rs, map[]).adj[x][y].base
  {
    forall x, y | Adjacent(BuildWith(cs, rs, map[]), x, y)
      ensures BuildWith(cs, rs, map[]).adj[x][y].penalty == 0
      ensures BuildWith(cs, rs, map[]).adj[x][y].time == BuildWith(cs, rs, map[]).adj[x][y].base
    {
      BuildWithEdgeOrigin(cs, rs, map[], x, y);
    }
  }

  /** Without a traffic table, absent or empty, every edge has no penalty
      and takes exactly its base time. */
  lemma NoTrafficEdges(traffic: Option<Table>)
    requires traffic.None? || traffic.value == map[]
    ensures forall x, y :: Adjacent(Build(traffic), x, y) ==>
      Build(traffic).adj[x][y].penalty == 0 && Build(traffic).adj[x][y].time == Build(traffic).adj[x][y].base
  {
    assert TableOf(traffic) == map[];
    CatalogueConsistent();
    NoTrafficEdgesWith(Cities, Roads);
  }

  /** With a table of non-negative penalties every edge takes at least its
      base time. */
  lemma NonNegativeTrafficEdges(t: Table)
    requires NonNegative(t)
    ensures forall x, y :: Adjacent(Build(Some(t)), x, y) ==>
      Build(Some(t)).adj[x][y].penalty >= 0 && Build(Some(t)).adj[x][y].time >= Build(Some(t)).adj[x][y].base
  {
    var g := Build(Some(t));
    forall x, y | Adjacent(g, x, y) ensures g.adj[x][y].penalty >= 0 && g.adj[x][y].time >= g.adj[x][y].base {
      CatalogueConsistent();
      BuildWithEdgeOrigin(Cities, Roads, t, x, y);
    }
  }

  /** In a consistent catalogue's graph, a road the table has no entry for,
      in either order, is built exactly as without traffic. */
  lemma UnlistedRoadUnchangedWith(cs: seq<City>, rs: seq<Road>, t: Table, x: Name, y: Name)
    requires Consistent(cs, rs)
    requires (x, y) !in t && (y, x) !in t
    ensures Adjacent(BuildWith(cs, rs, t), x, y) <==> Adjacent(BuildWith(cs, rs, map[]), x, y)
    ensures Adjacent(BuildWith(cs, rs, map[]), x, y) ==> BuildWith(cs, rs, t).adj[x][y] == BuildWith(cs, rs, map[]).adj[x][y]
  {
    BuildWithEdges(cs, rs, t);
    BuildWithEdges(cs, rs, map[]);
    if Adjacent(BuildWith(cs, rs, map[]), x, y) {
      var i :| 0 <= i < |rs| && Connects(rs[i], x, y);
      assert Penalty(t, rs[i].u, rs[i].v) == 0;
    }
  }

  /** A road the table has no entry for, in either order, is built exactly
      as without traffic. */
  lemma UnlistedRoadUnchanged(t: Table, x: Name, y: Name)
    requires (x, y) !in t && (y, x) !in t
    ensures Adjacent(Build(Some(t)), x, y) <==> Adjacent(Build(None), x, y)
    ensures Adjacent(Build(None), x, y) ==> Build(Some(t)).adj[x][y] == Build(None).adj[x][y]
  {
    CatalogueConsistent();
    UnlistedRoadUnchangedWith(Cities, Roads, t, x, y);
  }

  /** An entry keyed in the opposite order of a catalogue road applies to
      that road, unless a nonzero entry in the road's own order wins. */
  lemma ReversedEntryApplies(t: Table, i: nat, p: int)
    requires i < |Roads|
    requires (Roads[i].u, Roads[i].v) !in t || t[(Roads[i].u, Roads[i].v)] == 0
    ensures Adjacent(Build(Some(t[(Roads[i].v, Roads[i].u) := p])), Roads[i].u, Roads[i].v)
    ensures Build(Some(t[(Roads[i].v, Roads[i].u) := p])).adj[Roads[i].u][Roads[i].v].penalty == p
  {
    var r := Roads[i];
    var t' := t[(r.v, r.u) := p];
    CatalogueConsistent();
    assert r.u != r.v;
    assert Connects(r, r.u, r.v);
    BuildWithEdges(Cities, Roads, t');
    ReversedKeyApplies(t, r.u, r.v, p);
  }

  /** Tables that give every road of `rs` the same penalty build the same
      graph. */
  lemma {:induction false} AddRoadsCongruent(g: Graph, rs: seq<Road>, t1: Table, t2: Table)
    requires forall i :: 0 <= i < |rs| ==> Penalty(t1, rs[i].u, rs[i].v) == Penalty(t2, rs[i].u, rs[i].v)
    ensures AddRoads(g, rs, t1) == AddRoads(g, rs, t2)
    decreases |rs|
  {
    if rs != [] {
      var rest := rs[1..];
      forall i | 0 <= i < |rest| ensures Penalty(t1, rest[i].u, rest[i].v) == Penalty(t2, rest[i].u, rest[i].v) {
        assert rest[i] == rs[i + 1];
      }
      assert EdgeFor(t1, rs[0]) == EdgeFor(t2, rs[0]);
      var g1 := AddEdge(g, rs[0].u, rs[0].v, EdgeFor(t1, rs[0]));
      assert AddRoads(g, rs, t1) == AddRoads(g1, rest, t1);
      assert AddRoads(g, rs, t2) == AddRoads(g1, rest, t2);
      AddRoadsCongruent(g1, rest, t1, t2);
    }
  }

  /** A table entry whose key names no road of a catalogue, in either
      order, changes nothing in its graph. */
  lemma IrrelevantEntryIgnoredWith(cs: seq<City>, rs: seq<Road>, t: Table, k: (Name, Name), p: int)
    requires forall i :: 0 <= i < |rs| ==> k != (rs[i].u, rs[i].v) && k != (rs[i].v, rs[i].u)
    ensures BuildWith(cs, rs, t[k := p]) == BuildWith(cs, rs, t)
  {
    AddRoadsCongruent(AddCities(Empty, cs), rs, t[k := p], t);
  }

  /** A table entry whose key names no catalogue road, in either order,
      changes nothing in the built graph. */
  lemma IrrelevantEntryIgnored(t: Table, k: (Name, Name), p: int)
    requires forall i :: 0 <= i < |Roads| ==> k != (Roads[i].u, Roads[i].v) && k != (Roads[i].v, Roads[i].u)
    ensures Build(Some(t[k := p])) == Build(Some(t))
  {
    IrrelevantEntryIgnoredWith(Cities, Roads, t, k, p);
  }
}
