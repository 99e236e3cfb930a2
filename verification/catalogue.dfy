/**
  The fixed road network: eight named locations with plane coordinates and
  fourteen two-way roads with their base travel times in minutes.
 */
module Catalogue {
  import opened Graphs

  datatype City = City(name: Name, coord: Coord)

  /** A road between `u` and `v` taking `base` minutes without traffic. */
  datatype Road = Road(u: Name, v: Name, base: int)

  const Cities: seq<City> := [
    City("A", Coord(0, 0)),
    City("B", Coord(4, 1)),
    City("C", Coord(8, 0)),
    City("D", Coord(4, -3)),
    City("E", Coord(12, 3)),
    City("F", Coord(16, 0)),
    City("G", Coord(10, -4)),
    City("H", Coord(14, -3))
  ]

  const Roads: seq<Road> := [
    Road("A", "B", 10),
    Road("A", "D", 12),
    Road("B", "C", 9),
    Road("B", "D", 5),
    Road("B", "E", 14),
    Road("C", "D", 8),
    Road("C", "E", 11),
    Road("C", "F", 25),
    Road("C", "G", 12),
    Road("D", "G", 10),
    Road("E", "F", 10),
    Road("E", "H", 9),
    Road("G", "H", 7),
    Road("H", "F", 8)
  ]

  /** Road `r` joins `x` and `y`, in either direction. */
  predicate Connects(r: Road, x: Name, y: Name)
  {
    (r.u == x && r.v == y) || (r.u == y && r.v == x)
  }

  function NamesOf(cs: seq<City>): set<Name>
    decreases |cs|
  {
    if cs == [] then {} else {cs[0].name} + NamesOf(cs[1..])
  }

  /** A name is listed exactly when some entry carries it. */
  lemma {:induction false} NamesOfMembers(cs: seq<City>, n: Name)
    ensures n in NamesOf(cs) <==> exists i :: 0 <= i < |cs| && cs[i].name == n
    decreases |cs|
  {
    if cs != [] {
      NamesOfMembers(cs[1..], n);
      if n in NamesOf(cs[1..]) {
        var i :| 0 <= i < |cs| - 1 && cs[1..][i].name == n;
        assert cs[i + 1].name == n;
      }
      if exists i :: 0 <= i < |cs| && cs[i].name == n {
        var i :| 0 <= i < |cs| && cs[i].name == n;
        if i > 0 {
          assert cs[1..][i - 1].name == n;
        }
      }
    }
  }

  ghost predicate DistinctNames(cs: seq<City>)
  {
    forall i, j :: 0 <= i < j < |cs| ==> cs[i].name != cs[j].name
  }

  /** No two roads join the same unordered pair of locations. */
  ghost predicate DistinctPairs(rs: seq<Road>)
  {
    forall i, j :: 0 <= i < j < |rs| ==> !Connects(rs[j], rs[i].u, rs[i].v)
  }

  ghost predicate Loopless(rs: seq<Road>)
  {
    forall i :: 0 <= i < |rs| ==> rs[i].u != rs[i].v
  }

  ghost predicate EndpointsIn(rs: seq<Road>, names: set<Name>)
  {
    forall i :: 0 <= i < |rs| ==> rs[i].u in names && rs[i].v in names
  }

  /** What the builder relies on in a catalogue: distinct location names,
      at most one road per unordered pair, no road from a location to
      itself, and only listed locations as road ends. */
  ghost predicate Consistent(cs: seq<City>, rs: seq<Road>)
  {
    DistinctNames(cs) && DistinctPairs(rs) && Loopless(rs) && EndpointsIn(rs, NamesOf(cs))
  }

  /** The fixed catalogue is consistent. */
  lemma CatalogueConsistent()
    ensures Consistent(Cities, Roads)
    ensures NamesOf(Cities) == {"A", "B", "C", "D", "E", "F", "G", "H"}
  {
    CityNames();
    CityNamesDistinct();
    RoadEnds();
    RoadPairsDistinct();
  }

  /** The catalogue lists the eight locations A to H. */
  lemma CityNames()
    ensures |Cities| == 8
    ensures NamesOf(Cities) == {"A", "B", "C", "D", "E", "F", "G", "H"}
  {
  }

  /** No two catalogue locations share a name. */
  lemma CityNamesDistinct()
    ensures DistinctNames(Cities)
  {
    forall i, j | 0 <= i < j < |Cities| ensures Cities[i].name != Cities[j].name {
      var a, b := Cities[i], Cities[j];
      assert a.name != b.name;
    }
  }

  /** Every road joins two different listed locations and takes a positive
      base time. */
  lemma RoadEnds()
    ensures |Roads| == 14
    ensures Loopless(Roads)
    ensures EndpointsIn(Roads, {"A", "B", "C", "D", "E", "F", "G", "H"})
    ensures forall i :: 0 <= i < |Roads| ==> Roads[i].base > 0
  {
  }

  /** Each unordered pair of locations has at most one road. */
  lemma RoadPairsDistinct()
    ensures DistinctPairs(Roads)
  {
    forall i, j | 0 <= i < j < |Roads|
      ensures !Connects(Roads[j], Roads[i].u, Roads[i].v)
    {
      var r, s := Roads[i], Roads[j];
      assert r.u != s.u || r.v != s.v;
      assert r.u != s.v || r.v != s.u;
    }
  }
}
