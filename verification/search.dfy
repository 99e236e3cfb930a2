/**
  The route query: a shortest route between two locations by total `time`,
  or the reason there is none. The search keeps, for every location reached
  so far, the best route to it found yet, and relaxes every edge until a
  whole round improves nothing; the final labels then form a feasible
  labelling, which proves every recorded route shortest.
 */
module Search {
  import opened Results
  import opened Graphs
  import opened Paths

  datatype SearchError =
    | NodeNotFound  // the start or the destination is not a location of the graph
    | NoPath        // the destination cannot be reached from the start

  /** A route and its total travel time. */
  datatype Route = Route(path: seq<Name>, cost: int)

  /** Best routes found so far: the start is reached by itself, and every
      recorded route leads from the start to its key. */
  ghost predicate Labels(g: Graph, s: Name, best: map<Name, seq<Name>>)
  {
    && s in best
    && best[s] == [s]
    && forall v :: v in best ==> IsPath(g, best[v], s, v)
  }

  /** The edge from `u` to `v` cannot improve the route recorded for `v`. */
  ghost predicate Relaxed(g: Graph, best: map<Name, seq<Name>>, u: Name, v: Name)
  {
    u in best && Adjacent(g, u, v) ==>
      && v in best
      && Linked(g, best[u])
      && Linked(g, best[v])
      && PathCost(g, best[v]) <= PathCost(g, best[u]) + g.adj[u][v].time
  }

  /** No edge between listed locations can improve any recorded route. */
  ghost predicate Settled(g: Graph, nodes: seq<Name>, best: map<Name, seq<Name>>)
  {
    forall a, b :: 0 <= a < |nodes| && 0 <= b < |nodes| ==> Relaxed(g, best, nodes[a], nodes[b])
  }

  /** How many listed locations have no route yet. */
  function Unreached(nodes: seq<Name>, best: map<Name, seq<Name>>): nat
    decreases |nodes|
  {
    if nodes == [] then 0 else (if nodes[0] in best then 0 else 1) + Unreached(nodes[1..], best)
  }

  /** Summed travel time of the routes recorded for listed locations. */
  ghost function Total(g: Graph, nodes: seq<Name>, best: map<Name, seq<Name>>): int
    decreases |nodes|
  {
    if nodes == [] then 0
    else
      var v := nodes[0];
      (if v in best && Linked(g, best[v]) then PathCost(g, best[v]) else 0) + Total(g, nodes[1..], best)
  }

  /** `best1` is strictly better than `best0`: more locations reached, or as
      many at a smaller summed travel time. */
  ghost predicate Progress(g: Graph, nodes: seq<Name>, best1: map<Name, seq<Name>>, best0: map<Name, seq<Name>>)
  {
    || Unreached(nodes, best1) < Unreached(nodes, best0)
    || (Unreached(nodes, best1) == Unreached(nodes, best0) && Total(g, nodes, best1) < Total(g, nodes, best0))
  }

  /** Recording a route for a listed location that had none reaches one
      more location; replacing a route reaches as many. */
  lemma {:induction false} UnreachedUpdate(nodes: seq<Name>, best: map<Name, seq<Name>>, v: Name, p: seq<Name>)
    ensures v in best ==> Unreached(nodes, best[v := p]) == Unreached(nodes, best)
    ensures v !in best && v in nodes ==> Unreached(nodes, best[v := p]) < Unreached(nodes, best)
    ensures v !in best ==> Unreached(nodes, best[v := p]) <= Unreached(nodes, best)
    decreases |nodes|
  {
    if nodes != [] {
      UnreachedUpdate(nodes[1..], best, v, p);
    }
  }

  /** Replacing the route of a listed location by a faster one lowers the
      summed travel time. */
  lemma {:induction false} TotalUpdate(g: Graph, nodes: seq<Name>, best: map<Name, seq<Name>>, v: Name, p: seq<Name>)
    requires v in best && Linked(g, best[v]) && Linked(g, p)
    requires PathCost(g, p) < PathCost(g, best[v])
    ensures Total(g, nodes, best[v := p]) <= Total(g, nodes, best)
    ensures v in nodes ==> Total(g, nodes, best[v := p]) < Total(g, nodes, best)
    decreases |nodes|
  {
    if nodes != [] {
      TotalUpdate(g, nodes[1..], best, v, p);
    }
  }

  /** With non-negative edge times the summed travel time is never
      negative. */
  lemma {:induction false} TotalNonNegative(g: Graph, nodes: seq<Name>, best: map<Name, seq<Name>>)
    requires NonNegativeTimes(g)
    ensures Total(g, nodes, best) >= 0
    decreases |nodes|
  {
    if nodes != [] {
      var v := nodes[0];
      if v in best && Linked(g, best[v]) {
        CostNonNegative(g, best[v]);
      }
      TotalNonNegative(g, nodes[1..], best);
    }
  }

  /** Tries to improve the route recorded for `v` by the edge from `u`. */
  method Relax(g: Graph, s: Name, nodes: seq<Name>, best: map<Name, seq<Name>>, u: Name, v: Name)
    returns (updated: bool, best': map<Name, seq<Name>>)
    requires Undirected(g)
    requires NonNegativeTimes(g)
    requires Labels(g, s, best)
    requires v in nodes
    ensures Labels(g, s, best')
    ensures updated ==> Progress(g, nodes, best', best)
    ensures !updated ==> best' == best && Relaxed(g, best, u, v)
  {
    updated, best' := false, best;
    if u in best && Adjacent(g, u, v) {
      var route := best[u];
      var c := PathCost(g, route) + g.adj[u][v].time;
      if v !in best || c < PathCost(g, best[v]) {
        var cand := route + [v];
        assert Linked(g, cand) by {
          forall i | 0 <= i < |cand| - 1 ensures Adjacent(g, cand[i], cand[i + 1]) {
            if i < |cand| - 2 {
              assert cand[i] == route[i] && cand[i + 1] == route[i + 1];
            }
          }
        }
        assert IsPath(g, cand, s, v) by {
          assert Adjacent(g, v, u);
          forall i | 0 <= i < |cand| ensures cand[i] in g.adj {
            if i < |route| {
              assert cand[i] == route[i];
            }
          }
        }
        assert cand[..|cand| - 1] == route;
        assert PathCost(g, cand) == c;
        assert v != s by {
          CostNonNegative(g, route);
        }
        UnreachedUpdate(nodes, best, v, cand);
        if v in best {
          TotalUpdate(g, nodes, best, v, cand);
        }
        updated, best' := true, best[v := cand];
      }
    }
  }

  /** Relaxes every edge from `u` to a listed location. */
  method RelaxFrom(g: Graph, s: Name, nodes: seq<Name>, best0: map<Name, seq<Name>>, u: Name)
    returns (changed: bool, best: map<Name, seq<Name>>)
    requires Undirected(g)
    requires NonNegativeTimes(g)
    requires Labels(g, s, best0)
    ensures Labels(g, s, best)
    ensures changed ==> Progress(g, nodes, best, best0)
    ensures !changed ==> best == best0 && forall b :: 0 <= b < |nodes| ==> Relaxed(g, best, u, nodes[b])
  {
    changed, best := false, best0;
    var j := 0;
    while j < |nodes|
      invariant 0 <= j <= |nodes|
      invariant Labels(g, s, best)
      invariant changed ==> Progress(g, nodes, best, best0)
      invariant !changed ==> best == best0
      invariant !changed ==> forall b :: 0 <= b < j ==> Relaxed(g, best, u, nodes[b])
    {
      var updated, best' := Relax(g, s, nodes, best, u, nodes[j]);
      changed, best := changed || updated, best';
      j := j + 1;
    }
  }

  /** One round: relaxes every edge between listed locations. */
  method Round(g: Graph, s: Name, nodes: seq<Name>, best0: map<Name, seq<Name>>)
    returns (changed: bool, best: map<Name, seq<Name>>)
    requires Undirected(g)
    requires NonNegativeTimes(g)
    requires Labels(g, s, best0)
    ensures Labels(g, s, best)
    ensures changed ==> Progress(g, nodes, best, best0)
    ensures !changed ==> best == best0 && Settled(g, nodes, best)
  {
    changed, best := false, best0;
    var i := 0;
    while i < |nodes|
      invariant 0 <= i <= |nodes|
      invariant Labels(g, s, best)
      invariant changed ==> Progress(g, nodes, best, best0)
      invariant !changed ==> best == best0
      invariant !changed ==> forall a, b :: 0 <= a < i && 0 <= b < |nodes| ==> Relaxed(g, best, nodes[a], nodes[b])
    {
      var updated, best' := RelaxFrom(g, s, nodes, best, nodes[i]);
      changed, best := changed || updated, best';
      i := i + 1;
    }
  }

  /** The elements of a finite set, in some order. */
  method Enumerate(xs: set<Name>) returns (s: seq<Name>)
    ensures forall x :: x in xs <==> x in s
  {
    s := [];
    var rest := xs;
    while rest != {}
      invariant forall x :: x in xs <==> x in s || x in rest
      decreases rest
    {
      var x :| x in rest;
      s := s + [x];
      rest := rest - {x};
    }
  }

  /** A shortest route from `s` to `d` by total `time`, with that time; an
      error when either end is not a location of the graph or no route
      exists. */
  method ShortestRoute(g: Graph, s: Name, d: Name) returns (r: Result<Route, SearchError>)
    requires Undirected(g)
    requires NonNegativeTimes(g)
    ensures r == Failure(NodeNotFound) <==> s !in g.adj || d !in g.adj
    ensures r == Failure(NoPath) <==> s in g.adj && d in g.adj && !Reachable(g, s, d)
    ensures r.Success? <==> s in g.adj && d in g.adj && Reachable(g, s, d)
    ensures r.Success? ==> IsShortest(g, r.value.path, s, d) && r.value.cost == PathCost(g, r.value.path)
  {
    if s !in g.adj || d !in g.adj {
      return Failure(NodeNotFound);
    }
    var nodes := Enumerate(g.adj.Keys);
    var best: map<Name, seq<Name>> := map[s := [s]];
    var changed := true;
    TotalNonNegative(g, nodes, best);
    while changed
      invariant Labels(g, s, best)
      invariant !changed ==> Settled(g, nodes, best)
      invariant Total(g, nodes, best) >= 0
      decreases Unreached(nodes, best), Total(g, nodes, best), changed
    {
      changed, best := Round(g, s, nodes, best);
      TotalNonNegative(g, nodes, best);
    }
    ghost var pot := map v | v in best :: PathCost(g, best[v]);
    assert Feasible(g, pot) by {
      forall u, v | u in pot && Adjacent(g, u, v) ensures v in pot && pot[v] <= pot[u] + g.adj[u][v].time {
        var a :| 0 <= a < |nodes| && nodes[a] == u;
        var b :| 0 <= b < |nodes| && nodes[b] == v;
        assert Relaxed(g, best, nodes[a], nodes[b]);
      }
    }
    forall q | IsPath(g, q, s, d) ensures d in best {
      PotentialBound(g, pot, q);
    }
    if d !in best {
      return Failure(NoPath);
    }
    ShortestByPotential(g, pot, best[d], s, d);
    return Success(Route(best[d], PathCost(g, best[d])));
  }
}
