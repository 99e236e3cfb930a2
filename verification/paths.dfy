/**
  Routes through a graph and their travel times: what a route query promises
  is stated with these definitions.
 */
module Paths {
  import opened Graphs

  /** Consecutive entries of `p` are joined by edges. */
  predicate Linked(g: Graph, p: seq<Name>)
  {
    forall i :: 0 <= i < |p| - 1 ==> Adjacent(g, p[i], p[i + 1])
  }

  /** `p` is a route from `s` to `d`: it starts at `s`, ends at `d`, visits
      only nodes of `g` and moves along edges. The one-element route [s]
      leads from a node to itself. */
  predicate IsPath(g: Graph, p: seq<Name>, s: Name, d: Name)
  {
    && |p| > 0
    && p[0] == s
    && p[|p| - 1] == d
    && (forall i :: 0 <= i < |p| ==> p[i] in g.adj)
    && Linked(g, p)
  }

  /** Total travel time of `p`: the `time` attributes of its edges, summed. */
  function PathCost(g: Graph, p: seq<Name>): int
    requires Linked(g, p)
    decreases |p|
  {
    if |p| <= 1 then 0
    else
      assert Adjacent(g, p[|p| - 2], p[|p| - 1]);
      PathCost(g, p[..|p| - 1]) + g.adj[p[|p| - 2]][p[|p| - 1]].time
  }

  ghost predicate NonNegativeTimes(g: Graph)
  {
    forall u, v :: Adjacent(g, u, v) ==> g.adj[u][v].time >= 0
  }

  ghost predicate Reachable(g: Graph, s: Name, d: Name)
  {
    exists p :: IsPath(g, p, s, d)
  }

  /** `p` is a route from `s` to `d` and no route from `s` to `d` takes less
      time. */
  ghost predicate IsShortest(g: Graph, p: seq<Name>, s: Name, d: Name)
  {
    IsPath(g, p, s, d) && forall q :: IsPath(g, q, s, d) ==> PathCost(g, p) <= PathCost(g, q)
  }

  /** A labelling of nodes that no edge undercuts: from a labelled node, every
      neighbour is labelled and its label exceeds the node's by at most the
      edge's time. */
  ghost predicate Feasible(g: Graph, pot: map<Name, int>)
  {
    forall u, v :: u in pot && Adjacent(g, u, v) ==> v in pot && pot[v] <= pot[u] + g.adj[u][v].time
  }

  /** With non-negative edge times no route has negative travel time. */
  lemma {:induction false} CostNonNegative(g: Graph, p: seq<Name>)
    requires NonNegativeTimes(g)
    requires Linked(g, p)
    ensures PathCost(g, p) >= 0
    decreases |p|
  {
    if |p| > 1 {
      CostNonNegative(g, p[..|p| - 1]);
    }
  }

  /** Travel time adds up when a route is continued by another that starts
      where the first ends. */
  lemma {:induction false} CostAppend(g: Graph, p: seq<Name>, q: seq<Name>)
    requires |p| > 0 && |q| > 0 && p[|p| - 1] == q[0]
    requires Linked(g, p) && Linked(g, q)
    ensures Linked(g, p + q[1..])
    ensures PathCost(g, p + q[1..]) == PathCost(g, p) + PathCost(g, q)
    decreases |q|
  {
    var pq := p + q[1..];
    assert Linked(g, pq) by {
      forall i | 0 <= i < |pq| - 1 ensures Adjacent(g, pq[i], pq[i + 1]) {
        if i >= |p| - 1 {
          assert pq[i] == q[i - |p| + 1] && pq[i + 1] == q[i - |p| + 2];
        }
      }
    }
    if |q| == 1 {
      assert pq == p;
    } else {
      var q' := q[..|q| - 1];
      CostAppend(g, p, q');
      assert pq[..|pq| - 1] == p + q'[1..];
    }
  }

  /** Three consecutive edges form a route whose travel time is the sum of
      their times. */
  lemma ThreeLegRoute(g: Graph, a: Name, b: Name, c: Name, d: Name)
    requires Adjacent(g, a, b) && Adjacent(g, b, c) && Adjacent(g, c, d) && d in g.adj
    ensures IsPath(g, [a, b, c, d], a, d)
    ensures PathCost(g, [a, b, c, d]) == g.adj[a][b].time + g.adj[b][c].time + g.adj[c][d].time
  {
    assert [a, b, c, d][..3] == [a, b, c] && [a, b, c][..2] == [a, b] && [a, b][..1] == [a];
    assert PathCost(g, [a, b]) == g.adj[a][b].time;
    assert PathCost(g, [a, b, c]) == PathCost(g, [a, b]) + g.adj[b][c].time;
  }

  /** A feasible labelling bounds the travel time of every route from below
      by the difference of the labels of its ends. */
  lemma {:induction false} PotentialBound(g: Graph, pot: map<Name, int>, p: seq<Name>)
    requires Feasible(g, pot)
    requires |p| > 0 && Linked(g, p) && p[0] in pot
    ensures p[|p| - 1] in pot && PathCost(g, p) >= pot[p[|p| - 1]] - pot[p[0]]
    decreases |p|
  {
    if |p| > 1 {
      var p' := p[..|p| - 1];
      PotentialBound(g, pot, p');
      assert p'[|p'| - 1] == p[|p| - 2];
    }
  }

  /** A route whose travel time equals the label difference of a feasible
      labelling is a shortest one. */
  lemma ShortestByPotential(g: Graph, pot: map<Name, int>, p: seq<Name>, s: Name, d: Name)
    requires Feasible(g, pot)
    requires IsPath(g, p, s, d) && s in pot && d in pot
    requires PathCost(g, p) == pot[d] - pot[s]
    ensures IsShortest(g, p, s, d)
  {
    forall q | IsPath(g, q, s, d) ensures PathCost(g, p) <= PathCost(g, q) {
      PotentialBound(g, pot, q);
    }
  }

  /** Edge (u, v) is tight under `pot`: it takes exactly the difference of
      the labels of its ends. */
  ghost predicate Tight(g: Graph, pot: map<Name, int>, u: Name, v: Name)
  {
    u in pot && v in pot && Adjacent(g, u, v) && pot[v] == pot[u] + g.adj[u][v].time
  }

  /** A route whose travel time meets the bound of a feasible labelling uses
      tight edges only. */
  lemma {:induction false} TightEdges(g: Graph, pot: map<Name, int>, p: seq<Name>)
    requires Feasible(g, pot)
    requires |p| > 0 && Linked(g, p) && p[0] in pot && p[|p| - 1] in pot
    requires PathCost(g, p) == pot[p[|p| - 1]] - pot[p[0]]
    ensures forall i :: 0 <= i < |p| - 1 ==> Tight(g, pot, p[i], p[i + 1])
    decreases |p|
  {
    if |p| > 1 {
      var p' := p[..|p| - 1];
      PotentialBound(g, pot, p');
      assert p'[|p'| - 1] == p[|p| - 2];
      TightEdges(g, pot, p');
      forall i | 0 <= i < |p| - 1 ensures Tight(g, pot, p[i], p[i + 1]) {
        if i < |p| - 2 {
          assert p'[i] == p[i] && p'[i + 1] == p[i + 1];
        }
      }
    }
  }

  /** If no tight edge enters `a`, and tight edges enter `b`, `c` and `d`
      only from `a`, `b` and `c` respectively, then the only route from `a`
      to `d` made of tight edges is a, b, c, d. */
  lemma TightChain(g: Graph, pot: map<Name, int>, p: seq<Name>, a: Name, b: Name, c: Name, d: Name)
    requires a != b && a != c && a != d
    requires IsPath(g, p, a, d)
    requires forall i :: 0 <= i < |p| - 1 ==> Tight(g, pot, p[i], p[i + 1])
    requires forall u, v :: Tight(g, pot, u, v) ==>
      v != a && (v == b ==> u == a) && (v == c ==> u == b) && (v == d ==> u == c)
    ensures p == [a, b, c, d]
  {
    var n := |p|;
    forall i | 0 < i < n ensures p[i] != a {
      assert Tight(g, pot, p[i - 1], p[i]);
    }
    assert n >= 2;
    assert Tight(g, pot, p[n - 2], p[n - 1]);
    assert n >= 3;
    assert Tight(g, pot, p[n - 3], p[n - 2]);
    assert n >= 4;
    assert Tight(g, pot, p[n - 4], p[n - 3]);
    assert n == 4;
    assert p == [p[0], p[1], p[2], p[3]];
  }

  /** `g2` has the same nodes and edges as `g1`, and no edge of `g2` is
      faster than the same edge of `g1`. */
  ghost predicate SlowerCopy(g1: Graph, g2: Graph)
  {
    && g1.adj.Keys == g2.adj.Keys
    && (forall u, v :: Adjacent(g1, u, v) <==> Adjacent(g2, u, v))
    && (forall u, v :: Adjacent(g1, u, v) ==> g1.adj[u][v].time <= g2.adj[u][v].time)
  }

  /** Slowing edges down keeps exactly the same routes. */
  lemma SameRoutes(g1: Graph, g2: Graph, p: seq<Name>, s: Name, d: Name)
    requires SlowerCopy(g1, g2)
    ensures IsPath(g1, p, s, d) <==> IsPath(g2, p, s, d)
  {
  }

  /** Slowing edges down never makes a route faster. */
  lemma {:induction false} CostMonotone(g1: Graph, g2: Graph, p: seq<Name>)
    requires SlowerCopy(g1, g2)
    requires Linked(g1, p)
    ensures Linked(g2, p)
    ensures PathCost(g1, p) <= PathCost(g2, p)
    decreases |p|
  {
    if |p| > 1 {
      CostMonotone(g1, g2, p[..|p| - 1]);
    }
  }

  /** Slowing edges down never makes the shortest travel time between two
      places smaller. */
  lemma ShortestMonotone(g1: Graph, g2: Graph, p1: seq<Name>, p2: seq<Name>, s: Name, d: Name)
    requires SlowerCopy(g1, g2)
    requires IsShortest(g1, p1, s, d) && IsShortest(g2, p2, s, d)
    ensures PathCost(g1, p1) <= PathCost(g2, p2)
  {
    assert IsPath(g1, p2, s, d);
    CostMonotone(g1, g2, p2);
  }
}
