/**
  Undirected graphs in adjacency form, the way the graph library the planner
  builds on stores them: every node owns a map from its neighbours to the
  attributes of the connecting edge, and adding the edge {u, v} writes the
  same attribute record under adj[u][v] and adj[v][u].
 */
module Graphs {

  /** Location identifiers, such as "A". */
  type Name = string

  /** Integer plane coordinates of a location. */
  datatype Coord = Coord(x: int, y: int)

  function Square(n: int): int
  {
    n * n
  }

  /** The square of the straight-line distance between two points, the
      quantity under the square root of the planner's distance estimate. */
  function DistanceSquared(a: Coord, b: Coord): int
  {
    Square(a.x - b.x) + Square(a.y - b.y)
  }

  lemma SquareMonotone(a: int, b: int)
    requires 0 <= a <= b
    ensures Square(a) <= Square(b)
  {
    assert Square(b) - Square(a) == (b - a) * (b + a);
  }

  lemma DistanceSymmetric(a: Coord, b: Coord)
    ensures DistanceSquared(a, b) == DistanceSquared(b, a)
  {
    assert Square(a.x - b.x) == Square(b.x - a.x);
    assert Square(a.y - b.y) == Square(b.y - a.y);
  }

  /** Attributes of one road: the weight used by the search (`time`), the
      catalogue travel time (`base`) and the traffic delay (`penalty`). */
  datatype EdgeData = EdgeData(time: int, base: int, penalty: int)

  /** The node set is `adj.Keys`; `coord` holds the coordinate attribute of
      the nodes that were given one. */
  datatype Graph = Graph(coord: map<Name, Coord>, adj: map<Name, map<Name, EdgeData>>)

  const Empty: Graph := Graph(map[], map[])

  /** Neighbour map of `u`, empty when `u` is not a node. */
  function Neighbours(adj: map<Name, map<Name, EdgeData>>, u: Name): map<Name, EdgeData>
  {
    if u in adj then adj[u] else map[]
  }

  predicate Adjacent(g: Graph, u: Name, v: Name)
  {
    u in g.adj && v in g.adj[u]
  }

  /** The symmetry the adjacency representation keeps for undirected graphs. */
  ghost predicate Undirected(g: Graph)
  {
    forall u, v :: Adjacent(g, u, v) ==> Adjacent(g, v, u) && g.adj[v][u] == g.adj[u][v]
  }

  ghost predicate NoSelfLoops(g: Graph)
  {
    forall u, v :: Adjacent(g, u, v) ==> u != v
  }

  /** Adds node `n` with coordinate `c`; an existing node keeps its
      neighbours and only has its coordinate replaced. */
  function AddNode(g: Graph, n: Name, c: Coord): (h: Graph)
    ensures h.adj.Keys == g.adj.Keys + {n}
    ensures n in h.coord && h.coord[n] == c
    ensures forall m :: m != n ==> (m in h.coord <==> m in g.coord)
    ensures forall m :: m != n && m in g.coord ==> h.coord[m] == g.coord[m]
    ensures forall u, v :: Adjacent(h, u, v) <==> Adjacent(g, u, v)
    ensures forall u, v :: Adjacent(g, u, v) ==> Adjacent(h, u, v) && h.adj[u][v] == g.adj[u][v]
  {
    Graph(g.coord[n := c], if n in g.adj then g.adj else g.adj[n := map[]])
  }

  /** Adds (or overwrites) the undirected edge {u, v} with attributes `e`,
      creating either endpoint that is not yet a node. */
  function AddEdge(g: Graph, u: Name, v: Name, e: EdgeData): (h: Graph)
    ensures h.coord == g.coord
    ensures h.adj.Keys == g.adj.Keys + {u, v}
    ensures Adjacent(h, u, v) && h.adj[u][v] == e
    ensures Adjacent(h, v, u) && h.adj[v][u] == e
    ensures forall x, y :: !((x == u && y == v) || (x == v && y == u)) ==>
      (Adjacent(h, x, y) <==> Adjacent(g, x, y))
    ensures forall x, y :: !((x == u && y == v) || (x == v && y == u)) && Adjacent(g, x, y) ==>
      Adjacent(h, x, y) && h.adj[x][y] == g.adj[x][y]
  {
    var a := g.adj[u := Neighbours(g.adj, u)[v := e]];
    Graph(g.coord, a[v := Neighbours(a, v)[u := e]])
  }

  /** Adding an edge keeps an undirected graph undirected. */
  lemma AddEdgeUndirected(g: Graph, u: Name, v: Name, e: EdgeData)
    requires Undirected(g)
    ensures Undirected(AddEdge(g, u, v, e))
  {
  }
}
