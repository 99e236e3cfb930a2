/**
  Traffic tables: extra minutes for particular roads, keyed by an ordered
  pair of location names, and the lookup the graph builder performs with
  them.
 */
module TrafficTable {
  import opened Graphs

  /** Penalty minutes keyed by an ordered pair of location names. */
  type Table = map<(Name, Name), int>

  ghost predicate NonNegative(t: Table)
  {
    forall k :: k in t ==> t[k] >= 0
  }

  /** Reading key `k` with 0 as the default for a missing key. */
  function Lookup(t: Table, k: (Name, Name)): int
  {
    if k in t then t[k] else 0
  }

  /** Short-circuit `or` on numbers: zero counts as false, so the second
      operand is the answer exactly when the first is zero. */
  function Or(a: int, b: int): int
  {
    if a != 0 then a else b
  }

  /** The delay for the road listed as (u, v): the entry under (u, v) when it
      is present and nonzero, otherwise the entry under (v, u) when present,
      otherwise no delay. A zero entry under (u, v) therefore does not hide
      an entry under (v, u). */
  function Penalty(t: Table, u: Name, v: Name): (p: int)
    ensures (u, v) in t && t[(u, v)] != 0 ==> p == t[(u, v)]
    ensures ((u, v) !in t || t[(u, v)] == 0) && (v, u) in t ==> p == t[(v, u)]
    ensures ((u, v) !in t || t[(u, v)] == 0) && (v, u) !in t ==> p == 0
    ensures NonNegative(t) ==> p >= 0
  {
    Or(Lookup(t, (u, v)), Lookup(t, (v, u)))
  }

  /** The two orders of a road give different delays exactly when the table
      holds two different nonzero entries for it. */
  lemma PenaltyOrder(t: Table, u: Name, v: Name)
    ensures Penalty(t, u, v) != Penalty(t, v, u) <==>
      (u, v) in t && (v, u) in t && t[(u, v)] != 0 && t[(v, u)] != 0 && t[(u, v)] != t[(v, u)]
  {
  }

  /** An entry keyed in the opposite order of a road applies to that road. */
  lemma ReversedKeyApplies(t: Table, u: Name, v: Name, p: int)
    requires (u, v) !in t || t[(u, v)] == 0
    ensures Penalty(t[(v, u) := p], u, v) == p
  {
  }
}
