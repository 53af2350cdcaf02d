/** The greedy walk of one layer and the descent through several. */
module GreedyProofs {
  import opened Graphs
  import opened Hits
  import opened HnswSpec

  lemma MoveIs<V>(dist: Metric<V>, vs: seq<V>, q: V, adj: Adj, layer: int, a: nat, at: nat)
    requires var list := Nbrs(adj, a, layer);
      at < |list| && D(dist, vs, q, list[at]) < D(dist, vs, q, a) && NearestAt(dist, vs, q, list, at)
    ensures Moves(dist, vs, q, adj, layer, a, Nbrs(adj, a, layer)[at])
  {
  }

  lemma MoveUnique<V>(dist: Metric<V>, vs: seq<V>, q: V, adj: Adj, layer: int, a: nat, b: nat, c: nat)
    requires Moves(dist, vs, q, adj, layer, a, b) && Moves(dist, vs, q, adj, layer, a, c)
    ensures b == c
  {
    var list := Nbrs(adj, a, layer);
    var k :| 0 <= k < |list| && list[k] == b && NearestAt(dist, vs, q, list, k);
    var m :| 0 <= m < |list| && list[m] == c && NearestAt(dist, vs, q, list, m);
  }

  /** A walk does not leave a local minimum. */
  lemma NoMove<V>(dist: Metric<V>, vs: seq<V>, q: V, adj: Adj, layer: int, a: nat, b: nat)
    requires forall j :: j in Nbrs(adj, a, layer) ==> D(dist, vs, q, a) <= D(dist, vs, q, j)
    ensures !Moves(dist, vs, q, adj, layer, a, b)
  {
  }

  lemma {:induction false} SameWalk<V>(dist: Metric<V>, vs: seq<V>, q: V, adj: Adj, layer: int, p: seq<nat>, r: seq<nat>, from: nat, x: nat, y: nat, k: nat)
    requires Walk(dist, vs, q, adj, layer, p, from, x) && Walk(dist, vs, q, adj, layer, r, from, y) && k < |p| && k < |r|
    ensures p[k] == r[k]
  {
    if k > 0 {
      SameWalk(dist, vs, q, adj, layer, p, r, from, x, y, k - 1);
      var j := k - 1;
      assert Moves(dist, vs, q, adj, layer, p[j], p[k]) && Moves(dist, vs, q, adj, layer, r[j], r[k]);
      MoveUnique(dist, vs, q, adj, layer, p[j], p[k], r[k]);
    }
  }

  /** The walk has one end, ties included. */
  lemma GreedyUnique<V>(dist: Metric<V>, vs: seq<V>, q: V, adj: Adj, layer: int, from: nat, x: nat, y: nat)
    requires GreedyEnd(dist, vs, q, adj, layer, from, x) && GreedyEnd(dist, vs, q, adj, layer, from, y)
    ensures x == y
  {
    hide Moves, Reach;
    var p :| Walk(dist, vs, q, adj, layer, p, from, x);
    var r :| Walk(dist, vs, q, adj, layer, r, from, y);
    var m, n := |p| - 1, |r| - 1;
    SameWalk(dist, vs, q, adj, layer, p, r, from, x, y, if m < n then m else n);
    if m < n {
      var j := m + 1;
      assert Moves(dist, vs, q, adj, layer, r[m], r[j]);
      NoMove(dist, vs, q, adj, layer, x, r[j]);
    } else if n < m {
      var j := n + 1;
      assert Moves(dist, vs, q, adj, layer, p[n], p[j]);
      NoMove(dist, vs, q, adj, layer, y, p[j]);
    }
  }

  lemma {:induction false} WalkDown<V>(dist: Metric<V>, vs: seq<V>, q: V, adj: Adj, layer: int, p: seq<nat>, from: nat, to: nat, k: nat)
    requires Walk(dist, vs, q, adj, layer, p, from, to) && k < |p|
    ensures D(dist, vs, q, to) <= D(dist, vs, q, p[k])
    decreases |p| - k
  {
    if k < |p| - 1 {
      WalkDown(dist, vs, q, adj, layer, p, from, to, k + 1);
      var j := k + 1;
      assert Moves(dist, vs, q, adj, layer, p[k], p[j]);
    }
  }

  /** Its first step goes to a nearest neighbour, so it ends no farther than any neighbour of where it started. */
  lemma GreedyBeatsNeighbours<V>(dist: Metric<V>, vs: seq<V>, q: V, adj: Adj, layer: int, from: nat, to: nat, j: nat)
    requires GreedyEnd(dist, vs, q, adj, layer, from, to) && j in Nbrs(adj, from, layer)
    ensures D(dist, vs, q, to) <= D(dist, vs, q, j)
  {
    hide Reach;
    var p :| Walk(dist, vs, q, adj, layer, p, from, to);
    if |p| > 1 {
      WalkDown(dist, vs, q, adj, layer, p, from, to, 1);
      var i, k := 0, 1;
      assert Moves(dist, vs, q, adj, layer, p[i], p[k]);
    }
  }
}
