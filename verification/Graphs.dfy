/** Layered adjacency lists as values, and reachability along the links of one layer. */
module Graphs {

  /** `adj[node][layer]` is the list of neighbour ids. */
  type Adj = seq<seq<seq<nat>>>

  /** `NeighbourStore::get_neighbours`: the empty list for a missing node or layer. */
  function Nbrs(adj: Adj, node: nat, layer: int): seq<nat> {
    if node < |adj| && 0 <= layer < |adj[node]| then adj[node][layer] else []
  }

  /** The lists of a node that has no links yet. */
  function NoLinks(layers: nat): seq<seq<nat>> { seq(layers, _ => []) }

  /** `lists`, filled up with empty lists to `layers` lists. */
  function PaddedLists(lists: seq<seq<nat>>, layers: nat): (r: seq<seq<nat>>)
    ensures |r| == layers && forall k :: 0 <= k < layers ==> r[k] == if k < |lists| then lists[k] else []
  {
    seq(layers, k requires 0 <= k < layers => if k < |lists| then lists[k] else [])
  }

  /** The lists of `n` nodes, missing ones empty. */
  function Padded(adj: Adj, n: nat, layers: nat): (r: Adj)
    ensures |r| == n
    ensures forall i :: 0 <= i < n ==> r[i] == if i < |adj| then PaddedLists(adj[i], layers) else NoLinks(layers)
  {
    seq(n, i requires 0 <= i < n => if i < |adj| then PaddedLists(adj[i], layers) else NoLinks(layers))
  }

  ghost predicate Path(adj: Adj, layer: int, p: seq<nat>, a: nat, b: nat) {
    && |p| > 0 && p[0] == a && p[|p| - 1] == b
    && forall i :: 0 <= i < |p| - 1 ==> p[i + 1] in Nbrs(adj, p[i], layer)
  }

  ghost predicate Reach(adj: Adj, layer: int, a: nat, b: nat) {
    exists p :: Path(adj, layer, p, a, b)
  }

  lemma ReachSelf(adj: Adj, layer: int, a: nat)
    ensures Reach(adj, layer, a, a)
  {
    assert Path(adj, layer, [a], a, a);
  }

  lemma ReachStep(adj: Adj, layer: int, a: nat, b: nat, c: nat)
    requires Reach(adj, layer, a, b) && c in Nbrs(adj, b, layer)
    ensures Reach(adj, layer, a, c)
  {
    var p :| Path(adj, layer, p, a, b);
    assert Path(adj, layer, p + [c], a, c);
  }

  lemma ReachTrans(adj: Adj, layer: int, a: nat, b: nat, c: nat)
    requires Reach(adj, layer, a, b) && Reach(adj, layer, b, c)
    ensures Reach(adj, layer, a, c)
  {
    var p :| Path(adj, layer, p, a, b);
    var q :| Path(adj, layer, q, b, c);
    var r := p + q[1..];
    forall i | 0 <= i < |r| - 1
      ensures r[i + 1] in Nbrs(adj, r[i], layer)
    {
      if i >= |p| - 1 {
        assert r[i] == q[i - (|p| - 1)] && r[i + 1] == q[i + 1 - (|p| - 1)];
      }
    }
    assert Path(adj, layer, r, a, c);
  }

  ghost predicate ClosedUnder(adj: Adj, layer: int, nodes: set<nat>) {
    forall i, j :: i in nodes && j in Nbrs(adj, i, layer) ==> j in nodes
  }

  /** A set of nodes closed under the links of a layer cannot be left. */
  lemma {:induction false} ReachStaysIn(adj: Adj, layer: int, nodes: set<nat>, a: nat, b: nat)
    requires a in nodes && ClosedUnder(adj, layer, nodes) && Reach(adj, layer, a, b)
    ensures b in nodes
  {
    var p :| Path(adj, layer, p, a, b);
    PathStaysIn(adj, layer, nodes, p, |p| - 1);
  }

  lemma {:induction false} PathStaysIn(adj: Adj, layer: int, nodes: set<nat>, p: seq<nat>, k: nat)
    requires k < |p| && p[0] in nodes && ClosedUnder(adj, layer, nodes)
    requires Path(adj, layer, p, p[0], p[|p| - 1])
    ensures p[k] in nodes
  {
    if k > 0 {
      PathStaysIn(adj, layer, nodes, p, k - 1);
      assert p[k - 1 + 1] in Nbrs(adj, p[k - 1], layer);
    }
  }

  /** Adding links keeps every connection. */
  lemma ReachMonotone(adj: Adj, adj': Adj, layer: int, a: nat, b: nat)
    requires forall i, j :: j in Nbrs(adj, i, layer) ==> j in Nbrs(adj', i, layer)
    requires Reach(adj, layer, a, b)
    ensures Reach(adj', layer, a, b)
  {
    var p :| Path(adj, layer, p, a, b);
    assert Path(adj', layer, p, a, b);
  }

  /** The nodes among the first `n` that `a` reaches. */
  ghost function ReachSet(adj: Adj, layer: int, n: nat, a: nat): set<nat> {
    set b | b in Below(n) && Reach(adj, layer, a, b)
  }

  ghost function Below(n: nat): (r: set<nat>)
    ensures |r| == n && forall i: nat :: i in r <==> i < n
  {
    if n == 0 then {} else Below(n - 1) + {n - 1}
  }

  lemma {:induction false} SubsetSize<T>(a: set<T>, b: set<T>)
    requires a <= b
    ensures |a| <= |b|
    ensures |a| == |b| ==> a == b
  {
    assert b == a + (b - a);
    assert |b| == |a| + |b - a|;
    if |a| == |b| { assert b - a == {}; }
  }

  lemma SizeAtMost(s: set<nat>, n: nat)
    requires forall i :: i in s ==> i < n
    ensures |s| <= n
  {
    assert s <= Below(n);
    SubsetSize(s, Below(n));
  }
}
