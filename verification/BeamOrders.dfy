/** The order in which the beam search expands nodes. */
module BeamOrders {
  import opened Sorting
  import opened Hits
  import opened Graphs
  import opened HnswSpec

  /** Nothing has been expanded, the start node waits. */
  lemma FrontierBegins<V>(dist: Metric<V>, vs: seq<V>, q: V, adj: Adj, layer: int, ep: nat, width: int)
    ensures var start := multiset{At(dist, vs, q, ep)}; Frontier(dist, vs, q, width, {ep}, {}, start, start)
    ensures Met(adj, layer, ep, []) == {ep} && SetOf([]) == {} && BestFirst(dist, vs, q, adj, layer, ep, width, [])
  {
  }

  lemma BestSize<V>(dist: Metric<V>, vs: seq<V>, q: V, adj: Adj, layer: int, ep: nat, width: int,
                    seen: set<nat>, spent: set<nat>, heap: multiset<Hit>, best: multiset<Hit>)
    requires Searching(dist, vs, q, adj, layer, ep, width, seen, spent, heap, best)
    ensures |best| == if |seen| < width then |seen| else width
  {
  }

  /** How the loop body decides what to do with a node whose hit is `h`. */
  lemma OfferIs(h: Hit, ef: int, heap: multiset<Hit>, best: multiset<Hit>, worst: Hit)
    requires First(Furthest, best, worst)
    ensures |best + multiset{h}| == |best| + 1
    ensures |best| < SizeT(ef) ==> Offered(h, ef, heap, best, heap + multiset{h}, best + multiset{h})
    ensures |best| >= SizeT(ef) && h.dist >= worst.dist ==> Offered(h, ef, heap, best, heap, best)
    ensures |best| >= SizeT(ef) && h.dist < worst.dist ==>
      forall w :: First(Furthest, best + multiset{h}, w) ==>
        Offered(h, ef, heap, best, heap + multiset{h}, best + multiset{h} - multiset{w})
  {
    assert worst in best;
    assert forall b :: b in best ==> Furthest(worst, b);
  }

  /** An offer keeps every node not yet expanded on the heap or refused. */
  lemma FrontierKeeps<V>(dist: Metric<V>, vs: seq<V>, q: V, adj: Adj, layer: int, ep: nat, ef: int,
                         seen: set<nat>, spent: set<nat>, heap: multiset<Hit>, best: multiset<Hit>,
                         n: nat, heap': multiset<Hit>, best': multiset<Hit>)
    requires Searching(dist, vs, q, adj, layer, ep, Width(ef), seen, spent, heap, best)
    requires Frontier(dist, vs, q, Width(ef), seen, spent, heap, best)
    requires n !in seen && Offered(At(dist, vs, q, n), ef, heap, best, heap', best')
    ensures Frontier(dist, vs, q, Width(ef), seen + {n}, spent, heap', best')
  {
    BestSize(dist, vs, q, adj, layer, ep, Width(ef), seen, spent, heap, best);
    hide Searching, First, Furthest;
    var h := At(dist, vs, q, n);
    assert h !in heap;
    if |best| < SizeT(ef) {
      FrontierPush(dist, vs, q, Width(ef), seen, spent, heap, best, n, best');
    } else if forall b :: b in best ==> b.dist <= h.dist {
      FrontierRefuse(dist, vs, q, Width(ef), seen, spent, heap, best, n);
    } else {
      var w :| First(Furthest, best + multiset{h}, w) && best' == best + multiset{h} - multiset{w};
      var x :| x in best && h.dist < x.dist;
      FrontierSwap(dist, vs, q, Width(ef), seen, spent, heap, best, n, x, w);
    }
  }

  lemma FrontierRefuse<V>(dist: Metric<V>, vs: seq<V>, q: V, width: int, seen: set<nat>, spent: set<nat>,
                          heap: multiset<Hit>, best: multiset<Hit>, n: nat)
    requires Frontier(dist, vs, q, width, seen, spent, heap, best) && n !in seen && |seen| >= width
    requires forall b :: b in best ==> b.dist <= D(dist, vs, q, n)
    ensures Frontier(dist, vs, q, width, seen + {n}, spent, heap, best)
  {
    assert |seen + {n}| == |seen| + 1;
  }

  lemma FrontierSwap<V>(dist: Metric<V>, vs: seq<V>, q: V, width: int, seen: set<nat>, spent: set<nat>,
                        heap: multiset<Hit>, best: multiset<Hit>, n: nat, x: Hit, w: Hit)
    requires Frontier(dist, vs, q, width, seen, spent, heap, best) && n !in seen
    requires x in best && D(dist, vs, q, n) < x.dist
    ensures var h := At(dist, vs, q, n);
      Frontier(dist, vs, q, width, seen + {n}, spent, heap + multiset{h}, best + multiset{h} - multiset{w})
  {
    var h := At(dist, vs, q, n);
    var best' := best + multiset{h} - multiset{w};
    assert forall b :: b in best' ==> b in best || b == h;
    FrontierPush(dist, vs, q, width, seen, spent, heap, best, n, best');
  }

  /** The new node joins the heap; the refused ones stay refused. */
  lemma FrontierPush<V>(dist: Metric<V>, vs: seq<V>, q: V, width: int, seen: set<nat>, spent: set<nat>,
                        heap: multiset<Hit>, best: multiset<Hit>, n: nat, best': multiset<Hit>)
    requires Frontier(dist, vs, q, width, seen, spent, heap, best) && n !in seen
    requires forall i :: i in seen && i !in spent && At(dist, vs, q, i) !in heap ==>
      |seen| > width && forall b :: b in best' ==> b.dist <= D(dist, vs, q, i)
    ensures Frontier(dist, vs, q, width, seen + {n}, spent, heap + multiset{At(dist, vs, q, n)}, best')
  {
    var h := At(dist, vs, q, n);
    assert forall x :: x in heap + multiset{h} <==> x in heap || x == h;
    assert |seen + {n}| == |seen| + 1;
  }

  /** The candidate taken off the heap is next in best-first order, unless the search stops. */
  lemma PopIsNext<V>(dist: Metric<V>, vs: seq<V>, q: V, adj: Adj, layer: int, ep: nat, ef: int,
                     seen: set<nat>, order: seq<nat>, heap: multiset<Hit>, best: multiset<Hit>, c: Hit, worst: Hit)
    requires Searching(dist, vs, q, adj, layer, ep, Width(ef), seen, SetOf(order), heap, best)
    requires Frontier(dist, vs, q, Width(ef), seen, SetOf(order), heap, best)
    requires First(ByDist, heap, c) && First(Furthest, best, worst) && !(|best| >= SizeT(ef) && c.dist > worst.dist)
    ensures NextUp(dist, vs, q, Width(ef), seen, order, c.id)
    ensures Frontier(dist, vs, q, Width(ef), seen, SetOf(order) + {c.id}, heap - multiset{c}, best)
  {
    assert c in heap;
    forall i | i in seen && i !in order
      ensures c.dist <= D(dist, vs, q, i)
    {
      if At(dist, vs, q, i) in heap {
        assert ByDist(c, At(dist, vs, q, i));
      }
    }
    FewNearer(dist, vs, q, adj, layer, ep, ef, seen, SetOf(order), heap, best, c, worst);
    forall i | i in seen && i !in SetOf(order) + {c.id} && At(dist, vs, q, i) in heap
      ensures At(dist, vs, q, i) in heap - multiset{c}
    {
      assert At(dist, vs, q, i) != c;
    }
  }

  lemma FewNearer<V>(dist: Metric<V>, vs: seq<V>, q: V, adj: Adj, layer: int, ep: nat, ef: int,
                     seen: set<nat>, spent: set<nat>, heap: multiset<Hit>, best: multiset<Hit>, c: Hit, worst: Hit)
    requires Searching(dist, vs, q, adj, layer, ep, Width(ef), seen, spent, heap, best)
    requires c in heap && First(Furthest, best, worst) && !(|best| >= SizeT(ef) && c.dist > worst.dist)
    ensures |Nearer(dist, vs, q, seen, c.dist)| < Width(ef)
  {
    var near := Nearer(dist, vs, q, seen, c.dist);
    if |seen| < Width(ef) {
      assert near <= seen - {c.id};
      SubsetSize(near, seen - {c.id});
    } else {
      assert c.dist <= worst.dist;
      forall i | i in near ensures At(dist, vs, q, i) in best - multiset{worst} {
        assert At(dist, vs, q, i).dist < worst.dist;
      }
      NodesOfBag(dist, vs, q, near, best - multiset{worst});
    }
  }

  /** Distinct nodes make distinct hits. */
  lemma {:induction false} NodesOfBag<V>(dist: Metric<V>, vs: seq<V>, q: V, nodes: set<nat>, m: multiset<Hit>)
    requires forall i :: i in nodes ==> At(dist, vs, q, i) in m
    ensures |nodes| <= |m|
    decreases |nodes|
  {
    if nodes != {} {
      var i :| i in nodes;
      var h := At(dist, vs, q, i);
      NodesOfBag(dist, vs, q, nodes - {i}, m - multiset{h});
    }
  }

  /** Expanding `c` makes the order one longer. */
  lemma OrderGrows<V>(dist: Metric<V>, vs: seq<V>, q: V, adj: Adj, layer: int, ep: nat, width: int, order: seq<nat>, c: nat)
    requires BestFirst(dist, vs, q, adj, layer, ep, width, order)
    requires NextUp(dist, vs, q, width, Met(adj, layer, ep, order), order, c)
    ensures BestFirst(dist, vs, q, adj, layer, ep, width, order + [c])
    ensures Met(adj, layer, ep, order + [c]) == Met(adj, layer, ep, order) + SetOf(Nbrs(adj, c, layer))
    ensures SetOf(order + [c]) == SetOf(order) + {c}
  {
    hide NextUp;
    var longer := order + [c];
    assert longer[..|order|] == order;
    forall k | 0 <= k < |longer|
      ensures NextUp(dist, vs, q, width, Met(adj, layer, ep, longer[..k]), longer[..k], longer[k])
    {
      if k < |order| { assert longer[..k] == order[..k]; }
    }
  }

  lemma InOrder(order: seq<nat>)
    ensures forall i :: i in SetOf(order) <==> i in order
  {
  }

  /** The order depends on the links of its layer only. */
  lemma {:induction false} MetOnLayer(adj: Adj, adj': Adj, layer: int, ep: nat, order: seq<nat>)
    requires forall i: nat :: Nbrs(adj, i, layer) == Nbrs(adj', i, layer)
    ensures Met(adj, layer, ep, order) == Met(adj', layer, ep, order)
  {
    if order != [] { MetOnLayer(adj, adj', layer, ep, order[..|order| - 1]); }
  }

  lemma ExploredOnLayer<V>(dist: Metric<V>, vs: seq<V>, q: V, adj: Adj, adj': Adj, layer: int, ep: nat, width: int,
                           order: seq<nat>, out: seq<Hit>, seen: set<nat>)
    requires forall i: nat :: Nbrs(adj, i, layer) == Nbrs(adj', i, layer)
    requires Explored(dist, vs, q, adj, layer, ep, width, order, out, seen)
    ensures Explored(dist, vs, q, adj', layer, ep, width, order, out, seen)
  {
    hide NextUp, Met;
    MetOnLayer(adj, adj', layer, ep, order);
    forall k | 0 <= k < |order|
      ensures NextUp(dist, vs, q, width, Met(adj', layer, ep, order[..k]), order[..k], order[k])
    {
      MetOnLayer(adj, adj', layer, ep, order[..k]);
    }
  }

  // ---- without ties the search has one answer ---------------------------------------------

  /** No two nodes are at the same distance from the query. */
  ghost predicate NoTies<V>(dist: Metric<V>, vs: seq<V>, q: V) {
    forall i: nat, j: nat :: i < j < |vs| ==> D(dist, vs, q, i) != D(dist, vs, q, j)
  }

  lemma {:induction false} SameOrder<V>(dist: Metric<V>, vs: seq<V>, q: V, adj: Adj, layer: int, ep: nat, width: int,
                                        order1: seq<nat>, order2: seq<nat>, k: nat)
    requires BestFirst(dist, vs, q, adj, layer, ep, width, order1) && BestFirst(dist, vs, q, adj, layer, ep, width, order2)
    requires NoTies(dist, vs, q) && k <= |order1| && k <= |order2|
    requires forall i :: i in Met(adj, layer, ep, order1) || i in Met(adj, layer, ep, order2) ==> i < |vs|
    ensures order1[..k] == order2[..k]
  {
    hide Met, Nearer;
    if k > 0 {
      SameOrder(dist, vs, q, adj, layer, ep, width, order1, order2, k - 1);
      var met, done := Met(adj, layer, ep, order1[..k - 1]), order1[..k - 1];
      var c1, c2 := order1[k - 1], order2[k - 1];
      assert NextUp(dist, vs, q, width, met, done, c1);
      assert NextUp(dist, vs, q, width, met, done, c2);
      MetGrows(adj, layer, ep, order1, k - 1);
      assert c1 == c2;
      assert order1[..k] == order1[..k - 1] + [c1] && order2[..k] == order2[..k - 1] + [c2];
    }
  }

  lemma {:induction false} MetGrows(adj: Adj, layer: int, ep: nat, order: seq<nat>, k: nat)
    requires k <= |order|
    ensures Met(adj, layer, ep, order[..k]) <= Met(adj, layer, ep, order)
    decreases |order|
  {
    if k < |order| {
      var n := |order| - 1;
      MetGrows(adj, layer, ep, order[..n], k);
      assert order[..n][..k] == order[..k];
    } else {
      assert order[..k] == order;
    }
  }

  /** A search that has expanded all its results has no node left to expand. */
  lemma NothingNext<V>(dist: Metric<V>, vs: seq<V>, q: V, adj: Adj, layer: int, ep: nat, width: int,
                       order: seq<nat>, out: seq<Hit>, seen: set<nat>, c: nat)
    requires Beam(dist, vs, q, adj, layer, ep, width, out, seen) && NoTies(dist, vs, q)
    requires Explored(dist, vs, q, adj, layer, ep, width, order, out, seen)
    ensures !NextUp(dist, vs, q, width, seen, order, c)
  {
    if c in seen && c !in order {
      var d := D(dist, vs, q, c);
      assert At(dist, vs, q, c) !in out;
      var near := Nearer(dist, vs, q, seen, d);
      forall h | h in out ensures h.id in near { assert h.id != c && h.dist != d; }
      OutSize(out, near);
    }
  }

  /** Hits of distinct nodes. */
  lemma {:induction false} OutSize(out: seq<Hit>, nodes: set<nat>)
    requires DistinctIds(out) && forall h :: h in out ==> h.id in nodes
    ensures |out| <= |nodes|
  {
    if out != [] {
      var n := |out| - 1;
      forall h | h in out[..n] ensures h.id in nodes - {out[n].id} {
        assert h in out;
        var i :| 0 <= i < n && out[i] == h;
      }
      OutSize(out[..n], nodes - {out[n].id});
    }
  }

  /** Without ties, two beam searches from the same node return the same hits, having met the same nodes. */
  lemma BeamUnique<V>(dist: Metric<V>, vs: seq<V>, q: V, adj: Adj, layer: int, ep: nat, width: int,
                      out1: seq<Hit>, seen1: set<nat>, out2: seq<Hit>, seen2: set<nat>)
    requires Beam(dist, vs, q, adj, layer, ep, width, out1, seen1) && Beam(dist, vs, q, adj, layer, ep, width, out2, seen2)
    requires NoTies(dist, vs, q)
    ensures out1 == out2 && seen1 == seen2
  {
    var order1 :| Explored(dist, vs, q, adj, layer, ep, width, order1, out1, seen1);
    var order2 :| Explored(dist, vs, q, adj, layer, ep, width, order2, out2, seen2);
    OneOrder(dist, vs, q, adj, layer, ep, width, order1, order2, out1, seen1, out2, seen2);
    OneAnswer(dist, vs, q, adj, layer, ep, width, out1, out2, seen1);
  }

  lemma OneOrder<V>(dist: Metric<V>, vs: seq<V>, q: V, adj: Adj, layer: int, ep: nat, width: int, order1: seq<nat>, order2: seq<nat>,
                    out1: seq<Hit>, seen1: set<nat>, out2: seq<Hit>, seen2: set<nat>)
    requires Beam(dist, vs, q, adj, layer, ep, width, out1, seen1) && Beam(dist, vs, q, adj, layer, ep, width, out2, seen2)
    requires Explored(dist, vs, q, adj, layer, ep, width, order1, out1, seen1)
    requires Explored(dist, vs, q, adj, layer, ep, width, order2, out2, seen2)
    requires NoTies(dist, vs, q)
    ensures order1 == order2
  {
    hide NextUp, Met, Reach;
    var k := if |order1| < |order2| then |order1| else |order2|;
    SameOrder(dist, vs, q, adj, layer, ep, width, order1, order2, k);
    assert order1[..|order1|] == order1 && order2[..|order2|] == order2;
    if |order1| < |order2| {
      NothingNext(dist, vs, q, adj, layer, ep, width, order1, out1, seen1, order2[k]);
    } else if |order2| < |order1| {
      NothingNext(dist, vs, q, adj, layer, ep, width, order2, out2, seen2, order1[k]);
    }
  }

  lemma OneAnswer<V>(dist: Metric<V>, vs: seq<V>, q: V, adj: Adj, layer: int, ep: nat, width: int,
                     out1: seq<Hit>, out2: seq<Hit>, seen: set<nat>)
    requires Beam(dist, vs, q, adj, layer, ep, width, out1, seen) && Beam(dist, vs, q, adj, layer, ep, width, out2, seen)
    requires NoTies(dist, vs, q)
    ensures out1 == out2
  {
    hide Reach, Explored;
    OneSide(dist, vs, q, adj, layer, ep, width, out1, out2, seen);
    OneSide(dist, vs, q, adj, layer, ep, width, out2, out1, seen);
    forall i, j | 0 <= i < j < |out1| ensures out1[i].dist < out1[j].dist {
      assert out1[i] in out1 && out1[j] in out1 && ByDist(out1[i], out1[j]);
    }
    forall i, j | 0 <= i < j < |out2| ensures out2[i].dist < out2[j].dist {
      assert out2[i] in out2 && out2[j] in out2 && ByDist(out2[i], out2[j]);
    }
    StrictlySortedUnique(out1, out2);
  }

  lemma OneSide<V>(dist: Metric<V>, vs: seq<V>, q: V, adj: Adj, layer: int, ep: nat, width: int,
                   out1: seq<Hit>, out2: seq<Hit>, seen: set<nat>)
    requires Beam(dist, vs, q, adj, layer, ep, width, out1, seen) && Beam(dist, vs, q, adj, layer, ep, width, out2, seen)
    requires NoTies(dist, vs, q)
    ensures forall h :: h in out1 ==> h in out2
  {
    hide Reach, Explored;
    forall h | h in out1 ensures h in out2 {
      if h !in out2 {
        forall x | x in out2 ensures x.dist < h.dist && x in out1 {
          assert x.dist <= h.dist && x.id != h.id;
          assert x in out1 || h.dist <= x.dist;
        }
        Crowded(out1, out2, h);
      }
    }
  }

  /** A list with all the hits of another and one more is longer. */
  lemma Crowded(out1: seq<Hit>, out2: seq<Hit>, h: Hit)
    requires DistinctIds(out2) && (forall x :: x in out2 ==> x in out1 && x.id != h.id) && h in out1
    ensures |out2| < |out1|
  {
    var nodes := set x | x in out1 :: x.id;
    OutSize(out2, nodes - {h.id});
    IdsSize(out1);
    assert h.id in nodes;
  }

  lemma {:induction false} IdsSize(out: seq<Hit>)
    ensures |set x | x in out :: x.id| <= |out|
  {
    if out == [] {
      assert (set x | x in out :: x.id) == {};
    } else {
      IdsSize(out[1..]);
      assert (set x | x in out :: x.id) == (set x | x in out[1..] :: x.id) + {out[0].id};
    }
  }

  lemma {:induction false} StrictlySortedUnique(a: seq<Hit>, b: seq<Hit>)
    requires (forall i, j :: 0 <= i < j < |a| ==> a[i].dist < a[j].dist) && (forall i, j :: 0 <= i < j < |b| ==> b[i].dist < b[j].dist)
    requires forall h :: h in a <==> h in b
    ensures a == b
  {
    assert b == [] || b[0] in b;
    if a != [] {
      assert a[0] in b && b != [];
      assert b[0] in a;
      assert a[0] == b[0];
      forall h ensures h in a[1..] <==> h in b[1..] {
        if h in a[1..] { assert h in b; }
        if h in b[1..] { assert h in a; }
      }
      StrictlySortedUnique(a[1..], b[1..]);
    }
  }
}
