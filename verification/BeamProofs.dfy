/** What one step of the beam search keeps. */
module BeamProofs {
  import opened Sorting
  import opened Hits
  import opened Graphs
  import opened HnswSpec

  /** There is room: the new node joins both heaps. */
  lemma PushKeeps<V>(dist: Metric<V>, vs: seq<V>, q: V, adj: Adj, layer: int, ep: nat, width: int,
                     seen: set<nat>, spent: set<nat>, heap: multiset<Hit>, best: multiset<Hit>, n: nat)
    requires Searching(dist, vs, q, adj, layer, ep, width, seen, spent, heap, best)
    requires n !in seen && n < |vs| && Reach(adj, layer, ep, n) && |best| < width
    ensures var h := At(dist, vs, q, n);
      Searching(dist, vs, q, adj, layer, ep, width, seen + {n}, spent, heap + multiset{h}, best + multiset{h})
  {
    var h := At(dist, vs, q, n);
    assert h !in best;
    assert forall x :: x in best + multiset{h} <==> x in best || x == h;
  }

  /** The beam is full and the new node does not beat its worst result: only `seen` changes. */
  lemma RefuseKeeps<V>(dist: Metric<V>, vs: seq<V>, q: V, adj: Adj, layer: int, ep: nat, width: int,
                       seen: set<nat>, spent: set<nat>, heap: multiset<Hit>, best: multiset<Hit>, n: nat)
    requires Searching(dist, vs, q, adj, layer, ep, width, seen, spent, heap, best)
    requires n !in seen && n < |vs| && Reach(adj, layer, ep, n) && |best| == width
    requires forall b :: b in best ==> b.dist <= D(dist, vs, q, n)
    ensures Searching(dist, vs, q, adj, layer, ep, width, seen + {n}, spent, heap, best)
  {
  }

  /** The beam is full and the new node replaces a worst result. */
  lemma SwapKeeps<V>(dist: Metric<V>, vs: seq<V>, q: V, adj: Adj, layer: int, ep: nat, width: int,
                     seen: set<nat>, spent: set<nat>, heap: multiset<Hit>, best: multiset<Hit>, n: nat, w: Hit)
    requires Searching(dist, vs, q, adj, layer, ep, width, seen, spent, heap, best)
    requires n !in seen && n < |vs| && Reach(adj, layer, ep, n) && |best| == width
    requires First(Furthest, best + multiset{At(dist, vs, q, n)}, w)
    requires w != At(dist, vs, q, n)
    ensures var h := At(dist, vs, q, n);
      Searching(dist, vs, q, adj, layer, ep, width, seen + {n}, spent, heap + multiset{h}, best + multiset{h} - multiset{w})
  {
    var h := At(dist, vs, q, n);
    var best' := best + multiset{h} - multiset{w};
    Swapped(best, h, w);
    forall i | i in seen + {n}
      ensures At(dist, vs, q, i) in best' || forall x :: x in best' ==> x.dist <= D(dist, vs, q, i)
    {
      if i in seen && At(dist, vs, q, i) !in best {
        assert w.dist <= D(dist, vs, q, i);
      }
    }
  }

  lemma Swapped(best: multiset<Hit>, h: Hit, w: Hit)
    requires h !in best && w in best && forall x :: best[x] <= 1
    ensures var best' := best + multiset{h} - multiset{w};
      && |best'| == |best| && (forall x :: best'[x] <= 1)
      && forall x :: x in best' <==> (x in best || x == h) && x != w
  {
    var best' := best + multiset{h} - multiset{w};
    assert forall x :: x in best' <==> (x in best || x == h) && x != w;
  }

  lemma OfferKeeps<V>(dist: Metric<V>, vs: seq<V>, q: V, adj: Adj, layer: int, ep: nat, ef: int,
                      seen: set<nat>, spent: set<nat>, heap: multiset<Hit>, best: multiset<Hit>,
                      n: nat, heap': multiset<Hit>, best': multiset<Hit>)
    requires Searching(dist, vs, q, adj, layer, ep, Width(ef), seen, spent, heap, best)
    requires n !in seen && n < |vs| && Reach(adj, layer, ep, n)
    requires Offered(At(dist, vs, q, n), ef, heap, best, heap', best')
    ensures Searching(dist, vs, q, adj, layer, ep, Width(ef), seen + {n}, spent, heap', best')
  {
    var h := At(dist, vs, q, n);
    if |best| < SizeT(ef) {
      PushKeeps(dist, vs, q, adj, layer, ep, Width(ef), seen, spent, heap, best, n);
    } else if forall b :: b in best ==> b.dist <= h.dist {
      RefuseKeeps(dist, vs, q, adj, layer, ep, Width(ef), seen, spent, heap, best, n);
    } else {
      var b :| b in best && h.dist < b.dist;
      var w :| First(Furthest, best + multiset{h}, w) && best' == best + multiset{h} - multiset{w};
      assert b in best + multiset{h};
      SwapKeeps(dist, vs, q, adj, layer, ep, Width(ef), seen, spent, heap, best, n, w);
    }
  }

  /** The search starts with the start node on both heaps. */
  lemma Begin<V>(dist: Metric<V>, vs: seq<V>, q: V, adj: Adj, layer: int, ep: nat, width: int)
    requires ep < |vs| && width >= 1
    ensures var start := multiset{At(dist, vs, q, ep)};
      Searching(dist, vs, q, adj, layer, ep, width, {ep}, {}, start, start)
  {
    ReachSelf(adj, layer, ep);
  }

  /** What the loop needs to know of its state. */
  lemma Peek<V>(dist: Metric<V>, vs: seq<V>, q: V, adj: Adj, layer: int, ep: nat, width: int,
                seen: set<nat>, spent: set<nat>, heap: multiset<Hit>, best: multiset<Hit>)
    requires Searching(dist, vs, q, adj, layer, ep, width, seen, spent, heap, best) && width >= 1
    ensures best != multiset{} && |seen| <= |vs|
    ensures forall h :: h in heap ==> Reach(adj, layer, ep, h.id)
  {
    assert |seen| >= 1;
    SizeAtMost(seen, |vs|);
  }

  /** The first candidate is taken off the heap to be expanded. */
  lemma PopKeeps<V>(dist: Metric<V>, vs: seq<V>, q: V, adj: Adj, layer: int, ep: nat, width: int,
                    seen: set<nat>, spent: set<nat>, heap: multiset<Hit>, best: multiset<Hit>, c: Hit)
    requires Searching(dist, vs, q, adj, layer, ep, width, seen, spent, heap, best) && c in heap
    ensures Searching(dist, vs, q, adj, layer, ep, width, seen, spent + {c.id}, heap - multiset{c}, best)
  {
    assert forall h :: h in heap ==> h == c || h in heap - multiset{c};
  }

  /** When the closest candidate is further than every result, every result has been expanded. */
  lemma EarlyStop<V>(dist: Metric<V>, vs: seq<V>, q: V, adj: Adj, layer: int, ep: nat, width: int,
                     seen: set<nat>, spent: set<nat>, heap: multiset<Hit>, best: multiset<Hit>, c: Hit, worst: Hit)
    requires Searching(dist, vs, q, adj, layer, ep, width, seen, spent, heap, best)
    requires First(ByDist, heap, c) && First(Furthest, best, worst) && c.dist > worst.dist
    ensures forall h :: h in best ==> h.id in spent
    ensures Searching(dist, vs, q, adj, layer, ep, width, seen, spent, heap - multiset{c}, best)
  {
    forall h | h in best
      ensures h.id in spent
    {
      assert Furthest(worst, h);
      assert h in heap ==> ByDist(c, h);
    }
  }

  /** Once every result has been expanded, listing the results in order gives the answer. */
  lemma Finish<V>(dist: Metric<V>, vs: seq<V>, q: V, adj: Adj, layer: int, ep: nat, width: int,
                  seen: set<nat>, order: seq<nat>, heap: multiset<Hit>, best: multiset<Hit>, out: seq<Hit>)
    requires Searching(dist, vs, q, adj, layer, ep, width, seen, SetOf(order), heap, best)
    requires seen == Met(adj, layer, ep, order) && BestFirst(dist, vs, q, adj, layer, ep, width, order)
    requires heap == multiset{} || forall h :: h in best ==> h.id in order
    requires multiset(out) == best && SortedBy(ByDist, out)
    ensures Beam(dist, vs, q, adj, layer, ep, width, out, seen)
  {
    hide Reach, Met, BestFirst;
    ListedOnce(out, best);
    forall i, j | 0 <= i < j < |out|
      ensures out[i].id != out[j].id
    {
      assert out[i] in out && out[j] in out;
    }
    forall h, j | h in out && j in Nbrs(adj, h.id, layer)
      ensures j in seen
    {
      MetContains(adj, layer, ep, order, h.id);
    }
    assert Explored(dist, vs, q, adj, layer, ep, width, order, out, seen);
  }

  /** The neighbours of an expanded node have been met. */
  lemma {:induction false} MetContains(adj: Adj, layer: int, ep: nat, order: seq<nat>, i: nat)
    requires i in order
    ensures forall j :: j in Nbrs(adj, i, layer) ==> j in Met(adj, layer, ep, order)
  {
    var n := |order| - 1;
    if i != order[n] { MetContains(adj, layer, ep, order[..n], i); }
  }

  /** Everything a beam search met is reachable, and everything it returned it met. */
  lemma BeamReaches<V>(dist: Metric<V>, vs: seq<V>, q: V, adj: Adj, layer: int, ep: nat, width: int, out: seq<Hit>, seen: set<nat>)
    requires Beam(dist, vs, q, adj, layer, ep, width, out, seen)
    ensures ep in seen && (forall i :: i in seen ==> i < |vs| && Reach(adj, layer, ep, i))
    ensures forall h :: h in out ==> h.id in seen && h == At(dist, vs, q, h.id)
  {
  }

  /** Beam closure, said without the nodes it looked at. */
  lemma BeamClosure<V>(dist: Metric<V>, vs: seq<V>, q: V, adj: Adj, layer: int, ep: nat, width: int, out: seq<Hit>, seen: set<nat>)
    requires Beam(dist, vs, q, adj, layer, ep, width, out, seen) && width >= 1
    ensures BeamResult(dist, vs, q, adj, layer, ep, width, out)
  {
    hide Reach, Explored;
    assert ep in seen;
    assert |out| > 0 && out[0] in out;
    if At(dist, vs, q, ep) in out {
      var k :| 0 <= k < |out| && out[k] == At(dist, vs, q, ep);
      assert k > 0 ==> ByDist(out[0], out[k]);
    }
    forall r, j, h | r in out && j in Nbrs(adj, r.id, layer) && h in out
      ensures At(dist, vs, q, j) in out || (|out| == width && h.dist <= D(dist, vs, q, j))
    {
      assert j in seen;
    }
  }

  lemma NotPruned<V>(dist: Metric<V>, vs: seq<V>, node: nat, list: seq<nat>, cap: int)
    requires |list| <= cap
    ensures Pruned(dist, vs, node, list, cap, list)
  {
  }

  /** Sorting the links of a list without repetitions lists each of its nodes once. */
  lemma SortedLinks<V>(dist: Metric<V>, vs: seq<V>, node: nat, list: seq<nat>, pairs: seq<Hit>, sorted: seq<Hit>)
    requires Distinct(list) && multiset(sorted) == multiset(pairs)
    requires |pairs| == |list| && forall k :: 0 <= k < |list| ==> pairs[k] == LinkTo(dist, vs, node, list[k])
    ensures forall i, j :: 0 <= i < j < |sorted| ==> sorted[i] != sorted[j]
    ensures forall k :: 0 <= k < |sorted| ==> sorted[k].id in list && sorted[k] == LinkTo(dist, vs, node, sorted[k].id)
    ensures forall x :: x in list ==> exists k :: 0 <= k < |sorted| && sorted[k] == LinkTo(dist, vs, node, x)
  {
    hide LinkTo;
    forall h ensures multiset(pairs)[h] <= 1 { DistinctCount(pairs, h); }
    ListedOnce(sorted, multiset(pairs));
    forall k | 0 <= k < |sorted| ensures sorted[k].id in list && sorted[k] == LinkTo(dist, vs, node, sorted[k].id) {
      assert sorted[k] in sorted;
      assert sorted[k] in multiset(pairs);
      assert sorted[k] in pairs;
    }
    forall x | x in list
      ensures exists k :: 0 <= k < |sorted| && sorted[k] == LinkTo(dist, vs, node, x)
    {
      var i :| 0 <= i < |list| && list[i] == x;
      assert pairs[i] in multiset(pairs);
      assert pairs[i] in sorted;
    }
  }

  /** Keeping the first `cap` of them prunes the list. */
  lemma PrunedIsPruned<V>(dist: Metric<V>, vs: seq<V>, node: nat, list: seq<nat>, pairs: seq<Hit>, sorted: seq<Hit>,
                          cap: int, out: seq<nat>)
    requires Distinct(list) && 0 <= cap < |list|
    requires |pairs| == |list| && forall k :: 0 <= k < |list| ==> pairs[k] == LinkTo(dist, vs, node, list[k])
    requires multiset(sorted) == multiset(pairs) && SortedBy(ByDistThenId, sorted)
    requires |out| == cap && |sorted| == |list| && forall k :: 0 <= k < cap ==> out[k] == sorted[k].id
    ensures Pruned(dist, vs, node, list, cap, out)
  {
    hide LinkTo, ByDistThenId;
    SortedLinks(dist, vs, node, list, pairs, sorted);
    assert forall m :: 0 <= m < cap ==> out[m] in out && sorted[m].id in out;
    forall x, y | x in list && x !in out && y in out
      ensures ByDistThenId(LinkTo(dist, vs, node, y), LinkTo(dist, vs, node, x))
    {
      var j :| 0 <= j < cap && out[j] == y;
      var k :| 0 <= k < |sorted| && sorted[k] == LinkTo(dist, vs, node, x);
      assert sorted[k].id == x;
      assert sorted[j] == LinkTo(dist, vs, node, y);
    }
  }

  lemma {:induction false} DistinctCount(s: seq<Hit>, h: Hit)
    requires forall i, j :: 0 <= i < j < |s| ==> s[i] != s[j]
    ensures multiset(s)[h] <= 1
  {
    if s != [] {
      DistinctCount(s[1..], h);
      assert s == [s[0]] + s[1..];
    }
  }
}
