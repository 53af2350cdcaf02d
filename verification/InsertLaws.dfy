/** What searches and inserts find and link, said about distances, links and reachability only. */
module InsertLaws {
  import opened Hits
  import opened Graphs
  import opened HnswSpec
  import opened BeamProofs
  import opened BeamOrders
  import opened GreedyProofs
  import opened HnswTheorems

  // ---- the coarse descent -----------------------------------------------------------------

  /** `to` is reachable from `from` through the layers `hi`, `hi - 1`, ..., `lo`. */
  ghost predicate ReachDown(adj: Adj, hi: int, lo: int, from: nat, to: nat)
    decreases hi - lo
  {
    if hi < lo then to == from else exists mid :: ReachDown(adj, hi, lo + 1, from, mid) && Reach(adj, lo, mid, to)
  }

  /** No neighbour of `m` on the layer is closer to the query. */
  ghost predicate LocalMinimum<V>(dist: Metric<V>, vs: seq<V>, q: V, adj: Adj, layer: int, m: nat) {
    forall j :: j in Nbrs(adj, m, layer) ==> D(dist, vs, q, m) <= D(dist, vs, q, j)
  }

  /** A descent ends at a local minimum it reached layer by layer, no farther than any neighbour of its start on the top layer. */
  lemma {:induction false} DescentFinds<V>(dist: Metric<V>, vs: seq<V>, q: V, adj: Adj, hi: int, lo: int, from: nat, to: nat)
    requires Descent(dist, vs, q, adj, hi, lo, from, to)
    ensures ReachDown(adj, hi, lo, from, to) && (hi >= lo ==> LocalMinimum(dist, vs, q, adj, lo, to))
    ensures hi >= lo ==> forall j :: j in Nbrs(adj, from, hi) ==> D(dist, vs, q, to) <= D(dist, vs, q, j)
    decreases hi - lo
  {
    if hi >= lo {
      var mid :| Descent(dist, vs, q, adj, hi, lo + 1, from, mid) && GreedyEnd(dist, vs, q, adj, lo, mid, to);
      DescentFinds(dist, vs, q, adj, hi, lo + 1, from, mid);
      if hi == lo {
        forall j | j in Nbrs(adj, from, hi) ensures D(dist, vs, q, to) <= D(dist, vs, q, j) {
          GreedyBeatsNeighbours(dist, vs, q, adj, lo, from, to, j);
        }
      }
    }
  }

  lemma {:induction false} DescentUnique<V>(dist: Metric<V>, vs: seq<V>, q: V, adj: Adj, hi: int, lo: int, from: nat, x: nat, y: nat)
    requires Descent(dist, vs, q, adj, hi, lo, from, x) && Descent(dist, vs, q, adj, hi, lo, from, y)
    ensures x == y
    decreases hi - lo
  {
    if hi >= lo {
      var m :| Descent(dist, vs, q, adj, hi, lo + 1, from, m) && GreedyEnd(dist, vs, q, adj, lo, m, x);
      var n :| Descent(dist, vs, q, adj, hi, lo + 1, from, n) && GreedyEnd(dist, vs, q, adj, lo, n, y);
      DescentUnique(dist, vs, q, adj, hi, lo + 1, from, m, n);
      GreedyUnique(dist, vs, q, adj, lo, m, x, y);
    }
  }

  /** The first hit of a search: never farther than a local minimum of layer 1 that the upper layers lead to, nor than any top-layer neighbour of the entry point. */
  lemma SearchDescends<V>(dist: Metric<V>, s: State<V>, q: V, topK: int, ef: int, ep: nat, cands: seq<Hit>, seen: set<nat>, out: seq<Hit>)
    requires SearchStep(dist, s, q, topK, ef, ep, cands, seen, out) && s.maxLayer >= 1 && topK >= 1
    ensures out != []
    ensures forall j :: j in Nbrs(s.adj, s.entryPoint, s.maxLayer) ==> out[0].dist <= D(dist, s.vectors, q, j)
    ensures exists m :: (ReachDown(s.adj, s.maxLayer, 1, s.entryPoint, m) && LocalMinimum(dist, s.vectors, q, s.adj, 1, m)
                         && out[0].dist <= D(dist, s.vectors, q, m))
  {
    hide Beam, ReachDown, Descent, LocalMinimum;
    DescentFinds(dist, s.vectors, q, s.adj, s.maxLayer, 1, s.entryPoint, ep);
    BeamClosure(dist, s.vectors, q, s.adj, 0, ep, Width(if ef < topK then topK else ef), cands, seen);
    assert out[0] == cands[0];
  }

  /** Without ties a search has exactly one answer, so an index that was saved and loaded again answers as before. */
  lemma SearchUnique<V>(dist: Metric<V>, s: State<V>, q: V, topK: int, ef: int, ep: nat, cands: seq<Hit>, seen: set<nat>, out: seq<Hit>,
                        ep': nat, cands': seq<Hit>, seen': set<nat>, out': seq<Hit>)
    requires SearchStep(dist, s, q, topK, ef, ep, cands, seen, out) && SearchStep(dist, s, q, topK, ef, ep', cands', seen', out')
    requires NoTies(dist, s.vectors, q)
    ensures out == out'
  {
    hide Beam, Descent, NoTies;
    if s.maxLayer >= 0 {
      DescentUnique(dist, s.vectors, q, s.adj, s.maxLayer, 1, s.entryPoint, ep, ep');
      BeamUnique(dist, s.vectors, q, s.adj, 0, ep, Width(if ef < topK then topK else ef), cands, seen, cands', seen');
    }
  }

  function Most(x: int, y: int): int { if x < y then y else x }

  /**
   * The beam of a search: it expands nodes best first and only while fewer than max(ef, top_k) of the nodes
   * met are nearer, expands all it keeps, keeps as many as that, and returns the first top_k of them.
   */
  lemma SearchExplores<V>(dist: Metric<V>, s: State<V>, q: V, topK: int, ef: int, ep: nat, cands: seq<Hit>, seen: set<nat>, out: seq<Hit>)
    requires SearchStep(dist, s, q, topK, ef, ep, cands, seen, out) && s.maxLayer >= 0 && topK >= 1
    ensures |cands| == Least(|seen|, Most(ef, topK)) && |out| == Least(|cands|, topK)
    ensures forall k :: 0 <= k < |out| ==> out[k] == cands[k]
    ensures exists order :: Explored(dist, s.vectors, q, s.adj, 0, ep, Most(ef, topK), order, cands, seen)
  {
    hide Explored, Descent;
    assert Width(Most(ef, topK)) == Most(ef, topK);
  }

  /** The same for the search an insert runs on a layer, with the width `ef_construction`. */
  lemma InsertExplores<V>(cfg: Config, dist: Metric<V>, s: State<V>, vec: V, node: nat, runs: seq<LayerSearch>, s': State<V>, l: nat)
    requires Usable(cfg) && GraphOk(cfg, s) && InsertStep(cfg, dist, s, vec, node, runs, s') && Stop(cfg) < l < |runs|
    ensures |runs[l].cands| == Least(|runs[l].seen|, cfg.efConstruction)
    ensures exists order ::
      Explored(dist, s'.vectors, vec, Resized(s.adj, cfg.maxLayers), l, runs[l].ep, cfg.efConstruction, order, runs[l].cands, runs[l].seen)
  {
    hide InsertStep, Explored, Descent, GraphOk;
    SearchOf(cfg, dist, s, vec, node, runs, s', l);
    assert Width(cfg.efConstruction) == cfg.efConstruction;
  }

  // ---- the links of a new node ----------------------------------------------------------------

  /**
   * On every linked layer the new node gets as many links as there is room for among the nodes that
   * layer's search kept: nodes the search met, nearest first, and none it met and left out is nearer.
   */
  lemma NewLinksNearest<V>(cfg: Config, dist: Metric<V>, s: State<V>, vec: V, node: nat, runs: seq<LayerSearch>, s': State<V>, l: nat)
    requires Usable(cfg) && GraphOk(cfg, s) && InsertStep(cfg, dist, s, vec, node, runs, s') && Stop(cfg) < l < |runs|
    ensures var list, seen := Nbrs(s'.adj, |s.vectors|, l), runs[l].seen;
      && |list| == Least(Room(cfg, l), Least(cfg.efConstruction, |seen|))
      && (forall j :: j in list ==> j in seen)
      && (forall a, b :: 0 <= a < b < |list| ==> D(dist, s'.vectors, vec, list[a]) <= D(dist, s'.vectors, vec, list[b]))
      && (forall i, j :: i in seen && i !in list && j in list ==> D(dist, s'.vectors, vec, j) <= D(dist, s'.vectors, vec, i))
  {
    hide InsertStep, GraphOk, Descent, Reach, Linked;
    NewList(cfg, dist, s, vec, node, runs, s', |s.vectors|, l);
    SearchOf(cfg, dist, s, vec, node, runs, s', l);
    FirstOfBeam(dist, s'.vectors, vec, Resized(s.adj, cfg.maxLayers), l, runs[l].ep, Width(cfg.efConstruction), runs[l].cands, runs[l].seen, Cap(cfg, l));
  }

  function Least(x: int, y: int): int { if x < y then x else y }

  lemma FirstOfBeam<V>(dist: Metric<V>, vs: seq<V>, q: V, adj: Adj, layer: int, ep: nat, width: int, cands: seq<Hit>, seen: set<nat>, cap: int)
    requires Beam(dist, vs, q, adj, layer, ep, width, cands, seen) && cap >= 0 && width >= 1
    ensures var list := Selected(cands, cap);
      && |list| == Least(cap, Least(width, |seen|))
      && (forall k :: 0 <= k < |list| ==> list[k] == cands[k].id && cands[k].dist == D(dist, vs, q, list[k]) && list[k] in seen)
      && (forall a, b :: 0 <= a < b < |list| ==> D(dist, vs, q, list[a]) <= D(dist, vs, q, list[b]))
      && (forall i, j :: i in seen && i !in list && j in list ==> D(dist, vs, q, j) <= D(dist, vs, q, i))
  {
    hide Explored, Reach;
    var list := Selected(cands, cap);
    forall k | 0 <= k < |list|
      ensures list[k] == cands[k].id && cands[k].dist == D(dist, vs, q, list[k]) && list[k] in seen
    {
      assert cands[k] in cands;
    }
    forall a, b | 0 <= a < b < |list| ensures D(dist, vs, q, list[a]) <= D(dist, vs, q, list[b]) {
      assert ByDist(cands[a], cands[b]);
    }
    assert forall k :: 0 <= k < |list| ==> cands[k].id == list[k] && list[k] in list;
    forall i, j | i in seen && i !in list && j in list ensures D(dist, vs, q, j) <= D(dist, vs, q, i) {
      var a :| 0 <= a < |list| && list[a] == j;
      assert cands[a] in cands;
      if At(dist, vs, q, i) in cands {
        var b :| 0 <= b < |cands| && cands[b] == At(dist, vs, q, i);
        assert a < b;
        assert ByDist(cands[a], cands[b]);
      }
    }
  }

  /** The links of a new node are closed: an old neighbour of one of them is linked too, or no nearer than any, and the list or the beam was full. */
  lemma NewLinksClosed<V>(cfg: Config, dist: Metric<V>, s: State<V>, vec: V, node: nat, runs: seq<LayerSearch>, s': State<V>, l: nat, r: nat, j: nat)
    requires Usable(cfg) && GraphOk(cfg, s) && InsertStep(cfg, dist, s, vec, node, runs, s') && Stop(cfg) < l < |runs|
    requires r in Nbrs(s'.adj, |s.vectors|, l) && j in Nbrs(s.adj, r, l)
    ensures var list := Nbrs(s'.adj, |s.vectors|, l);
      j in list || (|list| == Least(Room(cfg, l), cfg.efConstruction)
                    && forall h :: h in list ==> D(dist, s'.vectors, vec, h) <= D(dist, s'.vectors, vec, j))
  {
    hide InsertStep, GraphOk, Descent, Reach, Linked;
    ResizedKeeps(cfg, s, vec);
    NewList(cfg, dist, s, vec, node, runs, s', |s.vectors|, l);
    SearchOf(cfg, dist, s, vec, node, runs, s', l);
    NewLinksNearest(cfg, dist, s, vec, node, runs, s', l);
    var cands, seen, base := runs[l].cands, runs[l].seen, Resized(s.adj, cfg.maxLayers);
    FirstOfBeam(dist, s'.vectors, vec, base, l, runs[l].ep, Width(cfg.efConstruction), cands, seen, Cap(cfg, l));
    NeighbourSeen(dist, s'.vectors, vec, base, l, runs[l].ep, Width(cfg.efConstruction), cands, seen, Cap(cfg, l), r, j);
  }

  lemma NeighbourSeen<V>(dist: Metric<V>, vs: seq<V>, q: V, adj: Adj, layer: int, ep: nat, width: int, cands: seq<Hit>, seen: set<nat>, cap: int,
                         r: nat, j: nat)
    requires Beam(dist, vs, q, adj, layer, ep, width, cands, seen) && cap >= 0 && width >= 1
    requires r in Selected(cands, cap) && j in Nbrs(adj, r, layer)
    ensures j in seen && (j !in Selected(cands, cap) ==> |Selected(cands, cap)| == Least(cap, width))
  {
    hide Explored, Reach;
    var list := Selected(cands, cap);
    var k :| 0 <= k < |list| && list[k] == r;
    assert cands[k] in cands;
    assert forall i :: 0 <= i < |list| ==> cands[i].id == list[i] && list[i] in list;
    if At(dist, vs, q, j) in cands {
      var m :| 0 <= m < |cands| && cands[m] == At(dist, vs, q, j);
    }
  }

  /**
   * The descent of an insert: where the new node's top linked layer is below the index's top layer, its
   * first link there is no farther than a local minimum of the layer above, which the upper layers lead to.
   */
  lemma InsertDescends<V>(cfg: Config, dist: Metric<V>, s: State<V>, vec: V, node: nat, runs: seq<LayerSearch>, s': State<V>)
    requires Usable(cfg) && GraphOk(cfg, s) && InsertStep(cfg, dist, s, vec, node, runs, s')
    requires node < s.maxLayer && Stop(cfg) < node && Cap(cfg, node) >= 1
    ensures var list := Nbrs(s'.adj, |s.vectors|, node);
      && list != []
      && (forall j :: j in Nbrs(s.adj, s.entryPoint, s.maxLayer) ==> D(dist, s'.vectors, vec, list[0]) <= D(dist, s'.vectors, vec, j))
      && exists m :: (ReachDown(s.adj, s.maxLayer, node + 1, s.entryPoint, m) && LocalMinimum(dist, s'.vectors, vec, s.adj, node + 1, m)
                      && D(dist, s'.vectors, vec, list[0]) <= D(dist, s'.vectors, vec, m))
  {
    hide InsertStep, GraphOk, Descent, Reach, Linked, Beam, ReachDown, LocalMinimum;
    var base := Resized(s.adj, cfg.maxLayers);
    ResizedKeeps(cfg, s, vec);
    TopRun(cfg, dist, s, vec, node, runs, s');
    var ep := runs[node].ep;
    SearchOf(cfg, dist, s, vec, node, runs, s', node);
    DescentFinds(dist, s'.vectors, vec, base, s.maxLayer, node + 1, s.entryPoint, ep);
    ReachDownOn(base, s.adj, s.maxLayer, node + 1, s.entryPoint, ep);
    MinimumOn(dist, s'.vectors, vec, base, s.adj, node + 1, ep);
    FirstLink(cfg, dist, s, vec, node, runs, s', node);
  }

  lemma TopRun<V>(cfg: Config, dist: Metric<V>, s: State<V>, vec: V, node: nat, runs: seq<LayerSearch>, s': State<V>)
    requires InsertStep(cfg, dist, s, vec, node, runs, s') && node < s.maxLayer
    ensures |runs| == node + 1
  {
  }

  lemma {:induction false} ReachDownOn(adj: Adj, adj': Adj, hi: int, lo: int, from: nat, to: nat)
    requires (forall i: nat, l: int :: Nbrs(adj, i, l) == Nbrs(adj', i, l)) && ReachDown(adj, hi, lo, from, to)
    ensures ReachDown(adj', hi, lo, from, to)
    decreases hi - lo
  {
    if hi >= lo {
      var mid :| ReachDown(adj, hi, lo + 1, from, mid) && Reach(adj, lo, mid, to);
      ReachDownOn(adj, adj', hi, lo + 1, from, mid);
      ReachMonotone(adj, adj', lo, mid, to);
    }
  }

  lemma MinimumOn<V>(dist: Metric<V>, vs: seq<V>, q: V, adj: Adj, adj': Adj, layer: int, m: nat)
    requires (forall i: nat, l: int :: Nbrs(adj, i, l) == Nbrs(adj', i, l)) && LocalMinimum(dist, vs, q, adj, layer, m)
    ensures LocalMinimum(dist, vs, q, adj', layer, m)
  {
  }

  /** The first link on a layer is the closest node the layer's search met, so no farther than where that search started. */
  lemma FirstLink<V>(cfg: Config, dist: Metric<V>, s: State<V>, vec: V, node: nat, runs: seq<LayerSearch>, s': State<V>, l: nat)
    requires Usable(cfg) && GraphOk(cfg, s) && InsertStep(cfg, dist, s, vec, node, runs, s') && Stop(cfg) < l < |runs| && Cap(cfg, l) >= 1
    ensures var list := Nbrs(s'.adj, |s.vectors|, l);
      && list != [] && runs[l].cands != [] && list[0] == runs[l].cands[0].id
      && D(dist, s'.vectors, vec, list[0]) <= D(dist, s'.vectors, vec, runs[l].ep)
  {
    hide InsertStep, GraphOk, Descent, Reach, Linked, Beam;
    NewList(cfg, dist, s, vec, node, runs, s', |s.vectors|, l);
    SearchOf(cfg, dist, s, vec, node, runs, s', l);
    var base, width := Resized(s.adj, cfg.maxLayers), Width(cfg.efConstruction);
    BeamClosure(dist, s'.vectors, vec, base, l, runs[l].ep, width, runs[l].cands, runs[l].seen);
    FirstOfBeam(dist, s'.vectors, vec, base, l, runs[l].ep, width, runs[l].cands, runs[l].seen, Cap(cfg, l));
    assert runs[l].cands[0] in runs[l].cands;
  }

  /** Each layer's search starts at the closest node found above it: going down, the first link never gets farther. */
  lemma FirstLinksDescend<V>(cfg: Config, dist: Metric<V>, s: State<V>, vec: V, node: nat, runs: seq<LayerSearch>, s': State<V>, l: nat)
    requires Usable(cfg) && GraphOk(cfg, s) && InsertStep(cfg, dist, s, vec, node, runs, s')
    requires Stop(cfg) < l && l + 1 < |runs| && Cap(cfg, l) >= 1
    ensures var below, above := Nbrs(s'.adj, |s.vectors|, l), Nbrs(s'.adj, |s.vectors|, l + 1);
      below != [] && above != [] && D(dist, s'.vectors, vec, below[0]) <= D(dist, s'.vectors, vec, above[0])
  {
    hide InsertStep, GraphOk, Beam, Descent;
    FirstLink(cfg, dist, s, vec, node, runs, s', l);
    FirstLink(cfg, dist, s, vec, node, runs, s', l + 1);
    SearchOf(cfg, dist, s, vec, node, runs, s', l);
  }

  /** Node `a` is strictly nearer to node `i` than `b`, or as near with a smaller id. */
  predicate Nearer2<V>(dist: Metric<V>, vs: seq<V>, i: nat, a: nat, b: nat)
    requires i < |vs| && a < |vs| && b < |vs|
  {
    dist(vs[i], vs[a]) < dist(vs[i], vs[b]) || (dist(vs[i], vs[a]) == dist(vs[i], vs[b]) && a < b)
  }

  /** `after` holds all of `nodes` but some, nearest to `i` first, the smaller id first among equals, and each kept before any left out. */
  ghost predicate NearestKept<V>(dist: Metric<V>, vs: seq<V>, i: nat, nodes: seq<nat>, after: seq<nat>) {
    && i < |vs| && (forall x :: x in nodes ==> x < |vs|) && (forall k :: 0 <= k < |after| ==> after[k] in nodes)
    && (forall a, b :: 0 <= a < b < |after| ==> Nearer2(dist, vs, i, after[a], after[b]))
    && (forall x, k :: x in nodes && x !in after && 0 <= k < |after| ==> Nearer2(dist, vs, i, after[k], x))
  }

  /**
   * Every old list after an insert: it gains the new node exactly if the new node links to it, at its
   * end while there is room; a list that would overflow keeps its nearest entries.
   */
  lemma BackLinks<V>(cfg: Config, dist: Metric<V>, s: State<V>, vec: V, node: nat, runs: seq<LayerSearch>, s': State<V>, i: nat, l: int)
    requires Usable(cfg) && GraphOk(cfg, s) && InsertStep(cfg, dist, s, vec, node, runs, s') && i < |s.vectors|
    ensures var before, after, n := Nbrs(s.adj, i, l), Nbrs(s'.adj, i, l), |s.vectors|;
      if i !in Nbrs(s'.adj, n, l) then after == before
      else if |before| < Room(cfg, l) then after == before + [n]
      else |after| == |before| && NearestKept(dist, s'.vectors, i, before + [n], after)
  {
    hide InsertStep, GraphOk, Descent, Selected, Beam, Linked, NearestKept;
    var n := |s.vectors|;
    NewList(cfg, dist, s, vec, node, runs, s', i, l);
    NewList(cfg, dist, s, vec, node, runs, s', n, l);
    InsertAppends(cfg, dist, s, vec, node, runs, s');
    ListInRange(cfg, s, i, l);
    if Stop(cfg) < l < |runs| && i in Nbrs(s'.adj, n, l) {
      PrunedKeeps(dist, s'.vectors, i, Nbrs(s.adj, i, l), n, Cap(cfg, l), Nbrs(s'.adj, i, l));
    } else {
      NoNewLinks(cfg, s, n, l);
    }
  }

  lemma NoNewLinks<V>(cfg: Config, s: State<V>, n: nat, l: int)
    requires GraphOk(cfg, s) && n == |s.vectors|
    ensures Nbrs(s.adj, n, l) == []
  {
  }

  lemma PrunedKeeps<V>(dist: Metric<V>, vs: seq<V>, i: nat, before: seq<nat>, n: nat, cap: int, after: seq<nat>)
    requires Pruned(dist, vs, i, before + [n], cap, after) && |before| <= cap
    requires i < |vs| && n < |vs| && forall x :: x in before ==> x < |vs|
    ensures if |before| < cap then after == before + [n] else |after| == |before| && NearestKept(dist, vs, i, before + [n], after)
  {
    var nodes := before + [n];
    if |before| == cap {
      assert forall x :: x in nodes <==> x in before || x == n;
      assert forall k :: 0 <= k < |after| ==> after[k] in after;
    }
  }

  /** Over any run, the entry point is the first node of the highest level. */
  lemma EntryIsFirstTop<V>(cfg: Config, dist: Metric<V>, states: seq<State<V>>, ins: seq<Insertion<V>>, k: nat)
    requires Usable(cfg) && Run(cfg, dist, states, ins) && 0 < k <= |ins|
    ensures |states[k].level| == k && states[k].entryPoint < k
    ensures var s := states[k]; forall i :: 0 <= i < k ==> s.level[i] <= s.level[s.entryPoint]
    ensures var s := states[k]; forall i :: 0 <= i < s.entryPoint ==> s.level[i] < s.level[s.entryPoint]
  {
    hide InsertStep;
    RunKeeps(cfg, dist, states, ins, k);
  }

  // ---- without ties an insert has one outcome ---------------------------------------------------

  /** Pruning leaves one list: ties are broken by id. */
  lemma PrunedUnique<V>(dist: Metric<V>, vs: seq<V>, node: nat, list: seq<nat>, cap: int, a: seq<nat>, b: seq<nat>)
    requires Pruned(dist, vs, node, list, cap, a) && Pruned(dist, vs, node, list, cap, b)
    ensures a == b
  {
    hide LinkTo;
    if |list| > cap {
      SameNodes(dist, vs, node, list, cap, a, b);
      SameNodes(dist, vs, node, list, cap, b, a);
      SortedLists(dist, vs, node, a, b);
    }
  }

  lemma Dropped(before: seq<nat>, after: seq<nat>, y: nat) returns (x: nat)
    requires Distinct(before) && |after| == |before| && y in after && y !in before
    ensures x in before && x !in after
  {
    SomeDropped(before, after, y);
    x :| x in before && x !in after;
  }

  lemma SameNodes<V>(dist: Metric<V>, vs: seq<V>, node: nat, list: seq<nat>, cap: int, a: seq<nat>, b: seq<nat>)
    requires |list| > cap && Pruned(dist, vs, node, list, cap, a) && Pruned(dist, vs, node, list, cap, b)
    ensures forall x :: x in a ==> x in b
  {
    hide LinkTo;
    forall x | x in a ensures x in b {
      assert x in list && forall y :: y in b ==> y in list;
      if x !in b {
        var y := Dropped(b, a, x);
      }
    }
  }

  lemma {:induction false} SortedLists<V>(dist: Metric<V>, vs: seq<V>, node: nat, a: seq<nat>, b: seq<nat>)
    requires Distinct(a) && Distinct(b) && forall x :: x in a <==> x in b
    requires forall i, j :: 0 <= i < j < |a| ==> ByDistThenId(LinkTo(dist, vs, node, a[i]), LinkTo(dist, vs, node, a[j]))
    requires forall i, j :: 0 <= i < j < |b| ==> ByDistThenId(LinkTo(dist, vs, node, b[i]), LinkTo(dist, vs, node, b[j]))
    ensures a == b
  {
    hide LinkTo;
    assert b == [] || b[0] in b;
    if a != [] {
      assert a[0] in b && b != [];
      assert b[0] in a;
      assert a[0] == b[0];
      forall x ensures x in a[1..] <==> x in b[1..] {
        if x in a[1..] { assert x in b; }
        if x in b[1..] { assert x in a; }
      }
      SortedLists(dist, vs, node, a[1..], b[1..]);
    }
  }

  /** The searches of the layers are the same, from the top one down. */
  lemma {:induction false} SameRuns<V>(cfg: Config, dist: Metric<V>, s: State<V>, vec: V, node: nat, runs: seq<LayerSearch>, s': State<V>,
                                       runs2: seq<LayerSearch>, s2: State<V>, l: nat)
    requires InsertStep(cfg, dist, s, vec, node, runs, s') && InsertStep(cfg, dist, s, vec, node, runs2, s2) && s2.vectors == s'.vectors
    requires NoTies(dist, s'.vectors, vec) && Stop(cfg) < l < |runs| == |runs2|
    ensures runs[l] == runs2[l]
    decreases |runs| - l
  {
    hide InsertStep, Beam, Descent, NoTies;
    SearchOf(cfg, dist, s, vec, node, runs, s', l);
    SearchOf(cfg, dist, s, vec, node, runs2, s2, l);
    var base := Resized(s.adj, cfg.maxLayers);
    if l == |runs| - 1 {
      DescentUnique(dist, s'.vectors, vec, base, s.maxLayer, node + 1, s.entryPoint, runs[l].ep, runs2[l].ep);
    } else {
      SameRuns(cfg, dist, s, vec, node, runs, s', runs2, s2, l + 1);
    }
    BeamUnique(dist, s'.vectors, vec, base, l, runs[l].ep, Width(cfg.efConstruction), runs[l].cands, runs[l].seen, runs2[l].cands, runs2[l].seen);
  }

  /** Given its sampled layer, an insert whose vector is at a different distance from every node has exactly one outcome. */
  lemma InsertUnique<V>(cfg: Config, dist: Metric<V>, s: State<V>, vec: V, node: nat, runs: seq<LayerSearch>, s': State<V>,
                        runs2: seq<LayerSearch>, s2: State<V>)
    requires Usable(cfg) && GraphOk(cfg, s)
    requires InsertStep(cfg, dist, s, vec, node, runs, s') && InsertStep(cfg, dist, s, vec, node, runs2, s2)
    requires NoTies(dist, s'.vectors, vec)
    ensures s' == s2
  {
    SameShapes(cfg, dist, s, vec, node, runs, s', runs2, s2);
    hide InsertStep, NoTies, GraphOk;
    forall i: nat, l: int ensures Nbrs(s'.adj, i, l) == Nbrs(s2.adj, i, l) {
      SameList(cfg, dist, s, vec, node, runs, s', runs2, s2, i, l);
    }
    SameLists(s'.adj, s2.adj);
  }

  lemma SameList<V>(cfg: Config, dist: Metric<V>, s: State<V>, vec: V, node: nat, runs: seq<LayerSearch>, s': State<V>,
                    runs2: seq<LayerSearch>, s2: State<V>, i: nat, l: int)
    requires Usable(cfg) && GraphOk(cfg, s) && s'.vectors == s2.vectors && |runs| == |runs2|
    requires InsertStep(cfg, dist, s, vec, node, runs, s') && InsertStep(cfg, dist, s, vec, node, runs2, s2)
    requires NoTies(dist, s'.vectors, vec)
    ensures Nbrs(s'.adj, i, l) == Nbrs(s2.adj, i, l)
  {
    hide InsertStep, Selected, NoTies, GraphOk, Pruned;
    NewList(cfg, dist, s, vec, node, runs, s', i, l);
    NewList(cfg, dist, s, vec, node, runs2, s2, i, l);
    if Stop(cfg) < l < |runs| {
      SameRuns(cfg, dist, s, vec, node, runs, s', runs2, s2, l);
      if i != |s.vectors| && i in Selected(runs[l].cands, Cap(cfg, l)) {
        PrunedUnique(dist, s'.vectors, i, Nbrs(s.adj, i, l) + [|s.vectors|], Cap(cfg, l), Nbrs(s'.adj, i, l), Nbrs(s2.adj, i, l));
      }
    }
  }

  lemma SameShapes<V>(cfg: Config, dist: Metric<V>, s: State<V>, vec: V, node: nat, runs: seq<LayerSearch>, s': State<V>,
                      runs2: seq<LayerSearch>, s2: State<V>)
    requires InsertStep(cfg, dist, s, vec, node, runs, s') && InsertStep(cfg, dist, s, vec, node, runs2, s2)
    ensures |runs| == |runs2| && SameShape(s'.adj, s2.adj)
    ensures s'.vectors == s2.vectors && s'.entryPoint == s2.entryPoint && s'.maxLayer == s2.maxLayer && s'.level == s2.level
  {
    hide Beam, Linked, Descent;
  }

  lemma SameLists(a: Adj, b: Adj)
    requires SameShape(a, b) && forall i: nat, l: int :: Nbrs(a, i, l) == Nbrs(b, i, l)
    ensures a == b
  {
    forall i | 0 <= i < |a| ensures a[i] == b[i] {
      forall l | 0 <= l < |a[i]| ensures a[i][l] == b[i][l] {
        assert Nbrs(a, i, l) == a[i][l] && Nbrs(b, i, l) == b[i][l];
      }
    }
  }

  // ---- what exactness means ---------------------------------------------------------------------

  /** An exact answer, in plain terms: the right distances, nearest first, and no other vector nearer than a returned one. */
  lemma ExactMeans<V>(dist: Metric<V>, vs: seq<V>, q: V, topK: nat, out: seq<Hit>)
    requires TopK(dist, vs, q, Below(|vs|), topK, out)
    ensures |out| == Least(|vs|, topK)
    ensures forall i :: 0 <= i < |out| ==> out[i].id < |vs| && out[i].dist == dist(vs[out[i].id], q)
    ensures forall i, j :: 0 <= i < j < |out| ==> out[i].dist <= out[j].dist && out[i].id != out[j].id
    ensures forall n: nat, i :: n < |vs| && 0 <= i < |out| && (forall k :: 0 <= k < |out| ==> out[k].id != n) ==> out[i].dist <= dist(vs[n], q)
  {
    forall i | 0 <= i < |out| ensures out[i].id < |vs| && out[i].dist == dist(vs[out[i].id], q) {
      assert out[i] in out;
    }
    forall i, j | 0 <= i < j < |out| ensures out[i].dist <= out[j].dist { assert ByDist(out[i], out[j]); }
    forall n: nat, i | n < |vs| && 0 <= i < |out| && (forall k :: 0 <= k < |out| ==> out[k].id != n)
      ensures out[i].dist <= dist(vs[n], q)
    {
      assert n in Below(|vs|) && out[i] in out && At(dist, vs, q, n) !in out;
    }
  }
}
