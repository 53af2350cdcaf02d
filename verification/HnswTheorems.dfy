/** What the index promises: properties of the searches and of every insert. */
module HnswTheorems {
  import opened Hits
  import opened Graphs
  import opened HnswSpec
  import opened BeamOrders
  import opened BeamProofs

  // ---- the graph with room for one more node ---------------------------------

  /** Before it is linked, the new node has no links and nothing links to it. */
  lemma ResizedKeeps<V>(cfg: Config, s: State<V>, vec: V)
    requires Usable(cfg) && GraphOk(cfg, s)
    ensures var base := Resized(s.adj, cfg.maxLayers);
      && |s.adj| == |s.vectors| == |base| - 1 && InRange(base, |s.vectors|)
      && |s.level| == |s.vectors| && (s.maxLayer >= 0 ==> s.entryPoint < |s.vectors| && s.level[s.entryPoint] == s.maxLayer)
      && (forall i :: 0 <= i < |base| ==> |base[i]| == cfg.maxLayers)
      && (forall i: nat, l: int :: Nbrs(base, i, l) == Nbrs(s.adj, i, l))
      && (forall i: nat, l: int :: Distinct(Nbrs(base, i, l)) && |s.vectors| !in Nbrs(base, i, l))
  {
    var base := Resized(s.adj, cfg.maxLayers);
    assert forall i: nat, l: int :: Nbrs(base, i, l) == Nbrs(s.adj, i, l);
    forall i: nat, l: int, j: nat | j in Nbrs(base, i, l) ensures j < |s.vectors| {
      assert j in Nbrs(s.adj, i, l) && i < |s.vectors|;
    }
  }

  /** A walk that starts at an old node stays among the old nodes. */
  lemma NewNodeUnreached(base: Adj, id: nat, layer: int, a: nat, b: nat)
    requires InRange(base, id) && a < id && Reach(base, layer, a, b)
    ensures b < id
  {
    ReachStaysIn(base, layer, Below(id), a, b);
  }

  /** What a beam search says depends only on the links of its layer. */
  lemma BeamOnLayer<V>(dist: Metric<V>, vs: seq<V>, q: V, adj: Adj, adj': Adj, layer: int, ep: nat, width: int,
                       out: seq<Hit>, seen: set<nat>)
    requires forall i: nat :: Nbrs(adj, i, layer) == Nbrs(adj', i, layer)
    requires Beam(dist, vs, q, adj, layer, ep, width, out, seen)
    ensures Beam(dist, vs, q, adj', layer, ep, width, out, seen)
  {
    forall i | i in seen
      ensures Reach(adj', layer, ep, i)
    {
      ReachMonotone(adj, adj', layer, ep, i);
    }
    var order :| Explored(dist, vs, q, adj, layer, ep, width, order, out, seen);
    ExploredOnLayer(dist, vs, q, adj, adj', layer, ep, width, order, out, seen);
  }

  /** The search of a layer finds old nodes only, each once. */
  lemma SearchedOldNodes<V>(cfg: Config, dist: Metric<V>, vs: seq<V>, q: V, base: Adj, adj: Adj, runs: seq<LayerSearch>, l: nat,
                            ep: nat, cands: seq<Hit>, seen: set<nat>)
    requires Usable(cfg) && Layers(cfg, dist, vs, q, base, adj, runs, l) && InRange(base, |vs| - 1) && ep < |vs| - 1
    requires Beam(dist, vs, q, adj, l, ep, Width(cfg.efConstruction), cands, seen)
    ensures Beam(dist, vs, q, base, l, ep, Width(cfg.efConstruction), cands, seen) && cands != []
    ensures SameShape(base, adj) && forall i: nat :: Nbrs(adj, i, l) == Nbrs(base, i, l)
    ensures forall h :: h in cands ==> h.id < |vs| - 1
    ensures var sel := Selected(cands, Cap(cfg, l)); (Cap(cfg, l) >= 1 ==> sel != []) && Distinct(sel) && forall j :: j in sel ==> j < |vs| - 1
  {
    BeamOnLayer(dist, vs, q, adj, base, l, ep, Width(cfg.efConstruction), cands, seen);
    assert |seen| > 0;
    forall h | h in cands
      ensures h.id < |vs| - 1
    {
      NewNodeUnreached(base, |vs| - 1, l, ep, h.id);
    }
  }

  lemma NoLayersDone<V>(cfg: Config, dist: Metric<V>, vs: seq<V>, q: V, base: Adj, runs: seq<LayerSearch>)
    requires |vs| > 0
    ensures Layers(cfg, dist, vs, q, base, base, runs, |runs| - 1)
  {
  }

  /** Linking one more layer. */
  lemma LayerDone<V>(cfg: Config, dist: Metric<V>, vs: seq<V>, q: V, base: Adj, adj: Adj, adj': Adj, runs: seq<LayerSearch>, l: nat,
                     ep: nat, cands: seq<Hit>, seen: set<nat>)
    requires l < |runs| && Layers(cfg, dist, vs, q, base, adj, runs, l)
    requires Beam(dist, vs, q, base, l, ep, Width(cfg.efConstruction), cands, seen)
    requires Linked(dist, vs, adj, adj', l, |vs| - 1, Selected(cands, Cap(cfg, l)), Cap(cfg, l)) && SameOutside(adj, adj', l)
    requires l < |runs| - 1 ==> runs[l + 1].cands != [] && ep == runs[l + 1].cands[0].id
    ensures Layers(cfg, dist, vs, q, base, adj', runs[l := LayerSearch(ep, cands, seen)], l - 1)
  {
    hide Beam, Pruned;
    var runs' := runs[l := LayerSearch(ep, cands, seen)];
    forall k | l - 1 < k < |runs'|
      ensures Linked(dist, vs, base, adj', k, |vs| - 1, Selected(runs'[k].cands, Cap(cfg, k)), Cap(cfg, k))
    {
      if k > l { assert forall i: nat :: Nbrs(adj', i, k) == Nbrs(adj, i, k); }
    }
  }

  /** Linking keeps every list in range. */
  lemma LinkedInRange<V>(dist: Metric<V>, vs: seq<V>, adj: Adj, adj': Adj, layer: nat, id: nat, sel: seq<nat>, cap: int)
    requires InRange(adj, id + 1) && forall j :: j in sel ==> j < id
    requires Linked(dist, vs, adj, adj', layer, id, sel, cap) && SameOutside(adj, adj', layer)
    ensures InRange(adj', id + 1)
  {
    forall i: nat, l: int, j: nat | j in Nbrs(adj', i, l)
      ensures j < id + 1
    {
      if l == layer && i != id && i in sel {
        assert j in Nbrs(adj, i, layer) + [id];
      } else if l != layer {
        assert j in Nbrs(adj, i, l);
      }
    }
  }

  // ---- every insert keeps the graph well formed -------------------------------

  /** Links of a layer never lead below it. */
  lemma ReachLevel<V>(cfg: Config, s: State<V>, base: Adj, layer: nat, a: nat, b: nat)
    requires GraphOk(cfg, s) && base == Resized(s.adj, cfg.maxLayers)
    requires a < |s.vectors| && s.level[a] >= layer && Reach(base, layer, a, b)
    ensures b < |s.vectors| && s.level[b] >= layer
  {
    var high := set i | i in Below(|s.vectors|) && s.level[i] >= layer;
    forall i, j | i in high && j in Nbrs(base, i, layer)
      ensures j in high
    {
      assert Nbrs(base, i, layer) == Nbrs(s.adj, i, layer);
    }
    ReachStaysIn(base, layer, high, a, b);
  }

  /** The greedy descent of an insert ends at an old node that lives on the layer it stopped at. */
  lemma {:induction false} DescentLevel<V>(cfg: Config, dist: Metric<V>, s: State<V>, vs: seq<V>, q: V, base: Adj, hi: nat, lo: nat, from: nat, to: nat)
    requires GraphOk(cfg, s) && base == Resized(s.adj, cfg.maxLayers)
    requires from < |s.vectors| && s.level[from] >= hi && Descent(dist, vs, q, base, hi, lo, from, to)
    ensures to < |s.vectors| && s.level[to] >= if hi < lo then hi else lo
    decreases hi - lo
  {
    if hi >= lo {
      var mid :| Descent(dist, vs, q, base, hi, lo + 1, from, mid) && GreedyEnd(dist, vs, q, base, lo, mid, to);
      DescentLevel(cfg, dist, s, vs, q, base, hi, lo + 1, from, mid);
      ReachLevel(cfg, s, base, lo, mid, to);
    }
  }

  /** What an insert says about one layer's search. */
  lemma SearchOf<V>(cfg: Config, dist: Metric<V>, s: State<V>, vec: V, node: nat, runs: seq<LayerSearch>, s': State<V>, l: nat)
    requires InsertStep(cfg, dist, s, vec, node, runs, s') && Stop(cfg) < l < |runs|
    ensures s.maxLayer >= 0
    ensures Beam(dist, s'.vectors, vec, Resized(s.adj, cfg.maxLayers), l, runs[l].ep, Width(cfg.efConstruction), runs[l].cands, runs[l].seen)
    ensures if l == |runs| - 1 then Descent(dist, s'.vectors, vec, Resized(s.adj, cfg.maxLayers), s.maxLayer, node + 1, s.entryPoint, runs[l].ep)
      else runs[l + 1].cands != [] && runs[l].ep == runs[l + 1].cands[0].id
    ensures |runs| == (if node < s.maxLayer then node else s.maxLayer) + 1
  {
    hide Beam, Descent, Linked;
    if l < |runs| - 1 {
      var k := l + 1;
      assert runs[k].cands != [] && runs[k - 1].ep == runs[k].cands[0].id;
    }
  }

  /** Every layer's search starts, and stays, at old nodes that live on that layer. */
  lemma {:induction false} SearchLevels<V>(cfg: Config, dist: Metric<V>, s: State<V>, vec: V, node: nat, runs: seq<LayerSearch>, s': State<V>, l: nat)
    requires Usable(cfg) && GraphOk(cfg, s) && InsertStep(cfg, dist, s, vec, node, runs, s') && Stop(cfg) < l < |runs|
    ensures |s.level| == |s.vectors| && runs[l].ep < |s.vectors| && s.level[runs[l].ep] >= l
    ensures forall i :: i in runs[l].seen ==> i < |s.vectors| && s.level[i] >= l
    decreases |runs| - l
  {
    hide InsertStep, GraphOk, Reach, Descent, Beam;
    var base := Resized(s.adj, cfg.maxLayers);
    ResizedKeeps(cfg, s, vec);
    SearchOf(cfg, dist, s, vec, node, runs, s', l);
    BeamReaches(dist, s'.vectors, vec, base, l, runs[l].ep, Width(cfg.efConstruction), runs[l].cands, runs[l].seen);
    if l == |runs| - 1 {
      DescentLevel(cfg, dist, s, s'.vectors, vec, base, s.maxLayer, node + 1, s.entryPoint, runs[l].ep);
    } else {
      SearchLevels(cfg, dist, s, vec, node, runs, s', l + 1);
      SearchOf(cfg, dist, s, vec, node, runs, s', l + 1);
      BeamReaches(dist, s'.vectors, vec, base, l + 1, runs[l + 1].ep, Width(cfg.efConstruction), runs[l + 1].cands, runs[l + 1].seen);
      assert runs[l + 1].cands[0] in runs[l + 1].cands;
    }
    forall i | i in runs[l].seen
      ensures i < |s.vectors| && s.level[i] >= l
    {
      ReachLevel(cfg, s, base, l, runs[l].ep, i);
    }
  }

  /** The list a searched layer gives the new node. */
  lemma SelectedOk<V>(cfg: Config, dist: Metric<V>, s: State<V>, vec: V, node: nat, runs: seq<LayerSearch>, s': State<V>, l: nat)
    requires Usable(cfg) && GraphOk(cfg, s) && InsertStep(cfg, dist, s, vec, node, runs, s') && Stop(cfg) < l < |runs|
    ensures var sel := Selected(runs[l].cands, Cap(cfg, l));
      && (Cap(cfg, l) >= 1 ==> sel != []) && |sel| <= Room(cfg, l) && Distinct(sel)
      && forall j :: j in sel ==> j < |s.vectors| && s.level[j] >= l
  {
    hide InsertStep, GraphOk, Descent, Reach, Explored;
    SearchLevels(cfg, dist, s, vec, node, runs, s', l);
    SearchOf(cfg, dist, s, vec, node, runs, s', l);
    var cands := runs[l].cands;
    assert |runs[l].seen| > 0;
    assert forall k :: 0 <= k < |cands| ==> cands[k] in cands;
  }

  /** Each list after an insert: unchanged, the new node's, or an old one with the new node added and pruned. */
  lemma NewList<V>(cfg: Config, dist: Metric<V>, s: State<V>, vec: V, node: nat, runs: seq<LayerSearch>, s': State<V>, i: nat, l: int)
    requires Usable(cfg) && GraphOk(cfg, s) && InsertStep(cfg, dist, s, vec, node, runs, s')
    ensures
      var old_, new_ := Nbrs(s.adj, i, l), Nbrs(s'.adj, i, l);
      if !(Stop(cfg) < l < |runs|) then new_ == old_
      else var sel := Selected(runs[l].cands, Cap(cfg, l));
        if i == |s.vectors| then new_ == sel
        else if i in sel then Pruned(dist, s'.vectors, i, old_ + [|s.vectors|], Cap(cfg, l), new_)
        else new_ == old_
  {
    hide Beam, Pruned, Descent;
    ResizedKeeps(cfg, s, vec);
  }

  /** Adding `n` to a list and pruning it: the length is known, the list stays well formed, only `n` is new. */
  lemma PrunedListOk<V>(dist: Metric<V>, vs: seq<V>, i: nat, list: seq<nat>, n: nat, cap: int, out: seq<nat>)
    requires ListOk(list, i, n, cap) && i < n && cap >= 1
    requires Pruned(dist, vs, i, list + [n], cap, out)
    ensures ListOk(out, i, n + 1, cap)
    ensures |out| == (if |list| + 1 <= cap then |list| + 1 else cap)
    ensures forall j :: j in out ==> j in list || j == n
  {
    assert forall j :: j in list + [n] <==> j in list || j == n;
    assert forall k :: 0 <= k < |list| ==> list[k] in list;
  }

  lemma ListKeeps<V>(cfg: Config, dist: Metric<V>, s: State<V>, vec: V, node: nat, runs: seq<LayerSearch>, s': State<V>, i: nat, l: int)
    requires Usable(cfg) && GraphOk(cfg, s) && InsertStep(cfg, dist, s, vec, node, runs, s') && i < |s'.vectors|
    ensures ListOk(Nbrs(s'.adj, i, l), i, |s'.vectors|, Room(cfg, l))
    ensures forall j :: j in Nbrs(s'.adj, i, l) ==> s'.level[i] >= l && s'.level[j] >= l
    ensures l == 0 && |s'.vectors| >= 2 && cfg.Mmax0 >= 1 ==> Nbrs(s'.adj, i, l) != []
  {
    hide Layers, Descent, Selected;
    NewList(cfg, dist, s, vec, node, runs, s', i, l);
    var n := |s.vectors|;
    if Stop(cfg) < l < |runs| {
      SelectedOk(cfg, dist, s, vec, node, runs, s', l);
      var sel := Selected(runs[l].cands, Cap(cfg, l));
      if i != n && i in sel {
        PrunedListOk(dist, s'.vectors, i, Nbrs(s.adj, i, l), n, Cap(cfg, l), Nbrs(s'.adj, i, l));
      } else if i != n {
        assert l == 0 && cfg.Mmax0 >= 1 ==> sel[0] in sel;
        assert ListOk(Nbrs(s.adj, i, l), i, n, Room(cfg, l));
      }
    } else if i < n {
      assert ListOk(Nbrs(s.adj, i, l), i, n, Room(cfg, l));
    }
  }

  lemma GraphKeeps<V>(cfg: Config, dist: Metric<V>, s: State<V>, vec: V, node: nat, runs: seq<LayerSearch>, s': State<V>)
    requires Usable(cfg) && GraphOk(cfg, s) && node < cfg.maxLayers
    requires InsertStep(cfg, dist, s, vec, node, runs, s')
    ensures GraphOk(cfg, s')
  {
    hide Beam, Linked, Pruned, Descent, Selected;
    var n' := |s'.vectors|;
    ResizedKeeps(cfg, s, vec);
    assert |s'.adj| == n' && forall i :: 0 <= i < n' ==> |s'.adj[i]| == cfg.maxLayers;
    forall i: nat, l: int | i < n'
      ensures ListOk(Nbrs(s'.adj, i, l), i, n', Room(cfg, l))
      ensures forall j :: j in Nbrs(s'.adj, i, l) ==> s'.level[i] >= l && s'.level[j] >= l
      ensures l == 0 && n' >= 2 && cfg.Mmax0 >= 1 ==> Nbrs(s'.adj, i, l) != []
    {
      ListKeeps(cfg, dist, s, vec, node, runs, s', i, l);
    }
  }

  // ---- a small index stays connected ------------------------------------------

  lemma {:induction false} DistinctSize(list: seq<nat>, s: set<nat>)
    requires Distinct(list) && forall x :: x in list ==> x in s
    ensures |list| <= |s|
  {
    if list != [] {
      var last := list[|list| - 1];
      forall x | x in list[..|list| - 1] ensures x in s - {last} {}
      DistinctSize(list[..|list| - 1], s - {last});
    }
  }

  /** As long as the index holds at most `M_max0 + 1` vectors, pruning never fires on layer 0. */
  lemma NothingPruned<V>(cfg: Config, dist: Metric<V>, s: State<V>, vec: V, node: nat, runs: seq<LayerSearch>, s': State<V>, i: nat)
    requires Usable(cfg) && GraphOk(cfg, s) && InsertStep(cfg, dist, s, vec, node, runs, s')
    requires s.maxLayer >= 0 && |s'.vectors| <= cfg.Mmax0 + 1
    ensures |runs| > 0
    ensures var sel := Selected(runs[0].cands, cfg.Mmax0);
      Nbrs(s'.adj, i, 0) ==
        if i == |s.vectors| then sel
        else if i in sel then Nbrs(s.adj, i, 0) + [|s.vectors|]
        else Nbrs(s.adj, i, 0)
  {
    hide Beam, Linked, Descent, Layers;
    NewList(cfg, dist, s, vec, node, runs, s', i, 0);
    SelectedOk(cfg, dist, s, vec, node, runs, s', 0);
    if i < |s.vectors| {
      var list := Nbrs(s.adj, i, 0);
      assert ListOk(list, i, |s.vectors|, Room(cfg, 0));
      DistinctSize(list, Below(|s.vectors|) - {i});
    }
  }

  lemma ConnectedKeeps<V>(cfg: Config, dist: Metric<V>, s: State<V>, vec: V, node: nat, runs: seq<LayerSearch>, s': State<V>)
    requires Usable(cfg) && GraphOk(cfg, s) && Connected(s) && InsertStep(cfg, dist, s, vec, node, runs, s')
    requires |s'.vectors| <= cfg.Mmax0 + 1
    ensures Connected(s')
  {
    hide Beam, Linked, Descent, Layers, Pruned, Selected;
    var n := |s.vectors|;
    if s.maxLayer < 0 {
      ReachSelf(s'.adj, 0, 0);
    } else {
      var sel := Selected(runs[0].cands, cfg.Mmax0);
      SelectedOk(cfg, dist, s, vec, node, runs, s', 0);
      forall i: nat
        ensures Nbrs(s'.adj, i, 0) == if i == n then sel else if i in sel then Nbrs(s.adj, i, 0) + [n] else Nbrs(s.adj, i, 0)
      {
        NothingPruned(cfg, dist, s, vec, node, runs, s', i);
      }
      Attach(s.adj, s'.adj, n, sel);
    }
  }

  /** Attaching a node to a symmetric connected layer, without dropping links, keeps it symmetric and connected. */
  lemma Attach(adj: Adj, adj': Adj, n: nat, sel: seq<nat>)
    requires sel != [] && forall j :: j in sel ==> j < n
    requires forall i: nat, j: nat :: j in Nbrs(adj, i, 0) ==> i in Nbrs(adj, j, 0) && i < n && j < n
    requires forall i: nat, j: nat :: i < n && j < n ==> Reach(adj, 0, i, j)
    requires forall i: nat ::
      Nbrs(adj', i, 0) == if i == n then sel else if i in sel then Nbrs(adj, i, 0) + [n] else Nbrs(adj, i, 0)
    ensures forall i: nat, j: nat :: j in Nbrs(adj', i, 0) ==> i in Nbrs(adj', j, 0)
    ensures forall i: nat, j: nat :: i <= n && j <= n ==> Reach(adj', 0, i, j)
  {
    forall i: nat, j: nat | j in Nbrs(adj', i, 0)
      ensures i in Nbrs(adj', j, 0)
    {
      if i == n {
        assert n in Nbrs(adj, j, 0) + [n];
      } else if j != n {
        assert j in Nbrs(adj, i, 0) && i in Nbrs(adj, j, 0);
        assert i in Nbrs(adj, j, 0) + [n];
      }
    }
    var hub := sel[0];
    assert hub in sel && n in Nbrs(adj, hub, 0) + [n];
    ReachSelf(adj', 0, n);
    ReachSelf(adj', 0, hub);
    ReachStep(adj', 0, n, n, hub);
    ReachStep(adj', 0, hub, hub, n);
    forall i: nat | i <= n
      ensures Reach(adj', 0, i, hub) && Reach(adj', 0, hub, i)
    {
      if i < n {
        ReachMonotone(adj, adj', 0, i, hub);
        ReachMonotone(adj, adj', 0, hub, i);
      }
    }
    forall i: nat, j: nat | i <= n && j <= n
      ensures Reach(adj', 0, i, j)
    {
      ReachTrans(adj', 0, i, hub, j);
    }
  }

  /** Every insert keeps the index well formed and, while it is small, connected on layer 0. */
  lemma InsertKeeps<V>(cfg: Config, dist: Metric<V>, s: State<V>, vec: V, node: nat, runs: seq<LayerSearch>, s': State<V>)
    requires Usable(cfg) && Inv(cfg, s) && node < cfg.maxLayers
    requires InsertStep(cfg, dist, s, vec, node, runs, s')
    ensures Inv(cfg, s')
  {
    GraphKeeps(cfg, dist, s, vec, node, runs, s');
    if |s'.vectors| <= cfg.Mmax0 + 1 {
      ConnectedKeeps(cfg, dist, s, vec, node, runs, s');
    }
  }

  /** What a search needs to know of a non-empty index. */
  lemma SearchRanges<V>(cfg: Config, s: State<V>)
    requires GraphOk(cfg, s) && s.maxLayer >= 0
    ensures s.entryPoint < |s.vectors| && InRange(s.adj, |s.vectors|)
  {
    forall i: nat, l: int, j: nat | j in Nbrs(s.adj, i, l) ensures j < |s.vectors| {
      assert i < |s.vectors|;
    }
  }

  lemma NonEmptyBeam<V>(dist: Metric<V>, vs: seq<V>, q: V, adj: Adj, layer: int, ep: nat, width: int, out: seq<Hit>, seen: set<nat>)
    requires Beam(dist, vs, q, adj, layer, ep, width, out, seen) && width >= 1
    ensures out != []
  {
    assert |seen| > 0;
  }

  // ---- what a search returns ---------------------------------------------------

  /** A beam at least as wide as the reachable part of the layer returns all of it. */
  lemma WideBeam<V>(dist: Metric<V>, vs: seq<V>, q: V, adj: Adj, layer: int, ep: nat, width: int, out: seq<Hit>, seen: set<nat>)
    requires Beam(dist, vs, q, adj, layer, ep, width, out, seen)
    requires |ReachSet(adj, layer, |vs|, ep)| <= width
    ensures seen == ReachSet(adj, layer, |vs|, ep)
    ensures TopK(dist, vs, q, seen, |seen|, out)
    ensures forall i :: i in seen ==> At(dist, vs, q, i) in out
  {
    var all := ReachSet(adj, layer, |vs|, ep);
    assert seen <= all;
    SubsetSize(seen, all);
    forall i, j | i in seen && j in Nbrs(adj, i, layer)
      ensures j in seen
    {
      assert At(dist, vs, q, i) in out;
    }
    forall b | b in all
      ensures b in seen
    {
      ReachStaysIn(adj, layer, seen, ep, b);
    }
    assert seen == all;
  }

  /** The first `k` of a full ranking are the `k` nearest. */
  lemma PrefixIsTopK<V>(dist: Metric<V>, vs: seq<V>, q: V, nodes: set<nat>, k: nat, all: seq<Hit>)
    requires TopK(dist, vs, q, nodes, |nodes|, all) && forall i :: i in nodes ==> At(dist, vs, q, i) in all
    ensures TopK(dist, vs, q, nodes, k, if |all| > k then all[..k] else all)
  {
    if |all| > k {
      var out := all[..k];
      assert forall j :: 0 <= j < k ==> all[j] == out[j] && all[j] in out;
      forall i, h | i in nodes && h in out && At(dist, vs, q, i) !in out
        ensures h.dist <= D(dist, vs, q, i)
      {
        var m :| 0 <= m < |all| && all[m] == At(dist, vs, q, i);
        var x :| 0 <= x < k && all[x] == h;
        assert ByDist(all[x], all[m]);
      }
      forall h | h in out ensures h in all {}
    }
  }

  /** A search with a wide enough beam is the exact top-k of what layer 0 reaches from where the descent ends. */
  lemma ReachableExact<V>(dist: Metric<V>, s: State<V>, q: V, topK: int, ef: int, ep: nat, cands: seq<Hit>, seen: set<nat>, out: seq<Hit>)
    requires SearchStep(dist, s, q, topK, ef, ep, cands, seen, out) && s.maxLayer >= 0
    requires |ReachSet(s.adj, 0, |s.vectors|, ep)| <= Width(if ef < topK then topK else ef)
    ensures TopK(dist, s.vectors, q, ReachSet(s.adj, 0, |s.vectors|, ep), topK, out)
  {
    hide TopK, Beam, Descent;
    WideBeam(dist, s.vectors, q, s.adj, 0, ep, Width(if ef < topK then topK else ef), cands, seen);
    PrefixIsTopK(dist, s.vectors, q, seen, topK, cands);
  }

  /** Small-index exactness: up to `M_max0 + 1` vectors, a wide enough search is the brute-force top-k. */
  lemma SmallExact<V>(cfg: Config, dist: Metric<V>, s: State<V>, q: V, topK: int, ef: int, ep: nat, cands: seq<Hit>, seen: set<nat>, out: seq<Hit>)
    requires Inv(cfg, s) && |s.vectors| <= cfg.Mmax0 + 1
    requires SearchStep(dist, s, q, topK, ef, ep, cands, seen, out) && topK >= 0
    requires (if ef < topK then topK else ef) >= |s.vectors|
    ensures TopK(dist, s.vectors, q, Below(|s.vectors|), topK, out)
  {
    if s.maxLayer < 0 {
      assert |s.vectors| == 0;
    } else {
      assert ep in seen;
      var all := ReachSet(s.adj, 0, |s.vectors|, ep);
      assert all == Below(|s.vectors|);
      ReachableExact(dist, s, q, topK, ef, ep, cands, seen, out);
    }
  }

  /** The descent only ever gets closer. */
  lemma {:induction false} DescentCloser<V>(dist: Metric<V>, vs: seq<V>, q: V, adj: Adj, hi: int, lo: int, from: nat, to: nat)
    requires Descent(dist, vs, q, adj, hi, lo, from, to)
    ensures D(dist, vs, q, to) <= D(dist, vs, q, from)
    decreases hi - lo
  {
    if hi >= lo {
      var mid :| Descent(dist, vs, q, adj, hi, lo + 1, from, mid) && GreedyEnd(dist, vs, q, adj, lo, mid, to);
      DescentCloser(dist, vs, q, adj, hi, lo + 1, from, mid);
    }
  }

  /** The first result is never farther than the entry point. */
  lemma FirstResult<V>(dist: Metric<V>, s: State<V>, q: V, topK: int, ef: int, ep: nat, cands: seq<Hit>, seen: set<nat>, out: seq<Hit>)
    requires SearchStep(dist, s, q, topK, ef, ep, cands, seen, out) && s.maxLayer >= 0 && topK >= 1
    ensures out != [] && out[0].dist <= D(dist, s.vectors, q, s.entryPoint)
    ensures |out| == (if |cands| > topK then topK else |cands|)
  {
    DescentCloser(dist, s.vectors, q, s.adj, s.maxLayer, 1, s.entryPoint, ep);
    assert ep in seen && |seen| > 0;
    assert cands[0] in cands;
    if At(dist, s.vectors, q, ep) in cands {
      var k :| 0 <= k < |cands| && cands[k] == At(dist, s.vectors, q, ep);
      assert k > 0 ==> ByDist(cands[0], cands[k]);
    }
  }

  // ---- link lists only improve ---------------------------------------------------

  /** Why `M_max0` should be positive: without room on layer 0 the second and every later node is linked to nothing there. */
  lemma NoRoomNoLinks<V>(cfg: Config, dist: Metric<V>, s: State<V>, vec: V, node: nat, runs: seq<LayerSearch>, s': State<V>)
    requires Usable(cfg) && GraphOk(cfg, s) && s.maxLayer >= 0 && InsertStep(cfg, dist, s, vec, node, runs, s')
    ensures Nbrs(s'.adj, |s.vectors|, 0) == [] <==> cfg.Mmax0 <= 0
  {
    hide InsertStep, Descent, GraphOk;
    OneMore(cfg, dist, s, vec, node, runs, s');
    ListKeeps(cfg, dist, s, vec, node, runs, s', |s.vectors|, 0);
  }

  lemma OneMore<V>(cfg: Config, dist: Metric<V>, s: State<V>, vec: V, node: nat, runs: seq<LayerSearch>, s': State<V>)
    requires GraphOk(cfg, s) && s.maxLayer >= 0 && InsertStep(cfg, dist, s, vec, node, runs, s')
    ensures |s'.vectors| == |s.vectors| + 1 >= 2
  {
  }

  /** An insert never shrinks a list, and only ever replaces a link by a nearer one. */
  lemma LinksImprove<V>(cfg: Config, dist: Metric<V>, s: State<V>, vec: V, node: nat, runs: seq<LayerSearch>, s': State<V>, i: nat, l: int)
    requires Usable(cfg) && GraphOk(cfg, s) && InsertStep(cfg, dist, s, vec, node, runs, s') && i < |s.vectors|
    ensures var before, after := Nbrs(s.adj, i, l), Nbrs(s'.adj, i, l);
      && (after == before || |after| == if |before| + 1 <= Room(cfg, l) then |before| + 1 else Room(cfg, l))
      && |before| <= |after|
      && (forall x, y :: x in before && x !in after && y in after ==>
            LinkTo(dist, s'.vectors, i, y).dist <= LinkTo(dist, s'.vectors, i, x).dist)
      && (|before| == Room(cfg, l) ==> NoFarther(dist, s'.vectors, i, before, after))
  {
    hide Beam, Layers, Descent, Selected;
    NewList(cfg, dist, s, vec, node, runs, s', i, l);
    var n := |s.vectors|;
    var before, after := Nbrs(s.adj, i, l), Nbrs(s'.adj, i, l);
    assert ListOk(before, i, n, Room(cfg, l));
    if after != before {
      PrunedListOk(dist, s'.vectors, i, before, n, Cap(cfg, l), after);
      if |before| == Room(cfg, l) {
        forall y | y in after
          ensures exists x :: x in before && LinkTo(dist, s'.vectors, i, y).dist <= LinkTo(dist, s'.vectors, i, x).dist
        {
          if y !in before {
            SomeDropped(before, after, y);
            var x :| x in before && x !in after;
            assert x in before + [n];
          }
        }
      }
    }
  }

  /** A list as long as another that holds something new has dropped something. */
  lemma SomeDropped(before: seq<nat>, after: seq<nat>, y: nat)
    requires Distinct(before) && |after| == |before| && y in after && y !in before
    ensures exists x :: x in before && x !in after
  {
    var all := set x: nat | x in after;
    SeqSetSize(after);
    assert y in all;
    if forall x :: x in before ==> x in after { DistinctSize(before, all - {y}); }
  }

  lemma {:induction false} SeqSetSize(s: seq<nat>)
    ensures |set x: nat | x in s| <= |s|
  {
    if s == [] {
      assert (set x: nat | x in s) == {};
    } else {
      SeqSetSize(s[1..]);
      assert (set x: nat | x in s) == (set x: nat | x in s[1..]) + {s[0]};
    }
  }

  // ---- whole runs ------------------------------------------------------------------

  /** After any run of inserts the index is well formed and holds exactly the inserted vectors, in order. */
  lemma {:induction false} RunKeeps<V>(cfg: Config, dist: Metric<V>, states: seq<State<V>>, ins: seq<Insertion<V>>, k: nat)
    requires Usable(cfg) && Run(cfg, dist, states, ins) && k <= |ins|
    ensures Inv(cfg, states[k]) && |states[k].vectors| == k
    ensures forall i :: 0 <= i < k ==> states[k].vectors[i] == ins[i].vec
    ensures |states[k].level| == k && (cfg.Mmax0 >= 0 ==> forall i :: 0 <= i < k ==> states[k].level[i] == ins[i].node)
  {
    hide InsertStep, GraphOk;
    if k == 0 {
      EmptyOk<V>(cfg);
    } else {
      RunKeeps(cfg, dist, states, ins, k - 1);
      assert InsertStep(cfg, dist, states[k - 1], ins[k - 1].vec, ins[k - 1].node, ins[k - 1].runs, states[k - 1 + 1]);
      InsertKeeps(cfg, dist, states[k - 1], ins[k - 1].vec, ins[k - 1].node, ins[k - 1].runs, states[k]);
      InsertAppends(cfg, dist, states[k - 1], ins[k - 1].vec, ins[k - 1].node, ins[k - 1].runs, states[k]);
    }
  }

  lemma EmptyOk<V>(cfg: Config)
    requires Usable(cfg)
    ensures Inv(cfg, Empty<V>())
  {
  }

  lemma InsertAppends<V>(cfg: Config, dist: Metric<V>, s: State<V>, vec: V, node: nat, runs: seq<LayerSearch>, s': State<V>)
    requires InsertStep(cfg, dist, s, vec, node, runs, s')
    ensures s'.vectors == s.vectors + [vec] && s'.level == s.level + [Reached(cfg, s, node)]
  {
  }

  /** A run of at most `M_max0 + 1` inserts: searching it widely enough is exact over all inserted vectors. */
  lemma SmallRunExact<V>(cfg: Config, dist: Metric<V>, states: seq<State<V>>, ins: seq<Insertion<V>>,
                         q: V, topK: int, ef: int, ep: nat, cands: seq<Hit>, seen: set<nat>, out: seq<Hit>)
    requires Usable(cfg) && Run(cfg, dist, states, ins) && |ins| <= cfg.Mmax0 + 1
    requires SearchStep(dist, states[|ins|], q, topK, ef, ep, cands, seen, out) && topK >= 0
    requires (if ef < topK then topK else ef) >= |ins|
    ensures TopK(dist, states[|ins|].vectors, q, Below(|ins|), topK, out)
  {
    hide InsertStep, GraphOk, TopK, SearchStep;
    RunKeeps(cfg, dist, states, ins, |ins|);
    SmallExact(cfg, dist, states[|ins|], q, topK, ef, ep, cands, seen, out);
  }

  /** Over a run no list ever shrinks. */
  lemma {:induction false} ListsNeverShrink<V>(cfg: Config, dist: Metric<V>, states: seq<State<V>>, ins: seq<Insertion<V>>, j: nat, k: nat, i: nat, l: int)
    requires Usable(cfg) && Run(cfg, dist, states, ins) && j <= k <= |ins| && i < j
    ensures |Nbrs(states[j].adj, i, l)| <= |Nbrs(states[k].adj, i, l)|
    decreases k
  {
    hide InsertStep, GraphOk;
    if j < k {
      ListsNeverShrink(cfg, dist, states, ins, j, k - 1, i, l);
      RunKeeps(cfg, dist, states, ins, k - 1);
      assert InsertStep(cfg, dist, states[k - 1], ins[k - 1].vec, ins[k - 1].node, ins[k - 1].runs, states[k - 1 + 1]);
      LinksImprove(cfg, dist, states[k - 1], ins[k - 1].vec, ins[k - 1].node, ins[k - 1].runs, states[k], i, l);
    }
  }

  /** No link of `after` is farther from node `i` than some link of `before`: its farthest distance is no larger. */
  ghost predicate NoFarther<V>(dist: Metric<V>, vs: seq<V>, i: nat, before: seq<nat>, after: seq<nat>) {
    forall y :: y in after ==> exists x :: x in before && LinkTo(dist, vs, i, y).dist <= LinkTo(dist, vs, i, x).dist
  }

  /** Over a run a full list stays full, and its farthest link never gets farther. */
  lemma {:induction false} FullListsImprove<V>(cfg: Config, dist: Metric<V>, states: seq<State<V>>, ins: seq<Insertion<V>>, j: nat, k: nat, i: nat, l: int)
    requires Usable(cfg) && Run(cfg, dist, states, ins) && j <= k <= |ins| && i < j
    requires |Nbrs(states[j].adj, i, l)| == Room(cfg, l)
    ensures |Nbrs(states[k].adj, i, l)| == Room(cfg, l)
    ensures NoFarther(dist, states[k].vectors, i, Nbrs(states[j].adj, i, l), Nbrs(states[k].adj, i, l))
    decreases k
  {
    hide InsertStep, GraphOk, LinkTo;
    if j < k {
      var s, s', e := states[k - 1], states[k], ins[k - 1];
      FullListsImprove(cfg, dist, states, ins, j, k - 1, i, l);
      RunKeeps(cfg, dist, states, ins, j);
      RunKeeps(cfg, dist, states, ins, k - 1);
      assert InsertStep(cfg, dist, s, e.vec, e.node, e.runs, states[k - 1 + 1]);
      InsertAppends(cfg, dist, s, e.vec, e.node, e.runs, s');
      LinksImprove(cfg, dist, s, e.vec, e.node, e.runs, s', i, l);
      ListInRange(cfg, states[j], i, l);
      ListInRange(cfg, s, i, l);
      NoFartherStep(dist, s.vectors, e.vec, i, Nbrs(states[j].adj, i, l), Nbrs(s.adj, i, l), Nbrs(s'.adj, i, l));
    }
  }

  lemma ListInRange<V>(cfg: Config, s: State<V>, i: nat, l: int)
    requires GraphOk(cfg, s) && i < |s.vectors|
    ensures forall x :: x in Nbrs(s.adj, i, l) ==> x < |s.vectors|
    ensures |Nbrs(s.adj, i, l)| <= Room(cfg, l)
  {
    assert ListOk(Nbrs(s.adj, i, l), i, |s.vectors|, Room(cfg, l));
  }

  lemma NoFartherStep<V>(dist: Metric<V>, vs: seq<V>, vec: V, i: nat, first: seq<nat>, before: seq<nat>, after: seq<nat>)
    requires i < |vs| && (forall x :: x in first ==> x < |vs|) && (forall x :: x in before ==> x < |vs|)
    requires NoFarther(dist, vs, i, first, before) && NoFarther(dist, vs + [vec], i, before, after)
    ensures NoFarther(dist, vs + [vec], i, first, after)
  {
    forall y | y in after
      ensures exists x :: x in first && LinkTo(dist, vs + [vec], i, y).dist <= LinkTo(dist, vs + [vec], i, x).dist
    {
      var z :| z in before && LinkTo(dist, vs + [vec], i, y).dist <= LinkTo(dist, vs + [vec], i, z).dist;
      var x :| x in first && LinkTo(dist, vs, i, z).dist <= LinkTo(dist, vs, i, x).dist;
      assert LinkTo(dist, vs + [vec], i, y).dist <= LinkTo(dist, vs + [vec], i, x).dist;
    }
  }
}
