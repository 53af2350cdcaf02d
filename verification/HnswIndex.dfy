/** The HNSW index: searches and inserts over a graph that is changed in place. */
module HnswIndexes {
  import opened Sorting
  import opened Hits
  import opened Graphs
  import opened HnswSpec
  import opened BeamProofs
  import opened BeamOrders
  import opened GreedyProofs
  import opened HnswTheorems
  import opened NeighbourStores
  import opened Options

  datatype SearchOutcome = Found(hits: seq<Hit>) | LengthError

  /** The id of the new node, or the exception a negative `M_max0` leads to. */
  datatype InsertOutcome = Inserted(id: nat) | InsertThrew

  class HnswIndex<V> {
    const cfg: Config
    const dist: Metric<V>
    const neighbours: NeighbourStore
    var vectors: seq<V>
    var entryPoint: nat
    var maxLayer: int
    var nextId: nat
    ghost var level: seq<nat>

    ghost function Value(): State<V>
      reads this, neighbours
    {
      State(vectors, neighbours.adj, entryPoint, maxLayer, level)
    }

    ghost predicate Valid()
      reads this, neighbours
    {
      Usable(cfg) && nextId == |vectors| && Inv(cfg, Value())
    }

    /** An empty index. */
    constructor (cfg: Config, dist: Metric<V>)
      requires Usable(cfg)
      ensures Valid() && fresh(neighbours)
      ensures this.cfg == cfg && this.dist == dist && Value() == State([], [], 0, -1, [])
    {
      this.cfg, this.dist := cfg, dist;
      neighbours := new NeighbourStore();
      vectors, entryPoint, maxLayer, nextId, level := [], 0, -1, 0, [];
    }

    /** What the source's constructor does: an index, or an exception for a configuration it does not accept. */
    static method Create(cfg: Config, dist: Metric<V>) returns (r: Option<HnswIndex<V>>)
      ensures r.None? <==> cfg.dim <= 0 || cfg.M < 2 || cfg.efConstruction < 1 || cfg.maxLayers < 1
      ensures r.Some? ==> fresh(r.value) && fresh(r.value.neighbours) && r.value.Valid()
      ensures r.Some? ==> r.value.cfg == cfg && r.value.dist == dist && r.value.Value() == State([], [], 0, -1, [])
    {
      if cfg.dim <= 0 { return None; }
      if cfg.M < 2 { return None; }
      if cfg.efConstruction < 1 { return None; }
      if cfg.maxLayers < 1 { return None; }
      var idx := new HnswIndex(cfg, dist);
      r := Some(idx);
    }

    /** A coarse walk (beam width 1): moves to a closer neighbour as long as there is one. */
    method GreedySearchLayer(ep: nat, query: V, layer: int) returns (current: nat)
      requires InRange(neighbours.adj, |vectors|) && ep < |vectors|
      ensures GreedyEnd(dist, vectors, query, neighbours.adj, layer, ep, current)
    {
      hide Reach, Moves;
      current := ep;
      var currentDist := D(dist, vectors, query, current);
      ReachSelf(neighbours.adj, layer, ep);
      ghost var path := [ep];
      var improved := true;
      while improved
        invariant current < |vectors| && currentDist == D(dist, vectors, query, current)
        invariant Reach(neighbours.adj, layer, ep, current)
        invariant Walk(dist, vectors, query, neighbours.adj, layer, path, ep, current)
        invariant current == ep || currentDist < D(dist, vectors, query, ep)
        invariant !improved ==> forall j :: j in Nbrs(neighbours.adj, current, layer) ==> currentDist <= D(dist, vectors, query, j)
        decreases Closer(dist, vectors, query, currentDist), improved
      {
        improved := false;
        var nbrs := neighbours.GetNeighbours(current, layer);
        ghost var start, startDist, at := current, currentDist, 0;
        for k := 0 to |nbrs|
          invariant current < |vectors| && currentDist == D(dist, vectors, query, current)
          invariant if improved then currentDist < startDist else current == start
          invariant improved ==> 0 <= at < k && current == nbrs[at]
          invariant improved ==> forall m :: 0 <= m < at ==> currentDist < D(dist, vectors, query, nbrs[m])
          invariant forall m :: 0 <= m < k ==> currentDist <= D(dist, vectors, query, nbrs[m])
        {
          assert nbrs[k] in nbrs;
          var d := D(dist, vectors, query, nbrs[k]);
          if d < currentDist {
            currentDist, current, improved := d, nbrs[k], true;
            at := k;
          }
        }
        if improved {
          ReachStep(neighbours.adj, layer, ep, start, current);
          assert current in Closer(dist, vectors, query, startDist);
          MoveIs(dist, vectors, query, neighbours.adj, layer, start, at);
          path := path + [current];
        }
      }
    }

    /** Greedy walks on the layers `hi` down to `lo`. */
    method Descend(from: nat, query: V, hi: int, lo: int) returns (to: nat)
      requires InRange(neighbours.adj, |vectors|) && from < |vectors|
      ensures Descent(dist, vectors, query, neighbours.adj, hi, lo, from, to) && to < |vectors|
    {
      to := from;
      var l := hi;
      while l >= lo
        invariant l <= hi && (l >= lo - 1 || l == hi) && to < |vectors|
        invariant Descent(dist, vectors, query, neighbours.adj, hi, l + 1, from, to)
      {
        to := GreedySearchLayer(to, query, l);
        l := l - 1;
      }
    }

    /**
     * Offers the unseen node `n` to the beam: pushes it if there is room or it beats the worst
     * result, and keeps at most `ef` results.
     */
    method Offer(query: V, ef: int, n: nat, heap: multiset<Hit>, best: multiset<Hit>,
                 ghost layer: int, ghost ep: nat, ghost seen: set<nat>, ghost spent: set<nat>)
      returns (heap': multiset<Hit>, best': multiset<Hit>)
      requires Searching(dist, vectors, query, neighbours.adj, layer, ep, Width(ef), seen, spent, heap, best)
      requires Frontier(dist, vectors, query, Width(ef), seen, spent, heap, best)
      requires n !in seen && n < |vectors| && Reach(neighbours.adj, layer, ep, n)
      ensures Searching(dist, vectors, query, neighbours.adj, layer, ep, Width(ef), seen + {n}, spent, heap', best')
      ensures Frontier(dist, vectors, query, Width(ef), seen + {n}, spent, heap', best')
    {
      hide Searching, Frontier, Reach;
      Peek(dist, vectors, query, neighbours.adj, layer, ep, Width(ef), seen, spent, heap, best);
      var h := At(dist, vectors, query, n);
      heap', best' := heap, best;
      var worst := Top(Furthest, best);
      OfferIs(h, ef, heap, best, worst);
      hide Offered, First, SizeT;
      if |best| < SizeT(ef) || h.dist < worst.dist {
        heap' := heap + multiset{h};
        best' := best + multiset{h};
        if |best'| > SizeT(ef) {
          worst := Top(Furthest, best');
          best' := best' - multiset{worst};
        }
      }
      OfferKeeps(dist, vectors, query, neighbours.adj, layer, ep, ef, seen, spent, heap, best, n, heap', best');
      FrontierKeeps(dist, vectors, query, neighbours.adj, layer, ep, ef, seen, spent, heap, best, n, heap', best');
    }

    /** Offers every neighbour of `c` that has not been visited. */
    method Expand(c: nat, query: V, ef: int, layer: int, visited: seq<bool>, heap: multiset<Hit>, best: multiset<Hit>,
                  ghost ep: nat, ghost seen: set<nat>, ghost spent: set<nat>)
      returns (visited': seq<bool>, heap': multiset<Hit>, best': multiset<Hit>, ghost seen': set<nat>)
      requires |visited| == |vectors| && Flags(visited, seen) && Reach(neighbours.adj, layer, ep, c)
      requires InRange(neighbours.adj, |vectors|)
      requires Searching(dist, vectors, query, neighbours.adj, layer, ep, Width(ef), seen, spent, heap, best)
      requires Frontier(dist, vectors, query, Width(ef), seen, spent, heap, best)
      ensures |visited'| == |visited| && Flags(visited', seen')
      ensures Searching(dist, vectors, query, neighbours.adj, layer, ep, Width(ef), seen', spent, heap', best')
      ensures Frontier(dist, vectors, query, Width(ef), seen', spent, heap', best')
      ensures seen' == seen + SetOf(Nbrs(neighbours.adj, c, layer))
      ensures |seen'| > |seen| || (|seen'| == |seen| && heap' == heap)
    {
      hide Searching, Frontier, Reach;
      visited', heap', best', seen' := visited, heap, best, seen;
      var nbrs := neighbours.GetNeighbours(c, layer);
      for k := 0 to |nbrs|
        invariant |visited'| == |visited| && Flags(visited', seen')
        invariant Searching(dist, vectors, query, neighbours.adj, layer, ep, Width(ef), seen', spent, heap', best')
        invariant Frontier(dist, vectors, query, Width(ef), seen', spent, heap', best')
        invariant forall i :: i in seen' <==> i in seen || i in nbrs[..k]
        invariant |seen'| > |seen| || (|seen'| == |seen| && heap' == heap)
      {
        var nbr: nat := nbrs[k];
        assert nbr in nbrs && nbrs[..k + 1] == nbrs[..k] + [nbr];
        if nbr < |visited'| && !visited'[nbr] {
          ReachStep(neighbours.adj, layer, ep, c, nbr);
          visited' := visited'[nbr := true];
          heap', best' := Offer(query, ef, nbr, heap', best', layer, ep, seen', spent);
          seen' := seen' + {nbr};
        }
      }
      assert nbrs[..|nbrs|] == nbrs;
    }

    /**
     * Beam search on one layer. Returns up to `ef` hits, closest first; `seen` is the set of nodes
     * whose distance it computed.
     */
    method SearchLayer(ep: nat, query: V, ef: int, layer: int) returns (out: seq<Hit>, ghost seen: set<nat>)
      requires nextId == |vectors| && ep < |vectors| && InRange(neighbours.adj, |vectors|)
      ensures Beam(dist, vectors, query, neighbours.adj, layer, ep, Width(ef), out, seen)
      ensures BeamResult(dist, vectors, query, neighbours.adj, layer, ep, Width(ef), out)
    {
      hide Searching, Frontier, Reach, BeamResult, Beam, BestFirst, NextUp, Met, SetOf, First;
      var n := nextId;
      var visited := seq(n, _ => false);
      var start := At(dist, vectors, query, ep);
      visited := visited[ep := true];
      var candidates, results := multiset{start}, multiset{start};
      seen := {ep};
      ghost var order: seq<nat> := [];
      Begin(dist, vectors, query, neighbours.adj, layer, ep, Width(ef));
      FrontierBegins(dist, vectors, query, neighbours.adj, layer, ep, Width(ef));

      while candidates != multiset{}
        invariant |visited| == n && Flags(visited, seen)
        invariant Searching(dist, vectors, query, neighbours.adj, layer, ep, Width(ef), seen, SetOf(order), candidates, results)
        invariant Frontier(dist, vectors, query, Width(ef), seen, SetOf(order), candidates, results)
        invariant seen == Met(neighbours.adj, layer, ep, order)
        invariant BestFirst(dist, vectors, query, neighbours.adj, layer, ep, Width(ef), order)
        decreases n - |seen|, |candidates|
      {
        Peek(dist, vectors, query, neighbours.adj, layer, ep, Width(ef), seen, SetOf(order), candidates, results);
        var c := Top(ByDist, candidates);
        Member(ByDist, candidates, c);
        ghost var heap := candidates;
        candidates := candidates - multiset{c};
        var worst := Top(Furthest, results);
        if |results| >= SizeT(ef) && c.dist > worst.dist {
          EarlyStop(dist, vectors, query, neighbours.adj, layer, ep, Width(ef), seen, SetOf(order), heap, results, c, worst);
          break;
        }
        PopKeeps(dist, vectors, query, neighbours.adj, layer, ep, Width(ef), seen, SetOf(order), heap, results, c);
        PopIsNext(dist, vectors, query, neighbours.adj, layer, ep, ef, seen, order, heap, results, c, worst);
        OrderGrows(dist, vectors, query, neighbours.adj, layer, ep, Width(ef), order, c.id);
        order := order + [c.id];
        visited, candidates, results, seen :=
          Expand(c.id, query, ef, layer, visited, candidates, results, ep, seen, SetOf(order));
      }
      out := Sort(ByDist, results);
      InOrder(order);
      Finish(dist, vectors, query, neighbours.adj, layer, ep, Width(ef), seen, order, candidates, results, out);
      BeamClosure(dist, vectors, query, neighbours.adj, layer, ep, Width(ef), out, seen);
    }

    /** `std::min(M, size)` candidates, closest first; reserving space for a negative number of them throws. */
    method SelectNeighbours(cands: seq<Hit>, cap: int) returns (r: Option<seq<nat>>)
      ensures r == if cap < 0 then None else Some(Selected(cands, cap))
    {
      var take := if cap < |cands| then cap else |cands|;
      if take < 0 { return None; }
      var selected: seq<nat> := [];
      for i := 0 to take
        invariant |selected| == i && forall k :: 0 <= k < i ==> selected[k] == cands[k].id
      {
        selected := selected + [cands[i].id];
      }
      assert take == 0 || selected == Ids(cands[..take]);
      r := Some(selected);
    }

    /** Trims a list that exceeds `cap` to the `cap` nodes nearest to `node`. */
    method PruneConnections(node: nat, layer: nat, cap: int)
      requires node < |vectors| && node < |neighbours.adj| && layer < |neighbours.adj[node]| && cap >= 0
      requires Distinct(Nbrs(neighbours.adj, node, layer))
      modifies neighbours
      ensures Pruned(dist, vectors, node, old(Nbrs(neighbours.adj, node, layer)), cap, Nbrs(neighbours.adj, node, layer))
      ensures SetAt(old(neighbours.adj), neighbours.adj, node, layer)
    {
      hide Pruned;
      var nbrs := neighbours.GetNeighbours(node, layer);
      if |nbrs| <= cap {
        NotPruned(dist, vectors, node, nbrs, cap);
        return;
      }
      var pruned := Nearest(node, nbrs, cap);
      neighbours.SetNeighbours(node, layer, pruned);
    }

    /** The `cap` nodes of `nbrs` nearest to `node`, nearest first. */
    method Nearest(node: nat, nbrs: seq<nat>, cap: nat) returns (pruned: seq<nat>)
      requires cap < |nbrs| && Distinct(nbrs)
      ensures Pruned(dist, vectors, node, nbrs, cap, pruned)
    {
      hide Distinct, LinkTo, SortedBy, TotalPreorder, Pruned;
      var pairs: seq<Hit> := [];
      for i := 0 to |nbrs|
        invariant |pairs| == i && forall k :: 0 <= k < i ==> pairs[k] == LinkTo(dist, vectors, node, nbrs[k])
      {
        pairs := pairs + [LinkTo(dist, vectors, node, nbrs[i])];
      }
      LinkOrder();
      var sorted := Sort(ByDistThenId, multiset(pairs));
      pruned := [];
      for i := 0 to cap
        invariant |pruned| == i && |sorted| == |nbrs|
        invariant forall k :: 0 <= k < i ==> pruned[k] == sorted[k].id
      {
        pruned := pruned + [sorted[i].id];
      }
      PrunedIsPruned(dist, vectors, node, nbrs, pairs, sorted, cap, pruned);
    }

    /** The layer of a new node: any layer the configuration has. */
    method SampleLayer() returns (layer: nat)
      requires Usable(cfg)
      ensures layer < cfg.maxLayers
    {
      layer :| 0 <= layer < cfg.maxLayers;
    }

    /** Links `nbr` back to the new node and prunes its list. */
    method LinkBack(nbr: nat, layer: nat, id: nat, cap: int)
      requires nbr < |vectors| && nbr < |neighbours.adj| && layer < |neighbours.adj[nbr]| && cap >= 0
      requires Distinct(Nbrs(neighbours.adj, nbr, layer)) && id !in Nbrs(neighbours.adj, nbr, layer)
      modifies neighbours
      ensures Pruned(dist, vectors, nbr, old(Nbrs(neighbours.adj, nbr, layer)) + [id], cap, Nbrs(neighbours.adj, nbr, layer))
      ensures SetAt(old(neighbours.adj), neighbours.adj, nbr, layer)
    {
      hide Pruned;
      neighbours.AddNeighbour(nbr, layer, id);
      PruneConnections(nbr, layer, cap);
    }

    /** Links the new node `id` and the selected nodes both ways, pruning each selected node's list. */
    method Connect(id: nat, layer: nat, selected: seq<nat>, cap: int)
      requires |neighbours.adj| == |vectors| == id + 1 && cap >= 0
      requires forall i :: 0 <= i < |neighbours.adj| ==> layer < |neighbours.adj[i]|
      requires Distinct(selected) && forall j :: j in selected ==> j < id
      requires forall i: nat :: i < id ==>
        Distinct(Nbrs(neighbours.adj, i, layer)) && id !in Nbrs(neighbours.adj, i, layer)
      modifies neighbours
      ensures Linked(dist, vectors, old(neighbours.adj), neighbours.adj, layer, id, selected, cap)
      ensures SameOutside(old(neighbours.adj), neighbours.adj, layer)
    {
      hide Pruned;
      ghost var adj0 := neighbours.adj;
      neighbours.SetNeighbours(id, layer, selected);
      for k := 0 to |selected|
        invariant SameOutside(adj0, neighbours.adj, layer)
        invariant Nbrs(neighbours.adj, id, layer) == selected
        invariant forall m :: 0 <= m < k ==>
          Pruned(dist, vectors, selected[m], Nbrs(adj0, selected[m], layer) + [id], cap, Nbrs(neighbours.adj, selected[m], layer))
        invariant forall i: nat :: i != id && i !in selected[..k] ==> Nbrs(neighbours.adj, i, layer) == Nbrs(adj0, i, layer)
      {
        var nbr: nat := selected[k];
        assert nbr in selected && nbr !in selected[..k];
        LinkBack(nbr, layer, id, cap);
      }
    }

    /** Beam search and linking on the layers `top` down to 0, starting at `start`; throws at layer 0 if its bound is negative. */
    method ConnectLayers(id: nat, vec: V, start: nat, top: nat, ghost s: State<V>) returns (threw: bool, ghost runs: seq<LayerSearch>)
      requires Usable(cfg) && GraphOk(cfg, s) && nextId == |vectors| == id + 1 == |s.vectors| + 1
      requires neighbours.adj == Resized(s.adj, cfg.maxLayers) && start < id && top < cfg.maxLayers
      modifies neighbours
      ensures threw <==> cfg.Mmax0 < 0
      ensures |runs| == top + 1 && runs[top].ep == start
      ensures Layers(cfg, dist, vectors, vec, Resized(s.adj, cfg.maxLayers), neighbours.adj, runs, Stop(cfg))
    {
      hide Beam, BeamResult, Linked, Pruned, Layers, Reach, Selected, GraphOk;
      ghost var base := neighbours.adj;
      ResizedKeeps(cfg, s, vec);
      var ep: nat, l: int := start, top;
      runs := seq(top + 1, _ => LayerSearch(start, [], {}));
      NoLayersDone(cfg, dist, vectors, vec, base, runs);
      while l >= 0
        invariant Stop(cfg) <= l < |runs| == top + 1 && ep < id
        invariant Layers(cfg, dist, vectors, vec, base, neighbours.adj, runs, l)
        invariant if l == |runs| - 1 then ep == start
                  else runs[l + 1].cands != [] && ep == runs[l + 1].cands[0].id
        invariant runs[|runs| - 1].ep == start
        invariant InRange(neighbours.adj, |vectors|)
        modifies neighbours
      {
        ghost var adj0 := neighbours.adj;
        var cands, seen := SearchLayer(ep, vec, cfg.efConstruction, l);
        var selected := SelectNeighbours(cands, Cap(cfg, l));
        if selected.None? { return true, runs; }
        SearchedOldNodes(cfg, dist, vectors, vec, base, adj0, runs, l, ep, cands, seen);
        Connect(id, l, selected.value, Cap(cfg, l));
        LayerDone(cfg, dist, vectors, vec, base, adj0, neighbours.adj, runs, l, ep, cands, seen);
        LinkedInRange(dist, vectors, adj0, neighbours.adj, l, id, selected.value, Cap(cfg, l));
        runs := runs[l := LayerSearch(ep, cands, seen)];
        if cands != [] { ep := cands[0].id; }
        l := l - 1;
      }
      threw := false;
    }

    /**
     * Inserts one vector; `node` is its sampled layer and `runs` the beam search of each layer. With a
     * negative `M_max0` every insert but the first throws, after it has stored the vector.
     */
    method Insert(vec: V) returns (r: InsertOutcome, ghost node: nat, ghost runs: seq<LayerSearch>)
      requires Valid()
      modifies this, neighbours
      ensures Valid() && node < cfg.maxLayers
      ensures r == if InsertThrows(cfg, old(Value())) then InsertThrew else Inserted(old(|vectors|))
      ensures InsertStep(cfg, dist, old(Value()), vec, node, runs, Value())
    {
      hide Beam, Linked, Pruned, Layers, Reach, Selected, GraphOk, Connected;
      ghost var s := Value();
      ResizedKeeps(cfg, s, vec);
      var id := nextId;
      nextId := nextId + 1;
      vectors := vectors + [vec];
      neighbours.Resize(id + 1, cfg.maxLayers);
      ghost var base := neighbours.adj;
      assert base == Resized(s.adj, cfg.maxLayers);
      var nodeLayer := SampleLayer();
      node, runs := nodeLayer, [];
      level := level + [Reached(cfg, s, nodeLayer)];
      var curMax := maxLayer;
      if curMax < 0 {
        entryPoint, maxLayer := id, nodeLayer;
        InsertKeeps(cfg, dist, s, vec, node, runs, Value());
        return Inserted(id), node, runs;
      }
      var ep: nat := Descend(entryPoint, vec, curMax, nodeLayer + 1);
      DescentLevel(cfg, dist, s, vectors, vec, base, curMax, nodeLayer + 1, entryPoint, ep);
      var l := if nodeLayer < curMax then nodeLayer else curMax;
      var threw;
      threw, runs := ConnectLayers(id, vec, ep, l, s);
      if !threw && nodeLayer > curMax {
        entryPoint, maxLayer := id, nodeLayer;
      }
      InsertKeeps(cfg, dist, s, vec, node, runs, Value());
      r := if threw then InsertThrew else Inserted(id);
    }

    /** Coarse descent to layer 1, then a beam on layer 0; keeps the first `topK` hits. */
    method Search(query: V, topK: int, ef: int) returns (r: SearchOutcome, ghost ep: nat, ghost cands: seq<Hit>, ghost seen: set<nat>)
      requires Valid()
      ensures r.LengthError? <==> topK < 0 && |vectors| > 0
      ensures r.Found? ==> SearchStep(dist, Value(), query, topK, ef, ep, cands, seen, r.hits)
    {
      hide Beam, BeamResult, Reach, Connected;
      ep, cands, seen := 0, [], {};
      if maxLayer < 0 {
        return Found([]), ep, cands, seen;
      }
      SearchRanges(cfg, Value());
      var efActual := if ef < topK then topK else ef;
      var at := Descend(entryPoint, query, maxLayer, 1);
      var candidates;
      candidates, seen := SearchLayer(at, query, efActual, 0);
      ep, cands := at, candidates;
      NonEmptyBeam(dist, vectors, query, neighbours.adj, 0, at, Width(efActual), cands, seen);
      if |candidates| > topK {
        if topK < 0 { return LengthError, ep, cands, seen; }
        candidates := candidates[..topK];
      }
      r := Found(candidates);
    }

    /** `search(query, topK)` uses the configured beam width. */
    method SearchDefault(query: V, topK: int) returns (r: SearchOutcome, ghost ep: nat, ghost cands: seq<Hit>, ghost seen: set<nat>)
      requires Valid()
      ensures r.LengthError? <==> topK < 0 && |vectors| > 0
      ensures r.Found? ==> SearchStep(dist, Value(), query, topK, cfg.efSearch, ep, cands, seen, r.hits)
    {
      r, ep, cands, seen := Search(query, topK, cfg.efSearch);
    }

    /** Restores a saved index into a new one; missing lists are empty. `level` is the ghost layer of each node. */
    method LoadFromSnapshot(rows: seq<V>, adj: Adj, entryPoint: nat, maxLayer: int, ghost level: seq<nat>)
      requires Valid() && vectors == []
      requires forall i :: 0 <= i < |rows| && i < |adj| ==> |adj[i]| <= cfg.maxLayers
      modifies this, neighbours
      ensures Value() == State(rows, Padded(adj, |rows|, cfg.maxLayers), entryPoint, maxLayer, level)
      ensures Inv(cfg, Value()) ==> Valid()
    {
      vectors := rows;
      neighbours.Resize(|rows|, cfg.maxLayers);
      for node := 0 to |rows|
        invariant |neighbours.adj| == |rows|
        invariant forall i :: 0 <= i < |rows| ==>
          neighbours.adj[i] == if i < node && i < |adj| then PaddedLists(adj[i], cfg.maxLayers) else NoLinks(cfg.maxLayers)
        modifies neighbours
      {
        if node < |adj| {
          for l := 0 to |adj[node]|
            invariant |neighbours.adj| == |rows| && |neighbours.adj[node]| == cfg.maxLayers
            invariant forall i :: 0 <= i < |rows| && i != node ==>
              neighbours.adj[i] == if i < node && i < |adj| then PaddedLists(adj[i], cfg.maxLayers) else NoLinks(cfg.maxLayers)
            invariant forall k :: 0 <= k < cfg.maxLayers ==> neighbours.adj[node][k] == if k < l then adj[node][k] else []
            modifies neighbours
          {
            neighbours.SetNeighbours(node, l, adj[node][l]);
          }
          assert neighbours.adj[node] == PaddedLists(adj[node], cfg.maxLayers);
        }
      }
      nextId := |rows|;
      this.entryPoint, this.maxLayer, this.level := entryPoint, maxLayer, level;
      assert neighbours.adj == Padded(adj, |rows|, cfg.maxLayers);
    }
  }
}
