/** What the HNSW index computes, said about values: the state, one beam search, one insert. */
module HnswSpec {
  import opened Sorting
  import opened Hits
  import opened Graphs

  /** The configuration; the memory arena is not modelled. All fields are 32-bit `int`s in the source. */
  datatype Config = Config(dim: int, M: int, Mmax0: int, efConstruction: int, efSearch: int, maxLayers: int)

  /** What the constructor checks. */
  predicate Usable(cfg: Config) {
    cfg.dim > 0 && cfg.M >= 2 && cfg.efConstruction >= 1 && cfg.maxLayers >= 1
  }

  /** The configured bound of a layer's lists. The constructor accepts any bound for layer 0. */
  function Cap(cfg: Config, layer: int): int { if layer == 0 then cfg.Mmax0 else cfg.M }

  /** The largest list a layer may hold. */
  function Room(cfg: Config, layer: int): nat { if Cap(cfg, layer) < 0 then 0 else Cap(cfg, layer) }

  /** The layer below the last one an insert links: with a negative bound it throws when it selects links on layer 0. */
  function Stop(cfg: Config): int { if cfg.Mmax0 < 0 then 0 else -1 }

  /** Whether an insert throws. The vector is stored by then, and the layers above 0 are linked. */
  predicate InsertThrows<V>(cfg: Config, s: State<V>) { cfg.Mmax0 < 0 && s.maxLayer >= 0 }

  /** The highest layer a new node with sampled layer `node` is known on. */
  function Reached<V>(cfg: Config, s: State<V>, node: nat): nat {
    if InsertThrows(cfg, s) && node > s.maxLayer then s.maxLayer else node
  }

  /** `static_cast<size_t>` of an `int`. */
  function SizeT(x: int): int { if x < 0 then 0x1_0000_0000_0000_0000 + x else x }

  /** The number of results a beam of width `ef` keeps: the start node is kept even when `ef` is 0. */
  function Width(ef: int): int { if SizeT(ef) < 1 then 1 else SizeT(ef) }

  /** The index as a value. `level` is each node's layer, which the source does not store. */
  datatype State<!V> = State(vectors: seq<V>, adj: Adj, entryPoint: nat, maxLayer: int, level: seq<nat>)

  /** Distance from node `i` to the query. */
  function D<V>(dist: Metric<V>, vs: seq<V>, q: V, i: nat): real {
    if i < |vs| then dist(vs[i], q) else 0.0
  }

  function At<V>(dist: Metric<V>, vs: seq<V>, q: V, i: nat): Hit { Hit(D(dist, vs, q, i), i) }

  ghost predicate InRange(adj: Adj, n: nat) {
    forall i: nat, l: int, j: nat :: j in Nbrs(adj, i, l) ==> j < n
  }

  // ---- greedy descent -------------------------------------------------------

  /** A greedy walk moves from `a` to `b`: the first of the closest neighbours, if it is closer than `a`. */
  ghost predicate Moves<V>(dist: Metric<V>, vs: seq<V>, q: V, adj: Adj, layer: int, a: nat, b: nat) {
    D(dist, vs, q, b) < D(dist, vs, q, a) && FirstNearest(dist, vs, q, Nbrs(adj, a, layer), b)
  }

  /** `b` is the first of the entries of `list` that are nearest to the query. */
  ghost predicate FirstNearest<V>(dist: Metric<V>, vs: seq<V>, q: V, list: seq<nat>, b: nat) {
    exists k :: 0 <= k < |list| && list[k] == b && NearestAt(dist, vs, q, list, k)
  }

  ghost predicate NearestAt<V>(dist: Metric<V>, vs: seq<V>, q: V, list: seq<nat>, k: nat)
    requires k < |list|
  {
    && (forall m :: 0 <= m < |list| ==> D(dist, vs, q, list[k]) <= D(dist, vs, q, list[m]))
    && (forall m :: 0 <= m < k ==> D(dist, vs, q, list[k]) < D(dist, vs, q, list[m]))
  }

  ghost predicate Walk<V>(dist: Metric<V>, vs: seq<V>, q: V, adj: Adj, layer: int, p: seq<nat>, from: nat, to: nat) {
    && |p| > 0 && p[0] == from && p[|p| - 1] == to
    && forall i, j :: 0 <= i && j == i + 1 && j < |p| ==> Moves(dist, vs, q, adj, layer, p[i], p[j])
  }

  /** `to` is where a greedy walk on one layer from `from` ends. */
  ghost predicate GreedyEnd<V>(dist: Metric<V>, vs: seq<V>, q: V, adj: Adj, layer: int, from: nat, to: nat) {
    && to < |vs| && Reach(adj, layer, from, to)
    && (to == from || D(dist, vs, q, to) < D(dist, vs, q, from))
    && (forall j :: j in Nbrs(adj, to, layer) ==> D(dist, vs, q, to) <= D(dist, vs, q, j))
    && exists p :: Walk(dist, vs, q, adj, layer, p, from, to)
  }

  /** Greedy walks on the layers `hi`, `hi - 1`, ..., `lo` lead from `from` to `to`. */
  ghost predicate Descent<V>(dist: Metric<V>, vs: seq<V>, q: V, adj: Adj, hi: int, lo: int, from: nat, to: nat)
    decreases hi - lo
  {
    if hi < lo then to == from
    else exists mid :: Descent(dist, vs, q, adj, hi, lo + 1, from, mid) && GreedyEnd(dist, vs, q, adj, lo, mid, to)
  }

  // ---- beam search ----------------------------------------------------------

  /** What a beam search of width `width` from `ep` returns, having looked at exactly the nodes `seen`. */
  ghost predicate Beam<V>(dist: Metric<V>, vs: seq<V>, q: V, adj: Adj, layer: int, ep: nat, width: int,
                          out: seq<Hit>, seen: set<nat>)
  {
    && ep in seen
    && (forall i :: i in seen ==> i < |vs| && Reach(adj, layer, ep, i))
    && (forall h :: h in out ==> h.id in seen && h == At(dist, vs, q, h.id))
    && SortedBy(ByDist, out) && DistinctIds(out)
    && |out| == (if |seen| < width then |seen| else width)
    // every node seen and not returned is no closer than any returned one
    && (forall i :: i in seen ==>
          At(dist, vs, q, i) in out || (|seen| > width && forall h :: h in out ==> h.dist <= D(dist, vs, q, i)))
    // every returned node has been expanded
    && (forall h, j :: h in out && j in Nbrs(adj, h.id, layer) ==> j in seen)
    && exists order :: Explored(dist, vs, q, adj, layer, ep, width, order, out, seen)
  }

  ghost function SetOf(s: seq<nat>): set<nat> { set x: nat | x in s }

  /** The nodes met once the nodes of `order` have been expanded. */
  ghost function Met(adj: Adj, layer: int, ep: nat, order: seq<nat>): set<nat> {
    if order == [] then {ep} else Met(adj, layer, ep, order[..|order| - 1]) + SetOf(Nbrs(adj, order[|order| - 1], layer))
  }

  /** The nodes of `met` strictly closer to the query than `d`. */
  ghost function Nearer<V>(dist: Metric<V>, vs: seq<V>, q: V, met: set<nat>, d: real): set<nat> {
    set i | i in met && D(dist, vs, q, i) < d
  }

  /** Best first: `c` is a closest node not yet expanded, and fewer than `width` nodes met are closer. */
  ghost predicate NextUp<V>(dist: Metric<V>, vs: seq<V>, q: V, width: int, met: set<nat>, done: seq<nat>, c: nat) {
    && c in met && c !in done
    && (forall i :: i in met && i !in done ==> D(dist, vs, q, c) <= D(dist, vs, q, i))
    && |Nearer(dist, vs, q, met, D(dist, vs, q, c))| < width
  }

  ghost predicate BestFirst<V>(dist: Metric<V>, vs: seq<V>, q: V, adj: Adj, layer: int, ep: nat, width: int, order: seq<nat>) {
    forall k :: 0 <= k < |order| ==> NextUp(dist, vs, q, width, Met(adj, layer, ep, order[..k]), order[..k], order[k])
  }

  /** The search expanded exactly the nodes of `order`, best first, met exactly the nodes `seen`, and expanded all it returned. */
  ghost predicate Explored<V>(dist: Metric<V>, vs: seq<V>, q: V, adj: Adj, layer: int, ep: nat, width: int,
                              order: seq<nat>, out: seq<Hit>, seen: set<nat>) {
    && seen == Met(adj, layer, ep, order) && BestFirst(dist, vs, q, adj, layer, ep, width, order)
    && forall h :: h in out ==> h.id in order
  }

  /** What the loop knows of the nodes not yet expanded: they wait on the heap, or were refused because the beam was full. */
  ghost predicate Frontier<V>(dist: Metric<V>, vs: seq<V>, q: V, width: int, seen: set<nat>, spent: set<nat>,
                              heap: multiset<Hit>, best: multiset<Hit>) {
    && spent <= seen
    && (forall h :: h in heap ==> h.id in seen && h.id !in spent && h == At(dist, vs, q, h.id))
    && (forall h :: heap[h] <= 1)
    && (forall i :: i in seen && i !in spent ==>
          At(dist, vs, q, i) in heap || (|seen| > width && forall b :: b in best ==> b.dist <= D(dist, vs, q, i)))
  }

  /**
   * What the caller of a beam search sees: distinct reachable nodes in distance order, at most `width`,
   * the first no farther than the start, and closed: a neighbour left out is no closer than any of them, and the beam was full.
   */
  ghost predicate BeamResult<V>(dist: Metric<V>, vs: seq<V>, q: V, adj: Adj, layer: int, ep: nat, width: int, out: seq<Hit>) {
    && 0 < |out| <= width && SortedBy(ByDist, out) && DistinctIds(out)
    && (forall h :: h in out ==> h.id < |vs| && h == At(dist, vs, q, h.id) && Reach(adj, layer, ep, h.id))
    && out[0].dist <= D(dist, vs, q, ep)
    && (forall r, j, h :: r in out && j in Nbrs(adj, r.id, layer) && h in out ==>
          At(dist, vs, q, j) in out || (|out| == width && h.dist <= D(dist, vs, q, j)))
  }

  /** The loop invariant of the beam search. `spent` holds the nodes expanded or being expanded. */
  ghost predicate Searching<V>(dist: Metric<V>, vs: seq<V>, q: V, adj: Adj, layer: int, ep: nat, width: int,
                               seen: set<nat>, spent: set<nat>, heap: multiset<Hit>, best: multiset<Hit>)
  {
    && ep in seen
    && (forall i :: i in seen ==> i < |vs| && Reach(adj, layer, ep, i))
    && (forall h :: h in heap ==> h.id in seen && h == At(dist, vs, q, h.id))
    && (forall h :: h in best ==> h.id in seen && h == At(dist, vs, q, h.id))
    && (forall h :: best[h] <= 1)
    && |best| == (if |seen| < width then |seen| else width)
    && (forall i :: i in seen ==>
          At(dist, vs, q, i) in best || (|seen| > width && forall h :: h in best ==> h.dist <= D(dist, vs, q, i)))
    && (forall h :: h in best ==> h in heap || h.id in spent)
  }

  /** Offering `h` to a beam of width `ef` may turn the heaps `heap`, `best` into `heap'`, `best'`. */
  ghost predicate Offered(h: Hit, ef: int, heap: multiset<Hit>, best: multiset<Hit>, heap': multiset<Hit>, best': multiset<Hit>) {
    if |best| < SizeT(ef) then heap' == heap + multiset{h} && best' == best + multiset{h}
    else if forall b :: b in best ==> b.dist <= h.dist then heap' == heap && best' == best
    else
      && heap' == heap + multiset{h}
      && exists w :: First(Furthest, best + multiset{h}, w) && best' == best + multiset{h} - multiset{w}
  }

  /** `visited` is the flag array of the set `seen`. */
  ghost predicate Flags(visited: seq<bool>, seen: set<nat>) {
    forall i: nat :: i in seen <==> i < |visited| && visited[i]
  }

  /** The nodes strictly closer to the query than `d`. */
  ghost function Closer<V>(dist: Metric<V>, vs: seq<V>, q: V, d: real): set<nat> {
    set i | i in Below(|vs|) && D(dist, vs, q, i) < d
  }

  // ---- linking --------------------------------------------------------------

  /** The entry `prune_connections` sorts `n` by. */
  function LinkTo<V>(dist: Metric<V>, vs: seq<V>, node: nat, n: nat): (r: Hit)
    ensures r.id == n
  {
    Hit(if node < |vs| && n < |vs| then dist(vs[node], vs[n]) else 0.0, n)
  }

  predicate Distinct(s: seq<nat>) { forall i, j :: 0 <= i < j < |s| ==> s[i] != s[j] }

  /** `out` is what pruning leaves of `list`: nothing changes up to `cap`, else the `cap` nearest, nearest first. */
  ghost predicate Pruned<V>(dist: Metric<V>, vs: seq<V>, node: nat, list: seq<nat>, cap: int, out: seq<nat>) {
    if |list| <= cap then out == list
    else
      && |out| == cap && Distinct(out)
      && (forall x :: x in out ==> x in list)
      && (forall i, j :: 0 <= i < j < |out| ==>
            ByDistThenId(LinkTo(dist, vs, node, out[i]), LinkTo(dist, vs, node, out[j])))
      && (forall x, y :: x in list && x !in out && y in out ==>
            ByDistThenId(LinkTo(dist, vs, node, y), LinkTo(dist, vs, node, x)))
  }

  /** Layer `layer` of `adj'` is that of `adj` after linking `id` and `sel` both ways and pruning. */
  ghost predicate Linked<V>(dist: Metric<V>, vs: seq<V>, adj: Adj, adj': Adj, layer: int, id: nat, sel: seq<nat>, cap: int) {
    forall i: nat ::
      if i == id then Nbrs(adj', i, layer) == sel
      else if i in sel then Pruned(dist, vs, i, Nbrs(adj, i, layer) + [id], cap, Nbrs(adj', i, layer))
      else Nbrs(adj', i, layer) == Nbrs(adj, i, layer)
  }

  ghost predicate SameShape(a: Adj, b: Adj) {
    |a| == |b| && forall i :: 0 <= i < |a| ==> |a[i]| == |b[i]|
  }

  /** `a` and `b` differ in at most the list of `node` on `layer`. */
  ghost predicate SetAt(a: Adj, b: Adj, node: nat, layer: nat) {
    SameShape(a, b) && forall i: nat, l: int :: i != node || l != layer ==> Nbrs(b, i, l) == Nbrs(a, i, l)
  }

  /** `a` and `b` differ in at most the lists of `layer`. */
  ghost predicate SameOutside(a: Adj, b: Adj, layer: nat) {
    SameShape(a, b) && forall i: nat, l: int :: l != layer ==> Nbrs(b, i, l) == Nbrs(a, i, l)
  }

  /** `select_neighbours`: the first `cap` candidates. */
  function Selected(cands: seq<Hit>, cap: int): seq<nat> {
    var take := if cap < |cands| then cap else |cands|;
    if take <= 0 then [] else Ids(cands[..take])
  }

  /** The beam search an insert ran on one layer. */
  datatype LayerSearch = LayerSearch(ep: nat, cands: seq<Hit>, seen: set<nat>)

  function Resized(adj: Adj, maxLayers: int): Adj {
    adj + [NoLinks(if maxLayers < 0 then 0 else maxLayers)]
  }

  /**
   * The layers above `l` of the graph `base` have been searched and linked, one `runs` entry a layer;
   * every search starts at the closest candidate of the layer above it. The new node is the last one.
   */
  ghost predicate Layers<V>(cfg: Config, dist: Metric<V>, vs: seq<V>, vec: V, base: Adj, adj: Adj, runs: seq<LayerSearch>, l: int) {
    && |vs| > 0 && SameShape(base, adj)
    && (forall k :: l < k < |runs| && 0 <= k ==>
          && Beam(dist, vs, vec, base, k, runs[k].ep, Width(cfg.efConstruction), runs[k].cands, runs[k].seen)
          && Linked(dist, vs, base, adj, k, |vs| - 1, Selected(runs[k].cands, Cap(cfg, k)), Cap(cfg, k)))
    && (forall i: nat, k: int :: !(l < k < |runs|) ==> Nbrs(adj, i, k) == Nbrs(base, i, k))
    && (forall k :: l + 1 < k < |runs| && 1 <= k ==> runs[k].cands != [] && runs[k - 1].ep == runs[k].cands[0].id)
  }

  /** Inserting `vec` with sampled layer `node` may take `s` to `s'`, running the searches `runs`, one per layer. */
  ghost predicate InsertStep<V>(cfg: Config, dist: Metric<V>, s: State<V>, vec: V, node: nat, runs: seq<LayerSearch>, s': State<V>) {
    var id := |s.vectors|;
    var base := Resized(s.adj, cfg.maxLayers);
    && s'.vectors == s.vectors + [vec] && s'.level == s.level + [Reached(cfg, s, node)]
    && if s.maxLayer < 0 then
         runs == [] && s'.adj == base && s'.entryPoint == id && s'.maxLayer == node
       else
         && |runs| == (if node < s.maxLayer then node else s.maxLayer) + 1
         && Descent(dist, s'.vectors, vec, base, s.maxLayer, node + 1, s.entryPoint, runs[|runs| - 1].ep)
         && Layers(cfg, dist, s'.vectors, vec, base, s'.adj, runs, Stop(cfg))
         && s'.entryPoint == (if Reached(cfg, s, node) > s.maxLayer then id else s.entryPoint)
         && s'.maxLayer == (if Reached(cfg, s, node) > s.maxLayer then node else s.maxLayer)
  }

  /** `search(q, topK, ef)` on `s` may return `out`: a descent to layer 1, a beam on layer 0, the first `topK`. */
  ghost predicate SearchStep<V>(dist: Metric<V>, s: State<V>, q: V, topK: int, ef: int, ep: nat, cands: seq<Hit>, seen: set<nat>, out: seq<Hit>) {
    if s.maxLayer < 0 then out == []
    else
      && Descent(dist, s.vectors, q, s.adj, s.maxLayer, 1, s.entryPoint, ep)
      && Beam(dist, s.vectors, q, s.adj, 0, ep, Width(if ef < topK then topK else ef), cands, seen)
      && topK >= 0 && out == (if |cands| > topK then cands[..topK] else cands)
  }

  /** `out` lists the `k` nodes of `nodes` nearest to the query (all of them when there are fewer), in order. */
  ghost predicate TopK<V>(dist: Metric<V>, vs: seq<V>, q: V, nodes: set<nat>, k: nat, out: seq<Hit>) {
    && SortedBy(ByDist, out) && DistinctIds(out)
    && (forall h :: h in out ==> h.id in nodes && h == At(dist, vs, q, h.id))
    && |out| == (if |nodes| < k then |nodes| else k)
    && (forall i, h :: i in nodes && h in out && At(dist, vs, q, i) !in out ==> h.dist <= D(dist, vs, q, i))
  }

  // ---- the invariant --------------------------------------------------------

  /** One list of the graph: in range, no self-loop, no repetition, within its bound. */
  ghost predicate ListOk(list: seq<nat>, node: nat, n: nat, cap: int) {
    |list| <= cap && Distinct(list) && node !in list && forall j :: j in list ==> j < n
  }

  ghost predicate GraphOk<V>(cfg: Config, s: State<V>) {
    var n := |s.vectors|;
    && |s.adj| == n && |s.level| == n
    && (forall i :: 0 <= i < n ==> |s.adj[i]| == cfg.maxLayers)
    && (forall i: nat, l: int {:trigger Nbrs(s.adj, i, l)} :: i < n ==> ListOk(Nbrs(s.adj, i, l), i, n, Room(cfg, l)))
    // links on layer l join only nodes of level l or higher
    && (forall i: nat, l: int, j: nat :: j in Nbrs(s.adj, i, l) && i < n ==> j < n && s.level[i] >= l && s.level[j] >= l)
    && (if n == 0 then s.maxLayer == -1 && s.entryPoint == 0
        else s.entryPoint < n && s.level[s.entryPoint] == s.maxLayer)
    // the entry point is the first node on the top layer
    && (forall i :: 0 <= i < n && i < s.entryPoint ==> s.level[i] < s.maxLayer)
    && (forall i :: 0 <= i < n ==> s.level[i] <= s.maxLayer && s.level[i] < cfg.maxLayers)
    // with two nodes or more and room for links, every node has one on layer 0
    && (n >= 2 && cfg.Mmax0 >= 1 ==> forall i: nat :: i < n ==> Nbrs(s.adj, i, 0) != [])
  }

  /** Layer 0 is symmetric and every node reaches every other. */
  ghost predicate Connected<V>(s: State<V>) {
    && (forall i: nat, j: nat :: j in Nbrs(s.adj, i, 0) ==> i in Nbrs(s.adj, j, 0))
    && (forall i: nat, j: nat :: i < |s.vectors| && j < |s.vectors| ==> Reach(s.adj, 0, i, j))
  }

  /** The class invariant: the graph is well formed and, while it is small, connected. */
  ghost predicate Inv<V>(cfg: Config, s: State<V>) {
    GraphOk(cfg, s) && (|s.vectors| <= cfg.Mmax0 + 1 ==> Connected(s))
  }

  // ---- runs -----------------------------------------------------------------

  function Empty<V>(): State<V> { State([], [], 0, -1, []) }

  /** One insert of a run: the vector, its sampled layer and the searches it ran. */
  datatype Insertion<!V> = Insertion(vec: V, node: nat, runs: seq<LayerSearch>)

  /** `states` are the states of a run of inserts on an index that starts empty. */
  ghost predicate Run<V>(cfg: Config, dist: Metric<V>, states: seq<State<V>>, ins: seq<Insertion<V>>) {
    && |states| == |ins| + 1 && states[0] == Empty()
    && forall k :: 0 <= k < |ins| ==>
         ins[k].node < cfg.maxLayers && InsertStep(cfg, dist, states[k], ins[k].vec, ins[k].node, ins[k].runs, states[k + 1])
  }
}
