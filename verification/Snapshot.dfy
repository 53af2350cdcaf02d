/** Saving an index to its two files and loading it back. */
module Snapshots {
  import opened Bytes
  import Graphs
  import opened HnswSpec
  import opened HnswIndexes
  import opened Segments
  import opened GraphText
  import opened GraphReaders
  import opened GraphRoundTrip

  /** The segment file and the graph file of one shard. */
  datatype Files = Files(seg: seq<Byte>, graph: string)

  /** The fields of the configuration are 32-bit integers. */
  predicate IntConfig(cfg: Config) {
    IsInt32(cfg.dim) && IsInt32(cfg.M) && IsInt32(cfg.Mmax0) && IsInt32(cfg.efConstruction) && IsInt32(cfg.efSearch) && IsInt32(cfg.maxLayers)
  }

  /** An index that can be saved: 32-bit ids, and rows of the configured size. */
  ghost predicate Savable(cfg: Config, s: State<Vector>) {
    && IntConfig(cfg) && cfg.dim > 0 && RowSize(cfg.dim) <= GROW_BYTES && |s.vectors| < 0x1_0000_0000
    && forall i :: 0 <= i < |s.vectors| ==> |s.vectors[i]| == RowSize(cfg.dim)
  }

  function GraphOf(cfg: Config, s: State<Vector>): JsonGraph {
    JsonGraph(1, cfg.dim, |s.vectors|, cfg.M, cfg.Mmax0, cfg.efConstruction, cfg.efSearch, cfg.maxLayers, s.entryPoint, s.maxLayer, s.adj)
  }

  datatype LoadError = BadGraph | UnsupportedVersion | DimMismatch | BadSegment(error: SegmentError) | SegDimMismatch | SegCountMismatch

  /** What loading `files` into a new index of configuration `cfg` gives. */
  datatype Loaded = Restored(rows: seq<Vector>, adj: Graphs.Adj, entryPoint: nat, maxLayer: int) | Refused(error: LoadError)

  /** Every row the segment header promises lies in the file. */
  predicate RowsFit(seg: seq<Byte>) {
    |seg| >= Segments.HEADER && Segments.ReadHeader(seg).Accepted? ==>
      forall i :: 0 <= i < Segments.ReadHeader(seg).count ==>
        Segments.HEADER + SlotAt(RowSize(Segments.ReadHeader(seg).dim), i) + RowSize(Segments.ReadHeader(seg).dim) <= |seg|
  }

  function RowsOf(seg: seq<Byte>): (r: seq<Vector>)
    requires RowsFit(seg) && |seg| >= Segments.HEADER && Segments.ReadHeader(seg).Accepted?
    ensures |r| == Segments.ReadHeader(seg).count
    ensures forall i :: 0 <= i < |r| ==>
      Segments.HEADER + SlotAt(RowSize(Segments.ReadHeader(seg).dim), i) + RowSize(Segments.ReadHeader(seg).dim) <= |seg|
      && r[i] == Row(seg, Segments.ReadHeader(seg).dim, i)
  {
    var h := Segments.ReadHeader(seg);
    seq(h.count, i requires 0 <= i < h.count => Row(seg, h.dim, i))
  }

  /** `load`, check by check. */
  function LoadFiles(cfg: Config, files: Files): Loaded
    requires RowsFit(files.seg)
  {
    match Parse(files.graph)
    case Throws => Refused(BadGraph)
    case Ok(g, _) =>
      if g.version != 1 then Refused(UnsupportedVersion)
      else if g.dim != cfg.dim then Refused(DimMismatch)
      else if |files.seg| < Segments.HEADER then Refused(BadSegment(FileTooSmall))
      else match Segments.ReadHeader(files.seg)
        case Rejected(e) => Refused(BadSegment(e))
        case Accepted(dim, count) =>
          if dim != UInt32(g.dim) then Refused(SegDimMismatch)
          else if count != g.vecCount then Refused(SegCountMismatch)
          else Restored(RowsOf(files.seg), g.adj, g.entryPoint, g.maxLayer)
  }

  /** The rows of a stored segment lie in the file and are the ones that were stored. */
  lemma RowsStored(seg: seq<Byte>, dim: nat, rows: seq<Vector>)
    requires Stores(seg, dim, rows)
    ensures |seg| >= Segments.HEADER && Segments.ReadHeader(seg) == Segments.Accepted(dim, |rows|)
    ensures RowsFit(seg) && RowsOf(seg) == rows
  {
    hide Segments.ReadHeader, Front;
    HeaderReadsBack(seg, dim, rows);
    forall i | 0 <= i < |rows|
      ensures Segments.HEADER + SlotAt(RowSize(dim), i) + RowSize(dim) <= |seg| && Row(seg, dim, i) == rows[i]
    {
      assert RowIs(seg, dim, i, rows[i]);
    }
  }

  /** Loading what was saved gives back the vectors, every list, the entry point and the top layer. */
  lemma SnapshotRoundTrip(cfg: Config, s: State<Vector>, seg: seq<Byte>)
    requires Usable(cfg) && GraphOk(cfg, s) && Savable(cfg, s) && Stores(seg, cfg.dim, s.vectors)
    ensures RowsFit(seg)
    ensures LoadFiles(cfg, Files(seg, Print(GraphOf(cfg, s)))) == Restored(s.vectors, s.adj, s.entryPoint, s.maxLayer)
    ensures Graphs.Padded(s.adj, |s.vectors|, cfg.maxLayers) == s.adj
  {
    hide Print, Parse, Segments.ReadHeader, Stores, RowsFit, RowsOf;
    GraphPrintable(cfg, s);
    ParsePrint(GraphOf(cfg, s));
    RowsStored(seg, cfg.dim, s.vectors);
    forall i | 0 <= i < |s.adj|
      ensures Graphs.PaddedLists(s.adj[i], cfg.maxLayers) == s.adj[i]
    {
    }
  }

  lemma GraphPrintable(cfg: Config, s: State<Vector>)
    requires Usable(cfg) && GraphOk(cfg, s) && Savable(cfg, s)
    ensures Printable(GraphOf(cfg, s))
  {
    forall i | 0 <= i < |s.adj|
      ensures Layers32(s.adj[i])
    {
      forall l | 0 <= l < |s.adj[i]|
        ensures Ids32(s.adj[i][l])
      {
        var list := Graphs.Nbrs(s.adj, i, l);
        assert list == s.adj[i][l] && ListOk(list, i, |s.vectors|, Room(cfg, l));
        assert forall k :: 0 <= k < |list| ==> list[k] in list;
      }
    }
  }

  // ---- the writer ---------------------------------------------------------------------

  // One more element of each kind of list moves from what is left to what is written.

  lemma IdsStep(f: string, ids: seq<nat>, i: nat)
    requires i < |ids|
    ensures f + ShowIds(ids[i..]) == f + ShowNat(ids[i]) + (if i + 1 < |ids| then "," else "") + ShowIds(ids[i + 1..])
  {
    hide ShowNat;
    assert ids[i..][1..] == ids[i + 1..] && ids[i..][0] == ids[i];
  }

  lemma LayersStep(f: string, lists: seq<seq<nat>>, l: nat)
    requires l < |lists|
    ensures f + ShowLayers(lists[l..]) ==
      f + "[" + ShowIds(lists[l]) + "]" + (if l + 1 < |lists| then "," else "") + ShowLayers(lists[l + 1..])
  {
    hide ShowIds;
    assert lists[l..][1..] == lists[l + 1..] && lists[l..][0] == lists[l];
  }

  lemma NodesStep(f: string, adj: Graphs.Adj, node: nat)
    requires node < |adj|
    ensures f + ShowNodes(adj[node..]) ==
      f + "    {\"l\":[" + ShowLayers(adj[node]) + "]}" + (if node + 1 < |adj| then "," else "") + "\n" + ShowNodes(adj[node + 1..])
  {
    hide ShowLayers;
    assert adj[node..][1..] == adj[node + 1..] && adj[node..][0] == adj[node];
  }

  method WriteIds(nbrs: seq<nat>) returns (f: string)
    ensures f == ShowIds(nbrs)
  {
    hide ShowIds, ShowNat;
    f := "";
    assert nbrs[0..] == nbrs && f + ShowIds(nbrs) == ShowIds(nbrs);
    for i := 0 to |nbrs|
      invariant f + ShowIds(nbrs[i..]) == ShowIds(nbrs)
    {
      IdsStep(f, nbrs, i);
      f := f + ShowNat(nbrs[i]);
      if i + 1 < |nbrs| { f := f + ","; } else { assert f + "" == f; }
    }
    NothingLeft(f);
    assert nbrs[|nbrs|..] == [];
  }

  method WriteLayers(idx: HnswIndex<Vector>, node: nat) returns (f: string)
    requires node < |idx.neighbours.adj|
    ensures f == ShowLayers(idx.neighbours.adj[node])
  {
    hide ShowIds, ShowLayers;
    ghost var lists := idx.neighbours.adj[node];
    var nlayers := idx.neighbours.LayerCount(node);
    f := "";
    assert lists[0..] == lists && f + ShowLayers(lists) == ShowLayers(lists);
    for l := 0 to nlayers
      invariant f + ShowLayers(lists[l..]) == ShowLayers(lists)
    {
      LayersStep(f, lists, l);
      var ids := WriteIds(idx.neighbours.GetNeighbours(node, l));
      f := f + "[" + ids + "]";
      if l + 1 < nlayers { f := f + ","; } else { assert f + "" == f; }
    }
    NothingLeft(f);
    assert lists[nlayers..] == [];
  }

  lemma NothingLeft(f: string)
    ensures ShowIds([]) == ShowLayers([]) == ShowNodes([]) == "" && f + "" == f
  {
  }

  /** The lines of the scalar fields. */
  method WriteHead(idx: HnswIndex<Vector>, ghost g: JsonGraph) returns (f: string)
    requires idx.nextId == |idx.vectors| && g == GraphOf(idx.cfg, idx.Value())
    ensures f == "{\n" + HeadA(g) + HeadB(g) + "  \"adj\": [\n"
  {
    hide Line;
    f := "{\n";
    f := f + Line("version", 1);
    f := f + Line("dim", idx.cfg.dim);
    f := f + Line("vec_count", idx.nextId);
    f := f + Line("M", idx.cfg.M);
    f := f + Line("M_max0", idx.cfg.Mmax0);
    assert f == "{\n" + HeadA(g);
    var h := Line("ef_construction", idx.cfg.efConstruction);
    h := h + Line("ef_search", idx.cfg.efSearch);
    h := h + Line("max_layers", idx.cfg.maxLayers);
    h := h + Line("entry_point", idx.entryPoint);
    h := h + Line("max_layer", idx.maxLayer);
    f := f + h + "  \"adj\": [\n";
  }

  /** Prints the graph of the index, node by node and layer by layer. */
  method WriteJsonGraph(idx: HnswIndex<Vector>) returns (f: string)
    requires idx.Valid()
    ensures f == Print(GraphOf(idx.cfg, idx.Value()))
  {
    hide ShowLayers, ShowNodes, HeadA, HeadB;
    ghost var g := GraphOf(idx.cfg, idx.Value());
    ghost var adj := idx.neighbours.adj;
    f := WriteHead(idx, g);
    ghost var head := f;
    assert adj[0..] == adj;
    for node := 0 to idx.nextId
      invariant f + ShowNodes(adj[node..]) == head + ShowNodes(adj)
    {
      NodesStep(f, adj, node);
      var layers := WriteLayers(idx, node);
      f := f + "    {\"l\":[" + layers + "]}";
      if node + 1 < idx.nextId { f := f + ","; } else { assert f + "" == f; }
      f := f + "\n";
    }
    NothingLeft(f);
    assert adj[idx.nextId..] == [];
    assert f == head + ShowNodes(adj);
    f := f + "  ]\n}\n";
  }

  // ---- save and load --------------------------------------------------------------------

  /** Writes both files. `ns` is the time of day. */
  method Save(idx: HnswIndex<Vector>, ns: nat) returns (files: Files)
    requires idx.Valid() && Savable(idx.cfg, idx.Value())
    ensures Stores(files.seg, idx.cfg.dim, idx.vectors) && |files.seg| <= Segments.OFF_MAX
    ensures files.graph == Print(GraphOf(idx.cfg, idx.Value()))
  {
    hide Stores, Print, SlotAt;
    ghost var s := idx.Value();
    var r := Segment.Create(idx.cfg.dim, ns);
    var seg := r.segment;
    for i := 0 to idx.nextId
      invariant seg.Valid() && seg.dim == idx.cfg.dim && seg.rows == s.vectors[..i] && fresh(seg.mem)
      invariant seg.mem.Length <= Segments.HEADER + INITIAL_DATA + i * GROW_BYTES
      invariant idx.Value() == s && idx.Valid()
    {
      SegmentRoom(seg.mem[..], seg.dim, seg.rows);
      Segments.OneGrowSuffices(seg.mem.Length, seg.dim, i);
      var id := seg.Append(idx.vectors[i]);
      assert s.vectors[..i] + [s.vectors[i]] == s.vectors[..i + 1];
    }
    assert s.vectors[..idx.nextId] == s.vectors;
    var graph := WriteJsonGraph(idx);
    files := Files(seg.mem[..], graph);
  }

  lemma SegmentRoom(image: seq<Byte>, dim: nat, rows: seq<Vector>)
    requires Stores(image, dim, rows)
    ensures Segments.HEADER + SlotAt(RowSize(dim), |rows|) <= |image|
  {
  }

  /** Loads both files into a new index; on any error the index is untouched. */
  method Load(idx: HnswIndex<Vector>, files: Files, ghost level: seq<nat>) returns (r: Loaded)
    requires idx.Valid() && idx.vectors == [] && |files.seg| <= Segments.OFF_MAX && RowsFit(files.seg)
    requires LoadFiles(idx.cfg, files).Restored? ==> ListsFit(idx.cfg, LoadFiles(idx.cfg, files))
    modifies idx, idx.neighbours
    ensures r == LoadFiles(idx.cfg, files)
    ensures r.Refused? ==> idx.Valid() && idx.Value() == old(idx.Value())
    ensures r.Restored? ==>
      idx.Value() == State(r.rows, Graphs.Padded(r.adj, |r.rows|, idx.cfg.maxLayers), r.entryPoint, r.maxLayer, level)
    ensures r.Restored? && Inv(idx.cfg, idx.Value()) ==> idx.Valid()
  {
    hide Parse, Segments.ReadHeader, Inv, RowsFit, SlotAt, RowSize, Stores;
    var reader := new Reader(files.graph);
    var ok, g := reader.ParseJsonGraph();
    if !ok { return Refused(BadGraph); }
    if g.version != 1 { return Refused(UnsupportedVersion); }
    if g.dim != idx.cfg.dim { return Refused(DimMismatch); }
    var sr := Segment.Open(files.seg, []);
    if sr.Failed? { return Refused(BadSegment(sr.error)); }
    var seg := sr.segment;
    if seg.dim != UInt32(g.dim) { return Refused(SegDimMismatch); }
    if seg.vecCount != g.vecCount { return Refused(SegCountMismatch); }
    var rows: seq<Vector> := ReadRows(seg, files.seg);
    idx.LoadFromSnapshot(rows, g.adj, g.entryPoint, g.maxLayer, level);
    r := Restored(rows, g.adj, g.entryPoint, g.maxLayer);
  }

  /** No node has more lists than the index has layers. */
  predicate ListsFit(cfg: Config, r: Loaded)
    requires r.Restored?
  {
    forall i :: 0 <= i < |r.rows| && i < |r.adj| ==> |r.adj[i]| <= cfg.maxLayers
  }

  /** Copies the vectors out of the segment. */
  method ReadRows(seg: Segment, ghost file: seq<Byte>) returns (rows: seq<Vector>)
    requires seg.mem[..] == file && RowsFit(file) && |file| >= Segments.HEADER
    requires Segments.ReadHeader(file) == Segments.Accepted(seg.dim, seg.vecCount)
    ensures rows == RowsOf(file)
  {
    hide Segments.ReadHeader, SlotAt, RowSize;
    rows := [];
    for i := 0 to seg.vecCount
      invariant |rows| == i && forall k :: 0 <= k < i ==> rows[k] == RowsOf(file)[k]
    {
      var at := seg.Get(i);
      assert RowsOf(file)[i] == Row(file, seg.dim, i);
      assert seg.mem[at.value..at.value + RowSize(seg.dim)] == file[at.value..at.value + RowSize(seg.dim)];
      rows := rows + [seg.mem[at.value..at.value + RowSize(seg.dim)]];
    }
  }
}
