/** What a saved graph says of the configuration, and when files that do not belong together are refused. */
module SnapshotLaws {
  import opened Bytes
  import opened HnswSpec
  import Segments
  import opened GraphText
  import opened GraphRoundTrip
  import opened GraphLaws
  import opened Snapshots

  /** A saved state: its graph can be printed. */
  ghost predicate Saved(cfg: Config, s: State<Vector>) { Usable(cfg) && GraphOk(cfg, s) && Savable(cfg, s) }

  /** Parsing the saved graph gives back every value of the configuration, each in its own place, and the shape of the index. */
  lemma ConfigSaved(cfg: Config, s: State<Vector>)
    requires Saved(cfg, s)
    ensures Parse(Print(GraphOf(cfg, s))).Ok?
    ensures var g := Parse(Print(GraphOf(cfg, s))).value;
      && g.version == 1 && g.dim == cfg.dim && g.M == cfg.M && g.Mmax0 == cfg.Mmax0
      && g.efConstruction == cfg.efConstruction && g.efSearch == cfg.efSearch && g.maxLayers == cfg.maxLayers
      && g.vecCount == |s.vectors| && g.entryPoint == s.entryPoint && g.maxLayer == s.maxLayer && g.adj == s.adj
  {
    hide Print, Parse, GraphOk, Savable, Printable;
    GraphPrintable(cfg, s);
    ParsePrint(GraphOf(cfg, s));
  }

  /** And its text names each of them by its own key. */
  lemma ConfigWritten(cfg: Config, s: State<Vector>)
    ensures var t := Print(GraphOf(cfg, s));
      && Contains(t, Entry("dim", cfg.dim)) && Contains(t, Entry("M", cfg.M)) && Contains(t, Entry("M_max0", cfg.Mmax0))
      && Contains(t, Entry("ef_construction", cfg.efConstruction)) && Contains(t, Entry("ef_search", cfg.efSearch))
      && Contains(t, Entry("max_layers", cfg.maxLayers)) && Contains(t, Entry("vec_count", |s.vectors|))
      && Contains(t, Entry("entry_point", s.entryPoint)) && Contains(t, Entry("max_layer", s.maxLayer))
  {
    hide Print, Contains, Entry;
    EveryKeyWritten(GraphOf(cfg, s));
  }

  /**
   * The graph file of one saved index and the segment file of another, loaded by a third: accepted if and
   * only if the three dimensions and the two counts agree; otherwise the first disagreement is reported.
   */
  lemma MixedFiles(cfg: Config, gcfg: Config, gs: State<Vector>, seg: seq<Byte>, dim: nat, rows: seq<Vector>)
    requires Saved(gcfg, gs) && Segments.Stores(seg, dim, rows)
    ensures RowsFit(seg)
    ensures LoadFiles(cfg, Files(seg, Print(GraphOf(gcfg, gs)))) ==
      if gcfg.dim != cfg.dim then Refused(DimMismatch)
      else if dim != gcfg.dim then Refused(SegDimMismatch)
      else if |rows| != |gs.vectors| then Refused(SegCountMismatch)
      else Restored(rows, gs.adj, gs.entryPoint, gs.maxLayer)
  {
    hide Print, Parse, GraphOk, Printable, RowsFit, RowsOf, Segments.ReadHeader, Segments.Stores;
    GraphPrintable(gcfg, gs);
    ParsePrint(GraphOf(gcfg, gs));
    RowsStored(seg, dim, rows);
    assert UInt32(gcfg.dim) == gcfg.dim;
  }

  /** A text that is no graph, and a graph of another version, are refused whatever the segment is; so is a segment with a bad header. */
  lemma BadFiles(cfg: Config, files: Files)
    requires RowsFit(files.seg)
    ensures Parse(files.graph).Throws? ==> LoadFiles(cfg, files) == Refused(BadGraph)
    ensures Parse(files.graph).Ok? && Parse(files.graph).value.version != 1 ==> LoadFiles(cfg, files) == Refused(UnsupportedVersion)
    ensures |files.seg| < 64 || Segments.ReadHeader(files.seg).Rejected? ==> LoadFiles(cfg, files).Refused?
    ensures LoadFiles(cfg, files).Restored? ==>
      Parse(files.graph).value.version == 1 && Parse(files.graph).value.dim == cfg.dim && |LoadFiles(cfg, files).rows| == Parse(files.graph).value.vecCount
  {
    hide Parse, Segments.ReadHeader, RowsFit;
  }
}
