/** One shard: an index in memory, its log, its snapshot files, and what a restart makes of them. */
module Shards {
  import opened Bytes
  import opened Options
  import opened Hits
  import Graphs
  import opened HnswSpec
  import opened HnswIndexes
  import WalSpec
  import Wals
  import Segments
  import GraphText
  import opened Snapshots
  import Recovery

  /**
   * When the process dies: between calls, while an entry is being written, in an insert after the log
   * took the entry, or in a snapshot after the files were written.
   */
  datatype Moment = Idle | WritingSlot(slot: seq<Byte>) | EntryLogged(id: nat, payload: Vector) | SnapshotWritten(ns: nat)

  /** What a crash at `at` does to a shard whose log holds `n` entries. */
  function EventOf(at: Moment, dim: nat, n: nat): Recovery.Event
    requires at.WritingSlot? ==> |at.slot| == WalSpec.EntrySize(dim)
  {
    match at
    case Idle => Recovery.Restart
    case WritingSlot(slot) =>
      if WalSpec.SlotValid(slot, dim, n) then Recovery.CrashInInsert(WalSpec.Decode(slot), false) else Recovery.Restart
    case EntryLogged(id, payload) => Recovery.CrashInInsert(WalSpec.Entry(id, payload), true)
    case SnapshotWritten(_) => Recovery.CrashInSnapshot
  }

  /** A configuration a shard can run with: rows and log entries small enough for one growth step. */
  predicate Workable(cfg: Config) {
    Usable(cfg) && cfg.Mmax0 >= 0 && IntConfig(cfg) && WalSpec.EntrySize(cfg.dim) <= WalSpec.GROW && Segments.RowSize(cfg.dim) <= Segments.GROW_BYTES
  }

  /** `files` hold the index state `saved`. */
  ghost predicate FilesHold(cfg: Config, files: Files, saved: State<Vector>) {
    && Inv(cfg, saved) && Savable(cfg, saved) && Segments.Stores(files.seg, cfg.dim, saved.vectors)
    && |files.seg| <= Segments.OFF_MAX && files.graph == GraphText.Print(GraphOf(cfg, saved))
  }

  ghost predicate SnapshotHolds(cfg: Config, files: Option<Files>, saved: Option<State<Vector>>) {
    files.Some? == saved.Some? && (files.Some? ==> FilesHold(cfg, files.value, saved.value))
  }

  /** The log file `file` opens as `w`. */
  ghost predicate OpensAs(file: seq<Byte>, dim: nat, w: WalSpec.LogState) {
    && WalSpec.HEADER <= |file| <= Wals.OFF_MAX && WalSpec.ReadHeader(file, dim) == WalSpec.Accepted(w.checkpoint)
    && WalSpec.Entries(WalSpec.Mapped(file)[WalSpec.HEADER..], dim, 0) == w.log
    && WalSpec.WellKept(file, dim, w.checkpoint) && w.checkpoint <= Wals.OFF_MAX && w.since == 0
  }

  ghost function VectorsOf(saved: Option<State<Vector>>): Option<seq<Vector>> {
    if saved.None? then None else Some(saved.value.vectors)
  }

  /** The files can be read without leaving the mapping, and if they load they hold the state `was`. */
  ghost predicate Readable(cfg: Config, files: Files, was: Option<State<Vector>>) {
    && |files.seg| <= Segments.OFF_MAX && RowsFit(files.seg)
    && (LoadFiles(cfg, files).Restored? ==>
          ListsFit(cfg, LoadFiles(cfg, files)) && was.Some? && FilesHold(cfg, files, was.value))
  }

  lemma FilesLoad(cfg: Config, files: Files, was: State<Vector>)
    requires Workable(cfg) && FilesHold(cfg, files, was)
    ensures RowsFit(files.seg) && LoadFiles(cfg, files) == Restored(was.vectors, was.adj, was.entryPoint, was.maxLayer)
    ensures Graphs.Padded(was.adj, |was.vectors|, cfg.maxLayers) == was.adj && |was.adj| == |was.vectors|
    ensures forall i :: 0 <= i < |was.adj| ==> |was.adj[i]| <= cfg.maxLayers
  {
    hide GraphText.Print, Segments.Stores, RowsFit, LoadFiles, Savable, Connected;
    SnapshotRoundTrip(cfg, was, files.seg);
  }

  lemma FilesReadable(cfg: Config, files: Files, was: State<Vector>)
    requires Workable(cfg) && FilesHold(cfg, files, was)
    ensures Readable(cfg, files, Some(was)) && LoadFiles(cfg, files).Restored?
  {
    hide GraphText.Print, Segments.Stores, RowsFit, LoadFiles, Savable, Inv;
    FilesLoad(cfg, files, was);
  }

  lemma FilesSavable(cfg: Config, files: Files, was: State<Vector>)
    requires FilesHold(cfg, files, was)
    ensures Savable(cfg, was)
  {
  }

  lemma OpensWell(file: seq<Byte>, dim: nat, w: WalSpec.LogState)
    requires OpensAs(file, dim, w) && dim > 0
    ensures |file| <= Wals.OFF_MAX && Wals.OpenFailure(Some(file), dim).None?
  {
  }

  /** A restart succeeds, or the log cannot be opened, or the snapshot cannot be loaded. */
  datatype Restarted = Started(shard: Shard) | WalThrew(walError: WalSpec.OpenError) | LoadThrew(loadError: LoadError)

  class Shard {
    const index: HnswIndex<Vector>
    const wal: Wals.Wal
    /** The two files of the last snapshot. */
    var files: Option<Files>
    /** Cleared when a search of this shard throws; nothing sets it again. */
    var healthy: bool
    ghost var saved: Option<State<Vector>>
    ghost var repeated: nat

    ghost predicate Valid()
      reads this, index, index.neighbours, wal, wal.mem, wal.table
    {
      && index.Valid() && Workable(index.cfg) && Savable(index.cfg, index.Value())
      && wal.Valid() && wal.dim == index.cfg.dim && wal.every == Recovery.EVERY
      && SnapshotHolds(index.cfg, files, saved)
    }

    /** The shard as the recovery protocol sees it. */
    ghost function Abstract(): Recovery.Shard
      reads this, index, wal
    {
      Recovery.Shard(index.vectors, wal.State(), VectorsOf(saved), repeated)
    }

    constructor (index: HnswIndex<Vector>, wal: Wals.Wal, files: Option<Files>, ghost saved: Option<State<Vector>>)
      ensures this.index == index && this.wal == wal && this.files == files && this.saved == saved && repeated == 0 && healthy
    {
      this.index, this.wal, this.files, this.saved, repeated, healthy := index, wal, files, saved, 0, true;
    }

    /** A shard without any files. */
    static method Create(cfg: Config, dist: Metric<Vector>) returns (s: Shard)
      requires Workable(cfg)
      ensures fresh(s) && s.Valid() && s.Abstract() == Recovery.NEW
    {
      var index := new HnswIndex<Vector>(cfg, dist);
      var r := Wals.Wal.OpenOrCreate(None, cfg.dim, Recovery.EVERY);
      s := new Shard(index, r.wal, None, None);
    }

    /** Log first, then index. */
    method Insert(id: nat, vec: Vector) returns (node: nat)
      requires Valid() && WalSpec.EntryOk(WalSpec.Entry(id, vec), index.cfg.dim)
      requires |index.vectors| + 1 < 0x1_0000_0000 && wal.mem.Length + WalSpec.GROW <= Wals.OFF_MAX
      modifies index, index.neighbours, wal, wal.mem
      ensures Valid() && node == old(|index.vectors|) && (wal.mem == old(wal.mem) || fresh(wal.mem))
      ensures Abstract() == Recovery.Step(old(Abstract()), Recovery.Insert(WalSpec.Entry(id, vec)))
    {
      node := InsertSteps(id, vec, false);
    }

    /** The two steps of an insert; `dies` tells whether the process ends after the first. */
    method InsertSteps(id: nat, vec: Vector, dies: bool) returns (node: nat)
      requires Valid() && WalSpec.EntryOk(WalSpec.Entry(id, vec), index.cfg.dim)
      requires (!dies ==> |index.vectors| + 1 < 0x1_0000_0000) && wal.mem.Length + WalSpec.GROW <= Wals.OFF_MAX
      modifies index, index.neighbours, wal, wal.mem
      ensures Valid() && node == old(|index.vectors|) && (wal.mem == old(wal.mem) || fresh(wal.mem))
      ensures dies ==> index.Value() == old(index.Value())
      ensures dies ==> wal.State() == WalSpec.Appended(old(wal.State()), Recovery.EVERY, WalSpec.Entry(id, vec))
      ensures !dies ==> Abstract() == Recovery.Step(old(Abstract()), Recovery.Insert(WalSpec.Entry(id, vec)))
    {
      hide WalSpec.Image, WalSpec.HeaderBytes, WalSpec.LogOk, Inv, FilesHold, WalSpec.Off;
      WalRoom(wal.mem[WalSpec.HEADER..], wal.mem.Length, wal.dim, wal.log);
      ghost var lsn := wal.Append(id, vec);
      node := index.nextId;
      if dies { return; }
      ghost var layer, runs;
      var r;
      r, layer, runs := index.Insert(vec);
      node := r.id;
    }

    /** One shard's step of `snapshot_all`. `ns` is the time of day. */
    method Snapshot(ns: nat)
      requires Valid()
      modifies this, wal, wal.mem
      ensures Valid() && index.Value() == old(index.Value()) && healthy == old(healthy) && (wal.mem == old(wal.mem) || fresh(wal.mem))
      ensures Abstract() == Recovery.Step(old(Abstract()), Recovery.Snapshot)
    {
      SnapshotSteps(ns, false);
    }

    /** Both files, then the log up to its last entry; `dies` tells whether the process ends between the two. */
    method SnapshotSteps(ns: nat, dies: bool)
      requires Valid()
      modifies this, wal, wal.mem
      ensures Valid() && index.Value() == old(index.Value()) && healthy == old(healthy) && (wal.mem == old(wal.mem) || fresh(wal.mem))
      ensures saved == Some(index.Value())
      ensures dies ==> Abstract() == Recovery.FilesWritten(old(Abstract())) && wal.mem == old(wal.mem)
      ensures !dies ==> Abstract() == Recovery.Step(old(Abstract()), Recovery.Snapshot)
    {
      hide WalSpec.Image, WalSpec.HeaderBytes, WalSpec.LogOk, Inv, Savable, Segments.Stores, GraphText.Print;
      var fs := Save(index, ns);
      files, saved, repeated := Some(fs), Some(index.Value()), |wal.log|;
      if dies { return; }
      wal.Truncate(wal.nextLsn);
      repeated := |wal.log|;
    }

    /**
     * A new process on the log file and the snapshot files: opens the log, loads the snapshot if both files exist,
     * and replays every log entry on top of it. `w` and `was` are what the two hold if they can be read.
     */
    static method Restart(cfg: Config, dist: Metric<Vector>, walFile: seq<Byte>, files: Option<Files>,
                          ghost w: WalSpec.LogState, ghost was: Option<State<Vector>>) returns (r: Restarted)
      requires Workable(cfg) && |walFile| <= Wals.OFF_MAX
      requires Wals.OpenFailure(Some(walFile), cfg.dim).None? ==> OpensAs(walFile, cfg.dim, w)
      requires if files.None? then was.None? else Readable(cfg, files.value, was)
      requires was.Some? ==> |was.value.vectors| + |w.log| < 0x1_0000_0000
      ensures r.WalThrew? <==> Wals.OpenFailure(Some(walFile), cfg.dim).Some?
      ensures r.WalThrew? ==> Wals.OpenFailure(Some(walFile), cfg.dim) == Some(r.walError)
      ensures r.LoadThrew? <==> !r.WalThrew? && files.Some? && LoadFiles(cfg, files.value).Refused?
      ensures r.LoadThrew? ==> LoadFiles(cfg, files.value) == Refused(r.loadError)
      ensures r.Started? ==> fresh(r.shard) && r.shard.Valid() && r.shard.index.cfg == cfg && r.shard.wal.log == w.log
      ensures r.Started? ==> r.shard.Abstract() == Recovery.Recovered(Recovery.Shard([], w, VectorsOf(was), 0), w)
    {
      hide WalSpec.Image, WalSpec.HeaderBytes, WalSpec.LogOk, WalSpec.Entries, WalSpec.WellKept, WalSpec.ReadHeader, Inv, FilesHold, Savable, LoadFiles, RowsFit;
      var index := new HnswIndex<Vector>(cfg, dist);
      var log := Wals.Wal.OpenOrCreate(Some(walFile), cfg.dim, Recovery.EVERY);
      if log.Failed? { return WalThrew(log.error); }
      EmptySavable(cfg);
      if files.None? {
        var s := new Shard(index, log.wal, None, None);
        return Started(s);
      }
      var loaded := LoadIndex(index, files.value, was);
      if loaded.Refused? { return LoadThrew(loaded.error); }
      FilesSavable(cfg, files.value, was.value);
      var s := new Shard(index, log.wal, files, was);
      s.ReplayLog();
      r := Started(s);
    }

    /** The load of `load_all`: the index becomes the one that was saved, links and all, or nothing happens. */
    static method LoadIndex(index: HnswIndex<Vector>, files: Files, ghost was: Option<State<Vector>>) returns (r: Loaded)
      requires index.Valid() && index.vectors == [] && Workable(index.cfg) && Readable(index.cfg, files, was)
      modifies index, index.neighbours
      ensures r == LoadFiles(index.cfg, files) && index.Valid()
      ensures r.Refused? ==> index.Value() == old(index.Value())
      ensures r.Restored? ==> index.Value() == was.value && FilesHold(index.cfg, files, was.value)
    {
      hide GraphText.Print, GraphText.Parse, Segments.Stores, Segments.ReadHeader, RowsFit, LoadFiles, Inv;
      if LoadFiles(index.cfg, files).Restored? { FilesLoad(index.cfg, files, was.value); }
      r := Load(index, files, if was.Some? then was.value.level else []);
    }

    /** The replay of `load_all`: inserts every log entry. */
    method ReplayLog()
      requires Valid() && |index.vectors| + |wal.log| < 0x1_0000_0000
      modifies index, index.neighbours
      ensures Valid() && index.vectors == old(index.vectors) + Recovery.Payloads(wal.log)
    {
      hide WalSpec.Image, WalSpec.HeaderBytes, WalSpec.Entries, WalSpec.Deliveries, Inv, Savable, SnapshotHolds, Workable, Recovery.Payloads;
      NoPayloads();
      var out := wal.Replay();
      ghost var rows := index.vectors;
      for k := 0 to |out|
        invariant Valid() && |index.vectors| == |rows| + k && index.vectors == rows + Recovery.Payloads(wal.log[..k])
        modifies index, index.neighbours
      {
        OneMore(wal.log, k);
        Reinsert(out[k].payload);
      }
      assert wal.log[..|out|] == wal.log;
    }

    /** The replay callback. */
    method Reinsert(vec: Vector)
      requires Valid() && |vec| == Segments.RowSize(index.cfg.dim) && |index.vectors| + 1 < 0x1_0000_0000
      modifies index, index.neighbours
      ensures Valid() && index.vectors == old(index.vectors) + [vec]
    {
      hide WalSpec.Image, WalSpec.HeaderBytes, WalSpec.LogOk, Inv, SnapshotHolds;
      ghost var r, layer, runs := index.Insert(vec);
    }

    /** The process dies at the moment `at` and a new one starts on the files. */
    method Crash(at: Moment) returns (s: Shard)
      requires Valid() && wal.mem.Length + WalSpec.GROW <= Wals.OFF_MAX
      requires saved.Some? ==> |saved.value.vectors| + |wal.log| + 1 < 0x1_0000_0000
      requires at.SnapshotWritten? ==> |index.vectors| + |wal.log| < 0x1_0000_0000
      requires at.WritingSlot? ==> |at.slot| == WalSpec.EntrySize(index.cfg.dim)
      requires at.EntryLogged? ==> WalSpec.EntryOk(WalSpec.Entry(at.id, at.payload), index.cfg.dim)
      modifies this, index, index.neighbours, wal, wal.mem
      ensures fresh(s) && s.Valid()
      ensures s.Abstract() == Recovery.Step(old(Abstract()), EventOf(at, index.cfg.dim, old(|wal.log|)))
    {
      hide WalSpec.Image, WalSpec.HeaderBytes, WalSpec.LogOk, WalSpec.SlotValid, WalSpec.Decode, FilesHold, Inv, Savable, OpensAs, LoadFiles, Readable, Wals.OpenFailure;
      var file, w := FilesAt(at);
      OpensWell(file, index.cfg.dim, w);
      if files.Some? { FilesReadable(index.cfg, files.value, saved.value); }
      var r := Restart(index.cfg, index.dist, file, files, w, saved);
      s := r.shard;
    }

    /** The log file the crash leaves, beside the snapshot files. */
    method FilesAt(at: Moment) returns (file: seq<Byte>, ghost w: WalSpec.LogState)
      requires Valid() && wal.mem.Length + WalSpec.GROW <= Wals.OFF_MAX
      requires at.WritingSlot? ==> |at.slot| == WalSpec.EntrySize(wal.dim)
      requires at.EntryLogged? ==> WalSpec.EntryOk(WalSpec.Entry(at.id, at.payload), wal.dim)
      modifies this, index, index.neighbours, wal, wal.mem
      ensures OpensAs(file, wal.dim, w) && SnapshotHolds(index.cfg, files, saved)
      ensures saved == if at.SnapshotWritten? then Some(old(index.Value())) else old(saved)
      ensures w == match EventOf(at, wal.dim, old(|wal.log|))
        case CrashInInsert(e, false) => WalSpec.LogState(old(wal.log) + [e], old(wal.checkpointLsn), 0)
        case CrashInInsert(e, true) => WalSpec.Reopened(WalSpec.Appended(old(wal.State()), Recovery.EVERY, e))
        case _ => WalSpec.Reopened(old(wal.State()))
    {
      hide WalSpec.Image, WalSpec.HeaderBytes, WalSpec.LogOk, WalSpec.SlotValid, WalSpec.Off, WalSpec.Decode, OpensAs, Inv, Savable, FilesHold;
      WalRoom(wal.mem[WalSpec.HEADER..], wal.mem.Length, wal.dim, wal.log);
      match at {
        case Idle => file, w := WalAsFound();
        case WritingSlot(slot) => file, w := TornWal(slot);
        case EntryLogged(id, payload) =>
          var node := InsertSteps(id, payload, true);
          file, w := WalAsFound();
        case SnapshotWritten(ns) =>
          SnapshotSteps(ns, true);
          file, w := WalAsFound();
      }
    }

    /** The log file as it stands. */
    method WalAsFound() returns (file: seq<Byte>, ghost w: WalSpec.LogState)
      requires wal.Valid()
      ensures OpensAs(file, wal.dim, w) && w == WalSpec.Reopened(wal.State())
    {
      hide WalSpec.Image, WalSpec.HeaderBytes, WalSpec.LogOk, WalSpec.Entries, WalSpec.WellKept;
      file, w := wal.mem[..], WalSpec.Reopened(wal.State());
      assert wal.mem[..WalSpec.HEADER] == file[..WalSpec.HEADER] && wal.mem[WalSpec.HEADER..] == file[WalSpec.HEADER..];
      WalSpec.ReopenFinds(file, wal.dim, wal.log, wal.checkpointLsn);
    }

    /** The log file with the bytes `slot` behind the last entry. */
    method TornWal(slot: seq<Byte>) returns (file: seq<Byte>, ghost w: WalSpec.LogState)
      requires wal.Valid() && |slot| == WalSpec.EntrySize(wal.dim) && wal.mem.Length + WalSpec.GROW <= Wals.OFF_MAX
      requires WalSpec.HEADER + WalSpec.Off(wal.dim, |wal.log| + 1) <= wal.mem.Length + WalSpec.GROW
      modifies wal
      ensures wal.log == old(wal.log)
      ensures OpensAs(file, wal.dim, w) && w == WalSpec.LogState(
        if WalSpec.SlotValid(slot, wal.dim, |wal.log|) then old(wal.log) + [WalSpec.Decode(slot)] else old(wal.log), old(wal.checkpointLsn), 0)
    {
      hide WalSpec.Image, WalSpec.HeaderBytes, WalSpec.LogOk, WalSpec.Entries, WalSpec.WellKept, WalSpec.SlotValid, WalSpec.Off, WalSpec.Decode;
      var n := wal.nextLsn;
      if WalSpec.HEADER + WalSpec.Off(wal.dim, n + 1) > wal.mem.Length { wal.Grow(wal.mem.Length + WalSpec.GROW); }
      ghost var image := wal.mem[..];
      assert wal.mem[..WalSpec.HEADER] == image[..WalSpec.HEADER] && wal.mem[WalSpec.HEADER..] == image[WalSpec.HEADER..];
      WalSpec.OffStep(wal.dim, n);
      file := Put(wal.mem[..], WalSpec.HEADER + WalSpec.Off(wal.dim, n), slot);
      WalSpec.ReopenAfterCrash(image, wal.dim, wal.log, wal.checkpointLsn, slot);
      w := WalSpec.LogState(if WalSpec.SlotValid(slot, wal.dim, n) then wal.log + [WalSpec.Decode(slot)] else wal.log, wal.checkpointLsn, 0);
    }
  }

  lemma WalRoom(data: seq<Byte>, size: nat, dim: nat, log: seq<WalSpec.Entry>)
    requires WalSpec.Image(data, dim, log) && size == WalSpec.HEADER + |data| && WalSpec.EntrySize(dim) <= WalSpec.GROW
    ensures WalSpec.HEADER + WalSpec.Off(dim, |log| + 1) <= size + WalSpec.GROW
  {
    WalSpec.OneGrowSuffices(size, dim, |log|);
  }

  lemma EmptySavable(cfg: Config)
    requires Workable(cfg)
    ensures Savable(cfg, State([], [], 0, -1, []))
  {
  }

  lemma NoPayloads()
    ensures Recovery.Payloads([]) == []
  {
  }

  lemma OneMore(log: seq<WalSpec.Entry>, k: nat)
    requires k < |log|
    ensures Recovery.Payloads(log[..k + 1]) == Recovery.Payloads(log[..k]) + [log[k].payload]
  {
  }
}
