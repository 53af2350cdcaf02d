/** The write-ahead log over a memory-mapped file: bytes changed in place. */
module Wals {
  import opened Bytes
  import opened Crc32
  import opened Options
  import opened WalSpec

  /** The largest file offset (`off_t`). */
  const OFF_MAX: nat := 0x7FFF_FFFF_FFFF_FFFF

  datatype OpenResult = Opened(wal: Wal) | Failed(error: OpenError)

  /** Why opening `file` fails, if it does. A missing file is created. */
  function OpenFailure(file: Option<seq<Byte>>, dim: nat): Option<OpenError> {
    if dim == 0 then Some(ZeroDim)
    else if file.None? then None
    else if |file.value| < HEADER then Some(FileTooSmall)
    else match ReadHeader(file.value, dim)
      case Rejected(e) => Some(e)
      case Accepted(_) => None
  }

  class Wal {
    const dim: nat
    const every: nat
    const table: array<bv32>
    var mem: array<Byte>
    var nextLsn: nat
    var checkpointLsn: nat
    var appendsSince: nat
    ghost var log: seq<Entry>

    ghost function State(): LogState
      reads this
    {
      LogState(log, checkpointLsn, appendsSince)
    }

    /** What holds of every open log, whatever its file held. */
    ghost predicate Open()
      reads this, mem, table
    {
      && 0 < dim < 0x1_0000_0000 && IsTable(table) && mem as object != table
      && HEADER <= mem.Length <= OFF_MAX && nextLsn == |log|
    }

    /** The file is the image of `log`. */
    ghost predicate Valid()
      reads this, mem, table
    {
      && Open() && checkpointLsn <= OFF_MAX
      && mem[..HEADER] == HeaderBytes(dim, checkpointLsn)
      && Image(mem[HEADER..], dim, log) && LogOk(log, dim)
    }

    /** Allocation only; `OpenOrCreate` makes a usable log. */
    constructor (dim: nat, every: nat, table: array<bv32>, mem: array<Byte>)
      ensures this.dim == dim && this.every == every && this.table == table && this.mem == mem
      ensures State() == LogState([], 0, 0) && nextLsn == 0
    {
      this.dim, this.every, this.table, this.mem := dim, every, table, mem;
      nextLsn, checkpointLsn, appendsSince, log := 0, 0, 0, [];
    }

    /** Opens the log in `file`, or creates it. Every entry the scan accepts is kept. */
    static method OpenOrCreate(file: Option<seq<Byte>>, dim: nat, every: nat) returns (r: OpenResult)
      requires dim < 0x1_0000_0000 && (file.Some? ==> |file.value| <= OFF_MAX)
      ensures r.Failed? <==> OpenFailure(file, dim).Some?
      ensures r.Failed? ==> OpenFailure(file, dim) == Some(r.error)
      ensures r.Opened? ==> fresh(r.wal) && fresh(r.wal.mem) && fresh(r.wal.table)
      ensures r.Opened? ==> r.wal.Open() && r.wal.dim == dim && r.wal.every == every
      ensures r.Opened? && file.None? ==> r.wal.Valid() && r.wal.State() == LogState([], 0, 0) && r.wal.mem.Length == 0x40_0000
      ensures r.Opened? && file.Some? ==>
        && r.wal.mem[..] == Mapped(file.value)
        && ReadHeader(file.value, dim) == Accepted(r.wal.checkpointLsn)
        && r.wal.State() == LogState(Entries(Mapped(file.value)[HEADER..], dim, 0), r.wal.checkpointLsn, 0)
      ensures r.Opened? && file.Some? && r.wal.checkpointLsn <= OFF_MAX && WellKept(file.value, dim, r.wal.checkpointLsn) ==> r.wal.Valid()
    {
      hide Entries, Image, HeaderBytes, IsTable, CleanTail;
      if dim == 0 { return Failed(ZeroDim); }
      var table := BuildTable();
      if file.None? {
        var mem := Map([], INITIAL);
        var wal := new Wal(dim, every, table, mem);
        EmptyImage(mem[HEADER..], dim);
        wal.WriteHeader();
        return Opened(wal);
      }
      var bytes := file.value;
      if |bytes| < HEADER { return Failed(FileTooSmall); }
      var mem := Map(bytes, if |bytes| < INITIAL then INITIAL else |bytes|);
      assert mem[..HEADER] == bytes[..HEADER];
      SameHeader(mem[..], bytes, dim);
      match ReadHeader(mem[..], dim) {
        case Rejected(e) => return Failed(e);
        case Accepted(lsn) =>
          var wal := new Wal(dim, every, table, mem);
          wal.checkpointLsn := lsn;
          wal.Scan();
          if WellKept(bytes, dim, lsn) { ImageOfScan(mem[HEADER..], dim); }
          return Opened(wal);
      }
    }

    /** Reads and checks slot `lsn`, as both scan loops do. */
    method SlotOk(lsn: nat) returns (ok: bool)
      requires Open()
      ensures ok <==>
        Off(dim, lsn) + EntrySize(dim) <= |mem[HEADER..]| && SlotValid(Slot(mem[HEADER..], dim, lsn), dim, lsn)
    {
      hide Off, EntrySize, IsTable;
      EntrySizePositive(dim);
      assert mem[HEADER..] == mem[..][HEADER..];
      var ep := HEADER + Off(dim, lsn);
      if ep + EntrySize(dim) > mem.Length { return false; }
      var slot := mem[ep..ep + EntrySize(dim)];
      DataSlot(mem[..], dim, lsn);
      if FromLE(slot[..8]) != lsn { return false; }
      if FromLE(slot[16..20]) != dim { return false; }
      var crc := Checksum(table, slot[24..]);
      ok := slot[20..24] == WordBytes(crc);
    }

    /** The scan of `open_or_create`: counts the valid entries. */
    method Scan()
      requires Open() && nextLsn == 0
      modifies this`nextLsn, this`log
      ensures Open() && log == Entries(mem[HEADER..], dim, 0)
    {
      hide SlotValid, IsTable, Decode, Entries, Off, EntrySize;
      var lsn := 0;
      ghost var es: seq<Entry> := [];
      ghost var data := mem[HEADER..];
      ScanStarts(data, dim);
      while true
        invariant Off(dim, lsn) <= |data| && |es| == lsn
        invariant Entries(data, dim, 0) == es + Entries(data, dim, lsn)
        decreases |data| - Off(dim, lsn)
        modifies {}
      {
        var ok := SlotOk(lsn);
        if !ok { break; }
        EntrySizePositive(dim);
        EntriesStep(data, dim, lsn);
        es := es + [Decode(Slot(data, dim, lsn))];
        lsn := lsn + 1;
      }
      ScanEnds(data, dim, lsn);
      nextLsn := lsn;
      log := es;
    }

    /** Hands every entry from slot 0 on to the callback, up to the first slot that is not valid. */
    method Replay() returns (out: seq<Delivery>)
      requires Open()
      ensures out == Deliveries(Entries(mem[HEADER..], dim, 0), dim)
      ensures Valid() ==> out == Deliveries(log, dim)
      ensures Valid() ==> |out| == |log| && forall k :: 0 <= k < |out| ==> out[k] == Delivery(k, log[k].id, dim, log[k].payload)
    {
      hide SlotValid, IsTable, Image, HeaderBytes, Decode, Entries, Off, EntrySize, Deliveries;
      out := [];
      var lsn := 0;
      ghost var es: seq<Entry> := [];
      ghost var data := mem[HEADER..];
      ScanStarts(data, dim);
      while true
        invariant Off(dim, lsn) <= |data| && |es| == lsn
        invariant Entries(data, dim, 0) == es + Entries(data, dim, lsn)
        invariant out == Deliveries(es, dim)
        decreases |data| - Off(dim, lsn)
        modifies {}
      {
        var ok := SlotOk(lsn);
        if !ok { break; }
        EntrySizePositive(dim);
        EntriesStep(data, dim, lsn);
        var ep := HEADER + Off(dim, lsn);
        var slot := mem[ep..ep + EntrySize(dim)];
        DataSlot(mem[..], dim, lsn);
        DeliveryStep(es, slot, dim);
        out := out + [Delivery(lsn, FromLE(slot[8..16]), dim, slot[24..])];
        es := es + [Decode(slot)];
        lsn := lsn + 1;
      }
      ScanEnds(data, dim, lsn);
      if Valid() {
        LogFits(data, dim, log);
        ImageIsClean(data, dim, log);
      }
    }

    /** Writes the 64-byte header. */
    method WriteHeader()
      requires Open() && checkpointLsn < 0x1_0000_0000_0000_0000
      modifies mem
      ensures mem[..] == HeaderBytes(dim, checkpointLsn) + old(mem[HEADER..])
    {
      hide LE, Crc, WordBytes, IsTable, Put;
      Write(mem, 0, Zeros(HEADER));
      ghost var blank := mem[..];
      BlankHeader(old(mem[..]));
      Write(mem, 0, LE(MAGIC, 4));
      Write(mem, 4, LE(VERSION, 4));
      PutAdjacent(blank, 0, LE(MAGIC, 4), LE(VERSION, 4));
      Write(mem, 8, LE(checkpointLsn, 8));
      PutAdjacent(blank, 0, LE(MAGIC, 4) + LE(VERSION, 4), LE(checkpointLsn, 8));
      Write(mem, 16, LE(dim, 4));
      PutAdjacent(blank, 0, LE(MAGIC, 4) + LE(VERSION, 4) + LE(checkpointLsn, 8), LE(dim, 4));
      PutFront(blank, HeaderFields(dim, checkpointLsn));
      var crc := Checksum(table, mem[..20]);
      Write(mem, 20, WordBytes(crc));
      PutAdjacent(blank, 0, HeaderFields(dim, checkpointLsn), WordBytes(crc));
      HeaderOnBlank(blank, dim, checkpointLsn);
    }

    /** Extends the file with zeros and maps it again. */
    method Grow(newSize: nat)
      requires Valid() && mem.Length <= newSize <= OFF_MAX
      modifies this`mem
      ensures Valid() && fresh(mem) && mem.Length == newSize
    {
      hide Image, HeaderBytes, IsTable;
      ghost var image := mem[..];
      mem := Map(mem[..], newSize);
      GrownFile(image, newSize);
      GrowImage(image[HEADER..], dim, log, newSize - |image|);
      assert mem[..HEADER] == mem[..][..HEADER] && mem[HEADER..] == mem[..][HEADER..];
    }

    /** The five field writes of `append`. */
    method WriteEntry(ep: nat, lsn: nat, id: nat, payload: seq<Byte>)
      requires IsTable(table) && mem as object != table && |payload| == 4 * dim && ep + EntrySize(dim) <= mem.Length
      modifies mem
      ensures |Encode(dim, lsn, Entry(id, payload))| == EntrySize(dim)
      ensures mem[..] == Put(old(mem[..]), ep, Encode(dim, lsn, Entry(id, payload)))
    {
      hide IsTable, LE, Crc, WordBytes, Put;
      var crc := Checksum(table, payload);
      ghost var image := mem[..];
      Write(mem, ep, LE(lsn, 8));
      Write(mem, ep + 8, LE(id, 8));
      PutAdjacent(image, ep, LE(lsn, 8), LE(id, 8));
      Write(mem, ep + 16, LE(dim, 4));
      PutAdjacent(image, ep, LE(lsn, 8) + LE(id, 8), LE(dim, 4));
      Write(mem, ep + 20, WordBytes(crc));
      PutAdjacent(image, ep, LE(lsn, 8) + LE(id, 8) + LE(dim, 4), WordBytes(crc));
      Write(mem, ep + FIXED, payload);
      PutAdjacent(image, ep, LE(lsn, 8) + LE(id, 8) + LE(dim, 4) + WordBytes(crc), payload);
    }

    /** Records everything appended so far as safe, in the header. */
    method Checkpoint()
      requires Valid()
      modifies this`checkpointLsn, this`appendsSince, mem
      ensures Valid() && State() == Checkpointed(old(State()))
    {
      hide Image, IsTable, LE, Crc, WordBytes, Put, HeaderBytes;
      ghost var image := mem[..];
      LogFits(image[HEADER..], dim, log);
      checkpointLsn, appendsSince := nextLsn, 0;
      Write(mem, 8, LE(checkpointLsn, 8));
      HeaderOnly(image, 8, LE(checkpointLsn, 8));
      HeaderPatched(dim, old(checkpointLsn), checkpointLsn);
      ghost var image' := mem[..];
      assert mem[..20] == image'[..HEADER][..20];
      var crc := Checksum(table, mem[..20]);
      Write(mem, 20, WordBytes(crc));
      HeaderOnly(image', 20, WordBytes(crc));
      assert mem[..HEADER] == mem[..][..HEADER] && mem[HEADER..] == mem[..][HEADER..];
    }

    /** Writes one entry behind the last one, growing the file at most once. */
    method Append(id: nat, payload: seq<Byte>) returns (lsn: nat)
      requires Valid() && EntryOk(Entry(id, payload), dim)
      requires HEADER + Off(dim, nextLsn + 1) <= mem.Length
        || HEADER + Off(dim, nextLsn + 1) <= mem.Length + GROW <= OFF_MAX
      modifies this, mem
      ensures Valid() && lsn == |old(log)|
      ensures State() == Appended(old(State()), every, Entry(id, payload))
      ensures mem == old(mem) || fresh(mem)
      ensures mem.Length == GrownSize(old(mem.Length), dim, lsn)
    {
      hide Image, HeaderBytes, IsTable, Encode, Off, LE, Crc, WordBytes, GrownSize;
      GrownWhen(mem.Length, dim, nextLsn);
      var needed := HEADER + Off(dim, nextLsn + 1);
      if needed > mem.Length {
        Grow(mem.Length + GROW);
      }
      OffStep(dim, nextLsn);
      lsn := nextLsn;
      ghost var image := mem[..];
      WriteEntry(HEADER + Off(dim, lsn), lsn, id, payload);
      AppendImage(image[HEADER..], dim, log, Entry(id, payload));
      PutInData(image, Off(dim, lsn), Encode(dim, lsn, Entry(id, payload)));
      assert mem[..HEADER] == mem[..][..HEADER] && mem[HEADER..] == mem[..][HEADER..];
      nextLsn := nextLsn + 1;
      appendsSince := appendsSince + 1;
      log := log + [Entry(id, payload)];
      if every > 0 && appendsSince >= every {
        Checkpoint();
      }
    }

    /** Drops the entries before `keepFrom`, renumbers the others from 0 and cuts the file; skipped up to the checkpoint. */
    method Truncate(keepFrom: nat)
      requires Valid()
      modifies this, mem
      ensures Valid() && State() == Truncated(old(State()), keepFrom)
      ensures mem == old(mem) || fresh(mem)
      ensures keepFrom > old(checkpointLsn) ==> mem.Length == CutSize(dim, |log|)
    {
      hide Image, HeaderBytes, IsTable, Off, Renumbered;
      if keepFrom <= checkpointLsn { return; }
      var keep := if keepFrom >= nextLsn then nextLsn else keepFrom;
      var entriesToKeep := nextLsn - keep;
      ShiftDown(keep, entriesToKeep);
      RenumberAll(keep, entriesToKeep);
      nextLsn := entriesToKeep;
      checkpointLsn, appendsSince := 0, 0;
      Remap(keep, entriesToKeep);
      WriteHeader();
      assert mem[..HEADER] == mem[..][..HEADER] && mem[HEADER..] == mem[..][HEADER..];
    }

    /** Moves the kept entries to the front. */
    method ShiftDown(keep: nat, entriesToKeep: nat)
      requires Valid() && keep + entriesToKeep == |log|
      modifies mem
      ensures Renumbered(mem[HEADER..], dim, log, keep, 0)
    {
      hide Image, HeaderBytes, IsTable, Off, Renumbered;
      var dataToKeep := Off(dim, entriesToKeep);
      var srcOffset := HEADER + Off(dim, keep);
      ghost var image := mem[..];
      ghost var data := image[HEADER..];
      assert data == mem[HEADER..];
      ShiftEntries(data, dim, log, keep);
      ImageFits(data, dim, log);
      if dataToKeep > 0 && srcOffset < mem.Length {
        MoveDown(mem, HEADER, srcOffset, dataToKeep);
      }
      ShiftedFile(image, mem[..], Off(dim, keep), dataToKeep);
      assert mem[HEADER..] == mem[..][HEADER..];
    }

    /** Cuts the file behind the kept entries and maps it again, at least at the initial size. */
    method Remap(ghost keep: nat, entriesToKeep: nat)
      requires mem.Length >= HEADER && keep + entriesToKeep == |log| && dim > 0
      requires Renumbered(mem[HEADER..], dim, log, keep, entriesToKeep)
      modifies this`mem, this`log
      ensures fresh(mem) && mem.Length == CutSize(dim, entriesToKeep)
      ensures log == old(log)[keep..] && Image(mem[HEADER..], dim, log)
      ensures mem.Length <= (if old(mem.Length) < INITIAL then INITIAL else old(mem.Length))
    {
      hide Image, Off, Renumbered;
      ghost var data := mem[HEADER..];
      RenumberedFits(data, dim, log, keep);
      var newFileSize := HEADER + Off(dim, entriesToKeep);
      var remapSize := if newFileSize < INITIAL then INITIAL else newFileSize;
      var file := mem[..newFileSize];
      mem := Map(file, remapSize);
      CutImage(data, dim, log, keep, remapSize - HEADER);
      RemappedFile(file, data, Off(dim, entriesToKeep), remapSize);
      assert mem[HEADER..] == mem[..][HEADER..];
      log := log[keep..];
    }

    /** Numbers the first `count` slots from 0. */
    method RenumberAll(ghost keep: nat, count: nat)
      requires mem.Length >= HEADER && keep <= |log| && count == |log| - keep
      requires Renumbered(mem[HEADER..], dim, log, keep, 0)
      modifies mem
      ensures Renumbered(mem[HEADER..], dim, log, keep, count)
    {
      hide Encode, Off, LE, Renumbered;
      for i := 0 to count
        invariant Renumbered(mem[HEADER..], dim, log, keep, i)
      {
        ghost var image := mem[..];
        RenumberOne(image[HEADER..], dim, log, keep, i);
        Write(mem, HEADER + Off(dim, i), LE(i, 8));
        PutInData(image, Off(dim, i), LE(i, 8));
        assert mem[HEADER..] == mem[..][HEADER..];
      }
    }
  }
}
