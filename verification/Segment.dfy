/** The segment file: a header that carries its own checksum, then the vectors row by row. */
module Segments {
  import opened Bytes
  import opened Crc32
  import opened Growth
  import opened Options

  const HEADER: nat := 64
  const MAGIC: nat := 0x5645_4344
  const VERSION: nat := 1
  const INITIAL_DATA: nat := 0x10_0000
  const GROW_BYTES: nat := 0x400_0000
  const OFF_MAX: nat := 0x7FFF_FFFF_FFFF_FFFF

  datatype SegmentError = ZeroDim | FileTooSmall | BadMagic | BadVersion | BadHeaderCrc
  datatype SegmentResult = Opened(segment: Segment) | Failed(error: SegmentError)

  function RowSize(dim: nat): nat { 4 * dim }

  /** The bytes the checksum covers. */
  function Fields(dim: nat, count: nat): (r: seq<Byte>)
    ensures |r| == 20
  {
    LE(MAGIC, 4) + LE(VERSION, 2) + LE(0, 2) + LE(count, 8) + LE(dim, 4)
  }

  function Front(dim: nat, count: nat): (r: seq<Byte>)
    ensures |r| == 24
  {
    Fields(dim, count) + WordBytes(Crc(Fields(dim, count)))
  }

  datatype Header = Accepted(dim: nat, count: nat) | Rejected(error: SegmentError)

  /** `read_and_validate_header`; the count is narrowed to 32 bits. */
  function ReadHeader(h: seq<Byte>): Header
    requires |h| >= HEADER
  {
    if FromLE(h[..4]) != MAGIC then Rejected(BadMagic)
    else if FromLE(h[4..6]) != VERSION then Rejected(BadVersion)
    else if h[20..24] != WordBytes(Crc(h[..20])) then Rejected(BadHeaderCrc)
    else Accepted(FromLE(h[16..20]), FromLE(h[8..16]) % 0x1_0000_0000)
  }

  /** Row `i` of the data behind the header. */
  function Row(image: seq<Byte>, dim: nat, i: nat): seq<Byte>
    requires HEADER + SlotAt(RowSize(dim), i) + RowSize(dim) <= |image|
  {
    image[HEADER + SlotAt(RowSize(dim), i)..HEADER + SlotAt(RowSize(dim), i) + RowSize(dim)]
  }

  ghost predicate RowIs(image: seq<Byte>, dim: nat, i: nat, row: seq<Byte>) {
    && HEADER + SlotAt(RowSize(dim), i) + RowSize(dim) <= |image|
    && Row(image, dim, i) == row
  }

  /** `image` is a segment file that holds `rows`. */
  ghost predicate Stores(image: seq<Byte>, dim: nat, rows: seq<seq<Byte>>) {
    && 0 < dim < 0x1_0000_0000 && |rows| < 0x1_0000_0000
    && |image| >= HEADER && image[..24] == Front(dim, |rows|)
    && HEADER + SlotAt(RowSize(dim), |rows|) <= |image|
    && forall i :: 0 <= i < |rows| ==> RowIs(image, dim, i, rows[i])
  }

  /** The header of a segment always validates and gives back its dimension and count. */
  lemma HeaderReadsBack(image: seq<Byte>, dim: nat, rows: seq<seq<Byte>>)
    requires Stores(image, dim, rows)
    ensures ReadHeader(image) == Accepted(dim, |rows|)
  {
    hide Crc, LE;
    var f := Fields(dim, |rows|);
    assert f[..4] == LE(MAGIC, 4) && f[4..6] == LE(VERSION, 2) && f[8..16] == LE(|rows|, 8) && f[16..20] == LE(dim, 4);
    var h := image[..24];
    assert image[..20] == h[..20] == f && image[20..24] == h[20..24] == WordBytes(Crc(f));
    assert image[..4] == f[..4] && image[4..6] == f[4..6] && image[8..16] == f[8..16] && image[16..20] == f[16..20];
    Widths();
    LERoundTrip(MAGIC, 4);
    LERoundTrip(VERSION, 2);
    LERoundTrip(|rows|, 8);
    LERoundTrip(dim, 4);
  }

  /** Patching the count and the checksum gives the header of one more row. */
  lemma CountPatched(image: seq<Byte>, dim: nat, before: nat, after: nat)
    requires |image| >= HEADER && image[..24] == Front(dim, before)
    ensures var a := Put(image, 8, LE(after, 8));
      && a[..20] == Fields(dim, after) && Put(a, 20, WordBytes(Crc(a[..20])))[..24] == Front(dim, after)
      && Put(a, 20, WordBytes(Crc(a[..20])))[HEADER..] == image[HEADER..]
  {
    hide Crc, LE, WordBytes;
    var a := Put(image, 8, LE(after, 8));
    var h := image[..24];
    assert image[..8] == h[..8] && image[16..20] == h[16..20];
    assert a[..20] == Fields(dim, after);
  }

  /** Rows are read from the data only, so header writes and zero-filled growth keep them. */
  lemma RowKept(image: seq<Byte>, image': seq<Byte>, dim: nat, i: nat, n: nat, row: seq<Byte>)
    requires i < n && RowIs(image, dim, i, row) && HEADER + SlotAt(RowSize(dim), n) <= |image| && |image'| >= |image|
    requires image'[HEADER..HEADER + SlotAt(RowSize(dim), n)] == image[HEADER..HEADER + SlotAt(RowSize(dim), n)]
    ensures RowIs(image', dim, i, row)
  {
    hide SlotAt, RowSize;
    SlotsOrdered(RowSize(dim), i, n);
    var lo, end, size := SlotAt(RowSize(dim), i), SlotAt(RowSize(dim), n), RowSize(dim);
    AgreeInside(image', image, HEADER, HEADER + end);
    assert image'[HEADER + lo..HEADER + lo + size] == image[HEADER + lo..HEADER + lo + size];
  }

  lemma AgreeInside(a: seq<Byte>, b: seq<Byte>, from: nat, end: nat)
    requires from <= end <= |a| && end <= |b| && a[from..end] == b[from..end]
    ensures forall k :: from <= k < end ==> a[k] == b[k]
  {
    forall k | from <= k < end ensures a[k] == b[k] {
      assert a[k] == a[from..end][k - from] && b[k] == b[from..end][k - from];
    }
  }

  /** Writing row `n`, then the count and the checksum, appends it. */
  lemma AppendStores(image: seq<Byte>, dim: nat, rows: seq<seq<Byte>>, row: seq<Byte>, image': seq<Byte>)
    requires Stores(image, dim, rows) && |row| == RowSize(dim) && |rows| + 1 < 0x1_0000_0000
    requires HEADER + SlotAt(RowSize(dim), |rows|) + RowSize(dim) <= |image| == |image'|
    requires image'[..24] == Front(dim, |rows| + 1)
    requires image'[HEADER..] == Put(image, HEADER + SlotAt(RowSize(dim), |rows|), row)[HEADER..]
    ensures Stores(image', dim, rows + [row])
  {
    hide SlotAt, RowSize, Front;
    var n := |rows|;
    var at := SlotAt(RowSize(dim), n);
    SlotStep(RowSize(dim), n);
    var put := Put(image, HEADER + at, row);
    assert forall k :: HEADER <= k < |image| ==> image'[k] == image'[HEADER..][k - HEADER] && put[k] == put[HEADER..][k - HEADER];
    forall i | 0 <= i < n + 1
      ensures RowIs(image', dim, i, (rows + [row])[i])
    {
      if i < n {
        assert image'[HEADER..HEADER + at] == image[HEADER..HEADER + at];
        RowKept(image, image', dim, i, n, rows[i]);
      } else {
        assert image'[HEADER + at..HEADER + at + RowSize(dim)] == row;
      }
    }
  }

  lemma GrownStores(image: seq<Byte>, dim: nat, rows: seq<seq<Byte>>, size: nat)
    requires Stores(image, dim, rows) && size >= |image|
    ensures Stores(Resized(image, size), dim, rows)
  {
    hide SlotAt, Front;
    var image' := Resized(image, size);
    var end := HEADER + SlotAt(RowSize(dim), |rows|);
    assert image'[HEADER..end] == image[HEADER..end] && image'[..24] == image[..24];
    forall i | 0 <= i < |rows| ensures RowIs(image', dim, i, rows[i]) {
      RowKept(image, image', dim, i, |rows|, rows[i]);
    }
  }

  /** Every append of a new segment finds room if and only if a row is at most 64 MB. */
  lemma GrowthBound(dim: nat)
    ensures (forall n: nat :: 64 + SlotAt(4 * dim, n) <= SizeAfter(64, 64 + 0x10_0000, 0x400_0000, 4 * dim, n)) <==> 4 * dim <= 0x400_0000
  {
    hide SizeAfter;
    forall n: nat ensures 64 + SlotAt(4 * dim, n) == EndOfSlots(HEADER, RowSize(dim), n) { }
    GrowthExact(HEADER, HEADER + INITIAL_DATA, GROW_BYTES, RowSize(dim));
  }

  /** With rows of at most 64 MB one grow always makes room for one more row. */
  lemma OneGrowSuffices(size: nat, dim: nat, n: nat)
    requires HEADER + SlotAt(RowSize(dim), n) <= size && RowSize(dim) <= GROW_BYTES
    ensures HEADER + SlotAt(RowSize(dim), n + 1) <= size + GROW_BYTES
  {
    SlotStep(RowSize(dim), n);
  }

  class Segment {
    const table: array<bv32>
    var dim: nat
    var vecCount: nat
    var mem: array<Byte>
    ghost var rows: seq<seq<Byte>>

    ghost predicate Valid()
      reads this, mem, table
    {
      && IsTable(table) && mem as object != table && mem.Length <= OFF_MAX
      && vecCount == |rows| && Stores(mem[..], dim, rows)
    }

    /** Allocation only; `Create` and `Open` make usable segments. */
    constructor (table: array<bv32>, mem: array<Byte>)
      ensures this.table == table && this.mem == mem && dim == 0 && vecCount == 0 && rows == []
    {
      this.table, this.mem := table, mem;
      dim, vecCount, rows := 0, 0, [];
    }

    /** A new, empty segment stamped with the time `ns`. */
    static method Create(dim: nat, ns: nat) returns (r: SegmentResult)
      requires dim < 0x1_0000_0000
      ensures r.Failed? <==> dim == 0
      ensures r.Opened? ==> fresh(r.segment) && fresh(r.segment.mem) && fresh(r.segment.table)
      ensures r.Opened? ==> r.segment.Valid() && r.segment.rows == [] && r.segment.dim == dim
      ensures r.Opened? ==> r.segment.mem.Length == 64 + 0x10_0000 && r.segment.mem[24..32] == LE(ns, 8)
    {
      hide LE, Crc, WordBytes, Put, IsTable, SlotAt;
      if dim == 0 { return Failed(ZeroDim); }
      var table := BuildTable();
      var mem := Map([], HEADER + INITIAL_DATA);
      var s := new Segment(table, mem);
      s.dim := dim;
      ghost var blank := mem[..];
      Write(mem, 0, LE(MAGIC, 4));
      Write(mem, 4, LE(VERSION, 2));
      PutAdjacent(blank, 0, LE(MAGIC, 4), LE(VERSION, 2));
      Write(mem, 6, LE(0, 2));
      PutAdjacent(blank, 0, LE(MAGIC, 4) + LE(VERSION, 2), LE(0, 2));
      Write(mem, 8, LE(0, 8));
      PutAdjacent(blank, 0, LE(MAGIC, 4) + LE(VERSION, 2) + LE(0, 2), LE(0, 8));
      Write(mem, 16, LE(dim, 4));
      PutAdjacent(blank, 0, LE(MAGIC, 4) + LE(VERSION, 2) + LE(0, 2) + LE(0, 8), LE(dim, 4));
      PutFront(blank, Fields(dim, 0));
      var crc := Checksum(table, mem[..20]);
      Write(mem, 20, WordBytes(crc));
      PutAdjacent(blank, 0, Fields(dim, 0), WordBytes(crc));
      PutFront(blank, Front(dim, 0));
      ghost var image := mem[..];
      Write(mem, 24, LE(ns, 8));
      FrontKept(image, LE(ns, 8));
      PutWhere(image, 24, LE(ns, 8));
      assert mem[24..32] == mem[..][24..32];
      NoSlots(RowSize(dim));
      r := Opened(s);
    }

    /** Opens a segment file. Only the header is checked. */
    static method Open(file: seq<Byte>, ghost stored: seq<seq<Byte>>) returns (r: SegmentResult)
      requires |file| <= OFF_MAX
      ensures |file| < HEADER ==> r == Failed(FileTooSmall)
      ensures |file| >= HEADER && ReadHeader(file).Rejected? ==> r == Failed(ReadHeader(file).error)
      ensures |file| >= HEADER && ReadHeader(file).Accepted? ==> r.Opened? && fresh(r.segment) && fresh(r.segment.mem)
      ensures r.Opened? ==> r.segment.mem[..] == file && ReadHeader(file) == Accepted(r.segment.dim, r.segment.vecCount)
      ensures r.Opened? && Stores(file, r.segment.dim, stored) ==> r.segment.Valid() && r.segment.rows == stored
    {
      hide IsTable, Stores;
      if |file| < HEADER { return Failed(FileTooSmall); }
      match ReadHeader(file) {
        case Rejected(e) => return Failed(e);
        case Accepted(dim, count) =>
          var table := BuildTable();
          var mem := Map(file, |file|);
          assert mem[..] == file;
          var s := new Segment(table, mem);
          s.dim, s.vecCount, s.rows := dim, count, stored;
          if Stores(file, dim, stored) { HeaderReadsBack(file, dim, stored); }
          return Opened(s);
      }
    }

    /** Appends one row, growing the file at most once, and patches the count and the checksum. */
    method Append(row: seq<Byte>) returns (id: nat)
      requires Valid() && |row| == RowSize(dim) && vecCount + 1 < 0x1_0000_0000
      requires HEADER + SlotAt(RowSize(dim), vecCount + 1) <= mem.Length
        || HEADER + SlotAt(RowSize(dim), vecCount + 1) <= mem.Length + GROW_BYTES <= OFF_MAX
      modifies this`mem, this`vecCount, this`rows, mem
      ensures Valid() && id == |old(rows)| && rows == old(rows) + [row]
      ensures mem == old(mem) || fresh(mem)
      ensures mem.Length == GrownOnce(HEADER, GROW_BYTES, RowSize(dim), old(mem.Length), id)
    {
      hide LE, Crc, WordBytes, Put, IsTable, SlotAt, Stores, RowSize, Front, Fields;
      var needed := HEADER + SlotAt(RowSize(dim), vecCount + 1);
      ghost var file := mem[..];
      if needed > mem.Length {
        GrownStores(file, dim, rows, mem.Length + GROW_BYTES);
        mem := Map(mem[..], mem.Length + GROW_BYTES);
      }
      ghost var image := mem[..];
      SlotStep(RowSize(dim), vecCount);
      FrontOf(image, dim, rows);
      Write(mem, HEADER + SlotAt(RowSize(dim), vecCount), row);
      ghost var image1 := mem[..];
      BehindFront(image, HEADER + SlotAt(RowSize(dim), vecCount), row);
      id := vecCount;
      vecCount := vecCount + 1;
      Write(mem, 8, LE(vecCount, 8));
      CountPatched(image1, dim, id, vecCount);
      var crc := Checksum(table, mem[..20]);
      Write(mem, 20, WordBytes(crc));
      AppendStores(image, dim, rows, row, mem[..]);
      rows := rows + [row];
    }

    /**
     * Where the vector at `i` lies in the mapping; out of range when there is none. Only the header's
     * count is checked; in a segment that holds its rows, the vector lies there.
     */
    method Get(i: nat) returns (at: Option<nat>)
      ensures at == if i < vecCount then Some(HEADER + SlotAt(RowSize(dim), i)) else None
      ensures Valid() ==> (at.Some? <==> i < |rows|)
      ensures Valid() && at.Some? ==> at.value + RowSize(dim) <= mem.Length && mem[at.value..at.value + RowSize(dim)] == rows[i]
    {
      hide SlotAt, RowSize, IsTable, Front;
      if i >= vecCount { return None; }
      at := Some(HEADER + SlotAt(RowSize(dim), i));
      if Valid() {
        assert RowIs(mem[..], dim, i, rows[i]);
        assert mem[at.value..at.value + RowSize(dim)] == Row(mem[..], dim, i);
      }
    }
  }

  lemma FrontKept(image: seq<Byte>, b: seq<Byte>)
    requires 24 + |b| <= |image|
    ensures Put(image, 24, b)[..24] == image[..24]
  {
  }

  lemma FrontOf(image: seq<Byte>, dim: nat, rows: seq<seq<Byte>>)
    requires Stores(image, dim, rows)
    ensures |image| >= HEADER && image[..24] == Front(dim, |rows|)
  {
  }

  lemma BehindFront(image: seq<Byte>, off: nat, b: seq<Byte>)
    requires HEADER <= off && off + |b| <= |image|
    ensures Put(image, off, b)[..24] == image[..24]
  {
  }
}
