/** The bytes of the log file and of the segment file, field by field at their offsets, and what a damaged header comes to. */
module FileLayouts {
  import opened Bytes
  import opened Crc32
  import opened Growth
  import WalSpec
  import Segments

  // ---- the log file ---------------------------------------------------------------------

  /** One entry: number, id, dimension, checksum of the payload, payload. */
  lemma EntryLayout(dim: nat, lsn: nat, e: WalSpec.Entry)
    requires WalSpec.EntryOk(e, dim) && lsn < 0x1_0000_0000_0000_0000 && dim < 0x1_0000_0000
    ensures var slot := WalSpec.Encode(dim, lsn, e);
      && |slot| == 24 + 4 * dim
      && FromLE(slot[..8]) == lsn && FromLE(slot[8..16]) == e.id && FromLE(slot[16..20]) == dim
      && slot[20..24] == WordBytes(Crc(e.payload)) && slot[24..] == e.payload
  {
    hide Crc, WordBytes, LE;
    Widths();
    LERoundTrip(lsn, 8);
    LERoundTrip(e.id, 8);
    LERoundTrip(dim, 4);
    var slot := WalSpec.Encode(dim, lsn, e);
    assert slot[..8] == LE(lsn, 8) && slot[8..16] == LE(e.id, 8) && slot[16..20] == LE(dim, 4);
  }

  /** Entry `k` starts `k` entries behind the 64-byte header. */
  lemma EntryPosition(dim: nat, k: nat)
    ensures WalSpec.HEADER + WalSpec.Off(dim, k) == 64 + k * (24 + 4 * dim)
  {
  }

  /** The header: magic number and version, checkpoint, dimension, checksum of these 20 bytes, zeros. */
  lemma LogHeaderLayout(dim: nat, checkpoint: nat)
    requires dim < 0x1_0000_0000 && checkpoint < 0x1_0000_0000_0000_0000
    ensures var h := WalSpec.HeaderBytes(dim, checkpoint);
      && |h| == 64 && h[..8] == [0x21, 0x4C, 0x41, 0x57, 1, 0, 0, 0]
      && FromLE(h[8..16]) == checkpoint && FromLE(h[16..20]) == dim && h[20..24] == WordBytes(Crc(h[..20]))
      && forall i :: 24 <= i < 64 ==> h[i] == 0
  {
    LogMagic();
    hide Crc, WordBytes, LE;
    Widths();
    LERoundTrip(checkpoint, 8);
    LERoundTrip(dim, 4);
    var h, f := WalSpec.HeaderBytes(dim, checkpoint), WalSpec.HeaderFields(dim, checkpoint);
    assert h[..20] == f && f[8..16] == LE(checkpoint, 8) && f[16..20] == LE(dim, 4);
    assert h[8..16] == f[8..16] && h[16..20] == f[16..20];
    assert h[..8] == LE(WalSpec.MAGIC, 4) + LE(WalSpec.VERSION, 4);
  }

  lemma LogMagic()
    ensures LE(WalSpec.MAGIC, 4) == [0x21, 0x4C, 0x41, 0x57] && LE(WalSpec.VERSION, 4) == [1, 0, 0, 0]
  {
  }

  /** A header that names no dimension is accepted by every log. */
  lemma NoDimensionAccepted(image: seq<Byte>, checkpoint: nat, dim: nat)
    requires |image| >= 64 && image[..64] == WalSpec.HeaderBytes(0, checkpoint) && checkpoint < 0x1_0000_0000_0000_0000
    ensures WalSpec.ReadHeader(image, dim) == WalSpec.Accepted(checkpoint)
  {
    hide Crc, WordBytes, LE;
    Widths();
    LogFields(image, 0, checkpoint);
    LERoundTrip(WalSpec.MAGIC, 4);
    LERoundTrip(WalSpec.VERSION, 4);
    LERoundTrip(checkpoint, 8);
    LERoundTrip(0, 4);
  }

  lemma LogFields(image: seq<Byte>, dim: nat, checkpoint: nat)
    requires |image| >= 64 && image[..64] == WalSpec.HeaderBytes(dim, checkpoint)
    ensures image[..4] == LE(WalSpec.MAGIC, 4) && image[4..8] == LE(WalSpec.VERSION, 4)
    ensures image[8..16] == LE(checkpoint, 8) && image[16..20] == LE(dim, 4)
    ensures image[..20] == WalSpec.HeaderFields(dim, checkpoint) && image[20..24] == WordBytes(Crc(image[..20]))
  {
    hide Crc, WordBytes, LE;
    var h, f := WalSpec.HeaderBytes(dim, checkpoint), WalSpec.HeaderFields(dim, checkpoint);
    assert image[..20] == h[..20] == f && image[20..24] == h[20..24];
    assert image[..4] == f[..4] && image[4..8] == f[4..8] && image[8..16] == f[8..16] && image[16..20] == f[16..20];
  }

  /** Changing up to four consecutive bytes of the fields, or bytes of the checksum, makes every opening refuse the log. */
  lemma LogHeaderDamage(image: seq<Byte>, written: nat, checkpoint: nat, dim: nat, at: nat, bytes: seq<Byte>)
    requires |image| >= 64 && image[..64] == WalSpec.HeaderBytes(written, checkpoint)
    requires |bytes| <= 4 && (at + |bytes| <= 20 || 20 <= at <= at + |bytes| <= 24) && image[at..at + |bytes|] != bytes
    ensures var torn := Put(image, at, bytes);
      WalSpec.ReadHeader(torn, dim) == WalSpec.Rejected(
        if torn[..4] != image[..4] then WalSpec.BadMagic
        else if torn[4..8] != image[4..8] then WalSpec.BadVersion
        else WalSpec.BadHeaderCrc)
  {
    hide Crc, WordBytes, LE;
    LogFields(image, written, checkpoint);
    Damaged(image, at, bytes);
    var torn := Put(image, at, bytes);
    SameNumber(torn[..4], WalSpec.MAGIC);
    SameNumber(torn[4..8], WalSpec.VERSION);
    Widths();
    LERoundTrip(WalSpec.MAGIC, 4);
    LERoundTrip(WalSpec.VERSION, 4);
  }

  /** Damage to the first 24 bytes breaks the tie between the first 20 and the checksum behind them. */
  lemma Damaged(image: seq<Byte>, at: nat, bytes: seq<Byte>)
    requires |image| >= 24 && image[20..24] == WordBytes(Crc(image[..20]))
    requires |bytes| <= 4 && (at + |bytes| <= 20 || 20 <= at <= at + |bytes| <= 24) && image[at..at + |bytes|] != bytes
    ensures var torn := Put(image, at, bytes); torn[20..24] != WordBytes(Crc(torn[..20]))
  {
    hide Crc, WordBytes;
    var torn := Put(image, at, bytes);
    var end := at + |bytes|;
    if end <= 20 {
      InFront(image, at, bytes);
      ChangeDetected(image[..at], image[at..end], bytes, image[end..20]);
      if torn[20..24] == WordBytes(Crc(torn[..20])) { WordBytesInjective(Crc(image[..20]), Crc(torn[..20])); }
    } else {
      Behind20(image, at, bytes);
    }
  }

  lemma InFront(image: seq<Byte>, at: nat, bytes: seq<Byte>)
    requires |image| >= 24 && at + |bytes| <= 20
    ensures var torn, end := Put(image, at, bytes), at + |bytes|;
      && torn[20..24] == image[20..24] && torn[..20] == image[..at] + bytes + image[end..20]
      && image[..20] == image[..at] + image[at..end] + image[end..20]
  {
    var torn, end := Put(image, at, bytes), at + |bytes|;
    forall i | 0 <= i < 4 ensures torn[20..24][i] == image[20..24][i] { assert torn[20 + i] == image[20 + i]; }
    var f, g := torn[..20], image[..at] + bytes + image[end..20];
    forall i | 0 <= i < 20 ensures f[i] == g[i] { assert f[i] == torn[i]; }
    assert f == g;
  }

  lemma Behind20(image: seq<Byte>, at: nat, bytes: seq<Byte>)
    requires |image| >= 24 && 20 <= at <= at + |bytes| <= 24 && image[at..at + |bytes|] != bytes
    ensures var torn := Put(image, at, bytes); torn[..20] == image[..20] && torn[20..24] != image[20..24]
  {
    var torn, end := Put(image, at, bytes), at + |bytes|;
    if torn[20..24] == image[20..24] {
      forall i | 0 <= i < |bytes| ensures image[at..end][i] == bytes[i] {
        assert torn[20..24][at - 20 + i] == image[20..24][at - 20 + i];
        assert torn[at + i] == bytes[i];
      }
    }
  }

  /** Stored bytes are a number's bytes exactly if they load as it. */
  lemma SameNumber(s: seq<Byte>, n: nat)
    ensures FromLE(s) == n ==> s == LE(n, |s|)
  {
    hide LE;
    LEOfFromLE(s);
  }

  /**
   * Up to four consecutive changed bytes of one field of a written entry: the entry is no longer valid,
   * except that a changed id goes unnoticed.
   */
  lemma EntryDamage(dim: nat, lsn: nat, e: WalSpec.Entry, at: nat, bytes: seq<Byte>)
    requires WalSpec.EntryOk(e, dim) && lsn < 0x1_0000_0000_0000_0000 && dim < 0x1_0000_0000 && |bytes| <= 4
    requires at + |bytes| <= 8 || 8 <= at <= at + |bytes| <= 16 || 16 <= at <= at + |bytes| <= 20 || 20 <= at <= at + |bytes| <= 24
      || 24 <= at <= at + |bytes| <= 24 + 4 * dim
    requires |WalSpec.Encode(dim, lsn, e)| == 24 + 4 * dim && WalSpec.Encode(dim, lsn, e)[at..at + |bytes|] != bytes
    ensures var torn := Put(WalSpec.Encode(dim, lsn, e), at, bytes);
      && (WalSpec.SlotValid(torn, dim, lsn) <==> 8 <= at && at + |bytes| <= 16)
      && (WalSpec.SlotValid(torn, dim, lsn) ==> WalSpec.Decode(torn).payload == e.payload && WalSpec.Decode(torn).id != e.id)
  {
    hide Crc, WordBytes, LE;
    EntryLayout(dim, lsn, e);
    var slot, end := WalSpec.Encode(dim, lsn, e), at + |bytes|;
    var torn := Put(slot, at, bytes);
    assert torn[..8] == torn[0..8] && slot[..8] == slot[0..8] && torn[24..] == torn[24..|slot|] && slot[24..] == slot[24..|slot|];
    if end <= 8 {
      FieldChanged(slot, at, bytes, 0, 8);
    } else if 8 <= at && end <= 16 {
      FieldChanged(slot, at, bytes, 8, 16);
      FieldKept(slot, at, bytes, 0, 8);
      FieldKept(slot, at, bytes, 16, 20);
      FieldKept(slot, at, bytes, 20, 24);
      FieldKept(slot, at, bytes, 24, |slot|);
    } else if 16 <= at && end <= 20 {
      FieldChanged(slot, at, bytes, 16, 20);
    } else if 20 <= at && end <= 24 {
      FieldKept(slot, at, bytes, 24, |slot|);
      BytesChanged(slot, at, bytes, 20, 24);
    } else {
      assert slot[24..][at - 24..end - 24] == slot[at..end];
      WalSpec.DamagedSlot(dim, lsn, e, at - 24, bytes, torn, slot);
    }
  }

  lemma BytesChanged(s: seq<Byte>, at: nat, bytes: seq<Byte>, from: nat, to: nat)
    requires from <= at <= at + |bytes| <= to <= |s| && s[at..at + |bytes|] != bytes
    ensures Put(s, at, bytes)[from..to] != s[from..to]
  {
    var torn := Put(s, at, bytes);
    if torn[from..to] == s[from..to] {
      forall i | 0 <= i < |bytes| ensures s[at..at + |bytes|][i] == bytes[i] {
        assert torn[from..to][at - from + i] == s[from..to][at - from + i];
        assert torn[at + i] == bytes[i];
      }
    }
  }

  lemma FieldChanged(s: seq<Byte>, at: nat, bytes: seq<Byte>, from: nat, to: nat)
    requires from <= at <= at + |bytes| <= to <= |s| && s[at..at + |bytes|] != bytes
    ensures FromLE(Put(s, at, bytes)[from..to]) != FromLE(s[from..to])
  {
    BytesChanged(s, at, bytes, from, to);
    LEOfFromLE(s[from..to]);
    LEOfFromLE(Put(s, at, bytes)[from..to]);
  }

  lemma FieldKept(s: seq<Byte>, at: nat, bytes: seq<Byte>, from: nat, to: nat)
    requires at + |bytes| <= |s| && from <= to <= |s| && (to <= at || at + |bytes| <= from)
    ensures Put(s, at, bytes)[from..to] == s[from..to]
  {
    var a, b := Put(s, at, bytes)[from..to], s[from..to];
    forall i | 0 <= i < to - from ensures a[i] == b[i] {
      assert a[i] == Put(s, at, bytes)[from + i];
    }
  }

  function Larger(a: nat, b: nat): nat { if a < b then b else a }

  /** The sizes of the log file: at least 4 MB when mapped or cut, 16 MB more when the next entry does not fit. */
  lemma LogSizes(file: seq<Byte>, dim: nat, n: nat, size: nat)
    ensures |WalSpec.Mapped(file)| == Larger(|file|, 0x40_0000)
    ensures forall i :: 0 <= i < |WalSpec.Mapped(file)| ==> WalSpec.Mapped(file)[i] == if i < |file| then file[i] else 0
    ensures WalSpec.CutSize(dim, n) == Larger(0x40_0000, 64 + n * (24 + 4 * dim))
    ensures WalSpec.GrownSize(size, dim, n) == if 64 + (n + 1) * (24 + 4 * dim) > size then size + 0x100_0000 else size
  {
    EntryPosition(dim, n);
    EntryPosition(dim, n + 1);
    hide WalSpec.Off;
    WalSpec.GrownWhen(size, dim, n);
    if |file| <= 0x40_0000 { assert WalSpec.Mapped(file) == Resized(file, 0x40_0000); }
  }

  // ---- the segment file --------------------------------------------------------------------

  /** The header: magic number, version and flags, count, dimension, checksum of these 20 bytes. */
  lemma SegmentHeaderLayout(dim: nat, count: nat)
    requires dim < 0x1_0000_0000 && count < 0x1_0000_0000_0000_0000
    ensures var h := Segments.Front(dim, count);
      && |h| == 24 && h[..8] == [0x44, 0x43, 0x45, 0x56, 1, 0, 0, 0]
      && FromLE(h[8..16]) == count && FromLE(h[16..20]) == dim && h[20..24] == WordBytes(Crc(h[..20]))
  {
    SegmentMagic();
    hide Crc, WordBytes, LE;
    Widths();
    LERoundTrip(count, 8);
    LERoundTrip(dim, 4);
    var h, f := Segments.Front(dim, count), Segments.Fields(dim, count);
    assert h[..20] == f && f[8..16] == LE(count, 8) && f[16..20] == LE(dim, 4);
    assert h[8..16] == f[8..16] && h[16..20] == f[16..20];
    assert h[..8] == LE(Segments.MAGIC, 4) + LE(Segments.VERSION, 2) + LE(0, 2);
  }

  lemma SegmentMagic()
    ensures LE(Segments.MAGIC, 4) == [0x44, 0x43, 0x45, 0x56] && LE(Segments.VERSION, 2) == [1, 0] && LE(0, 2) == [0, 0]
  {
  }

  /** A stored count of 2^32 or more is read modulo 2^32. */
  lemma CountNarrowed(image: seq<Byte>, dim: nat, count: nat)
    requires dim < 0x1_0000_0000 && count < 0x1_0000_0000_0000_0000
    requires |image| >= 64 && image[..24] == Segments.Front(dim, count)
    ensures Segments.ReadHeader(image) == Segments.Accepted(dim, count % 0x1_0000_0000)
  {
    hide Crc, WordBytes, LE;
    var h, f := image[..24], Segments.Fields(dim, count);
    assert image[..20] == h[..20] == f && image[20..24] == h[20..24] == WordBytes(Crc(f));
    assert image[..4] == f[..4] == LE(Segments.MAGIC, 4) && image[4..6] == f[4..6] == LE(Segments.VERSION, 2);
    assert image[8..16] == f[8..16] == LE(count, 8) && image[16..20] == f[16..20] == LE(dim, 4);
    Widths();
    LERoundTrip(Segments.MAGIC, 4);
    LERoundTrip(Segments.VERSION, 2);
    LERoundTrip(count, 8);
    LERoundTrip(dim, 4);
  }

  /** Row `i` starts `i` rows behind the 64-byte header. */
  lemma RowPosition(image: seq<Byte>, dim: nat, i: nat)
    requires 64 + i * (4 * dim) + 4 * dim <= |image|
    ensures Segments.HEADER + SlotAt(Segments.RowSize(dim), i) == 64 + i * (4 * dim)
    ensures Segments.Row(image, dim, i) == image[64 + i * (4 * dim)..64 + i * (4 * dim) + 4 * dim]
  {
  }

  /** The segment grows by 64 MB when the next row does not fit. */
  lemma SegmentSizes(dim: nat, n: nat, size: nat)
    ensures GrownOnce(Segments.HEADER, Segments.GROW_BYTES, Segments.RowSize(dim), size, n)
      == if 64 + (n + 1) * (4 * dim) > size then size + 0x400_0000 else size
  {
  }

  /** Changing up to four consecutive bytes of the fields, or bytes of the checksum, makes every opening refuse the segment. */
  lemma SegmentHeaderDamage(image: seq<Byte>, dim: nat, rows: seq<seq<Byte>>, at: nat, bytes: seq<Byte>)
    requires Segments.Stores(image, dim, rows)
    requires |bytes| <= 4 && (at + |bytes| <= 20 || 20 <= at <= at + |bytes| <= 24) && image[at..at + |bytes|] != bytes
    ensures var torn := Put(image, at, bytes);
      Segments.ReadHeader(torn) == Segments.Rejected(
        if torn[..4] != image[..4] then Segments.BadMagic
        else if torn[4..6] != image[4..6] then Segments.BadVersion
        else Segments.BadHeaderCrc)
  {
    hide Crc, WordBytes, LE;
    var h, f := image[..24], Segments.Fields(dim, |rows|);
    assert image[..20] == h[..20] == f && image[20..24] == h[20..24] == WordBytes(Crc(f));
    assert image[..4] == f[..4] == LE(Segments.MAGIC, 4) && image[4..6] == f[4..6] == LE(Segments.VERSION, 2);
    Damaged(image, at, bytes);
    var torn := Put(image, at, bytes);
    SameNumber(torn[..4], Segments.MAGIC);
    SameNumber(torn[4..6], Segments.VERSION);
    Widths();
    LERoundTrip(Segments.MAGIC, 4);
    LERoundTrip(Segments.VERSION, 2);
  }
}
