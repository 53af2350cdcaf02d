/** The write-ahead log: its bytes, the log they stand for, and what keeps the two in step. */
module WalSpec {
  import opened Bytes
  import opened Crc32
  import opened Growth

  const HEADER: nat := 64
  const FIXED: nat := 24
  const INITIAL: nat := 0x40_0000
  const GROW: nat := 0x100_0000
  const MAGIC: nat := 0x5741_4C21
  const VERSION: nat := 1

  /** One logged insert: the client's id and the bytes of the vector. */
  datatype Entry = Entry(id: nat, payload: seq<Byte>)

  /** What a replay hands to its callback. */
  datatype Delivery = Delivery(lsn: nat, id: nat, dim: nat, payload: seq<Byte>)

  predicate EntryOk(e: Entry, dim: nat) { e.id < 0x1_0000_0000_0000_0000 && |e.payload| == 4 * dim }

  ghost predicate LogOk(log: seq<Entry>, dim: nat) { forall k :: 0 <= k < |log| ==> EntryOk(log[k], dim) }

  // ---- layout ---------------------------------------------------------------------

  function EntrySize(dim: nat): nat { FIXED + 4 * dim }

  /** Where slot `k` starts in the data behind the header. */
  function Off(dim: nat, k: nat): nat { SlotAt(EntrySize(dim), k) }

  lemma OffStep(dim: nat, k: nat)
    ensures Off(dim, k + 1) == Off(dim, k) + EntrySize(dim)
  {
    SlotStep(EntrySize(dim), k);
  }

  lemma OffMono(dim: nat, j: nat, k: nat)
    requires j <= k
    ensures Off(dim, j) <= Off(dim, k) && k <= Off(dim, k)
    ensures Off(dim, k) - Off(dim, j) == Off(dim, k - j)
  {
    SlotsMono(EntrySize(dim), j, k);
  }

  lemma SlotOrder(dim: nat, j: nat, k: nat)
    requires j < k
    ensures Off(dim, j) + EntrySize(dim) <= Off(dim, k)
  {
    SlotsOrdered(EntrySize(dim), j, k);
  }

  function Slot(data: seq<Byte>, dim: nat, k: nat): (r: seq<Byte>)
    requires Off(dim, k) + EntrySize(dim) <= |data|
    ensures |r| == EntrySize(dim)
  {
    data[Off(dim, k)..Off(dim, k) + EntrySize(dim)]
  }

  /** The fields `append` writes. */
  function Encode(dim: nat, lsn: nat, e: Entry): seq<Byte> {
    LE(lsn, 8) + LE(e.id, 8) + LE(dim, 4) + WordBytes(Crc(e.payload)) + e.payload
  }

  /** The checks `open_or_create` and `replay` make on one slot. */
  predicate SlotValid(slot: seq<Byte>, dim: nat, lsn: nat)
    requires |slot| == EntrySize(dim)
  {
    FromLE(slot[..8]) == lsn && FromLE(slot[16..20]) == dim && slot[20..24] == WordBytes(Crc(slot[24..]))
  }

  function Decode(slot: seq<Byte>): Entry
    requires |slot| >= FIXED
  {
    Entry(FromLE(slot[8..16]), slot[24..])
  }

  /** The entries a scan from slot `k` accepts. */
  function Entries(data: seq<Byte>, dim: nat, k: nat): (r: seq<Entry>)
    decreases |data| - Off(dim, k)
  {
    OffStep(dim, k);
    if Off(dim, k) + EntrySize(dim) > |data| || !SlotValid(Slot(data, dim, k), dim, k) then []
    else [Decode(Slot(data, dim, k))] + Entries(data, dim, k + 1)
  }

  lemma EntriesStep(data: seq<Byte>, dim: nat, k: nat)
    requires Off(dim, k) + EntrySize(dim) <= |data| && SlotValid(Slot(data, dim, k), dim, k)
    ensures Entries(data, dim, k) == [Decode(Slot(data, dim, k))] + Entries(data, dim, k + 1)
    ensures Off(dim, k + 1) == Off(dim, k) + EntrySize(dim)
  {
    hide Off, EntrySize, SlotValid, Decode;
    OffStep(dim, k);
  }

  lemma ScanStarts(data: seq<Byte>, dim: nat)
    ensures Off(dim, 0) == 0 && Deliveries([], dim) == []
  {
  }

  lemma ScanEnds(data: seq<Byte>, dim: nat, k: nat)
    requires !(Off(dim, k) + EntrySize(dim) <= |data| && SlotValid(Slot(data, dim, k), dim, k))
    ensures Entries(data, dim, k) == []
  {
    hide Off, EntrySize, SlotValid;
  }

  lemma EncodeDecode(dim: nat, lsn: nat, e: Entry)
    requires EntryOk(e, dim) && lsn < Pow256(8) && dim < Pow256(4)
    ensures var slot := Encode(dim, lsn, e);
      |slot| == EntrySize(dim) && SlotValid(slot, dim, lsn) && Decode(slot) == e
  {
    var slot := Encode(dim, lsn, e);
    assert slot[..8] == LE(lsn, 8) && slot[8..16] == LE(e.id, 8) && slot[16..20] == LE(dim, 4);
    assert slot[20..24] == WordBytes(Crc(e.payload)) && slot[24..] == e.payload;
    LERoundTrip(lsn, 8);
    LERoundTrip(dim, 4);
    Widths();
    LERoundTrip(e.id, 8);
  }

  /** An accepted slot holds exactly the bytes `append` writes for the entry it decodes to. */
  lemma DecodeEncode(slot: seq<Byte>, dim: nat, lsn: nat)
    requires |slot| == EntrySize(dim) && SlotValid(slot, dim, lsn)
    ensures EntryOk(Decode(slot), dim) && Encode(dim, lsn, Decode(slot)) == slot
  {
    LEOfFromLE(slot[..8]);
    LEOfFromLE(slot[8..16]);
    LEOfFromLE(slot[16..20]);
    Widths();
    assert slot == slot[..8] + slot[8..16] + slot[16..20] + slot[20..24] + slot[24..];
  }

  // ---- the image of a log ------------------------------------------------------------

  /**
   * Behind slot `n` there are only zeros, and slot `n` itself is not a valid entry: it is zero, or
   * what a torn append left.
   */
  ghost predicate Tail(data: seq<Byte>, dim: nat, n: nat) {
    if Off(dim, n) + EntrySize(dim) <= |data| then
      !SlotValid(Slot(data, dim, n), dim, n) && AllZero(data, Off(dim, n) + EntrySize(dim))
    else AllZero(data, Off(dim, n))
  }

  ghost predicate AllZero(data: seq<Byte>, from: nat) {
    forall i :: from <= i < |data| ==> data[i] == 0
  }

  /** `data` is the image of `log`. */
  ghost predicate Image(data: seq<Byte>, dim: nat, log: seq<Entry>) {
    && Off(dim, |log|) <= |data|
    && (forall k :: 0 <= k < |log| ==> Holds(data, dim, k, k, log[k]))
    && Tail(data, dim, |log|)
  }

  /** Slot `k` holds `e` under the number `lsn`. */
  ghost predicate Holds(data: seq<Byte>, dim: nat, k: nat, lsn: nat, e: Entry) {
    Off(dim, k) + EntrySize(dim) <= |data| && Slot(data, dim, k) == Encode(dim, lsn, e)
  }

  /** Scanning the image of a log gives the log: the tail is never read as an entry. */
  lemma {:induction false} ScanOfImage(data: seq<Byte>, dim: nat, log: seq<Entry>, k: nat)
    requires Image(data, dim, log) && LogOk(log, dim) && k <= |log| && |log| < Pow256(8) && dim < Pow256(4)
    ensures Entries(data, dim, k) == log[k..]
    decreases |log| - k
  {
    hide SlotValid, Encode, Decode;
    if k < |log| {
      assert Holds(data, dim, k, k, log[k]);
      EncodeDecode(dim, k, log[k]);
      ScanOfImage(data, dim, log, k + 1);
    }
  }

  lemma ZeroSlot(slot: seq<Byte>, dim: nat, lsn: nat)
    requires |slot| == EntrySize(dim) && dim > 0 && AllZero(slot, 0)
    ensures !SlotValid(slot, dim, lsn)
  {
    FromLEZeros(slot[16..20]);
  }

  /** Zeros behind the last entry are a tail, because a zero slot names dimension 0. */
  lemma ZeroTail(data: seq<Byte>, dim: nat, n: nat)
    requires dim > 0 && AllZero(data, Off(dim, n))
    ensures Tail(data, dim, n)
  {
    if Off(dim, n) + EntrySize(dim) <= |data| {
      ZeroSlot(Slot(data, dim, n), dim, n);
    }
  }

  lemma EmptyImage(data: seq<Byte>, dim: nat)
    requires dim > 0 && AllZero(data, 0)
    ensures Image(data, dim, [])
  {
    ZeroTail(data, dim, 0);
  }

  /** Writing one entry into slot `n` appends it to the log. */
  lemma AppendImage(data: seq<Byte>, dim: nat, log: seq<Entry>, e: Entry)
    requires Image(data, dim, log) && dim > 0 && EntryOk(e, dim)
    requires Off(dim, |log|) + EntrySize(dim) <= |data|
    ensures |Encode(dim, |log|, e)| == EntrySize(dim)
    ensures Image(Put(data, Off(dim, |log|), Encode(dim, |log|, e)), dim, log + [e])
  {
    hide SlotValid, LE, Crc;
    var n := |log|;
    var slot := Encode(dim, n, e);
    var data' := Put(data, Off(dim, n), slot);
    OffStep(dim, n);
    forall k | 0 <= k < n + 1
      ensures Holds(data', dim, k, k, (log + [e])[k])
    {
      if k < n {
        assert Holds(data, dim, k, k, log[k]);
        SlotOrder(dim, k, n);
        OtherSlot(data, dim, n, k, slot);
      } else {
        assert Slot(data', dim, n) == slot;
      }
    }
    ZeroTail(data', dim, n + 1);
  }

  /** Zero-filled growth changes nothing. */
  lemma GrowImage(data: seq<Byte>, dim: nat, log: seq<Entry>, extra: nat)
    requires Image(data, dim, log) && dim > 0
    ensures Image(data + Zeros(extra), dim, log)
  {
    hide SlotValid, Encode;
    var n := |log|;
    var data' := data + Zeros(extra);
    forall k | 0 <= k < n
      ensures Holds(data', dim, k, k, log[k])
    {
      assert Holds(data, dim, k, k, log[k]);
      assert Slot(data', dim, k) == Slot(data, dim, k);
    }
    if Off(dim, n) + EntrySize(dim) <= |data| {
      assert Slot(data', dim, n) == Slot(data, dim, n);
    } else {
      ZeroTail(data', dim, n);
    }
  }

  /** A crash inside an append leaves slot `n` arbitrary; unless it happens to be valid, the log is unchanged. */
  lemma TornImage(data: seq<Byte>, dim: nat, log: seq<Entry>, slot: seq<Byte>)
    requires Image(data, dim, log) && dim > 0 && |slot| == EntrySize(dim)
    requires Off(dim, |log|) + EntrySize(dim) <= |data|
    ensures var data' := Put(data, Off(dim, |log|), slot);
      if SlotValid(slot, dim, |log|) then Image(data', dim, log + [Decode(slot)]) else Image(data', dim, log)
  {
    hide SlotValid, Encode, Decode;
    var n := |log|;
    var data' := Put(data, Off(dim, n), slot);
    if SlotValid(slot, dim, n) {
      DecodeEncode(slot, dim, n);
      AppendImage(data, dim, log, Decode(slot));
    } else {
      forall k | 0 <= k < n
        ensures Holds(data', dim, k, k, log[k])
      {
        assert Holds(data, dim, k, k, log[k]);
        SlotOrder(dim, k, n);
        OtherSlot(data, dim, n, k, slot);
      }
      assert Slot(data', dim, n) == slot;
    }
  }

  // ---- the file around the data -------------------------------------------------------

  /** `append` grows the mapping once when the next entry does not fit. */
  function GrownSize(size: nat, dim: nat, n: nat): nat { GrownOnce(HEADER, GROW, EntrySize(dim), size, n) }

  lemma GrownWhen(size: nat, dim: nat, n: nat)
    ensures GrownSize(size, dim, n) == if HEADER + Off(dim, n + 1) > size then size + GROW else size
  {
  }

  lemma GrownFile(image: seq<Byte>, size: nat)
    requires HEADER <= |image| <= size
    ensures Resized(image, size)[..HEADER] == image[..HEADER]
    ensures Resized(image, size)[HEADER..] == image[HEADER..] + Zeros(size - |image|)
  {
  }

  lemma PutInData(image: seq<Byte>, off: nat, b: seq<Byte>)
    requires HEADER + off + |b| <= |image|
    ensures Put(image, HEADER + off, b)[HEADER..] == Put(image[HEADER..], off, b)
    ensures Put(image, HEADER + off, b)[..HEADER] == image[..HEADER]
  {
  }

  /** A slot of the data, read from the file. */
  lemma DataSlot(image: seq<Byte>, dim: nat, k: nat)
    requires HEADER + Off(dim, k) + EntrySize(dim) <= |image|
    ensures image[HEADER + Off(dim, k)..HEADER + Off(dim, k) + EntrySize(dim)] == Slot(image[HEADER..], dim, k)
  {
    hide Off, EntrySize;
  }

  lemma HeaderOnly(image: seq<Byte>, off: nat, b: seq<Byte>)
    requires off + |b| <= HEADER <= |image|
    ensures Put(image, off, b)[HEADER..] == image[HEADER..]
    ensures Put(image, off, b)[..HEADER] == Put(image[..HEADER], off, b)
  {
  }

  // ---- truncation -------------------------------------------------------------------

  /** The number slot `k` holds once the first `i` of the kept entries have been renumbered. */
  function Number(keep: nat, i: nat, k: nat): nat { if k < i then k else keep + k }

  /** The kept entries have been shifted to the front; the first `i` have been renumbered from 0. */
  ghost predicate Renumbered(data: seq<Byte>, dim: nat, log: seq<Entry>, keep: nat, i: nat) {
    && keep <= |log| && Off(dim, |log| - keep) <= |data|
    && forall k :: 0 <= k < |log| - keep ==> Holds(data, dim, k, Number(keep, i, k), log[keep + k])
  }

  lemma ShiftEntries(data: seq<Byte>, dim: nat, log: seq<Entry>, keep: nat)
    requires Image(data, dim, log) && keep <= |log|
    ensures Off(dim, keep) + Off(dim, |log| - keep) == Off(dim, |log|)
    ensures Renumbered(Put(data, 0, data[Off(dim, keep)..Off(dim, |log|)]), dim, log, keep, 0)
  {
    hide Encode, Off, EntrySize;
    var n := |log|;
    OffMono(dim, keep, n);
    var data' := Put(data, 0, data[Off(dim, keep)..Off(dim, n)]);
    forall k | 0 <= k < n - keep
      ensures Holds(data', dim, k, Number(keep, 0, k), log[keep + k])
    {
      assert Holds(data, dim, keep + k, keep + k, log[keep + k]);
      SlotOrder(dim, k, n - keep);
      OffMono(dim, keep, keep + k);
      ShiftedSlot(data, data', Off(dim, keep), Off(dim, n), Off(dim, k), EntrySize(dim));
    }
  }

  lemma ShiftedSlot(data: seq<Byte>, data': seq<Byte>, src: nat, end: nat, off: nat, size: nat)
    requires src + off + size <= end <= |data| && data' == Put(data, 0, data[src..end])
    ensures data'[off..off + size] == data[src + off..src + off + size]
  {
    assert forall i :: 0 <= i < end - src ==> data'[i] == data[src + i];
  }

  /** The size `truncate` leaves: the kept entries, but never less than the initial size. */
  function CutSize(dim: nat, kept: nat): nat {
    if HEADER + Off(dim, kept) < INITIAL then INITIAL else HEADER + Off(dim, kept)
  }

  lemma ImageFits(data: seq<Byte>, dim: nat, log: seq<Entry>)
    requires Image(data, dim, log)
    ensures Off(dim, |log|) <= |data|
  {
  }

  lemma RenumberedFits(data: seq<Byte>, dim: nat, log: seq<Entry>, keep: nat)
    requires keep <= |log| && Renumbered(data, dim, log, keep, |log| - keep)
    ensures Off(dim, |log| - keep) <= |data|
  {
  }

  /** The move within the file is a move within the data. */
  lemma ShiftedFile(image: seq<Byte>, image': seq<Byte>, src: nat, len: nat)
    requires HEADER + src + len <= |image|
    requires image' == if len > 0 && HEADER + src < |image| then Put(image, HEADER, image[HEADER + src..HEADER + src + len]) else image
    ensures image'[HEADER..] == Put(image[HEADER..], 0, image[HEADER..][src..src + len])
  {
    if len > 0 {
      PutInData(image, 0, image[HEADER + src..HEADER + src + len]);
      assert image[HEADER..][src..src + len] == image[HEADER + src..HEADER + src + len];
    }
  }

  lemma RemappedFile(file: seq<Byte>, data: seq<Byte>, len: nat, size: nat)
    requires HEADER <= |file| == HEADER + len <= size && len <= |data| && file[HEADER..] == data[..len]
    ensures Resized(file, size)[HEADER..] == Resized(data[..len], size - HEADER)
  {
  }

  /** Rewriting the number of one kept entry. */
  lemma RenumberOne(data: seq<Byte>, dim: nat, log: seq<Entry>, keep: nat, i: nat)
    requires Renumbered(data, dim, log, keep, i) && i < |log| - keep
    ensures Off(dim, i) + EntrySize(dim) <= |data| && EntrySize(dim) >= 8
    ensures Renumbered(Put(data, Off(dim, i), LE(i, 8)), dim, log, keep, i + 1)
  {
    hide Encode, Off, Put, EntrySize, LE;
    EncodeRenumbered(dim, Number(keep, i, i), i, log[keep + i]);
    assert Holds(data, dim, i, Number(keep, i, i), log[keep + i]);
    var data', i' := Put(data, Off(dim, i), LE(i, 8)), i + 1;
    forall k | 0 <= k < |log| - keep
      ensures Holds(data', dim, k, Number(keep, i', k), log[keep + k])
    {
      assert Holds(data, dim, k, Number(keep, i, k), log[keep + k]);
      if k != i { OtherSlot(data, dim, i, k, LE(i, 8)); }
      else { PutInside(data, Off(dim, i), LE(i, 8), EntrySize(dim)); }
    }
  }

  /** Writing the front of one slot leaves the others as they were. */
  lemma OtherSlot(data: seq<Byte>, dim: nat, i: nat, k: nat, b: seq<Byte>)
    requires i != k && |b| <= EntrySize(dim)
    requires Off(dim, i) + EntrySize(dim) <= |data| && Off(dim, k) + EntrySize(dim) <= |data|
    ensures Slot(Put(data, Off(dim, i), b), dim, k) == Slot(data, dim, k)
  {
    hide Off, Put, EntrySize;
    if k < i {
      SlotOrder(dim, k, i);
      PutBehind(data, Off(dim, i), b, Off(dim, k), EntrySize(dim));
    } else {
      SlotOrder(dim, i, k);
      PutBefore(data, Off(dim, i), b, Off(dim, k), EntrySize(dim));
    }
  }

  lemma PutBehind(data: seq<Byte>, off: nat, b: seq<Byte>, at: nat, size: nat)
    requires at + size <= off && off + |b| <= |data|
    ensures Put(data, off, b)[at..at + size] == data[at..at + size]
  {
    var l, r := Put(data, off, b)[at..at + size], data[at..at + size];
    forall i | 0 <= i < size ensures l[i] == r[i] {
      assert l[i] == Put(data, off, b)[at + i];
    }
  }

  lemma PutBefore(data: seq<Byte>, off: nat, b: seq<Byte>, at: nat, size: nat)
    requires off + |b| <= at && at + size <= |data|
    ensures Put(data, off, b)[at..at + size] == data[at..at + size]
  {
    var l, r := Put(data, off, b)[at..at + size], data[at..at + size];
    forall i | 0 <= i < size ensures l[i] == r[i] {
      assert l[i] == Put(data, off, b)[at + i];
    }
  }

  lemma PutInside(data: seq<Byte>, off: nat, b: seq<Byte>, size: nat)
    requires |b| <= size && off + size <= |data|
    ensures Put(data, off, b)[off..off + size] == Put(data[off..off + size], 0, b)
  {
    var l, r := Put(data, off, b)[off..off + size], Put(data[off..off + size], 0, b);
    forall i | 0 <= i < size ensures l[i] == r[i] {
      assert l[i] == Put(data, off, b)[off + i];
    }
  }

  lemma EncodeRenumbered(dim: nat, lsn: nat, lsn': nat, e: Entry)
    ensures |Encode(dim, lsn, e)| >= 8 && Put(Encode(dim, lsn, e), 0, LE(lsn', 8)) == Encode(dim, lsn', e)
  {
    hide LE, Crc, WordBytes;
    var rest := LE(e.id, 8) + LE(dim, 4) + WordBytes(Crc(e.payload)) + e.payload;
    assert Encode(dim, lsn, e) == LE(lsn, 8) + rest && Encode(dim, lsn', e) == LE(lsn', 8) + rest;
  }

  /** Cutting the file behind the kept entries and zero-filling it again leaves their image. */
  lemma CutImage(data: seq<Byte>, dim: nat, log: seq<Entry>, keep: nat, size: nat)
    requires keep <= |log| && dim > 0 && Renumbered(data, dim, log, keep, |log| - keep)
    requires Off(dim, |log| - keep) <= size
    ensures Image(Resized(data[..Off(dim, |log| - keep)], size), dim, log[keep..])
  {
    hide Encode, SlotValid, Off, EntrySize;
    var m := |log| - keep;
    var data' := Resized(data[..Off(dim, m)], size);
    forall k | 0 <= k < m
      ensures Holds(data', dim, k, k, log[keep..][k])
    {
      assert Holds(data, dim, k, Number(keep, m, k), log[keep + k]);
      SlotOrder(dim, k, m);
      assert Slot(data', dim, k) == Slot(data, dim, k);
    }
    ZeroTail(data', dim, m);
  }

  // ---- detection ----------------------------------------------------------------------

  /** Changing up to four consecutive payload bytes of entry `k` makes every scan stop right before it. */
  lemma ScanStopsAtDamage(data: seq<Byte>, dim: nat, log: seq<Entry>, k: nat, at: nat, bytes: seq<Byte>)
    requires Image(data, dim, log) && LogOk(log, dim) && |log| < Pow256(8) && dim < Pow256(4)
    requires k < |log| && |bytes| <= 4 && at + |bytes| <= 4 * dim && log[k].payload[at..at + |bytes|] != bytes
    ensures Off(dim, k) + EntrySize(dim) <= |data|
    ensures Entries(Put(data, Off(dim, k) + FIXED + at, bytes), dim, 0) == log[..k]
  {
    hide Encode, SlotValid, Crc;
    assert Holds(data, dim, k, k, log[k]);
    var data' := Put(data, Off(dim, k) + FIXED + at, bytes);
    DamagedSlot(dim, k, log[k], at, bytes, Slot(data', dim, k), Slot(data, dim, k));
    ScanUpTo(data, data', dim, log, k, 0);
  }

  lemma DamagedSlot(dim: nat, lsn: nat, e: Entry, at: nat, bytes: seq<Byte>, slot: seq<Byte>, was: seq<Byte>)
    requires EntryOk(e, dim) && |bytes| <= 4 && at + |bytes| <= 4 * dim && e.payload[at..at + |bytes|] != bytes
    requires was == Encode(dim, lsn, e) && |was| == EntrySize(dim) && slot == Put(was, FIXED + at, bytes)
    ensures !SlotValid(slot, dim, lsn)
  {
    hide LE, Crc, WordBytes;
    var p := e.payload;
    assert was[24..] == p && was[20..24] == WordBytes(Crc(p));
    assert slot[20..24] == was[20..24];
    assert slot[24..] == p[..at] + bytes + p[at + |bytes|..];
    assert p == p[..at] + p[at..at + |bytes|] + p[at + |bytes|..];
    ChangeDetected(p[..at], p[at..at + |bytes|], bytes, p[at + |bytes|..]);
    if slot[20..24] == WordBytes(Crc(slot[24..])) {
      WordBytesInjective(Crc(p), Crc(slot[24..]));
    }
  }

  /** A scan of `data'`, which agrees with an image up to slot `k` and is invalid there. */
  lemma {:induction false} ScanUpTo(data: seq<Byte>, data': seq<Byte>, dim: nat, log: seq<Entry>, k: nat, j: nat)
    requires Image(data, dim, log) && LogOk(log, dim) && |log| < Pow256(8) && dim < Pow256(4)
    requires j <= k < |log| && |data'| == |data| && Off(dim, k) + EntrySize(dim) <= |data|
    requires data'[..Off(dim, k)] == data[..Off(dim, k)] && !SlotValid(Slot(data', dim, k), dim, k)
    requires Off(dim, j) <= |data|
    ensures Entries(data', dim, j) == log[j..k]
    decreases k - j
  {
    hide Encode, SlotValid, Decode, Off, EntrySize;
    EntrySizePositive(dim);
    OffStep(dim, j);
    if j < k {
      assert Holds(data, dim, j, j, log[j]);
      SlotOrder(dim, j, k);
      assert Slot(data', dim, j) == data'[..Off(dim, k)][Off(dim, j)..Off(dim, j) + EntrySize(dim)];
      assert Slot(data', dim, j) == Slot(data, dim, j);
      EncodeDecode(dim, j, log[j]);
      ScanUpTo(data, data', dim, log, k, j + 1);
    }
  }

  /** Nothing but zeros lies behind what a scan accepts and the one slot after it. */
  ghost predicate CleanTail(data: seq<Byte>, dim: nat) {
    var n := |Entries(data, dim, 0)|;
    AllZero(data, if Off(dim, n) + EntrySize(dim) <= |data| then Off(dim, n) + EntrySize(dim) else Off(dim, n))
  }

  /** What a scan accepts fits, is valid slot by slot, and ends at an invalid slot or the end of the file. */
  lemma {:induction false} ScanSlots(data: seq<Byte>, dim: nat, k: nat)
    requires Off(dim, k) <= |data|
    ensures var es := Entries(data, dim, k); var n := k + |es|;
      && Off(dim, n) <= |data| && LogOk(es, dim)
      && (forall i :: 0 <= i < |es| ==> Holds(data, dim, k + i, k + i, es[i]))
      && (Off(dim, n) + EntrySize(dim) <= |data| ==> !SlotValid(Slot(data, dim, n), dim, n))
    decreases |data| - Off(dim, k)
  {
    hide SlotValid, Encode, Decode, Off, EntrySize;
    OffStep(dim, k);
    EntrySizePositive(dim);
    if Off(dim, k) + EntrySize(dim) <= |data| && SlotValid(Slot(data, dim, k), dim, k) {
      DecodeEncode(Slot(data, dim, k), dim, k);
      ScanSlots(data, dim, k + 1);
      var es, rest := Entries(data, dim, k), Entries(data, dim, k + 1);
      assert es == [Decode(Slot(data, dim, k))] + rest;
      forall i | 0 <= i < |es|
        ensures EntryOk(es[i], dim) && Holds(data, dim, k + i, k + i, es[i])
      {
        if i > 0 { assert es[i] == rest[i - 1] && Holds(data, dim, k + 1 + (i - 1), k + 1 + (i - 1), rest[i - 1]); }
      }
    }
  }

  lemma EntrySizePositive(dim: nat)
    ensures EntrySize(dim) >= FIXED
  {
  }

  /** A file with a clean tail is the image of the log its scan accepts. */
  lemma ImageOfScan(data: seq<Byte>, dim: nat)
    requires CleanTail(data, dim)
    ensures Image(data, dim, Entries(data, dim, 0)) && LogOk(Entries(data, dim, 0), dim)
  {
    hide SlotValid, Encode, Holds;
    ScanSlots(data, dim, 0);
    var es := Entries(data, dim, 0);
    forall k | 0 <= k < |es| ensures Holds(data, dim, k, k, es[k]) {
      assert Holds(data, dim, 0 + k, 0 + k, es[k]);
    }
  }

  /** The scan of an image leaves a clean tail. */
  lemma ImageIsClean(data: seq<Byte>, dim: nat, log: seq<Entry>)
    requires Image(data, dim, log) && LogOk(log, dim) && |log| < Pow256(8) && dim < Pow256(4)
    ensures CleanTail(data, dim) && Entries(data, dim, 0) == log
  {
    ScanOfImage(data, dim, log, 0);
  }

  lemma LogFits(data: seq<Byte>, dim: nat, log: seq<Entry>)
    requires Image(data, dim, log) && |data| < 0x1_0000_0000_0000_0000 && dim < 0x1_0000_0000
    ensures |log| <= |data| && |log| < Pow256(8) && dim < Pow256(4)
  {
    OffMono(dim, 0, |log|);
    Widths();
  }

  // ---- the header -----------------------------------------------------------------------

  function HeaderFields(dim: nat, checkpoint: nat): (r: seq<Byte>)
    ensures |r| == 20
  {
    LE(MAGIC, 4) + LE(VERSION, 4) + LE(checkpoint, 8) + LE(dim, 4)
  }

  /** What `write_header` writes. */
  function HeaderBytes(dim: nat, checkpoint: nat): (r: seq<Byte>)
    ensures |r| == HEADER
  {
    HeaderFields(dim, checkpoint) + WordBytes(Crc(HeaderFields(dim, checkpoint))) + Zeros(40)
  }

  datatype OpenError = ZeroDim | FileTooSmall | BadMagic | BadVersion | BadHeaderCrc | DimMismatch
  datatype Header = Accepted(checkpoint: nat) | Rejected(error: OpenError)

  /** `read_header`, check by check. */
  function ReadHeader(h: seq<Byte>, dim: nat): Header
    requires |h| >= HEADER
  {
    if FromLE(h[..4]) != MAGIC then Rejected(BadMagic)
    else if FromLE(h[4..8]) != VERSION then Rejected(BadVersion)
    else if h[20..24] != WordBytes(Crc(h[..20])) then Rejected(BadHeaderCrc)
    else if FromLE(h[16..20]) != 0 && FromLE(h[16..20]) != dim then Rejected(DimMismatch)
    else Accepted(FromLE(h[8..16]))
  }

  /** A written header is read back, and refused by a log of another dimension. */
  lemma HeaderRoundTrip(written: nat, checkpoint: nat, dim: nat, image: seq<Byte>)
    requires 0 < written < Pow256(4) && checkpoint < Pow256(8) && |image| >= HEADER && image[..HEADER] == HeaderBytes(written, checkpoint)
    ensures ReadHeader(image, dim) == if dim == written then Accepted(checkpoint) else Rejected(DimMismatch)
  {
    hide Crc, LE;
    var h := HeaderBytes(written, checkpoint);
    var f := HeaderFields(written, checkpoint);
    assert f[..4] == LE(MAGIC, 4) && f[4..8] == LE(VERSION, 4) && f[8..16] == LE(checkpoint, 8) && f[16..20] == LE(written, 4);
    assert image[..20] == h[..20] == f;
    assert image[20..24] == h[20..24] == WordBytes(Crc(f));
    assert image[..4] == f[..4] && image[4..8] == f[4..8] && image[8..16] == f[8..16] && image[16..20] == f[16..20];
    Widths();
    LERoundTrip(MAGIC, 4);
    LERoundTrip(VERSION, 4);
    LERoundTrip(checkpoint, 8);
    LERoundTrip(written, 4);
  }

  lemma BlankHeader(image: seq<Byte>)
    requires |image| >= HEADER
    ensures Put(image, 0, Zeros(HEADER)) == Zeros(HEADER) + image[HEADER..]
  {
  }

  lemma HeaderOnBlank(blank: seq<Byte>, dim: nat, checkpoint: nat)
    requires |blank| >= HEADER && blank[..HEADER] == Zeros(HEADER)
    ensures var f := HeaderFields(dim, checkpoint);
      Put(blank, 0, f + WordBytes(Crc(f))) == HeaderBytes(dim, checkpoint) + blank[HEADER..]
  {
    hide Crc, LE, WordBytes;
    assert blank == Zeros(HEADER) + blank[HEADER..];
  }

  /** Only the header bytes are read. */
  lemma SameHeader(a: seq<Byte>, b: seq<Byte>, dim: nat)
    requires |a| >= HEADER && |b| >= HEADER && a[..HEADER] == b[..HEADER]
    ensures ReadHeader(a, dim) == ReadHeader(b, dim)
  {
    hide Crc;
    assert forall i :: 0 <= i < HEADER ==> a[i] == a[..HEADER][i] && b[i] == b[..HEADER][i];
    assert a[..4] == b[..4] && a[4..8] == b[4..8] && a[8..16] == b[8..16] && a[16..20] == b[16..20];
    assert a[20..24] == b[20..24] && a[..20] == b[..20];
  }

  /** `checkpoint` patches the field and the checksum; the result is the header written afresh. */
  lemma HeaderPatched(dim: nat, before: nat, after: nat)
    ensures var h := Put(HeaderBytes(dim, before), 8, LE(after, 8));
      && h[..20] == HeaderFields(dim, after)
      && Put(h, 20, WordBytes(Crc(h[..20]))) == HeaderBytes(dim, after)
  {
    hide Crc, LE, WordBytes;
    var h := Put(HeaderBytes(dim, before), 8, LE(after, 8));
    assert h[..20] == HeaderFields(dim, after);
  }

  // ---- opening a file again ----------------------------------------------------------------

  /** The mapping over an existing file: at least the initial size. */
  function Mapped(file: seq<Byte>): seq<Byte> { Resized(file, if |file| < INITIAL then INITIAL else |file|) }

  /** The file of a log that was written by this code: its header is intact and its tail clean. */
  ghost predicate WellKept(file: seq<Byte>, dim: nat, checkpoint: nat) {
    && |file| >= HEADER && file[..HEADER] == HeaderBytes(dim, checkpoint)
    && CleanTail(Mapped(file)[HEADER..], dim)
  }

  lemma MappedData(file: seq<Byte>, dim: nat, log: seq<Entry>)
    requires |file| >= HEADER && Image(file[HEADER..], dim, log) && dim > 0
    ensures Image(Mapped(file)[HEADER..], dim, log)
  {
    hide Image;
    GrowImage(file[HEADER..], dim, log, |Mapped(file)| - |file|);
    GrownFile(file, |Mapped(file)|);
  }

  /** Opening the file of a log again finds the log and its checkpoint. */
  lemma ReopenFinds(file: seq<Byte>, dim: nat, log: seq<Entry>, checkpoint: nat)
    requires HEADER <= |file| < 0x8000_0000_0000_0000 && 0 < dim < 0x1_0000_0000 && checkpoint < 0x8000_0000_0000_0000
    requires file[..HEADER] == HeaderBytes(dim, checkpoint) && Image(file[HEADER..], dim, log) && LogOk(log, dim)
    ensures ReadHeader(file, dim) == Accepted(checkpoint)
    ensures Entries(Mapped(file)[HEADER..], dim, 0) == log && WellKept(file, dim, checkpoint)
  {
    hide Image, HeaderBytes, LogOk, Entries;
    Widths();
    HeaderRoundTrip(dim, checkpoint, dim, file);
    MappedData(file, dim, log);
    LogFits(Mapped(file)[HEADER..], dim, log);
    ImageIsClean(Mapped(file)[HEADER..], dim, log);
  }

  /**
   * A crash inside an append: whatever the interrupted writes left in the slot behind the last
   * entry, the next opening finds every earlier entry, and nothing else unless the slot is valid.
   */
  lemma ReopenAfterCrash(file: seq<Byte>, dim: nat, log: seq<Entry>, checkpoint: nat, slot: seq<Byte>)
    requires HEADER <= |file| < 0x8000_0000_0000_0000 && 0 < dim < 0x1_0000_0000 && checkpoint < 0x8000_0000_0000_0000
    requires file[..HEADER] == HeaderBytes(dim, checkpoint) && Image(file[HEADER..], dim, log) && LogOk(log, dim)
    requires |slot| == EntrySize(dim) && HEADER + Off(dim, |log|) + EntrySize(dim) <= |file|
    ensures var torn := Put(file, HEADER + Off(dim, |log|), slot);
      var found := if SlotValid(slot, dim, |log|) then log + [Decode(slot)] else log;
      && ReadHeader(torn, dim) == Accepted(checkpoint)
      && Entries(Mapped(torn)[HEADER..], dim, 0) == found && WellKept(torn, dim, checkpoint)
  {
    hide Image, HeaderBytes, Entries, Encode, SlotValid, Decode;
    var torn := Put(file, HEADER + Off(dim, |log|), slot);
    PutInData(file, Off(dim, |log|), slot);
    TornImage(file[HEADER..], dim, log, slot);
    if SlotValid(slot, dim, |log|) {
      DecodeEncode(slot, dim, |log|);
      ReopenFinds(torn, dim, log + [Decode(slot)], checkpoint);
    } else {
      ReopenFinds(torn, dim, log, checkpoint);
    }
  }

  // ---- growing once per append ----------------------------------------------------------------

  /** With entries of at most 16 MB one grow always makes room for one more entry. */
  lemma OneGrowSuffices(size: nat, dim: nat, n: nat)
    requires HEADER + Off(dim, n) <= size && EntrySize(dim) <= GROW
    ensures HEADER + Off(dim, n + 1) <= size + GROW
  {
    OffStep(dim, n);
  }

  /** Every append of a new log finds room if and only if an entry is at most 16 MB. */
  lemma GrowthBound(dim: nat)
    ensures (forall n: nat :: 64 + Off(dim, n) <= SizeAfter(64, 0x40_0000, 0x100_0000, 24 + 4 * dim, n)) <==> 24 + 4 * dim <= 0x100_0000
  {
    hide SizeAfter;
    forall n: nat ensures HEADER + Off(dim, n) == EndOfSlots(HEADER, EntrySize(dim), n) { }
    GrowthExact(HEADER, INITIAL, GROW, EntrySize(dim));
  }

  // ---- the log as a value -------------------------------------------------------------------

  /** The entries, the last checkpointed number, and the appends since. */
  datatype LogState = LogState(log: seq<Entry>, checkpoint: nat, since: nat)

  function Checkpointed(s: LogState): LogState { LogState(s.log, |s.log|, 0) }

  /** `append`: a checkpoint follows every `every` appends (never when `every` is 0). */
  function Appended(s: LogState, every: nat, e: Entry): LogState {
    var t := LogState(s.log + [e], s.checkpoint, s.since + 1);
    if every > 0 && t.since >= every then Checkpointed(t) else t
  }

  /** `truncate`: skipped up to the checkpoint, else the first `keep` entries go and the rest is renumbered. */
  function Truncated(s: LogState, keep: nat): LogState {
    if keep <= s.checkpoint then s
    else LogState(s.log[if keep < |s.log| then keep else |s.log|..], 0, 0)
  }

  /** Opening the file again: only the append counter is lost. */
  function Reopened(s: LogState): LogState { LogState(s.log, s.checkpoint, 0) }

  /** The deliveries of a replay of `log`. */
  function Deliveries(log: seq<Entry>, dim: nat): (r: seq<Delivery>)
    ensures |r| == |log| && forall k :: 0 <= k < |log| ==> r[k] == Delivery(k, log[k].id, dim, log[k].payload)
  {
    seq(|log|, k requires 0 <= k < |log| => Delivery(k, log[k].id, dim, log[k].payload))
  }

  /** One more slot read is one more delivery. */
  lemma DeliveryStep(es: seq<Entry>, slot: seq<Byte>, dim: nat)
    requires |slot| == EntrySize(dim)
    ensures Deliveries(es + [Decode(slot)], dim) == Deliveries(es, dim) + [Delivery(|es|, FromLE(slot[8..16]), dim, slot[24..])]
  {
  }

  /**
   * What a replay delivers after a truncation: everything when it was skipped, else the entries from
   * `keep` on, numbered from 0, with their ids and payloads.
   */
  lemma TruncateThenReplay(s: LogState, keep: nat, dim: nat)
    ensures var out := Deliveries(Truncated(s, keep).log, dim);
      if keep <= s.checkpoint then out == Deliveries(s.log, dim) && Truncated(s, keep) == s
      else
        && |out| == (if keep < |s.log| then |s.log| - keep else 0)
        && (forall k :: 0 <= k < |out| ==> out[k] == Delivery(k, s.log[keep + k].id, dim, s.log[keep + k].payload))
        && Truncated(s, keep).checkpoint == 0 && Truncated(s, keep).since == 0
  {
  }

  /** Appending one entry after another. */
  function AppendedAll(s: LogState, every: nat, es: seq<Entry>): LogState {
    if es == [] then s else Appended(AppendedAll(s, every, es[..|es| - 1]), every, es[|es| - 1])
  }

  /** A new log is checkpointed at every multiple of `every`, and never when `every` is 0. */
  lemma {:induction false} CheckpointsEvery(every: nat, es: seq<Entry>)
    ensures var s := AppendedAll(LogState([], 0, 0), every, es);
      s.log == es && s.checkpoint == (if every == 0 then 0 else |es| - |es| % every)
      && s.since == (if every == 0 then |es| else |es| % every)
  {
    if es != [] {
      CheckpointsEvery(every, es[..|es| - 1]);
      assert es == es[..|es| - 1] + [es[|es| - 1]];
      if every > 0 { OneMoreModulo(|es| - 1, every); }
    }
  }

  lemma OneMoreModulo(n: nat, m: nat)
    requires m > 0
    ensures (n + 1) % m == if n % m + 1 == m then 0 else n % m + 1
  {
    var q, r := n / m, n % m;
    assert n == q * m + r;
    if r + 1 == m {
      assert n + 1 == (q + 1) * m;
      ModuloIs(n + 1, q + 1, 0, m);
    } else {
      ModuloIs(n + 1, q, r + 1, m);
    }
  }

  lemma ModuloIs(n: nat, q: nat, r: nat, m: nat)
    requires n == q * m + r && r < m
    ensures n % m == r
  {
    var q', r' := n / m, n % m;
    assert (q - q') * m == r' - r;
    SmallMultiple(q - q', m, r' - r);
  }

  lemma SmallMultiple(d: int, m: nat, e: int)
    requires d * m == e && -(m as int) < e < m
    ensures d == 0
  {
    if d >= 1 { AtLeast(d, m); }
    if d <= -1 { AtLeast(-d, m); }
  }

  lemma AtLeast(d: int, m: nat)
    requires d >= 1
    ensures d * m >= m
  {
  }
}
