/** Little-endian integers and byte images changed in place. */
module Bytes {

  type Byte = b: int | 0 <= b < 256

  /** A vector as it lies in memory: four bytes a component. */
  type Vector = seq<Byte>

  function Pow256(k: nat): (r: nat)
    ensures r >= 1
  {
    if k == 0 then 1 else 256 * Pow256(k - 1)
  }

  /** The `k` low bytes of `n`, least significant first: a store of a `k`-byte integer. */
  function LE(n: nat, k: nat): (r: seq<Byte>)
    ensures |r| == k
  {
    if k == 0 then [] else [n % 256] + LE(n / 256, k - 1)
  }

  /** A load of a little-endian integer. */
  function FromLE(s: seq<Byte>): nat {
    if s == [] then 0 else s[0] + 256 * FromLE(s[1..])
  }

  /** Loading what was stored gives the integer back, as long as it fits. */
  lemma {:induction false} LERoundTrip(n: nat, k: nat)
    requires n < Pow256(k)
    ensures FromLE(LE(n, k)) == n
  {
    if k > 0 {
      LERoundTrip(n / 256, k - 1);
      assert LE(n, k)[1..] == LE(n / 256, k - 1);
    }
  }

  lemma {:induction false} FromLEZeros(s: seq<Byte>)
    requires forall i :: 0 <= i < |s| ==> s[i] == 0
    ensures FromLE(s) == 0
  {
    if s != [] { FromLEZeros(s[1..]); }
  }

  lemma Widths()
    ensures Pow256(2) == 0x1_0000 && Pow256(4) == 0x1_0000_0000 && Pow256(8) == 0x1_0000_0000_0000_0000
  {
    assert Pow256(4) == 256 * (256 * Pow256(2));
    assert Pow256(8) == 256 * (256 * (256 * (256 * Pow256(4))));
  }

  /** `memcpy(s + off, b, |b|)`. */
  function Put(s: seq<Byte>, off: nat, b: seq<Byte>): (r: seq<Byte>)
    requires off + |b| <= |s|
    ensures |r| == |s|
  {
    s[..off] + b + s[off + |b|..]
  }

  /** `n` zero bytes. */
  function Zeros(n: nat): (r: seq<Byte>)
    ensures |r| == n && forall i :: 0 <= i < n ==> r[i] == 0
  {
    seq(n, _ => 0)
  }

  method Write(a: array<Byte>, off: nat, b: seq<Byte>)
    requires off + |b| <= a.Length
    modifies a
    ensures a[..] == Put(old(a[..]), off, b)
  {
    for i := 0 to |b|
      invariant forall k :: 0 <= k < a.Length ==>
        a[k] == if off <= k < off + i then b[k - off] else old(a[k])
    {
      a[off + i] := b[i];
    }
  }

  /** `memmove(a + dst, a + src, len)` to a lower address. */
  method MoveDown(a: array<Byte>, dst: nat, src: nat, len: nat)
    requires dst <= src && src + len <= a.Length
    modifies a
    ensures a[..] == Put(old(a[..]), dst, old(a[src..src + len]))
  {
    ghost var was := a[..];
    for i := 0 to len
      invariant a[..] == Put(was, dst, was[src..src + i])
    {
      assert a[..][src + i] == was[src + i];
      a[dst + i] := a[src + i];
      PutOne(was, dst, src, i);
    }
    assert a[..] == Put(was, dst, was[src..src + len]);
  }

  lemma PutOne(was: seq<Byte>, dst: nat, src: nat, i: nat)
    requires dst <= src && src + i < |was|
    ensures Put(was, dst, was[src..src + i])[dst + i := was[src + i]] == Put(was, dst, was[src..src + i + 1])
  {
  }

  /** A mapping of `size` bytes over a file that holds `file`: truncated or extended with zeros. */
  method Map(file: seq<Byte>, size: nat) returns (a: array<Byte>)
    ensures fresh(a) && a[..] == Resized(file, size)
  {
    a := new Byte[size];
    for i := 0 to size
      invariant forall k :: 0 <= k < i ==> a[k] == if k < |file| then file[k] else 0
    {
      a[i] := if i < |file| then file[i] else 0;
    }
  }

  /** `ftruncate`: the first `size` bytes, zero-filled when there are fewer. */
  function Resized(file: seq<Byte>, size: nat): (r: seq<Byte>)
    ensures |r| == size && forall k :: 0 <= k < size ==> r[k] == if k < |file| then file[k] else 0
  {
    if size <= |file| then file[..size] else file + Zeros(size - |file|)
  }

  /** Two stores side by side are one store. */
  lemma PutAdjacent(s: seq<Byte>, off: nat, a: seq<Byte>, b: seq<Byte>)
    requires off + |a| + |b| <= |s|
    ensures Put(Put(s, off, a), off + |a|, b) == Put(s, off, a + b)
  {
  }

  lemma PutWhere(s: seq<Byte>, off: nat, b: seq<Byte>)
    requires off + |b| <= |s|
    ensures Put(s, off, b)[off..off + |b|] == b
  {
  }

  lemma PutFront(s: seq<Byte>, b: seq<Byte>)
    requires |b| <= |s|
    ensures Put(s, 0, b)[..|b|] == b
  {
  }

  /** Storing back what was loaded changes nothing. */
  lemma {:induction false} LEOfFromLE(s: seq<Byte>)
    ensures FromLE(s) < Pow256(|s|) && LE(FromLE(s), |s|) == s
    decreases |s|
  {
    if s != [] {
      LEOfFromLE(s[1..]);
      FirstByte(s[0], FromLE(s[1..]));
      assert s == [s[0]] + s[1..];
    }
  }

  lemma FirstByte(b: Byte, rest: nat)
    ensures (b + 256 * rest) % 256 == b && (b + 256 * rest) / 256 == rest
  {
  }

  // ---- fixed-size slots --------------------------------------------------------

  /** Where slot `k` of slots of `size` bytes starts. */
  function SlotAt(size: nat, k: nat): nat { k * size }

  lemma SlotStep(size: nat, k: nat)
    ensures SlotAt(size, k + 1) == SlotAt(size, k) + size
  {
  }

  lemma {:induction false} SlotsMono(size: nat, j: nat, k: nat)
    requires j <= k
    ensures SlotAt(size, j) <= SlotAt(size, k) && SlotAt(size, k) - SlotAt(size, j) == SlotAt(size, k - j)
    ensures size > 0 ==> k <= SlotAt(size, k)
    decreases k
  {
    hide SlotAt;
    if k > 0 {
      SlotStep(size, k - 1);
      if j < k { SlotsMono(size, j, k - 1); SlotStep(size, k - 1 - j); }
      else { SlotsMono(size, k - 1, k - 1); NoSlots(size); }
    } else {
      NoSlots(size);
    }
  }

  lemma NoSlots(size: nat)
    ensures SlotAt(size, 0) == 0
  {
  }

  /** Slots lie one behind the other. */
  lemma SlotsOrdered(size: nat, j: nat, k: nat)
    requires j < k
    ensures SlotAt(size, j) + size <= SlotAt(size, k)
  {
    hide SlotAt;
    SlotStep(size, j);
    SlotsMono(size, j + 1, k);
  }
}
