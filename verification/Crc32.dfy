/** CRC-32 as in section 8 of RFC 1952: table-driven as computed, and bit by bit as defined. */
module Crc32 {
  import opened Bytes

  const POLY: bv32 := 0xEDB88320

  // Named operations keep bit-level facts out of the proofs that do not need them.
  function Xor(a: bv32, b: bv32): bv32 { a ^ b }
  function LowByte(c: bv32): bv32 { c & 0xFF }
  function HighBytes(c: bv32): bv32 { c & 0xFFFFFF00 }
  function Shift8(c: bv32): bv32 { c >> 8 }
  function LowBit(c: bv32): bool { c & 1 == 1 }
  function Shift1(c: bv32): bv32 { c >> 1 }

  function Push(c: bv32, bit: bool): bv32 { (c << 1) | (if bit then 1 else 0) }

  /** The `k` low bits of `n` as a register value. */
  function Bits(n: nat, k: nat): bv32 {
    if k == 0 then 0 else Push(Bits(n / 2, k - 1), n % 2 == 1)
  }

  /** The `k` low bits of a register value as a number. */
  function Number(c: bv32, k: nat): nat {
    if k == 0 then 0 else 2 * Number(Shift1(c), k - 1) + (if LowBit(c) then 1 else 0)
  }

  /** A byte as a register value. */
  function Word(b: Byte): bv32 { Bits(b, 8) }

  /** The table index a register value selects: its low byte. */
  function Index(c: bv32): nat { Number(LowByte(c), 8) }

  /** One step of the shift register. */
  function Bit(c: bv32): bv32 {
    if LowBit(c) then Xor(POLY, Shift1(c)) else Shift1(c)
  }

  /** Eight steps: what one byte does once it has been added to the register. */
  function Bits8(c: bv32): bv32 {
    Bit(Bit(Bit(Bit(Bit(Bit(Bit(Bit(c))))))))
  }

  /** The register after one more byte, by the definition. */
  function ByteStep(c: bv32, b: Byte): bv32 { Bits8(Xor(c, Word(b))) }

  /** The register after all of `s`. */
  function Register(c: bv32, s: seq<Byte>): bv32
    decreases |s|
  {
    if s == [] then c else Register(ByteStep(c, s[0]), s[1..])
  }

  /** The checksum. */
  function Crc(s: seq<Byte>): bv32 { Register(0xFFFFFFFF, s) ^ 0xFFFFFFFF }

  // ---- the shift register -----------------------------------------------------

  lemma BitInjective(a: bv32, b: bv32)
    requires Bit(a) == Bit(b)
    ensures a == b
  {
  }

  lemma ShiftXor(a: bv32, b: bv32)
    ensures Shift1(Xor(a, b)) == Xor(Shift1(a), Shift1(b))
  {
  }

  lemma LowBitXor(a: bv32, b: bv32)
    ensures LowBit(Xor(a, b)) <==> (LowBit(a) != LowBit(b))
  {
  }

  lemma XorCommutes(a: bv32, b: bv32)
    ensures Xor(a, b) == Xor(b, a)
  {
  }

  lemma XorAssociates(a: bv32, b: bv32, c: bv32)
    ensures Xor(Xor(a, b), c) == Xor(a, Xor(b, c))
  {
  }

  lemma XorTwice(a: bv32, b: bv32)
    ensures Xor(a, Xor(a, b)) == b
  {
  }

  lemma XorShuffle(a: bv32, b: bv32, x: bv32, y: bv32)
    ensures Xor(Xor(a, x), Xor(b, y)) == Xor(Xor(a, b), Xor(x, y))
  {
    hide Xor;
    XorAssociates(a, x, Xor(b, y));
    XorAssociates(x, b, y);
    XorCommutes(x, b);
    XorAssociates(b, x, y);
    XorAssociates(a, b, Xor(x, y));
  }

  /** The shift register is linear over xor. */
  lemma BitLinear(a: bv32, b: bv32)
    ensures Bit(Xor(a, b)) == Xor(Bit(a), Bit(b))
  {
    hide Xor, LowBit, Shift1;
    var x, y := Shift1(a), Shift1(b);
    ShiftXor(a, b);
    LowBitXor(a, b);
    XorAssociates(POLY, x, y);
    XorAssociates(POLY, x, Xor(POLY, y));
    XorAssociates(x, POLY, y);
    XorCommutes(x, POLY);
    XorTwice(POLY, Xor(x, y));
  }

  lemma Bits8Linear(a: bv32, b: bv32)
    ensures Bits8(Xor(a, b)) == Xor(Bits8(a), Bits8(b))
  {
    hide Bit, Xor;
    var a1, b1 := Bit(a), Bit(b);
    var a2, b2 := Bit(a1), Bit(b1);
    var a3, b3 := Bit(a2), Bit(b2);
    var a4, b4 := Bit(a3), Bit(b3);
    var a5, b5 := Bit(a4), Bit(b4);
    var a6, b6 := Bit(a5), Bit(b5);
    var a7, b7 := Bit(a6), Bit(b6);
    BitLinear(a, b); BitLinear(a1, b1); BitLinear(a2, b2); BitLinear(a3, b3);
    BitLinear(a4, b4); BitLinear(a5, b5); BitLinear(a6, b6); BitLinear(a7, b7);
  }

  lemma Bits8Injective(a: bv32, b: bv32)
    requires Bits8(a) == Bits8(b)
    ensures a == b
  {
    hide Bit;
    var a1, b1 := Bit(a), Bit(b);
    var a2, b2 := Bit(a1), Bit(b1);
    var a3, b3 := Bit(a2), Bit(b2);
    var a4, b4 := Bit(a3), Bit(b3);
    var a5, b5 := Bit(a4), Bit(b4);
    var a6, b6 := Bit(a5), Bit(b5);
    var a7, b7 := Bit(a6), Bit(b6);
    BitInjective(a7, b7); BitInjective(a6, b6); BitInjective(a5, b5); BitInjective(a4, b4);
    BitInjective(a3, b3); BitInjective(a2, b2); BitInjective(a1, b1); BitInjective(a, b);
  }

  // ---- the table ----------------------------------------------------------------

  lemma Bits8High(c: bv32)
    requires LowByte(c) == 0
    ensures Bits8(c) == Shift8(c)
  {
  }

  lemma SplitWord(c: bv32)
    ensures c == Xor(LowByte(c), HighBytes(c))
    ensures LowByte(HighBytes(c)) == 0 && Shift8(HighBytes(c)) == Shift8(c)
  {
    SplitXor(c);
    SplitHigh(c);
  }

  lemma SplitXor(c: bv32)
    ensures c == (c & 0xFF) ^ (c & 0xFFFFFF00)
  {
  }

  lemma SplitHigh(c: bv32)
    ensures (c & 0xFFFFFF00) & 0xFF == 0 && (c & 0xFFFFFF00) >> 8 == c >> 8
  {
  }

  /** The table lookup: one entry per low byte replaces eight shifts. */
  lemma TableForm(c: bv32)
    ensures Bits8(c) == Xor(Bits8(LowByte(c)), Shift8(c))
  {
    hide *;
    SplitWord(c);
    Bits8Linear(LowByte(c), HighBytes(c));
    Bits8High(HighBytes(c));
  }

  /** The table the source builds once: entry `i` is eight steps from `i`. */
  ghost predicate IsTable(table: array<bv32>)
    reads table
  {
    table.Length == 256 && forall i :: 0 <= i < 256 ==> table[i] == Bits8(Word(i))
  }

  /** The 256-entry table, built entry by entry. */
  method BuildTable() returns (table: array<bv32>)
    ensures fresh(table) && IsTable(table)
  {
    hide Bit, Bits8, Word;
    table := new bv32[256];
    for i := 0 to 256
      invariant forall k :: 0 <= k < i ==> table[k] == Bits8(Word(k))
    {
      var c := Word(i);
      for j := 0 to 8
        invariant c == Steps(Word(i), j)
      {
        c := Bit(c);
      }
      StepsEight(Word(i));
      table[i] := c;
    }
  }

  function Steps(c: bv32, n: nat): bv32 {
    if n == 0 then c else Bit(Steps(c, n - 1))
  }

  lemma StepsEight(c: bv32)
    ensures Steps(c, 8) == Bits8(c)
  {
    hide Bit;
    assert Steps(c, 1) == Bit(c);
    assert Steps(c, 3) == Bit(Bit(Steps(c, 1)));
    assert Steps(c, 5) == Bit(Bit(Steps(c, 3)));
    assert Steps(c, 7) == Bit(Bit(Steps(c, 5)));
  }

  function Pow2(k: nat): nat { if k == 0 then 1 else 2 * Pow2(k - 1) }

  /** The largest `k`-bit register value. */
  function Mask(k: nat): bv32 {
    if k == 0 then 0 else if k == 1 then 0x01 else if k == 2 then 0x03 else if k == 3 then 0x07 else if k == 4 then 0x0F
    else if k == 5 then 0x1F else if k == 6 then 0x3F else if k == 7 then 0x7F else 0xFF
  }

  /** `c` has no bit above `k`. */
  predicate InBits(c: bv32, k: nat) { c <= Mask(k) }

  lemma NoBits(c: bv32)
    ensures InBits(0, 0) && (InBits(c, 0) ==> c == 0)
  {
  }

  lemma PushFits(c: bv32, k: nat, bit: bool)
    requires k <= 7 && InBits(c, k)
    ensures InBits(Push(c, bit), k + 1)
  {
  }

  lemma PushInjective(c: bv32, d: bv32, a: bool, b: bool, k: nat)
    requires k <= 7 && InBits(c, k) && InBits(d, k) && Push(c, a) == Push(d, b)
    ensures c == d && a == b
  {
  }

  lemma PushBack(c: bv32, k: nat)
    requires k <= 7 && InBits(c, k + 1)
    ensures Push(Shift1(c), LowBit(c)) == c && InBits(Shift1(c), k)
  {
  }

  lemma ByteBits(c: bv32)
    ensures InBits(c, 8) <==> c <= 0xFF
    ensures InBits(LowByte(c), 8)
    ensures Pow2(8) == 256
  {
    assert Pow2(2) == 4 && Pow2(4) == 16 && Pow2(6) == 64;
  }

  lemma {:induction false} BitsFit(n: nat, k: nat)
    requires k <= 8
    ensures InBits(Bits(n, k), k)
  {
    hide Push, InBits;
    if k == 0 {
      NoBits(0);
    } else {
      BitsFit(n / 2, k - 1);
      PushFits(Bits(n / 2, k - 1), k - 1, n % 2 == 1);
    }
  }

  lemma {:induction false} BitsInjective(n: nat, m: nat, k: nat)
    requires k <= 8 && n < Pow2(k) && m < Pow2(k) && Bits(n, k) == Bits(m, k)
    ensures n == m
  {
    hide Push, InBits;
    if k > 0 {
      BitsFit(n / 2, k - 1);
      BitsFit(m / 2, k - 1);
      PushInjective(Bits(n / 2, k - 1), Bits(m / 2, k - 1), n % 2 == 1, m % 2 == 1, k - 1);
      BitsInjective(n / 2, m / 2, k - 1);
    }
  }

  lemma {:induction false} NumberRoundTrip(c: bv32, k: nat)
    requires k <= 8 && InBits(c, k)
    ensures Number(c, k) < Pow2(k) && Bits(Number(c, k), k) == c
    decreases k
  {
    hide Push, Shift1, LowBit, InBits;
    if k == 0 {
      NoBits(c);
    } else {
      PushBack(c, k - 1);
      NumberRoundTrip(Shift1(c), k - 1);
    }
  }

  /** The table is indexed by the low byte. */
  lemma IndexIsLowByte(c: bv32)
    ensures Index(c) < 256 && Word(Index(c)) == LowByte(c)
  {
    hide LowByte, Bits, Number, Pow2, InBits;
    ByteBits(c);
    NumberRoundTrip(LowByte(c), 8);
  }

  lemma HighBytesKept(c: bv32, w: bv32)
    requires w <= 0xFF
    ensures Shift8(Xor(c, w)) == Shift8(c)
  {
  }

  lemma WordSmall(b: Byte)
    ensures Word(b) <= 0xFF
  {
    hide Bits, InBits;
    BitsFit(b, 8);
    ByteBits(Bits(b, 8));
  }

  lemma WordInjective(x: Byte, y: Byte)
    requires Word(x) == Word(y)
    ensures x == y
  {
    hide Bits, Pow2;
    ByteBits(0);
    BitsInjective(x, y, 8);
  }

  /** One byte by table lookup. */
  method LookUp(table: array<bv32>, c: bv32, b: Byte) returns (c': bv32)
    requires IsTable(table)
    ensures c' == ByteStep(c, b)
  {
    hide Bits8, Word, Index, LowByte, Xor, Shift8;
    var x := Xor(c, Word(b));
    IndexIsLowByte(x);
    TableForm(x);
    WordSmall(b);
    HighBytesKept(c, Word(b));
    c' := Xor(table[Index(x)], Shift8(c));
  }

  /** The table-driven checksum is the bit-at-a-time one. */
  method Checksum(table: array<bv32>, s: seq<Byte>) returns (crc: bv32)
    requires IsTable(table)
    ensures crc == Crc(s)
  {
    hide Bits8, ByteStep;
    crc := 0xFFFFFFFF;
    assert s[0..] == s;
    for i := 0 to |s|
      invariant Register(crc, s[i..]) == Register(0xFFFFFFFF, s)
    {
      assert s[i..][1..] == s[i + 1..];
      crc := LookUp(table, crc, s[i]);
    }
    crc := crc ^ 0xFFFFFFFF;
  }

  // ---- what the checksum detects ---------------------------------------------------

  lemma {:induction false} RegisterConcat(c: bv32, s: seq<Byte>, t: seq<Byte>)
    ensures Register(c, s + t) == Register(Register(c, s), t)
    decreases |s|
  {
    hide ByteStep;
    if s == [] {
      assert s + t == t;
    } else {
      assert (s + t)[1..] == s[1..] + t;
      RegisterConcat(ByteStep(c, s[0]), s[1..], t);
    }
  }

  lemma XorCancel(a: bv32, b: bv32, x: bv32)
    requires Xor(a, x) == Xor(b, x)
    ensures a == b
  {
  }

  /** The same bytes never bring two different registers together. */
  lemma {:induction false} RegisterInjective(a: bv32, b: bv32, s: seq<Byte>)
    requires Register(a, s) == Register(b, s)
    ensures a == b
    decreases |s|
  {
    hide Bits8, Xor;
    if s != [] {
      RegisterInjective(ByteStep(a, s[0]), ByteStep(b, s[0]), s[1..]);
      Bits8Injective(Xor(a, Word(s[0])), Xor(b, Word(s[0])));
      XorCancel(a, b, Word(s[0]));
    }
  }

  /** `d` fits in `k` bytes. */
  predicate Fits(d: bv32, k: nat) {
    if k == 0 then d == 0 else if k == 1 then d <= 0xFF else if k == 2 then d <= 0xFFFF
    else if k == 3 then d <= 0xFFFFFF else true
  }

  /** The top byte of the register is zero after a byte only if its low byte was zero before it. */
  lemma LowByteOut(c: bv32)
    requires Bits8(c) >> 24 == 0
    ensures c & 0xFF == 0 && Bits8(c) == c >> 8
  {
  }

  lemma Widen(e: bv32, x: bv32, d: bv32, k: nat)
    requires x <= 0xFF && (e ^ x) & 0xFF == 0 && (e ^ x) >> 8 == d && Fits(d, k) && k <= 3
    ensures Fits(e, k + 1)
  {
  }

  /** The difference of two registers, one byte on. */
  lemma DeltaStep(a: bv32, b: bv32, x: Byte, y: Byte)
    ensures Xor(ByteStep(a, x), ByteStep(b, y)) == Bits8(Xor(Xor(a, b), Xor(Word(x), Word(y))))
  {
    hide Bits8, Xor, Word;
    Bits8Linear(Xor(a, Word(x)), Xor(b, Word(y)));
    XorShuffle(a, b, Word(x), Word(y));
  }

  lemma SmallDelta(a: bv32, b: bv32)
    requires a <= 0xFF && b <= 0xFF
    ensures Xor(a, b) <= 0xFF && (Xor(a, b) == 0 ==> a == b)
  {
  }

  lemma WordDelta(x: Byte, y: Byte)
    ensures Xor(Word(x), Word(y)) <= 0xFF
    ensures Xor(Word(x), Word(y)) == 0 ==> x == y
  {
    hide Word, Xor;
    WordSmall(x);
    WordSmall(y);
    SmallDelta(Word(x), Word(y));
    if Xor(Word(x), Word(y)) == 0 { WordInjective(x, y); }
  }

  lemma Same(a: bv32, b: bv32)
    ensures Xor(a, a) == 0 && (Xor(a, b) == 0 ==> a == b)
  {
  }

  lemma FitsTop(d: bv32, k: nat)
    requires Fits(d, k) && k <= 3
    ensures d >> 24 == 0
  {
  }

  /** Registers that meet after `k` bytes each differ in at most their `k` low bytes. */
  lemma {:induction false} MeetingRegisters(a: bv32, b: bv32, s: seq<Byte>, t: seq<Byte>)
    requires |s| == |t| <= 4 && Register(a, s) == Register(b, t)
    ensures Fits(Xor(a, b), |s|)
    decreases |s|
  {
    hide Bits8, Fits, Xor, Word, ByteStep;
    if s == [] {
      Same(a, b);
      FitsZero();
    } else {
      MeetingRegisters(ByteStep(a, s[0]), ByteStep(b, t[0]), s[1..], t[1..]);
      DeltaBack(a, b, s[0], t[0], |s| - 1);
    }
  }

  lemma FitsZero()
    ensures Fits(0, 0)
  {
  }

  lemma DeltaBack(a: bv32, b: bv32, x: Byte, y: Byte, k: nat)
    requires k <= 3 && Fits(Xor(ByteStep(a, x), ByteStep(b, y)), k)
    ensures Fits(Xor(a, b), k + 1)
    ensures a == b ==> x == y
  {
    hide Bits8, Fits, ByteStep, Word;
    var e, w := Xor(a, b), Xor(Word(x), Word(y));
    DeltaStep(a, b, x, y);
    FitsTop(Bits8(Xor(e, w)), k);
    LowByteOut(Xor(e, w));
    WordDelta(x, y);
    Widen(e, w, Bits8(Xor(e, w)), k);
    Same(a, b);
    if a == b { ZeroDelta(w); }
  }

  lemma ZeroDelta(w: bv32)
    requires w <= 0xFF && (0 ^ w) & 0xFF == 0
    ensures w == 0
  {
  }

  /** From one register, two different runs of at most four bytes lead to different registers. */
  lemma {:induction false} BurstDetected(c: bv32, s: seq<Byte>, t: seq<Byte>)
    requires |s| == |t| <= 4 && Register(c, s) == Register(c, t)
    ensures s == t
    decreases |s|
  {
    hide Bits8, Fits, Xor, ByteStep;
    if s != [] {
      MeetingRegisters(ByteStep(c, s[0]), ByteStep(c, t[0]), s[1..], t[1..]);
      DeltaBack(c, c, s[0], t[0], |s| - 1);
      BurstDetected(ByteStep(c, s[0]), s[1..], t[1..]);
      assert s == [s[0]] + s[1..] && t == [t[0]] + t[1..];
    }
  }

  /** Changing up to four consecutive bytes (one float, say) always changes the checksum. */
  lemma ChangeDetected(before: seq<Byte>, s: seq<Byte>, t: seq<Byte>, after: seq<Byte>)
    requires |s| == |t| <= 4 && s != t
    ensures Crc(before + s + after) != Crc(before + t + after)
  {
    hide ByteStep, Register;
    var c := Register(0xFFFFFFFF, before);
    RegisterConcat(0xFFFFFFFF, before + s, after);
    RegisterConcat(0xFFFFFFFF, before + t, after);
    RegisterConcat(0xFFFFFFFF, before, s);
    RegisterConcat(0xFFFFFFFF, before, t);
    if Crc(before + s + after) == Crc(before + t + after) {
      XorCancel(Register(0xFFFFFFFF, before + s + after), Register(0xFFFFFFFF, before + t + after), 0xFFFFFFFF);
      RegisterInjective(Register(c, s), Register(c, t), after);
      BurstDetected(c, s, t);
    }
  }

  // ---- the checksum in memory ----------------------------------------------------------

  /** The four bytes of a stored `uint32_t`, little-endian. */
  function WordBytes(c: bv32): (r: seq<Byte>)
    ensures |r| == 4
  {
    IndexIsLowByte(c); IndexIsLowByte(Shift8(c)); IndexIsLowByte(Shift8(Shift8(c))); IndexIsLowByte(Shift8(Shift8(Shift8(c))));
    [Index(c), Index(Shift8(c)), Index(Shift8(Shift8(c))), Index(Shift8(Shift8(Shift8(c))))]
  }

  lemma BytesDetermineWord(a: bv32, b: bv32)
    requires LowByte(a) == LowByte(b) && LowByte(Shift8(a)) == LowByte(Shift8(b))
    requires LowByte(Shift8(Shift8(a))) == LowByte(Shift8(Shift8(b)))
    requires LowByte(Shift8(Shift8(Shift8(a)))) == LowByte(Shift8(Shift8(Shift8(b))))
    ensures a == b
  {
  }

  /** Different checksums are stored as different bytes. */
  lemma WordBytesInjective(a: bv32, b: bv32)
    requires WordBytes(a) == WordBytes(b)
    ensures a == b
  {
    hide LowByte, Shift8, Index;
    var a1, b1 := Shift8(a), Shift8(b);
    var a2, b2 := Shift8(a1), Shift8(b1);
    var a3, b3 := Shift8(a2), Shift8(b2);
    assert WordBytes(a)[0] == WordBytes(b)[0] && WordBytes(a)[1] == WordBytes(b)[1]
      && WordBytes(a)[2] == WordBytes(b)[2] && WordBytes(a)[3] == WordBytes(b)[3];
    IndexIsLowByte(a); IndexIsLowByte(b); IndexIsLowByte(a1); IndexIsLowByte(b1);
    IndexIsLowByte(a2); IndexIsLowByte(b2); IndexIsLowByte(a3); IndexIsLowByte(b3);
    BytesDetermineWord(a, b);
  }
}
