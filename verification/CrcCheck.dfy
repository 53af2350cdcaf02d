/** The published values of CRC-32: its check value and its residue. They pin polynomial, initial value and final xor. */
module CrcChecks {
  import opened Bytes
  import opened Crc32

  const ONES: bv32 := 0xFFFFFFFF

  // ---- the residue ------------------------------------------------------------------

  /** Reading the low byte of `d` from the register `x ^ d` is eight steps from `x`, with the rest of `d` still to read. */
  lemma FeedByte(c: bv32, x: bv32, d: bv32)
    requires c == Xor(x, d)
    ensures Index(d) < 256 && ByteStep(c, Index(d)) == Xor(Bits8(x), Shift8(d))
  {
    hide Xor, Bits8, Index, Word, LowByte, HighBytes, Shift8;
    IndexIsLowByte(d);
    SplitWord(d);
    DropLow(x, d);
    Bits8Linear(x, HighBytes(d));
    Bits8High(HighBytes(d));
  }

  lemma DropLow(x: bv32, d: bv32)
    ensures Xor(Xor(x, d), LowByte(d)) == Xor(x, HighBytes(d))
  {
    hide Xor, LowByte, HighBytes;
    SplitWord(d);
    XorAssociates(x, d, LowByte(d));
    XorCommutes(d, LowByte(d));
    XorTwice(LowByte(d), HighBytes(d));
  }

  /** Reading its own complement takes every register to the same value. */
  lemma OwnComplement(c: bv32)
    ensures Register(c, WordBytes(Xor(c, ONES))) == 0xDEBB20E3
  {
    hide Xor, Bits8, Index, ByteStep, Register;
    var d0 := Xor(c, ONES);
    var d1, d2, d3 := Shift8(d0), Shift8(Shift8(d0)), Shift8(Shift8(Shift8(d0)));
    var x1, x2, x3, x4 := Bits8(ONES), Bits8(Bits8(ONES)), Bits8(Bits8(Bits8(ONES))), Bits8(Bits8(Bits8(Bits8(ONES))));
    XorCommutes(c, ONES);
    XorTwice(ONES, c);
    FeedByte(c, ONES, d0);
    FeedByte(Xor(x1, d1), x1, d1);
    FeedByte(Xor(x2, d2), x2, d2);
    FeedByte(Xor(x3, d3), x3, d3);
    FourShifts(d0);
    XorNothing(x4);
    FourBytes(c, WordBytes(d0));
    OnesSteps();
  }

  lemma FourShifts(d: bv32)
    ensures Shift8(Shift8(Shift8(Shift8(d)))) == 0
  {
  }

  lemma XorNothing(x: bv32)
    ensures Xor(x, 0) == x
  {
  }

  lemma FourBytes(c: bv32, s: seq<Byte>)
    requires |s| == 4
    ensures Register(c, s) == ByteStep(ByteStep(ByteStep(ByteStep(c, s[0]), s[1]), s[2]), s[3])
  {
    hide ByteStep;
    assert s[1..][1..] == s[2..] && s[2..][1..] == s[3..] && s[3..][1..] == [];
    var c1 := ByteStep(c, s[0]);
    var c2 := ByteStep(c1, s[1]);
    var c3 := ByteStep(c2, s[2]);
    Read(c, s); Read(c1, s[1..]); Read(c2, s[2..]); Read(c3, s[3..]);
  }

  lemma OnesSteps()
    ensures Bits8(ONES) == 0x2DFD1072 && Bits8(0x2DFD1072) == 0xBE26ED00
    ensures Bits8(0xBE26ED00) == 0x00BE26ED && Bits8(0x00BE26ED) == 0xDEBB20E3
  {
  }

  /** The residue: a buffer with its checksum behind it always has the same checksum. */
  lemma Residue(s: seq<Byte>)
    ensures Crc(s + WordBytes(Crc(s))) == 0x2144DF1C && Crc([]) == 0
  {
    hide Register, WordBytes;
    var c := Register(ONES, s);
    RegisterConcat(ONES, s, WordBytes(Crc(s)));
    OwnComplement(c);
    assert Crc(s) == Xor(c, ONES);
    NothingRead();
  }

  lemma NothingRead()
    ensures Register(ONES, []) == ONES
  {
  }

  // ---- the check value -----------------------------------------------------------------

  /** The checksum of the nine digits "123456789". */
  lemma CheckValue()
    ensures Crc([0x31, 0x32, 0x33, 0x34, 0x35, 0x36, 0x37, 0x38, 0x39]) == 0xCBF43926
  {
    hide ByteStep;
    Digits();
    var s: seq<Byte> := [0x31, 0x32, 0x33, 0x34, 0x35, 0x36, 0x37, 0x38, 0x39];
    Read(ONES, s); Read(0x7C231048, s[1..]); Read(0xB0ACBB32, s[2..]); Read(0x77B79C2D, s[3..]); Read(0x641C1F5C, s[4..]);
    Read(0x340AC5E3, s[5..]); Read(0xF68D2C9E, s[6..]); Read(0xAFFC9660, s[7..]); Read(0x651F2550, s[8..]);
  }

  lemma Read(c: bv32, s: seq<Byte>)
    requires s != []
    ensures Register(c, s) == Register(ByteStep(c, s[0]), s[1..]) && Register(c, []) == c
  {
  }

  lemma Digits()
    ensures ByteStep(ONES, 0x31) == 0x7C231048 && ByteStep(0x7C231048, 0x32) == 0xB0ACBB32 && ByteStep(0xB0ACBB32, 0x33) == 0x77B79C2D
    ensures ByteStep(0x77B79C2D, 0x34) == 0x641C1F5C && ByteStep(0x641C1F5C, 0x35) == 0x340AC5E3 && ByteStep(0x340AC5E3, 0x36) == 0xF68D2C9E
    ensures ByteStep(0xF68D2C9E, 0x37) == 0xAFFC9660 && ByteStep(0xAFFC9660, 0x38) == 0x651F2550 && ByteStep(0x651F2550, 0x39) == 0x340BC6D9
  {
    DigitWords();
    hide Word;
    DigitSteps();
  }

  lemma DigitWords()
    ensures Word(0x31) == 0x31 && Word(0x32) == 0x32 && Word(0x33) == 0x33 && Word(0x34) == 0x34 && Word(0x35) == 0x35
    ensures Word(0x36) == 0x36 && Word(0x37) == 0x37 && Word(0x38) == 0x38 && Word(0x39) == 0x39
  {
    hide Word;
    DigitWord(1, false, false, false, true, 0x31);
    DigitWord(2, false, false, true, false, 0x32);
    DigitWord(3, false, false, true, true, 0x33);
    DigitWord(4, false, true, false, false, 0x34);
    DigitWord(5, false, true, false, true, 0x35);
    DigitWord(6, false, true, true, false, 0x36);
    DigitWord(7, false, true, true, true, 0x37);
    DigitWord(8, true, false, false, false, 0x38);
    DigitWord(9, true, false, false, true, 0x39);
  }

  /** The register value of the digit `d`, whose bits are `a` to `e`. */
  lemma DigitWord(d: nat, a: bool, b: bool, c: bool, e: bool, w: bv32)
    requires d == (if a then 8 else 0) + (if b then 4 else 0) + (if c then 2 else 0) + (if e then 1 else 0) && d < 10
    requires w == 0x30 | (if a then 8 else 0) | (if b then 4 else 0) | (if c then 2 else 0) | (if e then 1 else 0)
    ensures Word(0x30 + d) == w
  {
    hide Push, Bits;
    var n := 0x30 + d;
    Halvings(n, a, b, c, e);
    Pushed(n, 7); Pushed(n / 2, 6); Pushed(n / 2 / 2, 5); Pushed(n / 2 / 2 / 2, 4);
    Three();
    PushFour(a, b, c, e);
  }

  lemma Halvings(n: nat, a: bool, b: bool, c: bool, e: bool)
    requires n == 0x30 + (if a then 8 else 0) + (if b then 4 else 0) + (if c then 2 else 0) + (if e then 1 else 0)
    ensures (n % 2 == 1 <==> e) && (n / 2 % 2 == 1 <==> c) && (n / 2 / 2 % 2 == 1 <==> b) && (n / 2 / 2 / 2 % 2 == 1 <==> a)
    ensures n / 2 / 2 / 2 / 2 == 3
  {
    var n1 := 0x18 + (if a then 4 else 0) + (if b then 2 else 0) + (if c then 1 else 0);
    assert n / 2 == n1;
    var n2 := 0x0C + (if a then 2 else 0) + (if b then 1 else 0);
    assert n1 / 2 == n2;
  }

  lemma Pushed(n: nat, k: nat)
    ensures Bits(n, k + 1) == Push(Bits(n / 2, k), n % 2 == 1)
  {
  }

  lemma Three()
    ensures Bits(3, 4) == 3
  {
  }

  lemma PushFour(a: bool, b: bool, c: bool, e: bool)
    ensures Push(Push(Push(Push(3, a), b), c), e)
      == 0x30 | (if a then 8 else 0) | (if b then 4 else 0) | (if c then 2 else 0) | (if e then 1 else 0)
  {
  }

  lemma DigitSteps()
    ensures Bits8(0xFFFFFFCE) == 0x7C231048 && Bits8(0x7C23107A) == 0xB0ACBB32 && Bits8(0xB0ACBB01) == 0x77B79C2D
    ensures Bits8(0x77B79C19) == 0x641C1F5C && Bits8(0x641C1F69) == 0x340AC5E3 && Bits8(0x340AC5D5) == 0xF68D2C9E
    ensures Bits8(0xF68D2CA9) == 0xAFFC9660 && Bits8(0xAFFC9658) == 0x651F2550 && Bits8(0x651F2569) == 0x340BC6D9
  {
  }
}
