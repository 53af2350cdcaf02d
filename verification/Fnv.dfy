/** The FNV-1a hash that places keys and virtual nodes on the ring. */
module Fnv {
  import opened Bytes

  /** Positions are 64-bit. */
  const SPACE: nat := 0x1_0000_0000_0000_0000
  const OFFSET: nat := 14695981039346656037
  const PRIME: nat := 1099511628211
  /** The inverse of the prime modulo 2^64. */
  const INVERSE: nat := 14886173955864302971

  /** Exclusive or, bit by bit. */
  function Xor(a: nat, b: nat): nat {
    if a == 0 && b == 0 then 0 else (a + b) % 2 + 2 * Xor(a / 2, b / 2)
  }

  function Times(a: nat, b: nat): nat { a * b }

  function Absorb(h: nat, b: Byte): (r: nat)
    ensures r < SPACE
  {
    Times(Xor(h, b), PRIME) % SPACE
  }

  function Hash(data: seq<Byte>): (r: nat)
    ensures r < SPACE
  {
    if data == [] then OFFSET else Absorb(Hash(data[..|data| - 1]), data[|data| - 1])
  }

  method HashKey(data: seq<Byte>) returns (h: nat)
    ensures h == Hash(data)
  {
    h := OFFSET;
    for i := 0 to |data|
      invariant h == Hash(data[..i])
    {
      assert data[..i + 1][..i] == data[..i];
      h := Absorb(h, data[i]);
    }
    assert data[..|data|] == data;
  }

  /** The eight bytes a virtual node is hashed from. */
  function VNodeKey(shard: nat, v: nat): (r: seq<Byte>)
    ensures |r| == 8
  {
    LE(shard * 0x1_0000_0000 + v, 8)
  }

  function VNodePosition(shard: nat, v: nat): (r: nat)
    ensures r < SPACE
  {
    Hash(VNodeKey(shard, v))
  }

  // ---- one byte step loses nothing ----------------------------------------------------

  lemma XorBit(a: nat, b: nat)
    ensures Xor(a, b) % 2 == (a + b) % 2 && Xor(a, b) / 2 == Xor(a / 2, b / 2)
  {
    var bit, rest := (a + b) % 2, Xor(a / 2, b / 2);
    if a != 0 || b != 0 {
      var x := Xor(a, b);
      assert x == bit + 2 * rest;
      hide Xor;
      Halves(bit, rest);
    } else {
      assert rest == 0;
    }
  }

  lemma Halves(bit: nat, rest: nat)
    requires bit < 2
    ensures (bit + 2 * rest) % 2 == bit && (bit + 2 * rest) / 2 == rest
  {
  }

  lemma Parity(a: nat, b: nat, x: nat, y: nat)
    requires x % 2 == (a + b) % 2 && y % 2 == (x + b) % 2 && y / 2 == a / 2
    ensures y == a
  {
  }

  lemma {:induction false} XorCommutes(a: nat, b: nat)
    ensures Xor(a, b) == Xor(b, a)
  {
    if a != 0 || b != 0 { XorCommutes(a / 2, b / 2); }
  }

  lemma {:induction false} XorCancels(a: nat, b: nat)
    ensures Xor(Xor(a, b), b) == a
  {
    if a != 0 || b != 0 {
      hide Xor;
      var x := Xor(a, b);
      XorCancels(a / 2, b / 2);
      XorBit(a, b);
      XorBit(x, b);
      Parity(a, b, x, Xor(x, b));
    } else {
      assert Xor(0, 0) == 0;
    }
  }

  function Pow2(k: nat): nat { if k == 0 then 1 else 2 * Pow2(k - 1) }

  lemma {:induction false} XorBelow(a: nat, b: nat, k: nat)
    requires a < Pow2(k) && b < Pow2(k)
    ensures Xor(a, b) < Pow2(k)
  {
    if k > 0 { XorBelow(a / 2, b / 2, k - 1); }
  }

  lemma EightBits(k: nat)
    ensures Pow2(k + 8) == 256 * Pow2(k)
  {
    assert Pow2(k + 2) == 2 * Pow2(k + 1) && Pow2(k + 4) == 2 * Pow2(k + 3);
    assert Pow2(k + 6) == 2 * Pow2(k + 5) && Pow2(k + 8) == 2 * Pow2(k + 7);
  }

  lemma Pow2Space()
    ensures Pow2(64) == SPACE
  {
    EightBits(0); EightBits(8); EightBits(16); EightBits(24);
    EightBits(32); EightBits(40); EightBits(48); EightBits(56);
  }

  /** Multiplying by the prime is injective modulo 2^64. */
  lemma TimesInjective(x: nat, y: nat)
    requires x < SPACE && y < SPACE && Times(x, PRIME) % SPACE == Times(y, PRIME) % SPACE
    ensures x == y
  {
    var t := x * PRIME / SPACE - y * PRIME / SPACE;
    assert (x - y) * PRIME == t * SPACE;
    assert PRIME * INVERSE == 1 + 887285111055 * SPACE;
    assert (x - y) * (PRIME * INVERSE) == t * SPACE * INVERSE;
    Multiple(x - y, t * INVERSE - 887285111055 * (x - y));
  }

  lemma Multiple(d: int, t: int)
    requires d == t * SPACE && -(SPACE as int) < d < SPACE
    ensures d == 0
  {
  }

  lemma AbsorbInjective(h: nat, h': nat, b: Byte, b': Byte)
    requires h < SPACE && h' < SPACE && (h != h' || b != b') && (h == h' || b == b')
    ensures Absorb(h, b) != Absorb(h', b')
  {
    hide Xor, Times;
    Pow2Space();
    XorBelow(h, b, 64);
    XorBelow(h', b', 64);
    if Absorb(h, b) == Absorb(h', b') {
      TimesInjective(Xor(h, b), Xor(h', b'));
      XorCancels(h, b);
      XorCancels(h', b');
      XorCommutes(h, b);
      XorCommutes(h', b');
      XorCancels(b, h);
      XorCancels(b', h');
    }
  }

  /** Keys that differ in exactly one byte have different hashes. */
  lemma {:induction false} OneByteApart(a: seq<Byte>, b: seq<Byte>, i: nat)
    requires |a| == |b| && i < |a| && a[i] != b[i] && forall k :: 0 <= k < |a| && k != i ==> a[k] == b[k]
    ensures Hash(a) != Hash(b)
  {
    hide Absorb;
    var n := |a| - 1;
    if i == n {
      assert a[..n] == b[..n];
    } else {
      OneByteApart(a[..n], b[..n], i);
    }
    AbsorbInjective(Hash(a[..n]), Hash(b[..n]), a[n], b[n]);
  }

  /** A shard's virtual nodes whose numbers agree but for the low byte never collide: up to 256 of them are all apart. */
  lemma ShardNeverCollides(shard: nat, v: nat, w: nat)
    requires v < 0x1_0000_0000 && w < 0x1_0000_0000 && v != w && v / 256 == w / 256
    ensures VNodePosition(shard, v) != VNodePosition(shard, w)
  {
    hide Hash, LE;
    var q := shard * 0x100_0000;
    Quotient(q, v);
    Quotient(q, w);
    SameHighBytes(shard * 0x1_0000_0000 + v, shard * 0x1_0000_0000 + w);
    OneByteApart(VNodeKey(shard, v), VNodeKey(shard, w), 0);
  }

  lemma Quotient(q: nat, v: nat)
    ensures (256 * q + v) / 256 == q + v / 256
  {
  }

  lemma SameHighBytes(m: nat, n: nat)
    requires m / 256 == n / 256 && m != n
    ensures LE(m, 8)[0] != LE(n, 8)[0] && LE(m, 8)[1..] == LE(n, 8)[1..]
    ensures forall k :: 0 < k < 8 ==> LE(m, 8)[k] == LE(n, 8)[k]
  {
    assert LE(m, 8)[1..] == LE(m / 256, 7) && LE(n, 8)[1..] == LE(n / 256, 7);
    forall k | 0 < k < 8 ensures LE(m, 8)[k] == LE(n, 8)[k] {
      assert LE(m, 8)[k] == LE(m, 8)[1..][k - 1];
    }
  }

  // ---- small rings never collide --------------------------------------------------------

  /** The state after the four low bytes of a key. */
  function LowHash(v: Byte): (r: nat)
    ensures r < SPACE
  {
    Absorb(Absorb(Absorb(Absorb(OFFSET, v), 0), 0), 0)
  }

  function ThreeZeros(h: nat): (r: nat)
    ensures r < SPACE
  {
    Absorb(Absorb(Absorb(h, 0), 0), 0)
  }

  lemma SmallKey(shard: Byte, v: Byte)
    ensures VNodePosition(shard, v) == ThreeZeros(Absorb(LowHash(v), shard))
  {
    hide Absorb, Hash;
    KeyBytes(shard, v);
    var key: seq<Byte> := [v, 0, 0, 0, shard, 0, 0, 0];
    HashStep(key, 0); HashStep(key, 1); HashStep(key, 2); HashStep(key, 3);
    HashStep(key, 4); HashStep(key, 5); HashStep(key, 6); HashStep(key, 7);
    NothingHashed();
    assert key[..8] == key && key[..0] == [];
  }

  lemma NothingHashed()
    ensures Hash([]) == OFFSET
  {
  }

  lemma HashStep(key: seq<Byte>, i: nat)
    requires i < |key|
    ensures Hash(key[..i + 1]) == Absorb(Hash(key[..i]), key[i])
  {
    assert key[..i + 1][..i] == key[..i];
  }

  lemma LEStep(b: Byte, rest: nat, k: nat)
    ensures LE(b + 256 * rest, k + 1) == [b] + LE(rest, k)
  {
  }

  lemma KeyBytes(shard: Byte, v: Byte)
    ensures VNodeKey(shard, v) == [v, 0, 0, 0, shard, 0, 0, 0]
  {
    hide LE;
    LEStep(v, shard * 0x100_0000, 7);
    LEStep(0, shard * 0x1_0000, 6);
    LEStep(0, shard * 0x100, 5);
    LEStep(0, shard, 4);
    LEStep(shard, 0, 3);
    LEStep(0, 0, 2);
    LEStep(0, 0, 1);
    LEStep(0, 0, 0);
    NoBytes(0);
    assert LE(shard, 4) == [shard, 0, 0, 0];
    assert LE(shard * 0x100_0000, 7) == [0, 0, 0] + LE(shard, 4);
    assert shard * 0x1_0000_0000 + v == v + 256 * (shard * 0x100_0000);
    assert VNodeKey(shard, v) == [v] + LE(shard * 0x100_0000, 7);
  }

  lemma NoBytes(n: nat)
    ensures LE(n, 0) == []
  {
  }

  /** Adding a byte changes the low byte only. */
  lemma XorHigh(a: nat, b: Byte)
    ensures Xor(a, b) / 256 == a / 256
  {
    hide Xor;
    XorTwoBits(a, b);
    XorTwoBits(a / 4, b / 4);
    XorTwoBits(a / 4 / 4, b / 4 / 4);
    XorTwoBits(a / 4 / 4 / 4, b / 4 / 4 / 4);
    FourQuarters(Xor(a, b));
    FourQuarters(a);
    FourQuarters(b);
    XorZero(a / 256);
  }

  lemma XorTwoBits(a: nat, b: nat)
    ensures Xor(a, b) / 4 == Xor(a / 4, b / 4)
  {
    hide Xor;
    XorBit(a, b);
    XorBit(a / 2, b / 2);
    TwoHalves(a);
    TwoHalves(b);
    TwoHalves(Xor(a, b));
  }

  lemma TwoHalves(n: nat)
    ensures n / 2 / 2 == n / 4
  {
  }

  lemma FourQuarters(n: nat)
    ensures n / 4 / 4 / 4 / 4 == n / 256
  {
  }

  lemma {:induction false} XorZero(a: nat)
    ensures Xor(a, 0) == a
  {
    if a > 0 { XorZero(a / 2); }
  }

  /** `PRIME^4` modulo 2^64, five eighths of the circle but for `SHORT / 8`. */
  const FOURTH: nat := 11527715348014283921
  const SHORT: nat := 11997584433486712

  /** Four rounds multiply by the fourth power. */
  lemma LowHashIs(v: Byte)
    ensures LowHash(v) == Xor(OFFSET, v) * FOURTH % SPACE
  {
    hide Xor;
    XorZero(Absorb(OFFSET, v));
    XorZero(Absorb(Absorb(OFFSET, v), 0));
    XorZero(Absorb(Absorb(Absorb(OFFSET, v), 0), 0));
    var x := Xor(OFFSET, v);
    FourRounds(x, x * PRIME % SPACE, x * PRIME % SPACE * PRIME % SPACE, x * PRIME % SPACE * PRIME % SPACE * PRIME % SPACE);
  }

  lemma FourRounds(x: nat, a: nat, b: nat, c: nat)
    requires a == x * PRIME % SPACE && b == a * PRIME % SPACE && c == b * PRIME % SPACE
    ensures c * PRIME % SPACE == x * FOURTH % SPACE
  {
    var i, j, k, l := x * PRIME / SPACE, a * PRIME / SPACE, b * PRIME / SPACE, c * PRIME / SPACE;
    var d := c * PRIME % SPACE;
    assert d == x * (PRIME * PRIME * PRIME * PRIME) - SPACE * (i * (PRIME * PRIME * PRIME) + j * (PRIME * PRIME) + k * PRIME + l);
    assert PRIME * PRIME * PRIME * PRIME == FOURTH + SPACE * 79228162639644551293944856595;
    Remainder(d, x * FOURTH, x * 79228162639644551293944856595 - (i * (PRIME * PRIME * PRIME) + j * (PRIME * PRIME) + k * PRIME + l));
  }

  lemma Remainder(r: nat, n: nat, k: int)
    requires r < SPACE && r == n + SPACE * k
    ensures n % SPACE == r
  {
  }

  /** Two low bytes are far apart after four rounds: never within one byte of each other. */
  lemma LowHashesApart(v: Byte, w: Byte)
    requires LowHash(v) / 256 == LowHash(w) / 256
    ensures v == w
  {
    hide Xor, LowHash;
    LowHashIs(v);
    LowHashIs(w);
    XorHigh(OFFSET, v);
    XorHigh(OFFSET, w);
    var x, y := Xor(OFFSET, v), Xor(OFFSET, w);
    FarApart(x - y, LowHash(v) - LowHash(w), x * FOURTH / SPACE - y * FOURTH / SPACE);
    XorCommutes(OFFSET, v);
    XorCommutes(OFFSET, w);
    XorCancels(v, OFFSET);
    XorCancels(w, OFFSET);
  }

  lemma FarApart(d: int, e: int, k: int)
    requires -256 < d < 256 && -256 < e < 256 && d * FOURTH - SPACE * k == e
    ensures d == 0
  {
    var m := 5 * d - 8 * k;
    assert SPACE * m == 8 * e + d * SHORT;
    assert m == 0;
  }

  lemma ThreeZerosInjective(a: nat, b: nat)
    requires a < SPACE && b < SPACE && ThreeZeros(a) == ThreeZeros(b)
    ensures a == b
  {
    hide Absorb;
    if a != b {
      AbsorbInjective(a, b, 0, 0);
      AbsorbInjective(Absorb(a, 0), Absorb(b, 0), 0, 0);
      AbsorbInjective(Absorb(Absorb(a, 0), 0), Absorb(Absorb(b, 0), 0), 0, 0);
    }
  }

  /** On a ring of at most 256 shards with at most 256 virtual nodes each, no two virtual nodes share a position. */
  lemma SmallRingNeverCollides(shard: Byte, v: Byte, shard': Byte, v': Byte)
    ensures VNodePosition(shard, v) == VNodePosition(shard', v') <==> shard == shard' && v == v'
  {
    hide Xor, Times, VNodePosition, LowHash, ThreeZeros;
    SmallKey(shard, v);
    SmallKey(shard', v');
    if VNodePosition(shard, v) == VNodePosition(shard', v') {
      var a, b := LowHash(v), LowHash(v');
      ThreeZerosInjective(Absorb(a, shard), Absorb(b, shard'));
      Pow2Space();
      XorBelow(a, shard, 64);
      XorBelow(b, shard', 64);
      TimesInjective(Xor(a, shard), Xor(b, shard'));
      XorHigh(a, shard);
      XorHigh(b, shard');
      LowHashesApart(v, v');
      XorCommutes(a, shard);
      XorCommutes(b, shard');
      XorCancels(shard, a);
      XorCancels(shard', b);
    }
  }

  // ---- published values ---------------------------------------------------------------

  /** Exclusive or works on the low `k` bits and on the others separately. */
  lemma {:induction false} XorSplits(high: nat, low: nat, b: nat, c: nat, k: nat)
    requires low < Pow2(k) && c < Pow2(k)
    ensures Xor(Times(Pow2(k), high) + low, Times(Pow2(k), b) + c) == Times(Pow2(k), Xor(high, b)) + Xor(low, c)
  {
    if k == 0 {
      OneTimes(high); OneTimes(b); OneTimes(Xor(high, b));
    } else {
      hide Xor, Times, Pow2;
      var m, p, x := Times(Pow2(k - 1), high), Times(Pow2(k - 1), b), Times(Pow2(k - 1), Xor(high, b));
      Doubled(k, high); Doubled(k, b); Doubled(k, Xor(high, b));
      LowHalf(k, low);
      LowHalf(k, c);
      XorSplits(high, low / 2, b, c / 2, k - 1);
      OneBitMore(m, low, p, c, x);
    }
  }

  lemma OneBitMore(m: nat, low: nat, p: nat, c: nat, z: nat)
    requires Xor(m + low / 2, p + c / 2) == z + Xor(low / 2, c / 2)
    ensures Xor(2 * m + low, 2 * p + c) == 2 * z + Xor(low, c)
  {
    hide Xor;
    assert (2 * m + low) / 2 == m + low / 2 && (2 * p + c) / 2 == p + c / 2;
    XorBit(2 * m + low, 2 * p + c);
    XorBit(low, c);
    SameHalves(2 * m + low, low, m, 2 * p + c, c, p, Xor(2 * m + low, 2 * p + c), Xor(low, c), z);
  }

  lemma OneTimes(n: nat)
    ensures Times(Pow2(0), n) == n && Pow2(0) == 1 && Xor(0, 0) == 0
  {
  }

  lemma Doubled(k: nat, n: nat)
    requires k > 0
    ensures Times(Pow2(k), n) == 2 * Times(Pow2(k - 1), n)
  {
  }

  lemma LowHalf(k: nat, low: nat)
    requires k > 0 && low < Pow2(k)
    ensures low / 2 < Pow2(k - 1)
  {
  }

  lemma SameHalves(n: nat, low: nat, m: nat, d: nat, c: nat, p: nat, x: nat, y: nat, z: nat)
    requires n == 2 * m + low && d == 2 * p + c
    requires x % 2 == (n + d) % 2 && y % 2 == (low + c) % 2 && x / 2 == z + y / 2
    ensures x == 2 * z + y
  {
  }

  /** Two bytes, digit by hexadecimal digit. */
  lemma XorDigits(high: nat, low: nat, b: nat, c: nat)
    requires low < 16 && c < 16
    ensures Xor(16 * high + low, 16 * b + c) == 16 * Xor(high, b) + Xor(low, c)
  {
    hide Xor;
    assert Pow2(4) == 16;
    XorSplits(high, low, b, c, 4);
  }

  /** One hash step on numbers: `x` is the new low byte, `q` the multiples of 2^64 that drop out, `h'` the new state. */
  lemma AbsorbIs(h: nat, high: nat, low: Byte, b: Byte, x: nat, q: nat, h': nat)
    requires h == 256 * high + low && Xor(low, b) == x && h' < SPACE && (256 * high + x) * PRIME == q * SPACE + h'
    ensures Absorb(h, b) == h'
  {
    hide Xor;
    assert Pow2(8) == 256;
    XorSplits(high, low, 0, b, 8);
    XorZero(high);
    Remainder(h', (256 * high + x) * PRIME, -(q as int));
  }

  lemma LowBytes()
    ensures Xor(0x25, 0x66) == 0x43 && Xor(0xD9, 0x6F) == 0xB6 && Xor(0x42, 0x6F) == 0x2D && Xor(0x77, 0x62) == 0x15
    ensures Xor(0xAF, 0x61) == 0xCE && Xor(0xA, 0x72) == 0x78 && Xor(0x25, 0x61) == 0x44
  {
    hide Xor;
    HexDigits();
    XorDigits(2, 5, 6, 6);
    XorDigits(13, 9, 6, 15);
    XorDigits(4, 2, 6, 15);
    XorDigits(7, 7, 6, 2);
    XorDigits(10, 15, 6, 1);
    XorDigits(0, 10, 7, 2);
    XorDigits(2, 5, 6, 1);
  }

  lemma HexDigits()
    ensures Xor(0, 7) == 7 && Xor(2, 6) == 4 && Xor(2, 15) == 13 && Xor(4, 6) == 2 && Xor(5, 1) == 4
    ensures Xor(5, 6) == 3 && Xor(7, 2) == 5 && Xor(7, 6) == 1 && Xor(9, 15) == 6 && Xor(10, 2) == 8
    ensures Xor(10, 6) == 12 && Xor(13, 6) == 11 && Xor(15, 1) == 14
  {
  }

  /** Published 64-bit FNV-1a values: of no bytes, of "a" and of "foobar". */
  lemma PublishedValues()
    ensures Hash([]) == 0xCBF29CE484222325 && Hash([0x61]) == 0xAF63DC4C8601EC8C
    ensures Hash([0x66, 0x6F, 0x6F, 0x62, 0x61, 0x72]) == 0x85944171F73967E8
  {
    hide Xor, Absorb;
    LowBytes();
    NothingHashed();
    var a: seq<Byte>, key: seq<Byte> := [0x61], [0x66, 0x6F, 0x6F, 0x62, 0x61, 0x72];
    HashStep(a, 0);
    assert a[..1] == a && a[..0] == [] && key[..0] == [] && key[..6] == key;
    HashStep(key, 0); HashStep(key, 1); HashStep(key, 2); HashStep(key, 3); HashStep(key, 4); HashStep(key, 5);
    AbsorbIs(0xCBF29CE484222325, 0xCBF29CE4842223, 0x25, 0x61, 0x44, 0xCBF29CE5DE, 0xAF63DC4C8601EC8C);
    AbsorbIs(0xCBF29CE484222325, 0xCBF29CE4842223, 0x25, 0x66, 0x43, 0xCBF29CE5DE, 0xAF63DB4C8601EAD9);
    AbsorbIs(0xAF63DB4C8601EAD9, 0xAF63DB4C8601EA, 0xD9, 0x6F, 0xB6, 0xAF63DB4DB0, 0x8985907B541D342);
    AbsorbIs(0x8985907B541D342, 0x8985907B541D3, 0x42, 0x6F, 0x2D, 0x8985907C3, 0xDCB27518FED9D577);
    AbsorbIs(0xDCB27518FED9D577, 0xDCB27518FED9D5, 0x77, 0x62, 0x15, 0xDCB2751A75, 0xDD120E790C2512AF);
    AbsorbIs(0xDD120E790C2512AF, 0xDD120E790C2512, 0xAF, 0x61, 0xCE, 0xDD120E7A83, 0xCAC165AFA2FEF40A);
    AbsorbIs(0xCAC165AFA2FEF40A, 0xCAC165AFA2FEF4, 0xA, 0x72, 0x78, 0xCAC165B0FB, 0x85944171F73967E8);
  }

  /** A virtual node is hashed from its number and its shard, both as four bytes, the number first. */
  lemma KeyLayout(shard: nat, v: nat)
    requires shard < 0x1_0000_0000 && v < 0x1_0000_0000
    ensures VNodeKey(shard, v) == LE(v, 4) + LE(shard, 4)
  {
    hide LE;
    var v1, v2, v3 := v / 256, v / 256 / 256, v / 256 / 256 / 256;
    LEStep(v % 256, v1 + shard * 0x100_0000, 7);
    LEStep(v1 % 256, v2 + shard * 0x1_0000, 6);
    LEStep(v2 % 256, v3 + shard * 0x100, 5);
    LEStep(v3, shard, 4);
    LEStep(v % 256, v1, 3);
    LEStep(v1 % 256, v2, 2);
    LEStep(v2 % 256, v3, 1);
    LEStep(v3, 0, 0);
    NoBytes(0);
    assert LE(v, 4) == [v % 256, v1 % 256, v2 % 256, v3];
    assert VNodeKey(shard, v) == [v % 256] + ([v1 % 256] + ([v2 % 256] + ([v3] + LE(shard, 4))));
  }
}
