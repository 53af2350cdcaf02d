/** The distance kernels over exact arithmetic: one component at a time, or 8 or 16 lanes at a time. */
module Kernels {

  type Vec = seq<real>

  /** A square root, left abstract. */
  type Sqrt = real -> real

  function Mul(x: real, y: real): real { x * y }

  function Sq(x: real): real { Mul(x, x) }

  function SqDiff(a: Vec, b: Vec, i: nat): real
    requires i < |a| && i < |b|
  {
    Sq(a[i] - b[i])
  }

  function Prod(a: Vec, b: Vec, i: nat): real
    requires i < |a| && i < |b|
  {
    Mul(a[i], b[i])
  }

  /** The terms of a sum over the components. */
  function SqDiffs(a: Vec, b: Vec): (r: seq<real>)
    requires |a| == |b|
    ensures |r| == |a| && forall i :: 0 <= i < |a| ==> r[i] == SqDiff(a, b, i)
  {
    seq(|a|, i requires 0 <= i < |a| => SqDiff(a, b, i))
  }

  function Prods(a: Vec, b: Vec): (r: seq<real>)
    requires |a| == |b|
    ensures |r| == |a| && forall i :: 0 <= i < |a| ==> r[i] == Prod(a, b, i)
  {
    seq(|a|, i requires 0 <= i < |a| => Prod(a, b, i))
  }

  function Sum(s: seq<real>): real {
    if s == [] then 0.0 else Sum(s[..|s| - 1]) + s[|s| - 1]
  }

  /** The squared Euclidean distance. */
  function L2(a: Vec, b: Vec): real
    requires |a| == |b|
  {
    Sum(SqDiffs(a, b))
  }

  /** Cosine distance; 1 where a norm vanishes. */
  function Cosine(sqrt: Sqrt, a: Vec, b: Vec): real
    requires |a| == |b|
  {
    Normalised(sqrt, Sum(Prods(a, b)), Sum(Prods(a, a)), Sum(Prods(b, b)))
  }

  /** The last three lines of every cosine kernel. */
  function Normalised(sqrt: Sqrt, dot: real, na: real, nb: real): real {
    var denom := Mul(sqrt(na), sqrt(nb));
    if denom < 0.0000000001 then 1.0 else 1.0 - dot / denom
  }

  lemma {:induction false} SumConcat(s: seq<real>, t: seq<real>)
    ensures Sum(s + t) == Sum(s) + Sum(t)
  {
    if t == [] {
      assert s + t == s;
    } else {
      SumConcat(s, t[..|t| - 1]);
      assert (s + t)[..|s + t| - 1] == s + t[..|t| - 1];
    }
  }

  lemma SumPrefix(s: seq<real>, i: nat)
    requires i < |s|
    ensures Sum(s[..i + 1]) == Sum(s[..i]) + s[i]
  {
    assert s[..i + 1][..i] == s[..i];
  }

  // ---- lane registers --------------------------------------------------------------------

  /** A vector register: 4, 8 or 16 lanes. */
  type Lanes = seq<real>

  /** Lane by lane sum of two registers. */
  function Add(x: Lanes, y: Lanes): (r: Lanes)
    requires |x| == |y|
    ensures |r| == |x| && forall i :: 0 <= i < |x| ==> r[i] == x[i] + y[i]
  {
    seq(|x|, i requires 0 <= i < |x| => x[i] + y[i])
  }

  /** `fmadd`: `x * y + acc`, lane by lane. */
  function FusedMultiplyAdd(x: Lanes, y: Lanes, acc: Lanes): (r: Lanes)
    requires |x| == |y| == |acc|
    ensures |r| == |acc| && forall i :: 0 <= i < |r| ==> r[i] == x[i] * y[i] + acc[i]
  {
    seq(|acc|, i requires 0 <= i < |acc| => x[i] * y[i] + acc[i])
  }

  function Subtract(x: Lanes, y: Lanes): (r: Lanes)
    requires |x| == |y|
    ensures |r| == |x| && forall i :: 0 <= i < |r| ==> r[i] == x[i] - y[i]
  {
    seq(|x|, i requires 0 <= i < |x| => x[i] - y[i])
  }

  /** `_mm_hadd_ps`. */
  function HorizontalAdd(x: Lanes, y: Lanes): (r: Lanes)
    requires |x| == |y| == 4
    ensures |r| == 4
  {
    [x[0] + x[1], x[2] + x[3], y[0] + y[1], y[2] + y[3]]
  }

  /** Adds the two halves of an 8-lane register, then twice the neighbouring lanes. */
  method HorizontalSum(acc: Lanes) returns (r: real)
    requires |acc| == 8
    ensures r == Sum(acc)
  {
    var sum := Add(acc[..4], acc[4..]);
    sum := HorizontalAdd(sum, sum);
    sum := HorizontalAdd(sum, sum);
    r := sum[0];
    SumOfEight(acc);
  }

  lemma SumOfEight(s: seq<real>)
    requires |s| == 8
    ensures Sum(s) == s[0] + s[1] + s[2] + s[3] + s[4] + s[5] + s[6] + s[7]
  {
    hide Sum;
    assert s[..8] == s;
    SumPrefix(s, 7); SumPrefix(s, 6); SumPrefix(s, 5); SumPrefix(s, 4);
    SumPrefix(s, 3); SumPrefix(s, 2); SumPrefix(s, 1); SumPrefix(s, 0);
    NoTerms(s[..0]);
  }

  lemma NoTerms(s: seq<real>)
    requires s == []
    ensures Sum(s) == 0.0
  {
  }

  /** Adding registers adds their sums. */
  lemma {:induction false} SumAdd(x: Lanes, y: Lanes)
    requires |x| == |y|
    ensures Sum(Add(x, y)) == Sum(x) + Sum(y)
  {
    var n := |x| - 1;
    if x != [] {
      SumAdd(x[..n], y[..n]);
      assert Add(x, y)[..n] == Add(x[..n], y[..n]);
    }
  }

  lemma {:induction false} SumZeros(n: nat)
    ensures Sum(seq(n, _ => 0.0)) == 0.0
  {
    if n > 0 {
      SumZeros(n - 1);
      assert seq(n, _ => 0.0)[..n - 1] == seq(n - 1, _ => 0.0);
    }
  }

  /** One block: accumulating `terms[i..i + w]` lane by lane extends the running sum by the whole block. */
  lemma Block(terms: seq<real>, i: nat, w: nat, acc: Lanes, acc': Lanes)
    requires i + w <= |terms| && |acc| == |acc'| == w
    requires forall k :: 0 <= k < w ==> acc'[k] == terms[i + k] + acc[k]
    requires Sum(acc) == Sum(terms[..i])
    ensures Sum(acc') == Sum(terms[..i + w])
  {
    hide Sum;
    var block := terms[i..i + w];
    assert acc' == Add(block, acc);
    SumAdd(block, acc);
    assert terms[..i + w] == terms[..i] + block;
    SumConcat(terms[..i], block);
  }

  // ---- squared Euclidean distance -----------------------------------------------------------

  method L2Scalar(a: Vec, b: Vec) returns (acc: real)
    requires |a| == |b|
    ensures acc == L2(a, b)
  {
    ghost var terms := SqDiffs(a, b);
    acc := 0.0;
    for i := 0 to |a|
      invariant acc == Sum(terms[..i])
    {
      var d := a[i] - b[i];
      acc := acc + d * d;
      SumPrefix(terms, i);
    }
    assert terms[..|a|] == terms;
  }

  /** The blocks of `w` components, each added to a register of `w` lanes. */
  method L2Blocks(a: Vec, b: Vec, w: nat) returns (acc: Lanes, i: nat)
    requires |a| == |b| && w > 0
    ensures |acc| == w && i <= |a| < i + w && Sum(acc) == Sum(SqDiffs(a, b)[..i])
  {
    hide Sum;
    ghost var terms := SqDiffs(a, b);
    acc, i := seq(w, _ => 0.0), 0;
    SumZeros(w);
    NoTerms(terms[..0]);
    while i + w <= |a|
      invariant |acc| == w && i <= |a| && Sum(acc) == Sum(terms[..i])
    {
      ghost var before := acc;
      var diff := Subtract(a[i..i + w], b[i..i + w]);
      acc := FusedMultiplyAdd(diff, diff, acc);
      Block(terms, i, w, before, acc);
      i := i + w;
    }
  }

  /** The components that do not fill a block. */
  method L2Tail(a: Vec, b: Vec, from: nat, start: real) returns (result: real)
    requires |a| == |b| && from <= |a| && start == Sum(SqDiffs(a, b)[..from])
    ensures result == L2(a, b)
  {
    hide Sum;
    ghost var terms := SqDiffs(a, b);
    result := start;
    for i := from to |a|
      invariant result == Sum(terms[..i])
    {
      var d := a[i] - b[i];
      result := result + d * d;
      SumPrefix(terms, i);
    }
    assert terms[..|a|] == terms;
  }

  /** Eight lanes: for every dimension the plain sum. */
  method L2Avx2(a: Vec, b: Vec) returns (result: real)
    requires |a| == |b|
    ensures result == L2(a, b)
  {
    var acc, i := L2Blocks(a, b, 8);
    var start := HorizontalSum(acc);
    result := L2Tail(a, b, i, start);
  }

  /** Sixteen lanes, reduced in one instruction. */
  method L2Avx512(a: Vec, b: Vec) returns (result: real)
    requires |a| == |b|
    ensures result == L2(a, b)
  {
    var acc, i := L2Blocks(a, b, 16);
    result := L2Tail(a, b, i, Sum(acc));
  }

  /** The sum is a squared distance: never negative, zero exactly between equal vectors, and symmetric. */
  lemma {:induction false} L2Separates(a: Vec, b: Vec)
    requires |a| == |b|
    ensures L2(a, b) >= 0.0 && (L2(a, b) == 0.0 <==> a == b) && L2(a, b) == L2(b, a)
  {
    var n := |a| - 1;
    if a != [] {
      L2Separates(a[..n], b[..n]);
      assert SqDiffs(a, b)[..n] == SqDiffs(a[..n], b[..n]) && SqDiffs(b, a)[..n] == SqDiffs(b[..n], a[..n]);
      SquareSigns(a[n] - b[n]);
      assert a == a[..n] + [a[n]] && b == b[..n] + [b[n]];
    }
  }

  lemma SquareSigns(x: real)
    ensures Sq(x) >= 0.0 && (Sq(x) == 0.0 <==> x == 0.0) && Sq(-x) == Sq(x)
  {
    hide Mul;
    MulSigns(x, x);
    if x > 0.0 { MulPositive(x, x); } else if x < 0.0 { MulPositive(-x, -x); }
  }

  lemma MulPositive(x: real, y: real)
    requires x > 0.0 && y > 0.0
    ensures Mul(x, y) > 0.0
  {
  }

  lemma MulSigns(x: real, y: real)
    ensures Mul(-x, -y) == Mul(x, y) && Mul(0.0, y) == 0.0
  {
  }

  // ---- cosine distance ----------------------------------------------------------------------

  /** The three running sums of the cosine kernels after `i` components. */
  ghost predicate Sums(a: Vec, b: Vec, i: nat, dot: real, na: real, nb: real)
    requires |a| == |b| && i <= |a|
  {
    dot == Sum(Prods(a, b)[..i]) && na == Sum(Prods(a, a)[..i]) && nb == Sum(Prods(b, b)[..i])
  }

  /** The scalar loop from component `from` on, and the division at the end. */
  method CosineTail(sqrt: Sqrt, a: Vec, b: Vec, from: nat, dot0: real, na0: real, nb0: real) returns (r: real)
    requires |a| == |b| && from <= |a| && Sums(a, b, from, dot0, na0, nb0)
    ensures r == Cosine(sqrt, a, b)
  {
    hide Sum, Normalised;
    var dot, na, nb := dot0, na0, nb0;
    for i := from to |a|
      invariant Sums(a, b, i, dot, na, nb)
    {
      dot, na, nb := dot + a[i] * b[i], na + a[i] * a[i], nb + b[i] * b[i];
      SumPrefix(Prods(a, b), i);
      SumPrefix(Prods(a, a), i);
      SumPrefix(Prods(b, b), i);
    }
    assert Prods(a, b)[..|a|] == Prods(a, b) && Prods(a, a)[..|a|] == Prods(a, a) && Prods(b, b)[..|a|] == Prods(b, b);
    r := Normalised(sqrt, dot, na, nb);
  }

  method CosineScalar(sqrt: Sqrt, a: Vec, b: Vec) returns (r: real)
    requires |a| == |b|
    ensures r == Cosine(sqrt, a, b)
  {
    r := CosineTail(sqrt, a, b, 0, 0.0, 0.0, 0.0);
  }

  method CosineBlocks(a: Vec, b: Vec, w: nat) returns (vdot: Lanes, vna: Lanes, vnb: Lanes, i: nat)
    requires |a| == |b| && w > 0
    ensures |vdot| == |vna| == |vnb| == w && i <= |a| < i + w
    ensures Sums(a, b, i, Sum(vdot), Sum(vna), Sum(vnb))
  {
    hide Sum;
    vdot, vna, vnb, i := seq(w, _ => 0.0), seq(w, _ => 0.0), seq(w, _ => 0.0), 0;
    SumZeros(w);
    NoTerms([]);
    assert Prods(a, b)[..0] == [] && Prods(a, a)[..0] == [] && Prods(b, b)[..0] == [];
    while i + w <= |a|
      invariant |vdot| == |vna| == |vnb| == w && i <= |a|
      invariant Sums(a, b, i, Sum(vdot), Sum(vna), Sum(vnb))
    {
      ghost var dot0, na0, nb0 := vdot, vna, vnb;
      var va, vb := a[i..i + w], b[i..i + w];
      vdot, vna, vnb := FusedMultiplyAdd(va, vb, vdot), FusedMultiplyAdd(va, va, vna), FusedMultiplyAdd(vb, vb, vnb);
      Block(Prods(a, b), i, w, dot0, vdot);
      Block(Prods(a, a), i, w, na0, vna);
      Block(Prods(b, b), i, w, nb0, vnb);
      i := i + w;
    }
  }

  method CosineAvx2(sqrt: Sqrt, a: Vec, b: Vec) returns (r: real)
    requires |a| == |b|
    ensures r == Cosine(sqrt, a, b)
  {
    var vdot, vna, vnb, i := CosineBlocks(a, b, 8);
    var dot, na, nb;
    dot := HorizontalSum(vdot);
    na := HorizontalSum(vna);
    nb := HorizontalSum(vnb);
    r := CosineTail(sqrt, a, b, i, dot, na, nb);
  }

  method CosineAvx512(sqrt: Sqrt, a: Vec, b: Vec) returns (r: real)
    requires |a| == |b|
    ensures r == Cosine(sqrt, a, b)
  {
    var vdot, vna, vnb, i := CosineBlocks(a, b, 16);
    r := CosineTail(sqrt, a, b, i, Sum(vdot), Sum(vna), Sum(vnb));
  }
}
