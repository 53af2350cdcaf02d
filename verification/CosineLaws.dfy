/** What the cosine distance means: the angle between two vectors, whatever their lengths. */
module CosineLaws {
  import opened Kernels

  /** `f` is the square root. */
  ghost predicate IsRoot(f: Sqrt) {
    forall x :: x >= 0.0 ==> f(x) >= 0.0 && Mul(f(x), f(x)) == x
  }

  function Dot(a: Vec, b: Vec): real
    requires |a| == |b|
  {
    Sum(Prods(a, b))
  }

  /** The product of the two lengths. */
  function Lengths(f: Sqrt, a: Vec, b: Vec): real { Mul(f(Dot(a, a)), f(Dot(b, b))) }

  function Scaled(t: real, a: Vec): (r: Vec)
    ensures |r| == |a| && forall i :: 0 <= i < |a| ==> r[i] == Mul(t, a[i])
  {
    seq(|a|, i requires 0 <= i < |a| => Mul(t, a[i]))
  }

  const EPSILON: real := 0.0000000001

  // ---- products of real numbers -------------------------------------------------------

  lemma MulCommutes(x: real, y: real)
    ensures Mul(x, y) == Mul(y, x)
  {
  }

  lemma MulAssociates(x: real, y: real, z: real)
    ensures Mul(Mul(x, y), z) == Mul(x, Mul(y, z))
  {
  }

  lemma MulSum(t: real, x: real, y: real)
    ensures Mul(t, x + y) == Mul(t, x) + Mul(t, y) && Mul(t, x - y) == Mul(t, x) - Mul(t, y)
  {
  }

  lemma MulOne(x: real)
    ensures Mul(1.0, x) == x && Mul(0.0, x) == 0.0
  {
  }

  lemma MulMono(t: real, x: real, y: real)
    requires t >= 0.0 && x <= y
    ensures Mul(t, x) <= Mul(t, y)
  {
  }

  /** The larger of two non-negative numbers has the larger square. */
  lemma SquareGrows(x: real, y: real)
    requires 0.0 <= x < y
    ensures Mul(x, x) < Mul(y, y)
  {
    hide Mul;
    MulMono(x, x, y);
    MulCommutes(x, y);
    MulSum(y, y, x);
    MulPositive(y, y - x);
  }

  /** Dividing undoes multiplying. */
  lemma DivideIs(x: real, d: real, q: real)
    requires d > 0.0 && x == Mul(q, d)
    ensures x / d == q
  {
  }

  lemma Quotient(x: real, d: real)
    requires d > 0.0
    ensures Mul(x / d, d) == x
  {
  }

  /** Non-negative roots are unique. */
  lemma RootIs(f: Sqrt, x: real, r: real)
    requires IsRoot(f) && r >= 0.0 && Mul(r, r) == x && x >= 0.0
    ensures f(x) == r
  {
    hide Mul;
    if f(x) < r { SquareGrows(f(x), r); }
    if r < f(x) { SquareGrows(r, f(x)); }
  }

  // ---- dot products -------------------------------------------------------------------

  lemma {:induction false} SumLinear(x: real, s: seq<real>, t: seq<real>, u: seq<real>)
    requires |s| == |t| == |u| && forall i :: 0 <= i < |u| ==> u[i] == Mul(x, s[i]) + t[i]
    ensures Sum(u) == Mul(x, Sum(s)) + Sum(t)
  {
    hide Mul;
    if u == [] {
      MulCommutes(x, 0.0);
      MulOne(x);
    } else {
      var n := |u| - 1;
      SumLinear(x, s[..n], t[..n], u[..n]);
      MulSum(x, Sum(s[..n]), s[n]);
    }
  }

  lemma DotSymmetric(a: Vec, b: Vec)
    requires |a| == |b|
    ensures Dot(a, b) == Dot(b, a)
  {
    hide Mul;
    forall i | 0 <= i < |a| ensures Prods(a, b)[i] == Prods(b, a)[i] { MulCommutes(a[i], b[i]); }
    assert Prods(a, b) == Prods(b, a);
  }

  lemma DotScaled(t: real, a: Vec, b: Vec)
    requires |a| == |b|
    ensures Dot(Scaled(t, a), b) == Mul(t, Dot(a, b))
  {
    hide Mul, Sum;
    var zeros := seq(|a|, _ => 0.0);
    forall i | 0 <= i < |a| ensures Prods(Scaled(t, a), b)[i] == Mul(t, Prods(a, b)[i]) + zeros[i] {
      MulAssociates(t, a[i], b[i]);
    }
    SumLinear(t, Prods(a, b), zeros, Prods(Scaled(t, a), b));
    SumZeros(|a|);
  }

  /** Scaling a vector scales its square by the square. */
  lemma SquareScaled(t: real, a: Vec)
    ensures Dot(Scaled(t, a), Scaled(t, a)) == Mul(Mul(t, t), Dot(a, a))
  {
    hide Mul;
    DotScaled(t, a, Scaled(t, a));
    DotSymmetric(a, Scaled(t, a));
    DotScaled(t, a, a);
    MulAssociates(t, t, Dot(a, a));
  }

  /** The squared distance, from the three sums. */
  lemma {:induction false} L2Expands(a: Vec, b: Vec)
    requires |a| == |b|
    ensures L2(a, b) == Dot(a, a) + Dot(b, b) - 2.0 * Dot(a, b)
  {
    var n := |a| - 1;
    if a != [] {
      L2Expands(a[..n], b[..n]);
      assert SqDiffs(a, b)[..n] == SqDiffs(a[..n], b[..n]) && Prods(a, b)[..n] == Prods(a[..n], b[..n]);
      assert Prods(a, a)[..n] == Prods(a[..n], a[..n]) && Prods(b, b)[..n] == Prods(b[..n], b[..n]);
      hide Mul;
      SquareOfDifference(a[n], b[n]);
    }
  }

  lemma SquareOfDifference(x: real, y: real)
    ensures Mul(x - y, x - y) == Mul(x, x) + Mul(y, y) - 2.0 * Mul(x, y)
  {
  }

  lemma {:induction false} DotPositive(a: Vec)
    ensures Dot(a, a) >= 0.0
  {
    if a != [] {
      var n := |a| - 1;
      DotPositive(a[..n]);
      assert Prods(a, a)[..n] == Prods(a[..n], a[..n]);
      SquareSigns(a[n]);
    }
  }

  /** Cauchy-Schwarz. */
  lemma CauchySchwarz(a: Vec, b: Vec)
    requires |a| == |b|
    ensures Mul(Dot(a, b), Dot(a, b)) <= Mul(Dot(a, a), Dot(b, b))
  {
    hide Mul, L2;
    var A, B, D := Dot(a, a), Dot(b, b), Dot(a, b);
    DotPositive(a);
    DotPositive(b);
    if A > 0.0 {
      var x := D / A;
      Quotient(D, A);
      Discriminant(a, b, x);
      MulAssociates(x, x, A);
      assert B - Mul(x, D) >= 0.0;
      MulMono(A, Mul(x, D), B);
      MulAssociates(A, x, D);
      MulCommutes(A, x);
    } else {
      MulOne(B);
      if D != 0.0 {
        var x := (B + 1.0) / (2.0 * D);
        Discriminant(a, b, x);
        Half(B, D, x);
        MulCommutes(Mul(x, x), 0.0);
        MulOne(Mul(x, x));
      } else {
        MulOne(D);
      }
    }
  }

  lemma Half(B: real, D: real, x: real)
    requires D != 0.0 && x == (B + 1.0) / (2.0 * D)
    ensures 2.0 * Mul(x, D) == B + 1.0
  {
  }

  /** The squared distance between a multiple of `a` and `b` is not negative. */
  lemma Discriminant(a: Vec, b: Vec, x: real)
    requires |a| == |b|
    ensures Mul(Mul(x, x), Dot(a, a)) + Dot(b, b) - 2.0 * Mul(x, Dot(a, b)) >= 0.0
  {
    hide Mul, L2;
    L2Separates(Scaled(x, a), b);
    L2Expands(Scaled(x, a), b);
    SquareScaled(x, a);
    DotScaled(x, a, b);
  }

  // ---- the cosine distance --------------------------------------------------------------

  lemma CosineIs(f: Sqrt, a: Vec, b: Vec)
    requires |a| == |b|
    ensures Cosine(f, a, b) == if Lengths(f, a, b) < EPSILON then 1.0 else 1.0 - Dot(a, b) / Lengths(f, a, b)
  {
    hide Mul, Sum;
  }

  lemma LengthsSquared(f: Sqrt, a: Vec, b: Vec)
    requires |a| == |b| && IsRoot(f)
    ensures Lengths(f, a, b) >= 0.0 && Mul(Lengths(f, a, b), Lengths(f, a, b)) == Mul(Dot(a, a), Dot(b, b))
  {
    hide Mul, Dot;
    DotPositive(a);
    DotPositive(b);
    var p, q := f(Dot(a, a)), f(Dot(b, b));
    MulMono(p, 0.0, q);
    MulCommutes(p, 0.0);
    MulOne(p);
    MulAssociates(p, q, Mul(p, q));
    MulAssociates(q, p, q);
    MulCommutes(q, p);
    MulAssociates(p, q, q);
    MulAssociates(p, p, Mul(q, q));
  }

  /** The distance does not depend on the order of the vectors. */
  lemma CosineSymmetric(f: Sqrt, a: Vec, b: Vec)
    requires |a| == |b|
    ensures Cosine(f, a, b) == Cosine(f, b, a)
  {
    hide Mul, Dot;
    CosineIs(f, a, b);
    CosineIs(f, b, a);
    DotSymmetric(a, b);
    MulCommutes(f(Dot(a, a)), f(Dot(b, b)));
  }

  /** Equal vectors are at distance 0, unless they are negligible. */
  lemma CosineSelf(f: Sqrt, a: Vec)
    requires IsRoot(f)
    ensures Cosine(f, a, a) == if Dot(a, a) < 0.0000000001 then 1.0 else 0.0
  {
    hide Mul, Dot;
    CosineIs(f, a, a);
    DotPositive(a);
    if Dot(a, a) >= EPSILON {
      MulOne(Dot(a, a));
      DivideIs(Dot(a, a), Dot(a, a), 1.0);
    }
  }

  /** Orthogonal vectors, and negligible ones, are at distance 1. */
  lemma CosineOrthogonal(f: Sqrt, a: Vec, b: Vec)
    requires |a| == |b| && (Dot(a, b) == 0.0 || Lengths(f, a, b) < 0.0000000001)
    ensures Cosine(f, a, b) == 1.0
  {
    hide Mul, Dot;
    CosineIs(f, a, b);
    if Lengths(f, a, b) >= EPSILON {
      MulOne(Lengths(f, a, b));
      DivideIs(0.0, Lengths(f, a, b), 0.0);
    }
  }

  /** The law of cosines: the distance is one minus the cosine of the angle that the squared distance determines. */
  lemma LawOfCosines(f: Sqrt, a: Vec, b: Vec)
    requires |a| == |b| && Lengths(f, a, b) >= 0.0000000001
    ensures L2(a, b) == Dot(a, a) + Dot(b, b) - 2.0 * Mul(1.0 - Cosine(f, a, b), Lengths(f, a, b))
  {
    hide Mul, Dot, L2, Lengths;
    CosineIs(f, a, b);
    L2Expands(a, b);
    Quotient(Dot(a, b), Lengths(f, a, b));
  }

  /** The distance lies between 0 and 2. */
  lemma CosineBounds(f: Sqrt, a: Vec, b: Vec)
    requires |a| == |b| && IsRoot(f)
    ensures 0.0 <= Cosine(f, a, b) <= 2.0
  {
    hide Mul, Dot, Lengths;
    CosineIs(f, a, b);
    var d, l := Dot(a, b), Lengths(f, a, b);
    if l >= EPSILON {
      CauchySchwarz(a, b);
      LengthsSquared(f, a, b);
      Within(d, l);
    }
  }

  lemma Within(d: real, l: real)
    requires l > 0.0 && Mul(d, d) <= Mul(l, l)
    ensures -1.0 <= d / l <= 1.0
  {
    hide Mul;
    var q := d / l;
    Quotient(d, l);
    if d > l { SquareGrows(l, d); }
    if -d > l { SquareGrows(l, -d); MulSigns(d, d); }
    Ratio(d, l);
  }

  lemma Ratio(d: real, l: real)
    requires l > 0.0 && -l <= d <= l
    ensures -1.0 <= d / l <= 1.0
  {
  }

  /** Scaling a vector by a positive factor does not change the distance, as long as neither product of lengths is negligible. */
  lemma CosineScaled(f: Sqrt, t: real, a: Vec, b: Vec)
    requires |a| == |b| && IsRoot(f) && t > 0.0
    requires Lengths(f, a, b) >= 0.0000000001 && Lengths(f, Scaled(t, a), b) >= 0.0000000001
    ensures Cosine(f, Scaled(t, a), b) == Cosine(f, a, b)
  {
    hide Mul, Dot;
    var a' := Scaled(t, a);
    CosineIs(f, a, b);
    CosineIs(f, a', b);
    DotScaled(t, a, b);
    RootScaled(f, t, a);
    var p, q := f(Dot(a, a)), f(Dot(b, b));
    MulAssociates(t, p, q);
    Cancels(t, Dot(a, b), Lengths(f, a, b));
  }

  lemma RootScaled(f: Sqrt, t: real, a: Vec)
    requires IsRoot(f) && t > 0.0
    ensures f(Dot(Scaled(t, a), Scaled(t, a))) == Mul(t, f(Dot(a, a)))
  {
    hide Mul, Dot;
    SquareScaled(t, a);
    DotPositive(a);
    DotPositive(Scaled(t, a));
    var p := f(Dot(a, a));
    MulMono(t, 0.0, p);
    MulCommutes(t, 0.0);
    MulOne(t);
    MulAssociates(t, p, Mul(t, p));
    MulAssociates(p, t, p);
    MulCommutes(p, t);
    MulAssociates(t, p, p);
    MulAssociates(t, t, Mul(p, p));
    RootIs(f, Dot(Scaled(t, a), Scaled(t, a)), Mul(t, p));
  }

  lemma Cancels(t: real, d: real, l: real)
    requires t > 0.0 && l > 0.0 && Mul(t, l) > 0.0
    ensures Mul(t, d) / Mul(t, l) == d / l
  {
    hide Mul;
    Quotient(d, l);
    MulCommutes(d / l, l);
    MulAssociates(t, l, d / l);
    MulCommutes(Mul(t, l), d / l);
    DivideIs(Mul(t, d), Mul(t, l), d / l);
  }

  // ---- what pins the squared distance -----------------------------------------------------

  /** It adds up over the components, and on one component it is the square of the difference. */
  lemma L2Components(a: Vec, b: Vec, a': Vec, b': Vec, x: real, y: real)
    requires |a| == |b| && |a'| == |b'|
    ensures L2(a + a', b + b') == L2(a, b) + L2(a', b') && L2([x], [y]) == (x - y) * (x - y)
  {
    assert SqDiffs(a + a', b + b') == SqDiffs(a, b) + SqDiffs(a', b');
    SumConcat(SqDiffs(a, b), SqDiffs(a', b'));
    var s := SqDiffs([x], [y]);
    assert |s| == 1 && s[0] == SqDiff([x], [y], 0) && s[..1] == s;
    SumPrefix(s, 0);
    NoTerms(s[..0]);
  }
}
