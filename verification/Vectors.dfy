/** Dot products over the reals, and the cosine similarity built on them. */
module Vectors {

  type Vector = seq<real>

  /** The dot product of the first `n` coordinates. */
  function Dot(a: Vector, b: Vector, n: nat): real
    requires n <= |a| && n <= |b|
  {
    if n == 0 then 0.0 else Dot(a, b, n - 1) + a[n-1] * b[n-1]
  }

  /** `math.Sqrt` on non-negative reals, rounding aside. */
  ghost predicate IsSquareRoot(sqrt: real -> real) {
    forall x: real :: x >= 0.0 ==> sqrt(x) >= 0.0 && sqrt(x) * sqrt(x) == x
  }

  function Cosine(a: Vector, b: Vector, sqrt: real -> real): real
    requires IsSquareRoot(sqrt)
  {
    if |a| != |b| || |a| == 0 then 0.0
    else
      var na, nb := Dot(a, a, |a|), Dot(b, b, |b|);
      if na == 0.0 || nb == 0.0 then 0.0
      else
        NormPositive(a, b, sqrt);
        var norm := sqrt(na) * sqrt(nb);
        Dot(a, b, |a|) / norm
  }

  method CosineSimilarity(a: Vector, b: Vector, sqrt: real -> real) returns (r: real)
    requires IsSquareRoot(sqrt)
    ensures r == Cosine(a, b, sqrt)
  {
    if |a| != |b| || |a| == 0 { return 0.0; }
    var dot, na, nb := 0.0, 0.0, 0.0;
    for i := 0 to |a|
      invariant dot == Dot(a, b, i) && na == Dot(a, a, i) && nb == Dot(b, b, i)
    {
      dot := dot + a[i] * b[i];
      na := na + a[i] * a[i];
      nb := nb + b[i] * b[i];
    }
    assert nb == Dot(b, b, |b|);
    if na == 0.0 || nb == 0.0 { return 0.0; }
    NormPositive(a, b, sqrt);
    var norm := sqrt(na) * sqrt(nb);
    assert norm == sqrt(Dot(a, a, |a|)) * sqrt(Dot(b, b, |b|)) > 0.0;
    r := dot / norm;
  }

  lemma {:induction false} DotSelfNonNegative(a: Vector, n: nat)
    requires n <= |a|
    ensures Dot(a, a, n) >= 0.0
  {
    if n > 0 {
      DotSelfNonNegative(a, n - 1);
      SquareNonNegative(a[n-1]);
    }
  }

  lemma SquareNonNegative(x: real)
    ensures x * x >= 0.0
  {
    if x < 0.0 { assert x * x == (-x) * (-x); }
  }

  lemma NormPositive(a: Vector, b: Vector, sqrt: real -> real)
    requires IsSquareRoot(sqrt) && Dot(a, a, |a|) != 0.0 && Dot(b, b, |b|) != 0.0
    ensures sqrt(Dot(a, a, |a|)) * sqrt(Dot(b, b, |b|)) > 0.0
  {
    DotSelfNonNegative(a, |a|);
    DotSelfNonNegative(b, |b|);
    var x, y := sqrt(Dot(a, a, |a|)), sqrt(Dot(b, b, |b|));
    assert x > 0.0 && y > 0.0;
    MulPositive(x, y);
  }

  lemma MulPositive(x: real, y: real)
    requires x > 0.0 && y > 0.0
    ensures x * y > 0.0
  {}

  /** The squared length of s*a - t*b, first summed, then expanded. */
  function Combination(a: Vector, b: Vector, s: real, t: real, n: nat): real
    requires n <= |a| && n <= |b|
  {
    if n == 0 then 0.0
    else Combination(a, b, s, t, n - 1) + (s * a[n-1] - t * b[n-1]) * (s * a[n-1] - t * b[n-1])
  }

  function Expanded(s: real, t: real, aa: real, ab: real, bb: real): real {
    s * s * aa - 2.0 * s * t * ab + t * t * bb
  }

  lemma ExpandStep(s: real, t: real, aa: real, ab: real, bb: real, x: real, y: real)
    ensures Expanded(s, t, aa, ab, bb) + (s * x - t * y) * (s * x - t * y)
         == Expanded(s, t, aa + x * x, ab + x * y, bb + y * y)
  {
    var xx, xy, yy := x * x, x * y, y * y;
    assert (s * x) * (s * x) == s * s * xx;
    assert (s * x) * (t * y) == s * t * xy;
    assert (t * y) * (t * y) == t * t * yy;
    assert s * s * (aa + xx) == s * s * aa + s * s * xx;
    assert s * t * (ab + xy) == s * t * ab + s * t * xy;
    assert t * t * (bb + yy) == t * t * bb + t * t * yy;
  }

  lemma {:induction false} CombinationExpands(a: Vector, b: Vector, s: real, t: real, n: nat)
    requires n <= |a| && n <= |b|
    ensures Combination(a, b, s, t, n) == Expanded(s, t, Dot(a, a, n), Dot(a, b, n), Dot(b, b, n)) >= 0.0
  {
    if n > 0 {
      CombinationExpands(a, b, s, t, n - 1);
      ExpandStep(s, t, Dot(a, a, n-1), Dot(a, b, n-1), Dot(b, b, n-1), a[n-1], b[n-1]);
      SquareNonNegative(s * a[n-1] - t * b[n-1]);
    }
  }

  lemma CauchySchwarz(a: Vector, b: Vector, n: nat)
    requires n <= |a| && n <= |b|
    ensures Dot(a, b, n) * Dot(a, b, n) <= Dot(a, a, n) * Dot(b, b, n)
  {
    DotSelfNonNegative(b, n);
    forall s, t ensures Expanded(s, t, Dot(a, a, n), Dot(a, b, n), Dot(b, b, n)) >= 0.0 {
      CombinationExpands(a, b, s, t, n);
    }
    NonNegativeForm(Dot(a, a, n), Dot(a, b, n), Dot(b, b, n));
  }

  /** A quadratic form that is nowhere negative has no positive discriminant. */
  lemma NonNegativeForm(aa: real, ab: real, bb: real)
    requires bb >= 0.0 && forall s, t :: Expanded(s, t, aa, ab, bb) >= 0.0
    ensures ab * ab <= aa * bb
  {
    if bb > 0.0 {
      assert Expanded(bb, ab, aa, ab, bb) >= 0.0;
      FootBound(aa, ab, bb);
    } else {
      assert Expanded(ab, (aa + 1.0) / 2.0, aa, ab, 0.0) >= 0.0;
      DegenerateBound(aa, ab, (aa + 1.0) / 2.0);
      assert aa * 0.0 == 0.0;
    }
  }

  lemma FootBound(aa: real, ab: real, bb: real)
    requires bb > 0.0 && Expanded(bb, ab, aa, ab, bb) >= 0.0
    ensures ab * ab <= aa * bb
  {
    ExpandAtFoot(aa, ab, bb);
    CancelPositive(bb, aa * bb - ab * ab);
  }

  lemma DegenerateBound(aa: real, ab: real, t: real)
    requires 2.0 * t == aa + 1.0 && Expanded(ab, t, aa, ab, 0.0) >= 0.0
    ensures ab * ab <= 0.0
  {
    ExpandDegenerate(aa, ab, t);
  }

  lemma ExpandAtFoot(aa: real, ab: real, bb: real)
    ensures Expanded(bb, ab, aa, ab, bb) == bb * (aa * bb - ab * ab)
  {
    assert bb * bb * aa == bb * (aa * bb);
    assert 2.0 * bb * ab * ab == 2.0 * (bb * (ab * ab));
    assert ab * ab * bb == bb * (ab * ab);
  }

  lemma ExpandDegenerate(aa: real, ab: real, t: real)
    requires 2.0 * t == aa + 1.0
    ensures Expanded(ab, t, aa, ab, 0.0) == -(ab * ab)
  {
    var q := ab * ab;
    assert 2.0 * ab * t * ab == (2.0 * t) * q;
    assert (aa + 1.0) * q == aa * q + q;
    assert ab * ab * aa == aa * q;
  }

  lemma CancelPositive(x: real, y: real)
    requires x > 0.0 && x * y >= 0.0
    ensures y >= 0.0
  {
    if y < 0.0 { MulPositive(x, -y); }
  }

  lemma SquareMonotone(x: real, y: real)
    requires y >= 0.0 && x * x <= y * y
    ensures -y <= x <= y
  {
    assert x * x - y * y == (x - y) * (x + y) == (-x - y) * (-x + y);
    if x > y { MulPositive(x - y, x + y); }
    if x < -y { MulPositive(-x - y, -x + y); }
  }

  lemma ProductOfRoots(x: real, y: real, na: real, nb: real)
    requires x * x == na && y * y == nb
    ensures (x * y) * (x * y) == na * nb
  {
    assert (x * y) * (x * y) == (x * x) * (y * y);
  }

  lemma CosineIs(a: Vector, b: Vector, sqrt: real -> real)
    requires IsSquareRoot(sqrt) && |a| == |b| && |a| != 0 && Dot(a, a, |a|) != 0.0 && Dot(b, b, |b|) != 0.0
    ensures var p := sqrt(Dot(a, a, |a|)) * sqrt(Dot(b, b, |b|));
            p > 0.0 && Cosine(a, b, sqrt) == Dot(a, b, |a|) / p
  {
    hide Dot;
    NormPositive(a, b, sqrt);
  }

  /** Every similarity lies in [-1, 1]. */
  lemma CosineBounded(a: Vector, b: Vector, sqrt: real -> real)
    requires IsSquareRoot(sqrt)
    ensures -1.0 <= Cosine(a, b, sqrt) <= 1.0
  {
    hide Dot;
    if |a| == |b| && |a| != 0 && Dot(a, a, |a|) != 0.0 && Dot(b, b, |b|) != 0.0 {
      var na, nb, d := Dot(a, a, |a|), Dot(b, b, |b|), Dot(a, b, |a|);
      DotSelfNonNegative(a, |a|);
      DotSelfNonNegative(b, |b|);
      CosineIs(a, b, sqrt);
      CauchySchwarz(a, b, |a|);
      ProductOfRoots(sqrt(na), sqrt(nb), na, nb);
      SquareMonotone(d, sqrt(na) * sqrt(nb));
      QuotientBounded(d, sqrt(na) * sqrt(nb));
    }
  }

  lemma QuotientBounded(d: real, p: real)
    requires p > 0.0 && -p <= d <= p
    ensures -1.0 <= d / p <= 1.0
  {
    assert d == (d / p) * p;
    var q := d / p;
    if q > 1.0 { MulPositive(q - 1.0, p); }
    if q < -1.0 { MulPositive(-1.0 - q, p); }
  }

  // ----- what a similarity says -----

  /** The similarity without square roots: its square times both squared norms is the
      squared dot product, and it has the sign of the dot product. */
  lemma CosineSquared(a: Vector, b: Vector, sqrt: real -> real)
    requires IsSquareRoot(sqrt) && |a| == |b|
    ensures var c, d, na, nb := Cosine(a, b, sqrt), Dot(a, b, |a|), Dot(a, a, |a|), Dot(b, b, |b|);
            if na == 0.0 || nb == 0.0 then c == 0.0
            else (c * c) * (na * nb) == d * d && (c > 0.0 <==> d > 0.0) && (c < 0.0 <==> d < 0.0)
  {
    hide Dot;
    if |a| != 0 && Dot(a, a, |a|) != 0.0 && Dot(b, b, |b|) != 0.0 {
      var na, nb, d := Dot(a, a, |a|), Dot(b, b, |b|), Dot(a, b, |a|);
      DotSelfNonNegative(a, |a|);
      DotSelfNonNegative(b, |b|);
      CosineIs(a, b, sqrt);
      ProductOfRoots(sqrt(na), sqrt(nb), na, nb);
      QuotientSquared(d, sqrt(na) * sqrt(nb));
    } else {
      EmptyDot(a, b);
    }
  }

  lemma EmptyDot(a: Vector, b: Vector)
    requires |a| == |b|
    ensures |a| == 0 ==> Dot(a, a, |a|) == 0.0
  {}

  lemma QuotientSquared(d: real, p: real)
    requires p > 0.0
    ensures ((d / p) * (d / p)) * (p * p) == d * d
    ensures (d / p > 0.0 <==> d > 0.0) && (d / p < 0.0 <==> d < 0.0)
  {
    var q := d / p;
    assert q * p == d;
    assert (q * q) * (p * p) == (q * p) * (q * p);
    if q > 0.0 {
      MulPositive(q, p);
    } else if q < 0.0 {
      MulPositive(-q, p);
      assert (-q) * p == -(q * p);
    }
  }

  /** `b` is `a` stretched by `t`. */
  predicate Stretched(a: Vector, b: Vector, t: real) {
    |a| == |b| && forall i :: 0 <= i < |a| ==> b[i] == t * a[i]
  }

  lemma {:induction false} StretchedDots(a: Vector, b: Vector, t: real, n: nat)
    requires Stretched(a, b, t) && n <= |a|
    ensures Dot(a, b, n) == t * Dot(a, a, n) && Dot(b, b, n) == (t * t) * Dot(a, a, n)
  {
    if n > 0 {
      StretchedDots(a, b, t, n - 1);
      var x := a[n-1];
      StretchOne(t, x, Dot(a, a, n - 1));
    }
  }

  lemma StretchOne(t: real, x: real, before: real)
    ensures t * before + x * (t * x) == t * (before + x * x)
    ensures (t * t) * before + (t * x) * (t * x) == (t * t) * (before + x * x)
  {
    assert x * (t * x) == t * (x * x) && (t * x) * (t * x) == (t * t) * (x * x);
  }

  function Square(x: real): real { x * x }

  lemma ProductIsPositive(x: real, y: real, p: real)
    requires x > 0.0 && y > 0.0 && p == x * y
    ensures p > 0.0
  {}

  lemma SquareIsPositive(x: real)
    requires x != 0.0
    ensures Square(x) > 0.0
  {
    if x > 0.0 { ProductIsPositive(x, x, Square(x)); } else { ProductIsPositive(-x, -x, Square(x)); }
  }

  lemma NoDifference(before: real, x: real, y: real)
    requires before >= 0.0 && before + (x - y) * (x - y) == 0.0
    ensures before == 0.0 && x == y
  {
    assert before + Square(x - y) == 0.0;
    if x != y { SquareIsPositive(x - y); }
  }

  lemma {:induction false} NoLength(a: Vector, b: Vector, s: real, t: real, n: nat)
    requires n <= |a| && n <= |b| && Combination(a, b, s, t, n) == 0.0
    ensures forall i :: 0 <= i < n ==> s * a[i] == t * b[i]
  {
    if n > 0 {
      CombinationExpands(a, b, s, t, n - 1);
      NoDifference(Combination(a, b, s, t, n - 1), s * a[n-1], t * b[n-1]);
      NoLength(a, b, s, t, n - 1);
    }
  }

  /** The similarity is 1 exactly for vectors that point the same way. */
  lemma SameDirectionExactly(a: Vector, b: Vector, sqrt: real -> real)
    requires IsSquareRoot(sqrt) && |a| == |b|
    ensures Cosine(a, b, sqrt) == 1.0 <==> Dot(a, a, |a|) != 0.0 && exists t :: t > 0.0 && Stretched(a, b, t)
  {
    hide Dot;
    CosineSquared(a, b, sqrt);
    var c, d, na, nb := Cosine(a, b, sqrt), Dot(a, b, |a|), Dot(a, a, |a|), Dot(b, b, |b|);
    if c == 1.0 {
      DotSelfNonNegative(b, |b|);
      assert (c * c) * (na * nb) == na * nb;
      NothingLeft(na, d, nb);
      CombinationExpands(a, b, nb, d, |a|);
      NoLength(a, b, nb, d, |a|);
      StretchBy(a, b, nb, d);
    }
    if na != 0.0 {
      if t :| t > 0.0 && Stretched(a, b, t) {
        StretchedDots(a, b, t, |a|);
        DotSelfNonNegative(a, |a|);
        assert nb > 0.0 && d > 0.0 by {
          MulPositive(t, t);
          MulPositive(t * t, na);
          MulPositive(t, na);
        }
        StretchedProduct(d, na, nb, t);
        UnitCosine(c, d, na, nb);
      }
    }
  }

  lemma NothingLeft(aa: real, ab: real, bb: real)
    requires aa * bb == ab * ab
    ensures Expanded(bb, ab, aa, ab, bb) == 0.0
  {
    ExpandAtFoot(aa, ab, bb);
    assert bb * (aa * bb - ab * ab) == 0.0;
  }

  lemma StretchBy(a: Vector, b: Vector, s: real, t: real)
    requires s > 0.0 && t > 0.0 && |a| == |b| && forall i :: 0 <= i < |a| ==> s * a[i] == t * b[i]
    ensures s / t > 0.0 && Stretched(a, b, s / t)
  {
    var q := s / t;
    assert q * t == s;
    forall i | 0 <= i < |a| ensures b[i] == q * a[i] {
      assert t * (q * a[i]) == (q * t) * a[i] == t * b[i];
      SameFactor(t, q * a[i], b[i]);
    }
    QuotientSquared(s, t);
  }

  lemma SameFactor(t: real, x: real, y: real)
    requires t > 0.0 && t * x == t * y
    ensures x == y
  {
    assert t * (x - y) == 0.0;
  }

  lemma StretchedProduct(d: real, na: real, nb: real, t: real)
    requires nb == (t * t) * na && d == t * na
    ensures na * nb == d * d
  {}

  lemma UnitCosine(c: real, d: real, na: real, nb: real)
    requires na > 0.0 && nb > 0.0 && c > 0.0 && (c * c) * (na * nb) == d * d && na * nb == d * d
    ensures c == 1.0
  {
    MulPositive(na, nb);
    SameProduct(c * c, na * nb, d * d);
    UnitSquare(c, c * c, na * nb);
  }

  lemma SameProduct(q: real, p: real, e: real)
    requires q * p == e && p == e
    ensures q * p == p
  {}

  lemma UnitSquare(c: real, q: real, p: real)
    requires p > 0.0 && q * p == p && q == c * c && c > 0.0
    ensures c == 1.0
  {
    assert q == 1.0 by {
      assert p * q == p * 1.0;
      SameFactor(p, q, 1.0);
    }
    assert (c + 1.0) * (c - 1.0) == (c + 1.0) * 0.0;
    SameFactor(c + 1.0, c - 1.0, 0.0);
  }
}
