/** The Leontief inverse B of a nonnegative coefficient matrix A: (I - A) B = I.

    Everything rests on one property of A, `InverseMonotone`: v >= A v forces v >= 0.
    It follows from either of two conditions on A, a column one (column sums below 1) and a
    row one (A x <= rho x for some positive x and rho < 1). */
module Leontief {
  import opened Vectors
  import opened Matrices

  /** What a linear solve of (I - A) B = I returns, entry by entry: B = I + A B. */
  predicate LeontiefInverse(A: Mat, B: Mat)
    requires IsSquare(A)
  {
    Rect(B, |A|, |A|) &&
    forall i, j :: 0 <= i < |A| && 0 <= j < |A| ==> B[i][j] == Delta(i, j) + Dot(A[i], Col(B, j))
  }

  /** The same as a matrix equation. */
  lemma InverseEquation(A: Mat, B: Mat)
    requires IsSquare(A) && Rect(B, |A|, |A|)
    ensures LeontiefInverse(A, B) <==> Mul(IMinus(A), B) == Identity(|A|)
  {
    hide Dot, Sum, IMinus;
    var n, P := |A|, Mul(IMinus(A), B);
    forall i, j | 0 <= i < n && 0 <= j < n ensures P[i][j] == B[i][j] - Dot(A[i], Col(B, j)) {
      IMinusApply(A, Col(B, j), i);
    }
    if LeontiefInverse(A, B) {
      MatExtensional(P, Identity(n), n);
    } else {
      var i, j :| 0 <= i < n && 0 <= j < n && B[i][j] != Delta(i, j) + Dot(A[i], Col(B, j));
      assert P[i][j] != Identity(n)[i][j];
    }
  }

  /** v >= A v, entry by entry. */
  predicate Dominated(A: Mat, v: Vec)
    requires IsSquare(A) && |v| == |A|
  {
    forall i :: 0 <= i < |A| ==> Dot(A[i], v) <= v[i]
  }

  ghost predicate InverseMonotone(A: Mat)
    requires IsSquare(A)
  {
    forall v: Vec :: |v| == |A| && Dominated(A, v) ==> Nonneg(v)
  }

  /** Every column of A sums to at most 1 - v. */
  predicate ColumnContraction(A: Mat, v: real) {
    IsSquare(A) && NonnegMat(A) && v > 0.0 &&
    forall j :: 0 <= j < |A| ==> Sum(Col(A, j)) <= 1.0 - v
  }

  /** A x <= rho x for a positive x. */
  predicate RowContraction(A: Mat, x: Vec, rho: real) {
    IsSquare(A) && NonnegMat(A) && |x| == |A| && Positive(x) && rho < 1.0 &&
    forall i :: 0 <= i < |A| ==> Dot(A[i], x) <= rho * x[i]
  }

  function NegPart(v: Vec): (p: Vec)
    ensures |p| == |v| && Nonneg(p)
    ensures forall i :: 0 <= i < |v| ==> p[i] == if v[i] < 0.0 then -v[i] else 0.0
  {
    seq(|v|, i requires 0 <= i < |v| => if v[i] < 0.0 then -v[i] else 0.0)
  }

  // ---------- the two sufficient conditions ----------

  lemma NegPartGrows(A: Mat, v: Vec, i: nat)
    requires IsSquare(A) && NonnegMat(A) && |v| == |A| && Dominated(A, v) && i < |A|
    ensures NegPart(v)[i] <= Dot(A[i], NegPart(v))
  {
    hide Dot, Sum;
    var p := NegPart(v);
    DotNonneg(A[i], p);
    var minus := seq(|v|, k requires 0 <= k < |v| => -v[k]);
    DotScale(A[i], minus, -1.0, v);
    DotMonotone(A[i], minus, p);
  }

  /** A nonnegative vector loses weight under A when every column sums to at most r. */
  lemma SumShrinks(A: Mat, p: Vec, r: real)
    requires IsSquare(A) && |p| == |A| && Nonneg(p)
    requires forall j :: 0 <= j < |A| ==> Sum(Col(A, j)) <= r
    ensures Sum(Apply(A, p)) <= r * Sum(p)
  {
    hide Dot, Sum;
    var c := Const(|A|, r);
    SumApply(A, p);
    DotSymmetric(ColSums(A), p);
    DotMonotone(p, ColSums(A), c);
    var ones := Const(|A|, 1.0);
    DotScale(p, c, r, ones);
    SumIsDot(p);
    DotSymmetric(p, ones);
  }

  lemma ColumnMonotone(A: Mat, v: real)
    requires ColumnContraction(A, v)
    ensures InverseMonotone(A)
  {
    hide Dot, Sum;
    forall w: Vec | |w| == |A| && Dominated(A, w) ensures Nonneg(w) {
      var p := NegPart(w);
      forall i | 0 <= i < |A| ensures p[i] <= Apply(A, p)[i] {
        NegPartGrows(A, w, i);
      }
      SumMonotone(p, Apply(A, p));
      SumShrinks(A, p, 1.0 - v);
      assert v * Sum(p) <= 0.0;
      forall i | 0 <= i < |w| ensures w[i] >= 0.0 {
        SumTerm(p, i);
      }
    }
  }

  /** The index with the smallest ratio v[i] / x[i]. */
  lemma SmallestRatio(v: Vec, x: Vec) returns (i: nat)
    requires |v| == |x| > 0 && Positive(x)
    ensures i < |v| && forall k :: 0 <= k < |v| ==> v[i] / x[i] <= v[k] / x[k]
  {
    i := 0;
    for k := 1 to |v|
      invariant i < |v| && forall l :: 0 <= l < k ==> v[i] / x[i] <= v[l] / x[l]
    {
      if v[k] / x[k] < v[i] / x[i] {
        i := k;
      }
    }
  }

  lemma RatioToProduct(m: real, a: real, x: real)
    requires x > 0.0 && m <= a / x
    ensures m * x <= a
  {
    assert a == (a / x) * x;
    assert (a / x - m) * x >= 0.0;
  }

  lemma SmallestRatioNonneg(A: Mat, x: Vec, rho: real, w: Vec, i: nat)
    requires RowContraction(A, x, rho) && |w| == |A| && Dominated(A, w) && i < |A|
    requires forall k :: 0 <= k < |w| ==> w[i] / x[i] <= w[k] / x[k]
    ensures w[i] >= 0.0
  {
    hide Dot, Sum;
    var m := w[i] / x[i];
    var mx := seq(|x|, k requires 0 <= k < |x| => m * x[k]);
    forall k | 0 <= k < |x| ensures mx[k] <= w[k] {
      RatioToProduct(m, w[k], x[k]);
    }
    DotMonotone(A[i], mx, w);
    DotScale(A[i], mx, m, x);
    RatioNonneg(w[i], x[i], m, rho, Dot(A[i], x));
  }

  lemma RatioNonneg(w: real, x: real, m: real, rho: real, d: real)
    requires x > 0.0 && m == w / x && rho < 1.0
    requires d <= rho * x && m * d <= w
    ensures w >= 0.0
  {
    assert m * x == w;
    if w < 0.0 {
      assert m < 0.0;
      var gap := rho * x - d;
      assert m * gap <= 0.0;
      assert m * d == m * (rho * x) - m * gap;
      assert m * (rho * x) == rho * (m * x);
      PositiveFactor(1.0 - rho, w);
    }
  }

  lemma PositiveFactor(c: real, w: real)
    requires c > 0.0 && c * w >= 0.0
    ensures w >= 0.0
  {
  }

  lemma RowMonotone(A: Mat, x: Vec, rho: real)
    requires RowContraction(A, x, rho)
    ensures InverseMonotone(A)
  {
    hide Dot, Sum;
    forall w: Vec | |w| == |A| && Dominated(A, w) ensures Nonneg(w) {
      if |w| > 0 {
        var i := SmallestRatio(w, x);
        SmallestRatioNonneg(A, x, rho, w, i);
        forall k | 0 <= k < |w| ensures w[k] >= 0.0 {
          assert w[i] / x[i] >= 0.0;
          RatioToProduct(0.0, w[k], x[k]);
        }
      }
    }
  }

  // ---------- what monotonicity gives ----------

  /** I - A is injective. */
  lemma IMinusInjective(A: Mat, u: Vec, w: Vec)
    requires IsSquare(A) && InverseMonotone(A) && |u| == |w| == |A|
    requires Apply(IMinus(A), u) == Apply(IMinus(A), w)
    ensures u == w
  {
    hide Dot, Sum;
    var d := seq(|A|, i requires 0 <= i < |A| => u[i] - w[i]);
    var e := seq(|A|, i requires 0 <= i < |A| => w[i] - u[i]);
    forall i | 0 <= i < |A| ensures Dot(A[i], d) == d[i] && Dot(A[i], e) == e[i] {
      IMinusApply(A, u, i);
      IMinusApply(A, w, i);
      assert Apply(IMinus(A), u)[i] == Apply(IMinus(A), w)[i];
      DotMinus(A[i], d, u, w);
      DotMinus(A[i], e, w, u);
    }
    assert Dominated(A, d) && Dominated(A, e);
    forall i | 0 <= i < |A| ensures u[i] == w[i] {
      assert d[i] >= 0.0 && e[i] >= 0.0;
    }
  }

  /** B is nonnegative and dominates the identity: no sector's inverse entry is negative and
      each sector needs at least one unit of its own output. */
  lemma InverseNonnegative(A: Mat, B: Mat)
    requires IsSquare(A) && NonnegMat(A) && InverseMonotone(A) && LeontiefInverse(A, B)
    ensures NonnegMat(B)
    ensures forall i, j :: 0 <= i < |A| && 0 <= j < |A| ==> B[i][j] >= Delta(i, j)
  {
    hide Dot, Sum;
    forall i, j | 0 <= i < |A| && 0 <= j < |A| ensures B[i][j] >= Delta(i, j) {
      var c := Col(B, j);
      forall k | 0 <= k < |A| ensures Dot(A[k], c) <= c[k] {
      }
      assert Dominated(A, c);
      DotNonneg(A[i], c);
    }
  }

  /** A right inverse is also a left inverse. */
  lemma InverseTwoSided(A: Mat, B: Mat)
    requires IsSquare(A) && InverseMonotone(A) && LeontiefInverse(A, B)
    ensures Mul(B, IMinus(A)) == Identity(|A|)
  {
    hide Dot, Sum;
    var n, M := |A|, IMinus(A);
    var C := Mul(B, M);
    InverseEquation(A, B);
    MulAssociative(M, B, M);
    MulIdentity(M);
    assert Mul(M, C) == Mul(M, Identity(n));
    forall i, j | 0 <= i < n && 0 <= j < n ensures C[i][j] == Identity(n)[i][j] {
      MulCol(M, C, j);
      MulCol(M, Identity(n), j);
      IMinusInjective(A, Col(C, j), Col(Identity(n), j));
      assert Col(C, j)[i] == Col(Identity(n), j)[i];
    }
    MatExtensional(C, Identity(n), n);
  }

  lemma InverseUnique(A: Mat, B: Mat, B': Mat)
    requires IsSquare(A) && InverseMonotone(A) && LeontiefInverse(A, B) && LeontiefInverse(A, B')
    ensures B == B'
  {
    hide Dot, Sum;
    var n := |A|;
    InverseEquation(A, B);
    InverseEquation(A, B');
    forall i, j | 0 <= i < n && 0 <= j < n ensures B[i][j] == B'[i][j] {
      MulCol(IMinus(A), B, j);
      MulCol(IMinus(A), B', j);
      IMinusInjective(A, Col(B, j), Col(B', j));
      assert Col(B, j)[i] == Col(B', j)[i];
    }
    MatExtensional(B, B', n);
  }

  /** The inverse undoes I - A on every vector. */
  lemma InverseUndoes(A: Mat, B: Mat, x: Vec)
    requires IsSquare(A) && InverseMonotone(A) && LeontiefInverse(A, B) && |x| == |A|
    ensures Apply(B, Apply(IMinus(A), x)) == x
    ensures Apply(IMinus(A), Apply(B, x)) == x
  {
    hide Dot, Sum;
    var n := |A|;
    InverseEquation(A, B);
    InverseTwoSided(A, B);
    MulApply(B, IMinus(A), x);
    MulApply(IMinus(A), B, x);
    forall i | 0 <= i < n ensures Apply(Identity(n), x)[i] == x[i] {
      assert Identity(n)[i] == Unit(n, i);
      DotSymmetric(Unit(n, i), x);
      DotUnit(x, i);
    }
    assert Apply(Identity(n), x) == x;
  }

  lemma StretchDominated(A: Mat, x: Vec, y: Vec, w: Vec, rho: real, i: nat)
    requires RowContraction(A, x, rho) && |y| == |w| == |A| && i < |A|
    requires y[i] - Dot(A[i], y) == x[i]
    requires forall k :: 0 <= k < |A| ==> w[k] == x[k] - (1.0 - rho) * y[k]
    ensures Dot(A[i], w) <= w[i]
  {
    hide Dot, Sum;
    var c := 1.0 - rho;
    var cy := seq(|A|, k requires 0 <= k < |A| => c * y[k]);
    DotMinus(A[i], w, x, cy);
    DotScale(A[i], cy, c, y);
    assert c * y[i] == c * x[i] + c * Dot(A[i], y);
    assert c * x[i] == x[i] - rho * x[i];
  }

  /** B x solves y - A y = x. */
  lemma InverseSolves(A: Mat, B: Mat, x: Vec, i: nat)
    requires IsSquare(A) && InverseMonotone(A) && LeontiefInverse(A, B) && |x| == |A| && i < |A|
    ensures Apply(B, x)[i] - Dot(A[i], Apply(B, x)) == x[i]
  {
    hide Dot, Sum, Mul, IMinus;
    InverseUndoes(A, B, x);
    IMinusApply(A, Apply(B, x), i);
    assert Apply(IMinus(A), Apply(B, x))[i] == x[i];
  }

  /** Under A x <= rho x the inverse stretches x by at most 1 / (1 - rho). */
  lemma InverseBoundsOutput(A: Mat, B: Mat, x: Vec, rho: real)
    requires RowContraction(A, x, rho) && LeontiefInverse(A, B)
    ensures forall i :: 0 <= i < |A| ==> (1.0 - rho) * Apply(B, x)[i] <= x[i]
  {
    hide Dot, Sum, Mul, IMinus, InverseMonotone;
    RowMonotone(A, x, rho);
    var y := Apply(B, x);
    var w := seq(|A|, i requires 0 <= i < |A| => x[i] - (1.0 - rho) * y[i]);
    forall i | 0 <= i < |A| ensures Dot(A[i], w) <= w[i] {
      InverseSolves(A, B, x, i);
      StretchDominated(A, x, y, w, rho, i);
    }
    MonotoneNonneg(A, w);
    forall i | 0 <= i < |A| ensures (1.0 - rho) * y[i] <= x[i] {
      var stretched := (1.0 - rho) * y[i];
      assert w[i] == x[i] - stretched;
    }
  }

  lemma MonotoneNonneg(A: Mat, v: Vec)
    requires IsSquare(A) && InverseMonotone(A) && |v| == |A| && Dominated(A, v)
    ensures Nonneg(v)
  {
  }

  /** Type I output multipliers: the column sums of B. */
  function Multipliers(B: Mat): (m: Vec)
    requires IsSquare(B)
    ensures |m| == |B|
  {
    ColSums(B)
  }

  lemma MultipliersAtLeastOne(A: Mat, B: Mat)
    requires IsSquare(A) && NonnegMat(A) && InverseMonotone(A) && LeontiefInverse(A, B)
    ensures forall j :: 0 <= j < |A| ==> Multipliers(B)[j] >= 1.0
  {
    hide Dot, Sum;
    InverseNonnegative(A, B);
    forall j | 0 <= j < |A| ensures Multipliers(B)[j] >= 1.0 {
      SumTerm(Col(B, j), j);
    }
  }

  /** Value added per unit of output: 1 minus the column sum. */
  function ValueAdded(A: Mat): (va: Vec)
    requires IsSquare(A)
    ensures |va| == |A| && forall j :: 0 <= j < |A| ==> va[j] == 1.0 - Sum(Col(A, j))
  {
    seq(|A|, j requires 0 <= j < |A| => 1.0 - Sum(Col(A, j)))
  }

  /** The value added embodied in one unit of final demand for any sector is exactly 1. */
  lemma ValueAddedIdentity(A: Mat, B: Mat, j: nat)
    requires IsSquare(A) && LeontiefInverse(A, B) && j < |A|
    ensures Dot(ValueAdded(A), Col(B, j)) == 1.0
  {
    hide Dot, Sum;
    var n, b := |A|, Col(B, j);
    var ones, cs, va := Const(n, 1.0), ColSums(A), ValueAdded(A);
    DotMinus(b, va, ones, cs);
    DotSymmetric(b, va); DotSymmetric(b, ones); DotSymmetric(b, cs);
    SumIsDot(b);
    SumApply(A, b);
    forall i | 0 <= i < n ensures b[i] == Unit(n, j)[i] + 1.0 * Apply(A, b)[i] {
    }
    SumLinear(b, Unit(n, j), 1.0, Apply(A, b));
    SumIsDot(Unit(n, j));
    DotUnit(ones, j);
  }

  lemma WeightedByValueAdded(b: Vec, va: Vec, v: real)
    requires |b| == |va| && Nonneg(b) && Dot(va, b) == 1.0
    requires forall k :: 0 <= k < |va| ==> va[k] >= v
    ensures v * Sum(b) <= 1.0
  {
    hide Dot, Sum;
    var ones := Const(|b|, 1.0);
    DotSymmetric(va, b);
    DotMonotone(b, Const(|b|, v), va);
    DotScale(b, Const(|b|, v), v, ones);
    DotSymmetric(b, ones);
    SumIsDot(b);
  }

  /** Every multiplier is at most 1 over the smallest value-added ratio. */
  lemma MultipliersBounded(A: Mat, B: Mat, v: real)
    requires ColumnContraction(A, v) && LeontiefInverse(A, B)
    ensures forall j :: 0 <= j < |A| ==> 1.0 <= Multipliers(B)[j] <= 1.0 / v
  {
    hide Dot, Sum, Mul, IMinus;
    ColumnMonotone(A, v);
    MultipliersAtLeastOne(A, B);
    InverseNonnegative(A, B);
    forall j | 0 <= j < |A| ensures Sum(Col(B, j)) <= 1.0 / v {
      ValueAddedIdentity(A, B, j);
      WeightedByValueAdded(Col(B, j), ValueAdded(A), v);
    }
  }
}
