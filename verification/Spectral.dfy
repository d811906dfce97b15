/** Powers of A, the Neumann series of its inverse and the spectral radius, when every column of A
    sums to at most 1 - v. */
module Spectral {
  import opened Vectors
  import opened Matrices
  import opened Leontief

  function Pow(r: real, k: nat): real {
    if k == 0 then 1.0 else r * Pow(r, k - 1)
  }

  function Power(A: Mat, k: nat): (P: Mat)
    requires IsSquare(A)
    ensures Rect(P, |A|, |A|)
  {
    if k == 0 then Identity(|A|) else Mul(A, Power(A, k - 1))
  }

  /** I + A + ... + A^k */
  function Neumann(A: Mat, k: nat): (S: Mat)
    requires IsSquare(A)
    ensures Rect(S, |A|, |A|)
  {
    if k == 0 then Identity(|A|) else AddMat(Neumann(A, k - 1), Power(A, k))
  }

  lemma {:induction false} PowNonneg(r: real, k: nat)
    requires r >= 0.0
    ensures Pow(r, k) >= 0.0
  {
    if k > 0 {
      PowNonneg(r, k - 1);
    }
  }

  lemma ContractionFactor(A: Mat, v: real)
    requires ColumnContraction(A, v) && |A| > 0
    ensures 0.0 <= 1.0 - v < 1.0
  {
    hide Dot, Sum;
    SumTerm(Col(A, 0), 0);
  }

  /** One application of A shrinks a nonnegative column: it stays nonnegative and its sum falls
      by the factor 1 - v. */
  lemma ColumnShrinks(A: Mat, v: real, p: Vec, bound: real)
    requires ColumnContraction(A, v) && |A| == |p| > 0 && Nonneg(p) && Sum(p) <= bound
    ensures Nonneg(Apply(A, p)) && Sum(Apply(A, p)) <= (1.0 - v) * bound
  {
    hide Dot, Sum;
    ContractionFactor(A, v);
    forall i | 0 <= i < |A| ensures Apply(A, p)[i] >= 0.0 {
      DotNonneg(A[i], p);
    }
    SumShrinks(A, p, 1.0 - v);
    ScaleLe(1.0 - v, Sum(p), bound);
  }

  /** The columns of A^k sum to at most (1 - v)^k. */
  lemma {:induction false} PowerColumnSums(A: Mat, v: real, k: nat, j: nat)
    requires ColumnContraction(A, v) && j < |A|
    ensures Nonneg(Col(Power(A, k), j)) && Sum(Col(Power(A, k), j)) <= Pow(1.0 - v, k)
  {
    hide Dot, Sum, Mul;
    if k == 0 {
      var e := Unit(|A|, j);
      assert Col(Identity(|A|), j) == e;
      SumIsDot(e);
      DotUnit(Const(|A|, 1.0), j);
    } else {
      PowerColumnSums(A, v, k - 1, j);
      ColumnShrinks(A, v, Col(Power(A, k - 1), j), Pow(1.0 - v, k - 1));
      MulCol(A, Power(A, k - 1), j);
    }
  }

  lemma NeumannEntry(A: Mat, k: nat, i: nat, j: nat)
    requires IsSquare(A) && i < |A| && j < |A| && k > 0
    ensures Neumann(A, k)[i][j] == Neumann(A, k - 1)[i][j] + Power(A, k)[i][j]
  {
    hide Power;
  }

  lemma NeumannLast(A: Mat, k: nat, i: nat, j: nat)
    requires IsSquare(A) && i < |A| && j < |A|
    ensures Neumann(A, k + 1)[i][j] == Neumann(A, k)[i][j] + Dot(A[i], Col(Power(A, k), j))
  {
    hide Dot, Sum;
  }

  /** Column j of I + A + ... + A^(k+1) is e_j plus A applied to column j of the shorter series. */
  lemma {:induction false} NeumannHorner(A: Mat, k: nat, i: nat, j: nat)
    requires IsSquare(A) && i < |A| && j < |A|
    ensures Neumann(A, k + 1)[i][j] == Delta(i, j) + Dot(A[i], Col(Neumann(A, k), j))
    decreases k, 1
  {
    NeumannLast(A, k, i, j);
    if k > 0 {
      NeumannHornerStep(A, k, i, j);
    }
  }

  lemma {:induction false} NeumannHornerStep(A: Mat, k: nat, i: nat, j: nat)
    requires IsSquare(A) && i < |A| && j < |A| && k > 0
    ensures Neumann(A, k)[i][j] + Dot(A[i], Col(Power(A, k), j))
         == Delta(i, j) + Dot(A[i], Col(Neumann(A, k), j))
    decreases k, 0
  {
    hide Dot, Sum, Power, Neumann;
    NeumannHorner(A, k - 1, i, j);
    var s, s', p := Col(Neumann(A, k), j), Col(Neumann(A, k - 1), j), Col(Power(A, k), j);
    forall l | 0 <= l < |A| ensures s[l] == s'[l] + 1.0 * p[l] {
      NeumannEntry(A, k, l, j);
    }
    DotLinear(A[i], s, s', 1.0, p);
  }

  /** What the inverse has beyond the first k + 1 terms of its series. */
  function Remainder(A: Mat, B: Mat, k: nat): (R: Mat)
    requires IsSquare(A) && Rect(B, |A|, |A|)
    ensures Rect(R, |A|, |A|)
  {
    SubMat(B, Neumann(A, k))
  }

  lemma RemainderColumn(A: Mat, B: Mat, k: nat, j: nat)
    requires IsSquare(A) && LeontiefInverse(A, B) && j < |A|
    ensures Col(Remainder(A, B, k), j) ==
      Apply(A, if k == 0 then Col(B, j) else Col(Remainder(A, B, k - 1), j))
  {
    hide Dot, Sum, Mul, Neumann;
    var c := if k == 0 then Col(B, j) else Col(Remainder(A, B, k - 1), j);
    forall i | 0 <= i < |A| ensures Remainder(A, B, k)[i][j] == Dot(A[i], c) {
      RemainderEntry(A, B, k, i, j);
    }
  }

  lemma RemainderEntry(A: Mat, B: Mat, k: nat, i: nat, j: nat)
    requires IsSquare(A) && LeontiefInverse(A, B) && i < |A| && j < |A|
    ensures Remainder(A, B, k)[i][j] ==
      Dot(A[i], if k == 0 then Col(B, j) else Col(Remainder(A, B, k - 1), j))
  {
    hide Dot, Sum;
    if k > 0 {
      NeumannHorner(A, k - 1, i, j);
      DotMinus(A[i], Col(Remainder(A, B, k - 1), j), Col(B, j), Col(Neumann(A, k - 1), j));
    }
  }

  lemma InverseColumnSum(A: Mat, B: Mat, v: real, j: nat)
    requires ColumnContraction(A, v) && LeontiefInverse(A, B) && j < |A|
    ensures Nonneg(Col(B, j)) && Sum(Col(B, j)) <= 1.0 / v
  {
    hide Dot, Sum, Mul;
    ColumnMonotone(A, v);
    InverseNonnegative(A, B);
    MultipliersBounded(A, B, v);
    assert Multipliers(B)[j] <= 1.0 / v;
  }

  lemma QuotientStep(c: real, a: real, v: real)
    requires v != 0.0
    ensures c * (a / v) == c * a / v
  {
  }

  /** B - (I + A + ... + A^k) is nonnegative and its columns sum to at most (1 - v)^(k+1) / v:
      the series converges to the inverse geometrically, from below. */
  lemma {:induction false} NeumannConverges(A: Mat, B: Mat, v: real, k: nat, j: nat)
    requires ColumnContraction(A, v) && LeontiefInverse(A, B) && j < |A|
    ensures Nonneg(Col(Remainder(A, B, k), j))
    ensures Sum(Col(Remainder(A, B, k), j)) <= Pow(1.0 - v, k + 1) / v
  {
    hide Dot, Sum, Mul, Remainder, Neumann, Power;
    QuotientStep(1.0 - v, Pow(1.0 - v, k), v);
    if k == 0 {
      InverseColumnSum(A, B, v, j);
      ColumnShrinks(A, v, Col(B, j), Pow(1.0 - v, k) / v);
    } else {
      NeumannConverges(A, B, v, k - 1, j);
      ColumnShrinks(A, v, Col(Remainder(A, B, k - 1), j), Pow(1.0 - v, k) / v);
    }
    RemainderColumn(A, B, k, j);
  }

  // ---------- eigenvalues ----------

  datatype Complex = Complex(re: real, im: real) {
    /** The square of the modulus. */
    function SquaredModulus(): real {
      Square(re) + Square(im)
    }
  }

  /** A (u + i w) = lam (u + i w), in real and imaginary parts. */
  predicate Rotates(A: Mat, lam: Complex, u: Vec, w: Vec) {
    IsSquare(A) && |u| == |w| == |A| &&
    (forall i :: 0 <= i < |A| ==> Dot(A[i], u) == lam.re * u[i] - lam.im * w[i]) &&
    (forall i :: 0 <= i < |A| ==> Dot(A[i], w) == lam.im * u[i] + lam.re * w[i])
  }

  /** u + i w is an eigenvector of A for lam. */
  predicate Eigenpair(A: Mat, lam: Complex, u: Vec, w: Vec) {
    Rotates(A, lam, u, w) && exists i :: 0 <= i < |u| && (u[i] != 0.0 || w[i] != 0.0)
  }

  ghost predicate Eigenvalue(A: Mat, lam: Complex) {
    exists u: Vec, w: Vec :: Eigenpair(A, lam, u, w)
  }

  /** |u[i]| + |w[i]| */
  function Size(u: Vec, w: Vec): (s: Vec)
    requires |u| == |w|
    ensures |s| == |u| && forall i :: 0 <= i < |u| ==> s[i] == Abs(u[i]) + Abs(w[i])
  {
    seq(|u|, i requires 0 <= i < |u| => Abs(u[i]) + Abs(w[i]))
  }

  /** u[i]^2 + w[i]^2 */
  function Energy(u: Vec, w: Vec): (s: Vec)
    requires |u| == |w|
    ensures |s| == |u| && forall i :: 0 <= i < |u| ==> s[i] == Square(u[i]) + Square(w[i])
  {
    seq(|u|, i requires 0 <= i < |u| => Square(u[i]) + Square(w[i]))
  }

  lemma SizeOfImage(row: Vec, u: Vec, w: Vec)
    requires |row| == |u| == |w| && Nonneg(row)
    ensures Abs(Dot(row, u)) + Abs(Dot(row, w)) <= Dot(row, Size(u, w))
  {
    hide Dot;
    DotAbs(row, u);
    DotAbs(row, w);
    assert forall k :: 0 <= k < |u| ==> Size(u, w)[k] == AbsVec(u)[k] + 1.0 * AbsVec(w)[k];
    DotLinear(row, Size(u, w), AbsVec(u), 1.0, AbsVec(w));
  }

  lemma SizeShrinks(A: Mat, v: real, u: Vec, w: Vec)
    requires ColumnContraction(A, v) && |u| == |w| == |A|
    ensures Sum(Size(Apply(A, u), Apply(A, w))) <= (1.0 - v) * Sum(Size(u, w))
  {
    hide Dot, Sum;
    var s := Size(u, w);
    forall i | 0 <= i < |A| ensures Size(Apply(A, u), Apply(A, w))[i] <= Apply(A, s)[i] {
      SizeOfImage(A[i], u, w);
    }
    SumMonotone(Size(Apply(A, u), Apply(A, w)), Apply(A, s));
    SumShrinks(A, s, 1.0 - v);
  }

  lemma EnergyOfEntry(a: real, b: real, total: real)
    requires Abs(a) + Abs(b) <= total
    ensures Square(a) + Square(b) <= total * (Abs(a) + Abs(b))
  {
    var s := Abs(a) + Abs(b);
    ScaleLe(s, s, total);
    assert Square(a) == Abs(a) * Abs(a) && Square(b) == Abs(b) * Abs(b);
    assert Abs(a) * Abs(b) >= 0.0;
    assert s * s == Abs(a) * Abs(a) + 2.0 * (Abs(a) * Abs(b)) + Abs(b) * Abs(b);
  }

  lemma EnergyBelowSquaredSize(u: Vec, w: Vec)
    requires |u| == |w|
    ensures Sum(Energy(u, w)) <= Square(Sum(Size(u, w)))
  {
    hide Dot, Sum, Square, Abs;
    var s := Size(u, w);
    var total := Sum(s);
    var bound := seq(|u|, i requires 0 <= i < |u| => total * s[i]);
    forall i | 0 <= i < |u| ensures Energy(u, w)[i] <= bound[i] {
      SizeTerm(u, w, i);
      EnergyOfEntry(u[i], w[i], total);
    }
    SumMonotone(Energy(u, w), bound);
    SumScale(bound, total, s);
    SquareOf(total);
  }

  lemma SizeTerm(u: Vec, w: Vec, i: nat)
    requires |u| == |w| && i < |u|
    ensures 0.0 <= Size(u, w)[i] <= Sum(Size(u, w))
  {
    hide Dot, Sum;
    SumTerm(Size(u, w), i);
  }

  lemma SquareOf(a: real)
    ensures Square(a) == a * a
  {
  }

  lemma RotatedEntry(lam: Complex, a: real, b: real, a': real, b': real, e: real)
    requires a' == lam.re * a - lam.im * b && b' == lam.im * a + lam.re * b
    requires e == Square(a) + Square(b)
    ensures Square(a') + Square(b') == lam.SquaredModulus() * e
  {
    var p, q, r, s := lam.re * a, lam.im * b, lam.im * a, lam.re * b;
    assert p * q == r * s;
    assert (p - q) * (p - q) == p * p - 2.0 * (p * q) + q * q;
    assert (r + s) * (r + s) == r * r + 2.0 * (r * s) + s * s;
    assert p * p == lam.re * lam.re * (a * a) && q * q == lam.im * lam.im * (b * b);
    assert r * r == lam.im * lam.im * (a * a) && s * s == lam.re * lam.re * (b * b);
  }

  /** Applying A multiplies the energy of an eigenvector by the squared modulus, and the image is
      again an eigenvector (or zero). */
  lemma EnergyScales(A: Mat, lam: Complex, u: Vec, w: Vec)
    requires Rotates(A, lam, u, w)
    ensures Sum(Energy(Apply(A, u), Apply(A, w))) == lam.SquaredModulus() * Sum(Energy(u, w))
  {
    hide Dot, Sum, Square, Complex.SquaredModulus;
    forall i | 0 <= i < |A|
      ensures Energy(Apply(A, u), Apply(A, w))[i] == lam.SquaredModulus() * Energy(u, w)[i]
    {
      RotatedEntry(lam, u[i], w[i], Apply(A, u)[i], Apply(A, w)[i], Energy(u, w)[i]);
    }
    SumScale(Energy(Apply(A, u), Apply(A, w)), lam.SquaredModulus(), Energy(u, w));
  }

  /** row.(a u + b w) = a (row.u) + b (row.w) */
  lemma DotCombination(row: Vec, t: Vec, a: real, u: Vec, b: real, w: Vec)
    requires |row| == |t| == |u| == |w|
    requires forall i :: 0 <= i < |row| ==> t[i] == a * u[i] + b * w[i]
    ensures Dot(row, t) == a * Dot(row, u) + b * Dot(row, w)
  {
    hide Dot;
    var au := seq(|u|, i requires 0 <= i < |u| => a * u[i]);
    DotLinear(row, t, au, b, w);
    DotScale(row, au, a, u);
  }

  lemma RotatedRow(row: Vec, lam: Complex, u: Vec, w: Vec, u': Vec, w': Vec)
    requires |row| == |u| == |w| == |u'| == |w'|
    requires forall k :: 0 <= k < |row| ==> u'[k] == lam.re * u[k] - lam.im * w[k]
    requires forall k :: 0 <= k < |row| ==> w'[k] == lam.im * u[k] + lam.re * w[k]
    ensures Dot(row, u') == lam.re * Dot(row, u) - lam.im * Dot(row, w)
    ensures Dot(row, w') == lam.im * Dot(row, u) + lam.re * Dot(row, w)
  {
    hide Dot;
    DotCombination(row, u', lam.re, u, -lam.im, w);
    DotCombination(row, w', lam.im, u, lam.re, w);
  }

  lemma ImageRotates(A: Mat, lam: Complex, u: Vec, w: Vec)
    requires Rotates(A, lam, u, w)
    ensures Rotates(A, lam, Apply(A, u), Apply(A, w))
  {
    hide Dot;
    var u', w' := Apply(A, u), Apply(A, w);
    forall i | 0 <= i < |A|
      ensures Dot(A[i], u') == lam.re * u'[i] - lam.im * w'[i]
      ensures Dot(A[i], w') == lam.im * u'[i] + lam.re * w'[i]
    {
      RotatedRow(A[i], lam, u, w, u', w');
    }
  }

  /** k applications of A multiply an eigenvector's energy by |lam|^2k, yet shrink its size by r^k. */
  lemma {:induction false} EigenvectorGrowth(A: Mat, r: real, lam: Complex, u: Vec, w: Vec, k: nat)
    requires ColumnContraction(A, 1.0 - r) && r >= 0.0
    requires |u| == |w| == |A| && IsSquare(A) && Rotates(A, lam, u, w)
    ensures Pow(lam.SquaredModulus(), k) * Sum(Energy(u, w)) <= Pow(Square(r), k) * Square(Sum(Size(u, w)))
    decreases k
  {
    hide Dot, Sum, Energy, Size, Square, Complex.SquaredModulus, ColumnContraction, Rotates;
    EnergyBelowSquaredSize(u, w);
    if k > 0 {
      var u', w' := Apply(A, u), Apply(A, w);
      ImageRotates(A, lam, u, w);
      EigenvectorGrowth(A, r, lam, u', w', k - 1);
      EnergyScales(A, lam, u, w);
      SizeShrinks(A, 1.0 - r, u, w);
      SquarePositive(r);
      PowNonneg(Square(r), k - 1);
      SizeNonneg(u', w');
      GrowthStep(Pow(lam.SquaredModulus(), k - 1), lam.SquaredModulus(), Sum(Energy(u, w)),
        Sum(Energy(u', w')), Pow(Square(r), k - 1), r, Sum(Size(u, w)), Sum(Size(u', w')));
    }
  }

  lemma SizeNonneg(u: Vec, w: Vec)
    requires |u| == |w|
    ensures Sum(Size(u, w)) >= 0.0
  {
    SumIsDot(Size(u, w));
    DotNonneg(Const(|u|, 1.0), Size(u, w));
  }

  lemma GrowthStep(ps: real, s: real, e: real, e': real, pr: real, r: real,
      n: real, n': real)
    requires ps * e' <= pr * Square(n') && e' == s * e
    requires pr >= 0.0 && r >= 0.0 && 0.0 <= n' <= r * n
    ensures (s * ps) * e <= (Square(r) * pr) * Square(n)
  {
    var m := r * n;
    assert (s * ps) * e == ps * (s * e);
    ScaleLe(n', n', m);
    ScaleLe(m, n', m);
    ScaleLe(pr, Square(n'), Square(m));
    SquareOfProduct(r, n);
    assert pr * (Square(r) * Square(n)) == (Square(r) * pr) * Square(n);
  }

  lemma SquareOfProduct(a: real, b: real)
    ensures Square(a * b) == Square(a) * Square(b)
  {
  }

  /** (1 + d)^k >= 1 + k d */
  lemma {:induction false} Bernoulli(d: real, k: nat)
    requires d >= 0.0
    ensures Pow(1.0 + d, k) >= 1.0 + k as real * d
  {
    if k > 0 {
      Bernoulli(d, k - 1);
      var low := 1.0 + (k - 1) as real * d;
      ScaleLe(1.0 + d, low, Pow(1.0 + d, k - 1));
      assert (1.0 + d) * low == 1.0 + k as real * d + (k - 1) as real * (d * d);
      assert (k - 1) as real * (d * d) >= 0.0;
    }
  }

  lemma {:induction false} PowProduct(a: real, b: real, k: nat)
    ensures Pow(a * b, k) == Pow(a, k) * Pow(b, k)
  {
    if k > 0 {
      PowProduct(a, b, k - 1);
      assert (a * b) * (Pow(a, k - 1) * Pow(b, k - 1)) == (a * Pow(a, k - 1)) * (b * Pow(b, k - 1));
    }
  }

  lemma {:induction false} PowPositive(r: real, k: nat)
    requires r > 0.0
    ensures Pow(r, k) > 0.0
  {
    if k > 0 {
      PowPositive(r, k - 1);
    }
  }

  /** Some multiple of c > 0 exceeds b. */
  lemma Archimedes(b: real, c: real) returns (k: nat)
    requires b >= 0.0 && c > 0.0
    ensures k as real * c > b
  {
    var q := b / c;
    k := q.Floor + 1;
    assert b == q * c;
    assert (k as real - q) * c > 0.0;
  }

  /** If s > q >= 0, then s^k e outgrows q^k n for any e > 0. */
  lemma PowersSeparate(s: real, q: real, e: real, n: real) returns (k: nat)
    requires s > q >= 0.0 && e > 0.0 && n >= 0.0
    ensures Pow(s, k) * e > Pow(q, k) * n
  {
    if q == 0.0 {
      k := 1;
      assert Pow(s, 1) == s * Pow(s, 0) && Pow(q, 1) == 0.0 * Pow(q, 0);
    } else {
      var t := s / q;
      var d := t - 1.0;
      assert t * q == s;
      assert d * q == s - q;
      assert d > 0.0;
      k := Archimedes(n, d * e);
      Bernoulli(d, k);
      PowProduct(t, q, k);
      PowPositive(q, k);
      Outgrown(Pow(t, k), k as real * d, e, n, Pow(q, k));
    }
  }

  lemma Outgrown(pt: real, kd: real, e: real, n: real, pq: real)
    requires pt >= 1.0 + kd && e > 0.0 && kd * e > n && pq > 0.0
    ensures (pt * pq) * e > pq * n
  {
    ScaleLe(e, kd, pt);
    assert pt * e > n;
    assert pq * (pt * e - n) > 0.0;
    assert (pt * pq) * e == pq * (pt * e);
  }

  lemma EnergyPositive(u: Vec, w: Vec, i: nat)
    requires |u| == |w| && i < |u| && (u[i] != 0.0 || w[i] != 0.0)
    ensures Sum(Energy(u, w)) > 0.0
  {
    hide Dot, Sum, Square;
    forall k | 0 <= k < |u| ensures Energy(u, w)[k] >= 0.0 {
      SquarePositive(u[k]);
      SquarePositive(w[k]);
    }
    SquarePositive(u[i]);
    SquarePositive(w[i]);
    SumTerm(Energy(u, w), i);
  }

  /** Every complex eigenvalue of A has modulus at most 1 - v: the spectral radius is below 1. */
  lemma SpectralRadiusBound(A: Mat, v: real, lam: Complex)
    requires ColumnContraction(A, v) && Eigenvalue(A, lam)
    ensures lam.SquaredModulus() <= Square(1.0 - v)
    ensures lam.SquaredModulus() < 1.0
  {
    hide Dot, Sum, Square, Complex.SquaredModulus;
    var u: Vec, w: Vec :| Eigenpair(A, lam, u, w);
    ContractionFactor(A, v);
    SquareBelowOne(1.0 - v);
    EigenvalueBounded(A, 1.0 - v, lam, u, w);
  }

  lemma SquareBelowOne(r: real)
    requires 0.0 <= r < 1.0
    ensures Square(r) < 1.0
  {
    ScaleLe(r, r, 1.0);
  }

  lemma EigenvalueBounded(A: Mat, r: real, lam: Complex, u: Vec, w: Vec)
    requires ColumnContraction(A, 1.0 - r) && r >= 0.0 && Eigenpair(A, lam, u, w)
    ensures lam.SquaredModulus() <= Square(r)
  {
    hide Dot, Sum, Energy, Size, Square, Complex.SquaredModulus;
    var i :| 0 <= i < |u| && (u[i] != 0.0 || w[i] != 0.0);
    EnergyPositive(u, w, i);
    var n := Sum(Size(u, w));
    SquarePositive(n);
    SquarePositive(r);
    if lam.SquaredModulus() > Square(r) {
      var k := PowersSeparate(lam.SquaredModulus(), Square(r), Sum(Energy(u, w)), Square(n));
      EigenvectorGrowth(A, r, lam, u, w, k);
    }
  }

  // ---------- eigenvalues under the row condition ----------

  /** |u[i]| + |w[i]| <= m x[i] in every entry: u + i w has norm at most m, weighted by x. */
  predicate Within(u: Vec, w: Vec, x: Vec, m: real) {
    |u| == |w| == |x| && forall i :: 0 <= i < |u| ==> Size(u, w)[i] <= m * x[i]
  }

  /** Some norm bounds every vector. */
  lemma WithinSome(u: Vec, w: Vec, x: Vec) returns (m: real)
    requires |u| == |w| == |x| && Positive(x)
    ensures m >= 0.0 && Within(u, w, x, m)
  {
    hide Sum;
    var s := Size(u, w);
    var ratios := seq(|x|, i requires 0 <= i < |x| => s[i] / x[i]);
    m := Sum(ratios);
    forall i | 0 <= i < |x| ensures 0.0 <= ratios[i] {
      RatioNotNegative(s[i], x[i]);
    }
    SumNonneg(ratios);
    forall i | 0 <= i < |x| ensures s[i] <= m * x[i] {
      SumTerm(ratios, i);
      ProductFromRatio(s[i], x[i], m);
    }
  }

  lemma RatioNotNegative(a: real, b: real)
    requires a >= 0.0 && b > 0.0
    ensures a / b >= 0.0
  {
  }

  lemma ProductFromRatio(a: real, b: real, m: real)
    requires b > 0.0 && a / b <= m
    ensures a <= m * b
  {
    ScaleLe(b, a / b, m);
    assert b * (a / b) == a;
  }

  lemma SumNonneg(v: Vec)
    requires Nonneg(v)
    ensures Sum(v) >= 0.0
  {
    SumIsDot(v);
    DotNonneg(Const(|v|, 1.0), v);
  }

  lemma RowFactor(A: Mat, x: Vec, rho: real)
    requires RowContraction(A, x, rho) && |A| > 0
    ensures 0.0 <= rho < 1.0
  {
    hide Dot;
    DotNonneg(A[0], x);
    FactorNonneg(rho, x[0], Dot(A[0], x));
  }

  lemma FactorNonneg(c: real, x: real, d: real)
    requires x > 0.0 && 0.0 <= d <= c * x
    ensures c >= 0.0
  {
  }

  /** A shrinks the weighted norm by the factor rho. */
  lemma WithinShrinks(A: Mat, x: Vec, rho: real, u: Vec, w: Vec, m: real)
    requires RowContraction(A, x, rho) && Within(u, w, x, m) && |x| == |A| && m >= 0.0
    ensures Within(Apply(A, u), Apply(A, w), x, m * rho)
  {
    hide Dot;
    var s := Size(u, w);
    var mx := seq(|x|, k requires 0 <= k < |x| => m * x[k]);
    forall i | 0 <= i < |A| ensures Size(Apply(A, u), Apply(A, w))[i] <= m * rho * x[i] {
      SizeOfImage(A[i], u, w);
      DotMonotone(A[i], s, mx);
      DotScale(A[i], mx, m, x);
      ScaleLe(m, Dot(A[i], x), rho * x[i]);
      assert m * (rho * x[i]) == m * rho * x[i];
    }
  }

  lemma EntryWithin(a: real, b: real, total: real)
    requires Abs(a) + Abs(b) <= total
    ensures Square(a) + Square(b) <= Square(total)
  {
    hide Square, Abs;
    EnergyOfEntry(a, b, total);
    AbsNonneg(a);
    AbsNonneg(b);
    ScaleLe(total, Abs(a) + Abs(b), total);
    SquareOf(total);
  }

  lemma SizeWithin(u: Vec, w: Vec, x: Vec, m: real, i: nat)
    requires Within(u, w, x, m) && i < |x|
    ensures Abs(u[i]) + Abs(w[i]) <= m * x[i]
  {
  }

  lemma AbsNonneg(a: real)
    ensures Abs(a) >= 0.0
  {
  }

  /** k applications of A multiply the energy of each entry of an eigenvector by |lam|^2k, yet
      shrink its weighted norm by rho^k. */
  lemma {:induction false} RowEigenvectorGrowth(A: Mat, x: Vec, rho: real, lam: Complex, u: Vec, w: Vec,
      m: real, i: nat, size: real, k: nat)
    requires RowContraction(A, x, rho) && rho >= 0.0 && |x| == |A|
    requires IsSquare(A) && Rotates(A, lam, u, w) && Within(u, w, x, m) && m >= 0.0 && i < |x|
    requires |u| == |w| == |x| && size == m * x[i]
    ensures Pow(lam.SquaredModulus(), k) * Energy(u, w)[i] <= Pow(Square(rho), k) * Square(size)
    decreases k
  {
    hide Dot, Sum, Square, Complex.SquaredModulus, RowContraction, Rotates, Within;
    if k == 0 {
      SizeWithin(u, w, x, m, i);
      EntryWithin(u[i], w[i], size);
    } else {
      var u', w' := Apply(A, u), Apply(A, w);
      ImageRotates(A, lam, u, w);
      WithinShrinks(A, x, rho, u, w, m);
      ScaleLe(m, 0.0, rho);
      Reassociate(rho, m, x[i]);
      RowEigenvectorGrowth(A, x, rho, lam, u', w', m * rho, i, rho * size, k - 1);
      EnergyOfImage(A, lam, u, w, i);
      SquareOfProduct(rho, size);
      PowStep(lam.SquaredModulus(), k, Energy(u, w)[i], Energy(u', w')[i]);
      PowStep(Square(rho), k, Square(size), Square(rho * size));
    }
  }

  lemma Reassociate(a: real, b: real, c: real)
    ensures a * (b * c) == b * a * c
  {
  }

  lemma PowStep(s: real, k: nat, e: real, e': real)
    requires k > 0 && e' == s * e
    ensures Pow(s, k) * e == Pow(s, k - 1) * e'
  {
  }

  lemma EnergyOfImage(A: Mat, lam: Complex, u: Vec, w: Vec, i: nat)
    requires Rotates(A, lam, u, w) && i < |A|
    ensures Energy(Apply(A, u), Apply(A, w))[i] == lam.SquaredModulus() * Energy(u, w)[i]
  {
    hide Dot, Square, Complex.SquaredModulus;
    RotatedEntry(lam, u[i], w[i], Apply(A, u)[i], Apply(A, w)[i], Energy(u, w)[i]);
  }

  /** The row condition A x <= rho x alone, with no condition on the columns, bounds the modulus of
      every complex eigenvalue of A by rho. */
  lemma RowSpectralBound(A: Mat, x: Vec, rho: real, lam: Complex)
    requires RowContraction(A, x, rho) && Eigenvalue(A, lam)
    ensures lam.SquaredModulus() <= Square(rho)
    ensures lam.SquaredModulus() < 1.0
  {
    hide Dot, Sum, Square, Complex.SquaredModulus;
    var u: Vec, w: Vec :| Eigenpair(A, lam, u, w);
    RowFactor(A, x, rho);
    SquareBelowOne(rho);
    RowEigenvalueBounded(A, x, rho, lam, u, w);
  }

  lemma RowEigenvalueBounded(A: Mat, x: Vec, rho: real, lam: Complex, u: Vec, w: Vec)
    requires RowContraction(A, x, rho) && rho >= 0.0 && Eigenpair(A, lam, u, w)
    ensures lam.SquaredModulus() <= Square(rho)
  {
    hide Dot, Sum, Square, Complex.SquaredModulus, Within;
    var i :| 0 <= i < |u| && (u[i] != 0.0 || w[i] != 0.0);
    var m := WithinSome(u, w, x);
    var size := m * x[i];
    var e, n := Energy(u, w)[i], Square(size);
    SquarePositive(u[i]);
    SquarePositive(w[i]);
    SquarePositive(rho);
    SquarePositive(size);
    if lam.SquaredModulus() > Square(rho) {
      var k := PowersSeparate(lam.SquaredModulus(), Square(rho), e, n);
      RowEigenvectorGrowth(A, x, rho, lam, u, w, m, i, size, k);
    }
  }

  /** What the scripts ask of the eigenvalues they are given: the largest modulus is below 1. */
  predicate RadiusBelowOne(eigenvalues: seq<Complex>) {
    forall k :: 0 <= k < |eigenvalues| ==> eigenvalues[k].SquaredModulus() < 1.0
  }
}
