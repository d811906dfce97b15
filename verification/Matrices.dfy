/** Square real matrices as sequences of rows: products, the exchange of a double sum, associativity. */
module Matrices {
  import opened Vectors

  type Mat = seq<Vec>

  predicate Rect(A: Mat, m: nat, n: nat) {
    |A| == m && forall i :: 0 <= i < m ==> |A[i]| == n
  }

  predicate IsSquare(A: Mat) {
    Rect(A, |A|, |A|)
  }

  predicate NonnegMat(A: Mat) {
    forall i :: 0 <= i < |A| ==> Nonneg(A[i])
  }

  function Col(A: Mat, j: nat): (c: Vec)
    requires forall i :: 0 <= i < |A| ==> j < |A[i]|
    ensures |c| == |A| && forall i :: 0 <= i < |A| ==> c[i] == A[i][j]
  {
    seq(|A|, i requires 0 <= i < |A| => A[i][j])
  }

  /** The matrix applied to a vector. */
  function Apply(A: Mat, v: Vec): (w: Vec)
    requires Rect(A, |A|, |v|)
    ensures |w| == |A| && forall i :: 0 <= i < |A| ==> w[i] == Dot(A[i], v)
  {
    seq(|A|, i requires 0 <= i < |A| => Dot(A[i], v))
  }

  /** A row vector applied to the matrix; n is the number of columns. */
  function RowApply(u: Vec, A: Mat, n: nat): (w: Vec)
    requires Rect(A, |u|, n)
    ensures |w| == n && forall j :: 0 <= j < n ==> w[j] == Dot(u, Col(A, j))
  {
    seq(n, j requires 0 <= j < n => Dot(u, Col(A, j)))
  }

  function ColSums(A: Mat): (w: Vec)
    requires IsSquare(A)
    ensures |w| == |A| && forall j :: 0 <= j < |A| ==> w[j] == Sum(Col(A, j))
  {
    seq(|A|, j requires 0 <= j < |A| => Sum(Col(A, j)))
  }

  function RowSums(A: Mat): (w: Vec)
    ensures |w| == |A| && forall i :: 0 <= i < |A| ==> w[i] == Sum(A[i])
  {
    seq(|A|, i requires 0 <= i < |A| => Sum(A[i]))
  }

  function Identity(n: nat): (I: Mat)
    ensures Rect(I, n, n)
    ensures forall i, j :: 0 <= i < n && 0 <= j < n ==> I[i][j] == Delta(i, j)
  {
    seq(n, i => Unit(n, i))
  }

  function Mul(A: Mat, B: Mat): (C: Mat)
    requires IsSquare(A) && Rect(B, |A|, |A|)
    ensures Rect(C, |A|, |A|)
    ensures forall i, j :: 0 <= i < |A| && 0 <= j < |A| ==> C[i][j] == Dot(A[i], Col(B, j))
  {
    seq(|A|, i requires 0 <= i < |A| => RowApply(A[i], B, |A|))
  }

  function AddMat(A: Mat, B: Mat): (C: Mat)
    requires IsSquare(A) && Rect(B, |A|, |A|)
    ensures Rect(C, |A|, |A|)
    ensures forall i, j :: 0 <= i < |A| && 0 <= j < |A| ==> C[i][j] == A[i][j] + B[i][j]
  {
    seq(|A|, i requires 0 <= i < |A| =>
      seq(|A|, j requires 0 <= j < |A| => A[i][j] + B[i][j]))
  }

  function SubMat(A: Mat, B: Mat): (C: Mat)
    requires IsSquare(A) && Rect(B, |A|, |A|)
    ensures Rect(C, |A|, |A|)
    ensures forall i, j :: 0 <= i < |A| && 0 <= j < |A| ==> C[i][j] == A[i][j] - B[i][j]
  {
    seq(|A|, i requires 0 <= i < |A| =>
      seq(|A|, j requires 0 <= j < |A| => A[i][j] - B[i][j]))
  }

  lemma MatExtensional(A: Mat, B: Mat, n: nat)
    requires Rect(A, n, n) && Rect(B, n, n)
    requires forall i, j :: 0 <= i < n && 0 <= j < n ==> A[i][j] == B[i][j]
    ensures A == B
  {
    assert forall i :: 0 <= i < n ==> A[i] == B[i];
  }

  lemma RowApplyLastEntry(u: Vec, A: Mat, n: nat, j: nat)
    requires |u| > 0 && Rect(A, |u|, n) && j < n
    ensures var m := |u| - 1;
      RowApply(u, A, n)[j] == RowApply(u[..m], A[..m], n)[j] + u[m] * A[m][j]
  {
    hide Dot;
    var m := |u| - 1;
    DotLast(u, Col(A, j), m);
    assert Col(A, j)[..m] == Col(A[..m], j);
  }

  /** Peeling the last row off a row application. */
  lemma RowApplyLast(u: Vec, A: Mat, v: Vec)
    requires |u| > 0 && Rect(A, |u|, |v|)
    ensures var m := |u| - 1;
      Dot(RowApply(u, A, |v|), v) == Dot(RowApply(u[..m], A[..m], |v|), v) + u[m] * Dot(A[m], v)
  {
    hide Dot;
    var m, n := |u| - 1, |v|;
    var w, w' := RowApply(u, A, n), RowApply(u[..m], A[..m], n);
    forall j | 0 <= j < n ensures w[j] == w'[j] + u[m] * A[m][j] {
      RowApplyLastEntry(u, A, n, j);
    }
    DotLinear(v, w, w', u[m], A[m]);
    DotSymmetric(v, w); DotSymmetric(v, w'); DotSymmetric(v, A[m]);
  }

  /** Exchange of the double sum: u.(A v) = (u A).v */
  lemma {:induction false} Exchange(u: Vec, A: Mat, v: Vec)
    requires Rect(A, |u|, |v|)
    ensures Dot(u, Apply(A, v)) == Dot(RowApply(u, A, |v|), v)
  {
    hide Dot;
    if |u| == 0 {
      DotZero(u, Apply(A, v));
      DotSymmetric(RowApply(u, A, |v|), v);
      forall j | 0 <= j < |v| ensures RowApply(u, A, |v|)[j] == 0.0 {
        DotZero(u, Col(A, j));
      }
      DotZero(v, RowApply(u, A, |v|));
    } else {
      var m := |u| - 1;
      Exchange(u[..m], A[..m], v);
      DotLast(u, Apply(A, v), m);
      assert Apply(A, v)[..m] == Apply(A[..m], v);
      RowApplyLast(u, A, v);
    }
  }

  /** The sum of all entries of A v is the column sums of A weighted by v. */
  lemma SumApply(A: Mat, v: Vec)
    requires IsSquare(A) && |v| == |A|
    ensures Sum(Apply(A, v)) == Dot(ColSums(A), v)
  {
    var ones := Const(|A|, 1.0);
    SumIsDot(Apply(A, v));
    Exchange(ones, A, v);
    forall j | 0 <= j < |A| ensures RowApply(ones, A, |A|)[j] == ColSums(A)[j] {
      SumIsDot(Col(A, j));
    }
    assert RowApply(ones, A, |A|) == ColSums(A);
  }

  /** (A B) v = A (B v) */
  lemma MulApply(A: Mat, B: Mat, v: Vec)
    requires IsSquare(A) && Rect(B, |A|, |A|) && |v| == |A|
    ensures Apply(Mul(A, B), v) == Apply(A, Apply(B, v))
  {
    forall i | 0 <= i < |A| ensures Apply(Mul(A, B), v)[i] == Apply(A, Apply(B, v))[i] {
      Exchange(A[i], B, v);
      assert Mul(A, B)[i] == RowApply(A[i], B, |A|);
    }
  }

  lemma MulCol(A: Mat, B: Mat, j: nat)
    requires IsSquare(A) && Rect(B, |A|, |A|) && j < |A|
    ensures Col(Mul(A, B), j) == Apply(A, Col(B, j))
  {
  }

  lemma MulAssociative(A: Mat, B: Mat, C: Mat)
    requires IsSquare(A) && Rect(B, |A|, |A|) && Rect(C, |A|, |A|)
    ensures Mul(Mul(A, B), C) == Mul(A, Mul(B, C))
  {
    var n := |A|;
    forall i, j | 0 <= i < n && 0 <= j < n
      ensures Mul(Mul(A, B), C)[i][j] == Mul(A, Mul(B, C))[i][j]
    {
      MulApply(A, B, Col(C, j));
      MulCol(B, C, j);
      assert Apply(Mul(A, B), Col(C, j))[i] == Apply(A, Apply(B, Col(C, j)))[i];
    }
    MatExtensional(Mul(Mul(A, B), C), Mul(A, Mul(B, C)), n);
  }

  lemma MulIdentity(A: Mat)
    requires IsSquare(A)
    ensures Mul(A, Identity(|A|)) == A && Mul(Identity(|A|), A) == A
  {
    var n := |A|;
    forall i, j | 0 <= i < n && 0 <= j < n
      ensures Mul(A, Identity(n))[i][j] == A[i][j] && Mul(Identity(n), A)[i][j] == A[i][j]
    {
      assert Col(Identity(n), j) == Unit(n, j);
      DotUnit(A[i], j);
      assert Identity(n)[i] == Unit(n, i);
      DotSymmetric(Identity(n)[i], Col(A, j));
      DotUnit(Col(A, j), i);
    }
    MatExtensional(Mul(A, Identity(n)), A, n);
    MatExtensional(Mul(Identity(n), A), A, n);
  }

  function IMinus(A: Mat): (M: Mat)
    requires IsSquare(A)
    ensures Rect(M, |A|, |A|)
  {
    SubMat(Identity(|A|), A)
  }

  /** (I - A) v = v - A v */
  lemma IMinusApply(A: Mat, v: Vec, i: nat)
    requires IsSquare(A) && |v| == |A| && i < |A|
    ensures Dot(IMinus(A)[i], v) == v[i] - Dot(A[i], v)
  {
    var row := SubMat(Identity(|A|), A)[i];
    assert forall j :: 0 <= j < |A| ==> row[j] == Unit(|A|, i)[j] - A[i][j];
    DotMinus(v, row, Unit(|A|, i), A[i]);
    DotUnit(v, i);
    DotSymmetric(v, row); DotSymmetric(v, A[i]);
  }
}
