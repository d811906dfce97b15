/** The inverse exists: (I - A) y = f is solved by eliminating the last sector, which keeps the
    remaining matrix nonnegative and inverse-monotone and never meets a zero pivot. */
module Elimination {
  import opened Vectors
  import opened Matrices
  import opened Leontief

  function Pivot(A: Mat): real
    requires IsSquare(A) && |A| > 0
  {
    1.0 - A[|A| - 1][|A| - 1]
  }

  /** The coefficients left after substituting the last sector's equation into the others. */
  function Reduced(A: Mat): (R: Mat)
    requires IsSquare(A) && |A| > 0 && Pivot(A) != 0.0
    ensures Rect(R, |A| - 1, |A| - 1)
    ensures forall i, j :: 0 <= i < |A| - 1 && 0 <= j < |A| - 1 ==>
      R[i][j] == A[i][j] + A[i][|A| - 1] / Pivot(A) * A[|A| - 1][j]
  {
    var m := |A| - 1;
    seq(m, i requires 0 <= i < m =>
      seq(m, j requires 0 <= j < m => A[i][j] + A[i][m] / Pivot(A) * A[m][j]))
  }

  /** With a diagonal entry of 1 or more, minus the last unit vector is dominated. */
  lemma PivotWitness(A: Mat) returns (v: Vec)
    requires IsSquare(A) && |A| > 0 && NonnegMat(A)
    ensures |v| == |A| && v[|A| - 1] == -1.0
    ensures A[|A| - 1][|A| - 1] >= 1.0 ==> Dominated(A, v)
  {
    hide Dot;
    var m := |A| - 1;
    v := seq(|A|, i => -Delta(i, m));
    forall i | 0 <= i < |A| ensures Dot(A[i], v) == -A[i][m] {
      DotScale(A[i], v, -1.0, Unit(|A|, m));
      DotUnit(A[i], m);
    }
  }

  lemma PivotPositive(A: Mat)
    requires IsSquare(A) && |A| > 0 && NonnegMat(A) && InverseMonotone(A)
    ensures Pivot(A) > 0.0
  {
    var v := PivotWitness(A);
  }

  /** The eliminated coordinate, recovered from the others and its own right-hand side c. */
  function BackSubstitute(A: Mat, y: Vec, c: real): (z: Vec)
    requires IsSquare(A) && |A| == |y| + 1 && Pivot(A) != 0.0
    ensures |z| == |A| && z[..|y|] == y
  {
    y + [(c + Dot(A[|y|][..|y|], y)) / Pivot(A)]
  }

  lemma BackSubstituteLast(A: Mat, y: Vec, c: real)
    requires IsSquare(A) && |A| == |y| + 1 && Pivot(A) != 0.0
    ensures var z := BackSubstitute(A, y, c); Dot(A[|y|], z) == z[|y|] - c
  {
    var m, z := |y|, BackSubstitute(A, y, c);
    DotLast(A[m], z, m);
    assert Pivot(A) * z[m] == c + Dot(A[m][..m], y);
    assert Pivot(A) * z[m] == z[m] - A[m][m] * z[m];
  }

  lemma BackSubstituteRow(A: Mat, y: Vec, c: real, i: nat)
    requires IsSquare(A) && |A| == |y| + 1 && Pivot(A) != 0.0 && i < |y|
    ensures Dot(A[i], BackSubstitute(A, y, c)) ==
      Dot(Reduced(A)[i], y) + A[i][|y|] / Pivot(A) * c
  {
    var m, z, q := |y|, BackSubstitute(A, y, c), A[i][|y|] / Pivot(A);
    DotLast(A[i], z, m);
    ReducedRow(A, y, i);
    Regroup(A[i][m], Pivot(A), c, Dot(A[m][..m], y));
  }

  lemma ReducedRow(A: Mat, y: Vec, i: nat)
    requires IsSquare(A) && |A| == |y| + 1 && Pivot(A) != 0.0 && i < |y|
    ensures Dot(Reduced(A)[i], y) ==
      Dot(A[i][..|y|], y) + A[i][|y|] / Pivot(A) * Dot(A[|y|][..|y|], y)
  {
    hide Dot;
    var m := |y|;
    DotLinear(y, Reduced(A)[i], A[i][..m], A[i][m] / Pivot(A), A[m][..m]);
    DotSymmetric(y, Reduced(A)[i]); DotSymmetric(y, A[i][..m]); DotSymmetric(y, A[m][..m]);
  }

  lemma Regroup(a: real, p: real, c: real, d: real)
    requires p != 0.0
    ensures a * ((c + d) / p) == a / p * d + a / p * c
  {
    var q := (c + d) / p;
    assert a == a / p * p;
    assert p * q == c + d;
    assert a * q == a / p * (p * q);
  }

  lemma ReducedNonneg(A: Mat)
    requires IsSquare(A) && |A| > 0 && NonnegMat(A) && Pivot(A) > 0.0
    ensures NonnegMat(Reduced(A))
  {
    var m := |A| - 1;
    forall i, j | 0 <= i < m && 0 <= j < m ensures Reduced(A)[i][j] >= 0.0 {
      assert A[i][m] / Pivot(A) >= 0.0;
    }
  }

  /** Elimination keeps the property that makes the system solvable. */
  lemma ReducedMonotone(A: Mat)
    requires IsSquare(A) && |A| > 0 && InverseMonotone(A) && Pivot(A) > 0.0
    ensures InverseMonotone(Reduced(A))
  {
    hide Dot;
    var m := |A| - 1;
    forall y: Vec | |y| == m && Dominated(Reduced(A), y) ensures Nonneg(y) {
      var z := BackSubstitute(A, y, 0.0);
      BackSubstituteLast(A, y, 0.0);
      forall i | 0 <= i < m ensures Dot(A[i], z) <= z[i] {
        BackSubstituteRow(A, y, 0.0, i);
        assert z[i] == z[..m][i];
      }
      assert Dominated(A, z);
      assert Nonneg(z[..m]);
    }
  }

  lemma ReducedSolvable(A: Mat)
    requires IsSquare(A) && |A| > 0 && NonnegMat(A) && InverseMonotone(A)
    ensures Pivot(A) > 0.0 && NonnegMat(Reduced(A)) && InverseMonotone(Reduced(A))
  {
    PivotPositive(A);
    ReducedNonneg(A);
    ReducedMonotone(A);
  }

  /** The right-hand side after the same substitution. */
  function ReducedRhs(A: Mat, f: Vec): (g: Vec)
    requires IsSquare(A) && |f| == |A| > 0 && Pivot(A) != 0.0
    ensures |g| == |A| - 1
    ensures forall i :: 0 <= i < |A| - 1 ==> g[i] == f[i] + A[i][|A| - 1] / Pivot(A) * f[|A| - 1]
  {
    var m := |A| - 1;
    seq(m, i requires 0 <= i < m => f[i] + A[i][m] / Pivot(A) * f[m])
  }

  predicate Solves(A: Mat, f: Vec, y: Vec)
    requires IsSquare(A)
  {
    |f| == |y| == |A| && forall i :: 0 <= i < |A| ==> y[i] - Dot(A[i], y) == f[i]
  }

  /** (I - A) y = f has a solution for every nonnegative inverse-monotone A and every f. */
  lemma {:induction false} SolutionExists(A: Mat, f: Vec) returns (y: Vec)
    requires IsSquare(A) && NonnegMat(A) && InverseMonotone(A) && |f| == |A|
    ensures Solves(A, f, y)
    decreases |A|
  {
    hide Dot, ReducedRhs, Reduced, NonnegMat, InverseMonotone;
    if |A| == 0 {
      y := [];
    } else {
      ReducedSolvable(A);
      y := SolutionExists(Reduced(A), ReducedRhs(A, f));
      SolveStep(A, f, y);
      y := BackSubstitute(A, y, f[|A| - 1]);
    }
  }

  lemma SolveStep(A: Mat, f: Vec, y: Vec)
    requires IsSquare(A) && |f| == |A| == |y| + 1 && Pivot(A) != 0.0
    requires Solves(Reduced(A), ReducedRhs(A, f), y)
    ensures Solves(A, f, BackSubstitute(A, y, f[|y|]))
  {
    hide Dot;
    var m, z := |y|, BackSubstitute(A, y, f[|y|]);
    BackSubstituteLast(A, y, f[m]);
    forall i | 0 <= i < |A| ensures z[i] - Dot(A[i], z) == f[i] {
      if i < m {
        BackSubstituteRow(A, y, f[m], i);
        assert z[i] == z[..m][i];
        assert y[i] - Dot(Reduced(A)[i], y) == ReducedRhs(A, f)[i];
      }
    }
  }

  lemma ColumnsExist(A: Mat) returns (cols: seq<Vec>)
    requires IsSquare(A) && NonnegMat(A) && InverseMonotone(A)
    ensures |cols| == |A| && forall j :: 0 <= j < |A| ==> Solves(A, Unit(|A|, j), cols[j])
  {
    hide Dot, Unit, Solves, NonnegMat, InverseMonotone;
    cols := [];
    while |cols| < |A|
      invariant |cols| <= |A|
      invariant forall j :: 0 <= j < |cols| ==> Solves(A, Unit(|A|, j), cols[j])
    {
      var y := SolutionExists(A, Unit(|A|, |cols|));
      cols := cols + [y];
    }
  }

  /** The matrix whose columns are the given vectors. */
  function FromColumns(cols: seq<Vec>): (B: Mat)
    requires IsSquare(cols)
    ensures Rect(B, |cols|, |cols|)
    ensures forall j :: 0 <= j < |cols| ==> Col(B, j) == cols[j]
  {
    seq(|cols|, i requires 0 <= i < |cols| => Col(cols, i))
  }

  /** (I - A) B = I has a solution: the solve behind the Leontief inverse cannot fail. */
  lemma InverseExists(A: Mat) returns (B: Mat)
    requires IsSquare(A) && NonnegMat(A) && InverseMonotone(A)
    ensures LeontiefInverse(A, B)
  {
    hide Dot;
    var n := |A|;
    var cols := ColumnsExist(A);
    B := FromColumns(cols);
    forall i, j | 0 <= i < n && 0 <= j < n ensures B[i][j] == Delta(i, j) + Dot(A[i], Col(B, j)) {
      assert B[i][j] == Col(B, j)[i];
      assert cols[j][i] - Dot(A[i], cols[j]) == Unit(n, j)[i];
    }
  }
}
