/** The engine's check of a model before it is used: flows Z and outputs x are tested one property
    after another, and the errors found are collected. The numerical routines it calls are
    parameters. */
module ModelValidator {
  import opened Vectors
  import opened Matrices
  import opened Leontief
  import opened Elimination
  import opened Spectral
  import opened SyntheticModel

  datatype Error =
    | NegativeFlows(count: nat)
    | NonpositiveOutput(sectors: seq<nat>)
    | DimensionMismatch
    | RadiusNotBelowOne
    | NonpositiveValueAdded(sectors: seq<nat>)
    | NegativeInverse(count: nat)

  /** `NoEigenvalues`: the empty model, on which taking the largest eigenvalue raises. */
  datatype Validation = NoEigenvalues | Validated(errors: seq<Error>, warnings: seq<Issue>)

  const INVERSE_TOLERANCE := 0.0000000001

  /** The eigensolver and the linear solver for (I - A) B = I. */
  datatype Routines = Routines(spectrum: Mat -> seq<Complex>, solve: Mat -> Mat) {
    predicate SolvesTo(A: Mat) {
      Rect(solve(A), |A|, |A|)
    }
  }

  /** Every number the eigensolver lists is an eigenvalue, and the linear solver returns a matrix of
      the right size, an inverse whenever there is one. */
  ghost predicate Correct(r: Routines) {
    forall A: Mat :: IsSquare(A) ==> CorrectFor(r, A)
  }

  ghost predicate CorrectFor(r: Routines, A: Mat)
    requires IsSquare(A)
  {
    r.SolvesTo(A) && (forall lam :: lam in r.spectrum(A) ==> Eigenvalue(A, lam)) &&
    ((exists B :: LeontiefInverse(A, B)) ==> LeontiefInverse(A, r.solve(A)))
  }

  // ---------- the errors ----------

  /** How many entries are below t. */
  function CountBelow(M: Mat, t: real): nat {
    |set i, j | 0 <= i < |M| && 0 <= j < |M[i]| && M[i][j] < t :: (i, j)|
  }

  /** The positions of the entries that are not positive, in order. */
  function Nonpositive(v: Vec): seq<nat> {
    if v == [] then [] else
      var m := |v| - 1;
      Nonpositive(v[..m]) + if v[m] <= 0.0 then [m] else []
  }

  predicate Fits(Z: Mat, columns: nat, x: Vec) {
    |Z| == columns == |x|
  }

  /** What is wrong with Z and x by themselves. */
  function InputErrors(Z: Mat, columns: nat, x: Vec): seq<Error> {
    (if NonnegMat(Z) then [] else [NegativeFlows(CountBelow(Z, 0.0))]) +
    (if Positive(x) then [] else [NonpositiveOutput(Nonpositive(x))]) +
    (if Fits(Z, columns, x) then [] else [DimensionMismatch])
  }

  /** What is wrong with the coefficients; the inverse is computed only below spectral radius 1. */
  function CoefficientErrors(A: Mat, r: Routines): seq<Error>
    requires IsSquare(A)
  {
    var below, va := RadiusBelowOne(r.spectrum(A)), ValueAdded(A);
    (if below then [] else [RadiusNotBelowOne]) +
    (if Positive(va) then [] else [NonpositiveValueAdded(Nonpositive(va))]) +
    if below && CountBelow(r.solve(A), -INVERSE_TOLERANCE) > 0
    then [NegativeInverse(CountBelow(r.solve(A), -INVERSE_TOLERANCE))] else []
  }

  function Errors(Z: Mat, columns: nat, x: Vec, r: Routines): seq<Error>
    requires Rect(Z, |Z|, columns)
  {
    InputErrors(Z, columns, x) +
    if Positive(x) && Fits(Z, columns, x) then CoefficientErrors(Coefficients(Z, x), r) else []
  }

  /** Multipliers outside [1, 5]; they are computed only below spectral radius 1. */
  function Warnings(A: Mat, codes: string, r: Routines): seq<Issue>
    requires IsSquare(A) && |codes| == |A| && r.SolvesTo(A)
  {
    if RadiusBelowOne(r.spectrum(A)) then RangeIssues(codes, Multipliers(r.solve(A))) else []
  }

  /** The outcome of the check: nothing for the empty model, otherwise the errors, and the warnings
      when Z and x are good enough to compute coefficients. */
  predicate Describes(v: Validation, Z: Mat, columns: nat, x: Vec, codes: string, r: Routines)
    requires Rect(Z, |Z|, columns) && |x| <= |codes|
  {
    (v.NoEigenvalues? <==> Fits(Z, columns, x) && x == []) &&
    (v.Validated? ==> v.errors == Errors(Z, columns, x, r)) &&
    (v.Validated? && !(Positive(x) && Fits(Z, columns, x)) ==> v.warnings == []) &&
    (v.Validated? && Positive(x) && Fits(Z, columns, x) ==> var A := Coefficients(Z, x);
      r.SolvesTo(A) && v.warnings == Warnings(A, codes[..|x|], r))
  }

  method ValidateModel(Z: Mat, columns: nat, x: Vec, codes: string, r: Routines) returns (v: Validation)
    requires Rect(Z, |Z|, columns) && |x| <= |codes|
    requires forall A: Mat :: IsSquare(A) ==> r.SolvesTo(A)
    ensures Describes(v, Z, columns, x, codes, r)
  {
    hide Sum, CountBelow, Nonpositive, RangeIssues;
    var errors: seq<Error> := [];
    var warnings: seq<Issue> := [];
    if !NonnegMat(Z) {
      errors := errors + [NegativeFlows(CountBelow(Z, 0.0))];
    }
    if !Positive(x) {
      errors := errors + [NonpositiveOutput(Nonpositive(x))];
    }
    if !Fits(Z, columns, x) {
      errors := errors + [DimensionMismatch];
    }
    assert errors == InputErrors(Z, columns, x);
    if Positive(x) && Fits(Z, columns, x) {
      if x == [] {
        return NoEigenvalues;
      }
      var more;
      more, warnings := CheckCoefficients(Coefficients(Z, x), codes[..|x|], r);
      errors := errors + more;
    }
    v := Validated(errors, warnings);
  }

  /** The part of the check that works on the coefficients. */
  method CheckCoefficients(A: Mat, codes: string, r: Routines)
    returns (errors: seq<Error>, warnings: seq<Issue>)
    requires IsSquare(A) && |codes| == |A| && r.SolvesTo(A)
    ensures errors == CoefficientErrors(A, r)
    ensures warnings == Warnings(A, codes, r)
  {
    hide Sum, CountBelow, Nonpositive, Multipliers;
    errors, warnings := [], [];
    var below := RadiusBelowOne(r.spectrum(A));
    if !below {
      errors := errors + [RadiusNotBelowOne];
    }
    if !Positive(ValueAdded(A)) {
      errors := errors + [NonpositiveValueAdded(Nonpositive(ValueAdded(A)))];
    }
    if below {
      var B := r.solve(A);
      if CountBelow(B, -INVERSE_TOLERANCE) > 0 {
        errors := errors + [NegativeInverse(CountBelow(B, -INVERSE_TOLERANCE))];
      }
      var multipliers := Multipliers(B);
      for i := 0 to |codes|
        invariant warnings == RangeIssues(codes[..i], multipliers)
      {
        var m := multipliers[i];
        assert codes[..i + 1][..i] == codes[..i];
        if m < 1.0 {
          warnings := warnings + [Impossible(codes[i], m)];
        } else if m > 5.0 {
          warnings := warnings + [Unrealistic(codes[i], m)];
        }
      }
      assert codes[..|codes|] == codes;
    }
  }

  // ---------- what the lists in the errors mean ----------

  /** Exactly the positions of the nonpositive entries, in increasing order. */
  lemma {:induction false} NonpositiveAre(v: Vec)
    ensures forall i: nat :: i in Nonpositive(v) <==> i < |v| && v[i] <= 0.0
    ensures forall k, l :: 0 <= k < l < |Nonpositive(v)| ==> Nonpositive(v)[k] < Nonpositive(v)[l]
  {
    if v != [] {
      var m := |v| - 1;
      NonpositiveAre(v[..m]);
      forall k | 0 <= k < |Nonpositive(v[..m])| ensures Nonpositive(v[..m])[k] < m {
        assert Nonpositive(v[..m])[k] in Nonpositive(v[..m]);
      }
    }
  }

  lemma NoneBelow(M: Mat, t: real)
    ensures CountBelow(M, t) == 0 <==>
      forall i, j :: 0 <= i < |M| && 0 <= j < |M[i]| ==> M[i][j] >= t
  {
    var below := set i, j | 0 <= i < |M| && 0 <= j < |M[i]| && M[i][j] < t :: (i, j);
    if CountBelow(M, t) == 0 {
      forall i, j | 0 <= i < |M| && 0 <= j < |M[i]| ensures M[i][j] >= t {
        assert (i, j) !in below;
      }
    }
  }

  // ---------- when each error and warning appears ----------

  /** The places of the entries below t. */
  function EntriesBelow(M: Mat, t: real): set<(nat, nat)> {
    set i: nat, j: nat | i < |M| && j < |M[i]| && M[i][j] < t :: (i, j)
  }

  predicate AnyBelow(M: Mat, t: real) {
    exists i, j :: 0 <= i < |M| && 0 <= j < |M[i]| && M[i][j] < t
  }

  predicate AnyNotPositive(v: Vec) {
    exists i :: 0 <= i < |v| && v[i] <= 0.0
  }

  predicate AnyOutsideUnit(eigenvalues: seq<Complex>) {
    exists k :: 0 <= k < |eigenvalues| && eigenvalues[k].SquaredModulus() >= 1.0
  }

  /** An input error appears exactly when there is something to report, with its count or its sectors. */
  lemma {:induction false} InputErrorsMean(Z: Mat, columns: nat, x: Vec, e: Error)
    ensures e in InputErrors(Z, columns, x) <==>
      (e.NegativeFlows? && AnyBelow(Z, 0.0) && e.count == |EntriesBelow(Z, 0.0)|) ||
      (e.NonpositiveOutput? && AnyNotPositive(x) && e.sectors == Nonpositive(x)) ||
      (e.DimensionMismatch? && !(|Z| == columns == |x|))
  {
    CountIs(Z, 0.0);
    hide CountBelow, Nonpositive, EntriesBelow;
    NoneNegative(Z);
    AllPositive(x);
    hide NonnegMat, Positive, AnyBelow, AnyNotPositive;
  }

  lemma CountIs(M: Mat, t: real)
    ensures CountBelow(M, t) == |EntriesBelow(M, t)|
  {
    assert EntriesBelow(M, t) == set i, j | 0 <= i < |M| && 0 <= j < |M[i]| && M[i][j] < t :: (i, j);
  }

  lemma NoneNegative(M: Mat)
    ensures NonnegMat(M) <==> !AnyBelow(M, 0.0)
  {
  }

  lemma AllPositive(v: Vec)
    ensures Positive(v) <==> !AnyNotPositive(v)
  {
  }

  /** And so does an error in the coefficients; the inverse is reported on only when no eigenvalue lies
      on or outside the unit circle. */
  lemma CoefficientErrorsMean(A: Mat, r: Routines, e: Error)
    requires IsSquare(A)
    ensures e in CoefficientErrors(A, r) <==>
      (e.RadiusNotBelowOne? && AnyOutsideUnit(r.spectrum(A))) ||
      (e.NonpositiveValueAdded? && AnyNotPositive(ValueAdded(A)) && e.sectors == Nonpositive(ValueAdded(A))) ||
      (e.NegativeInverse? && !AnyOutsideUnit(r.spectrum(A)) && AnyBelow(r.solve(A), -0.0000000001) &&
       e.count == |EntriesBelow(r.solve(A), -0.0000000001)|)
  {
    hide Sum, Nonpositive, Complex.SquaredModulus;
    NoneBelow(r.solve(A), -0.0000000001);
    CountIs(r.solve(A), -0.0000000001);
    hide CountBelow, EntriesBelow;
    assert RadiusBelowOne(r.spectrum(A)) <==> !AnyOutsideUnit(r.spectrum(A));
    AllPositive(ValueAdded(A));
    assert AnyBelow(r.solve(A), -INVERSE_TOLERANCE) <==> CountBelow(r.solve(A), -INVERSE_TOLERANCE) > 0;
    hide Positive, AnyNotPositive, AnyBelow, AnyOutsideUnit, RadiusBelowOne, ValueAdded;
  }

  function Rank(e: Error): nat {
    match e
    case NegativeFlows(_) => 1
    case NonpositiveOutput(_) => 2
    case DimensionMismatch => 3
    case RadiusNotBelowOne => 4
    case NonpositiveValueAdded(_) => 5
    case NegativeInverse(_) => 6
  }

  /** The errors come from tests lo + 1 to hi, in their order, at most one from each. */
  predicate InOrder(errors: seq<Error>, lo: nat, hi: nat) {
    (forall k :: 0 <= k < |errors| ==> lo < Rank(errors[k]) <= hi) &&
    forall k, l :: 0 <= k < l < |errors| ==> Rank(errors[k]) < Rank(errors[l])
  }

  lemma InOrderConcat(a: seq<Error>, b: seq<Error>, lo: nat, mid: nat, hi: nat)
    requires InOrder(a, lo, mid) && InOrder(b, mid, hi) && lo <= mid <= hi
    ensures InOrder(a + b, lo, hi)
  {
    hide Rank;
  }

  lemma InputErrorsInOrder(Z: Mat, columns: nat, x: Vec)
    ensures InOrder(InputErrors(Z, columns, x), 0, 3)
  {
    var a := if NonnegMat(Z) then [] else [NegativeFlows(CountBelow(Z, 0.0))];
    var b := if Positive(x) then [] else [NonpositiveOutput(Nonpositive(x))];
    var c := if Fits(Z, columns, x) then [] else [DimensionMismatch];
    assert InOrder(a, 0, 1) && InOrder(b, 1, 2) && InOrder(c, 2, 3);
    hide InOrder;
    InOrderConcat(a, b, 0, 1, 2);
    InOrderConcat(a + b, c, 0, 2, 3);
  }

  lemma CoefficientErrorsInOrder(A: Mat, r: Routines)
    requires IsSquare(A)
    ensures InOrder(CoefficientErrors(A, r), 3, 6)
  {
    hide RadiusBelowOne, CountBelow, Nonpositive, Sum;
    var below, va, count := RadiusBelowOne(r.spectrum(A)), ValueAdded(A), CountBelow(r.solve(A), -INVERSE_TOLERANCE);
    var a := if below then [] else [RadiusNotBelowOne];
    var b := if Positive(va) then [] else [NonpositiveValueAdded(Nonpositive(va))];
    var c := if below && count > 0 then [NegativeInverse(count)] else [];
    assert InOrder(a, 3, 4) && InOrder(b, 4, 5) && InOrder(c, 5, 6);
    hide InOrder;
    InOrderConcat(a, b, 3, 4, 5);
    InOrderConcat(a + b, c, 3, 5, 6);
    assert CoefficientErrors(A, r) == a + b + c;
  }

  /** Errors are reported in the order of the tests, each at most once. */
  lemma ErrorsInOrder(Z: Mat, columns: nat, x: Vec, r: Routines)
    requires Rect(Z, |Z|, columns)
    ensures InOrder(Errors(Z, columns, x, r), 0, 6)
  {
    InputErrorsInOrder(Z, columns, x);
    assert InOrder([], 3, 6);
    hide InOrder, InputErrors, CoefficientErrors;
    if Positive(x) && Fits(Z, columns, x) {
      CoefficientErrorsInOrder(Coefficients(Z, x), r);
      InOrderConcat(InputErrors(Z, columns, x), CoefficientErrors(Coefficients(Z, x), r), 0, 3, 6);
    } else {
      InOrderConcat(InputErrors(Z, columns, x), [], 0, 3, 6);
    }
  }

  /** A warning names a sector whose column of the computed inverse sums to less than 1 or more than 5,
      and every such sector is named; there are none when an eigenvalue lies outside the unit disc. */
  lemma WarningsMean(A: Mat, codes: string, r: Routines, issue: Issue)
    requires IsSquare(A) && |codes| == |A| && r.SolvesTo(A)
    ensures issue in Warnings(A, codes, r) <==>
      (!AnyOutsideUnit(r.spectrum(A)) && exists i: nat :: i < |A| && WarnsOf(r.solve(A), codes, i, issue))
  {
    hide Sum, Complex.SquaredModulus, RangeIssues;
    var B := r.solve(A);
    assert RadiusBelowOne(r.spectrum(A)) <==> !AnyOutsideUnit(r.spectrum(A));
    RangeIssuesAre(codes, Multipliers(B), issue);
    forall i: nat ensures RangeIssueAt(codes, Multipliers(B), i, issue) <==> i < |A| && WarnsOf(B, codes, i, issue) {
    }
  }

  /** The outcome as a whole: what is reported of Z and x, and, when these are good enough to compute
      coefficients, what is reported of the coefficients and which sectors are warned of. */
  lemma ValidationMeans(v: Validation, Z: Mat, columns: nat, x: Vec, codes: string, r: Routines,
      e: Error, issue: Issue)
    requires Rect(Z, |Z|, columns) && |x| <= |codes| && Describes(v, Z, columns, x, codes, r) && v.Validated?
    ensures var computable := !AnyNotPositive(x) && |Z| == columns == |x|;
      (!computable ==> (e in v.errors <==> e in InputErrors(Z, columns, x)) && v.warnings == []) &&
      (computable ==>
        var A := Coefficients(Z, x);
        (e in v.errors <==> e in InputErrors(Z, columns, x) || e in CoefficientErrors(A, r)) &&
        r.SolvesTo(A) &&
        (issue in v.warnings <==>
          !AnyOutsideUnit(r.spectrum(A)) && exists i: nat :: i < |A| && WarnsOf(r.solve(A), codes[..|x|], i, issue)))
  {
    AllPositive(x);
    hide InputErrors, CoefficientErrors, AnyNotPositive, AnyOutsideUnit, WarnsOf, Warnings, Positive;
    if Positive(x) && Fits(Z, columns, x) {
      WarningsMean(Coefficients(Z, x), codes[..|x|], r, issue);
    }
  }

  predicate WarnsOf(B: Mat, codes: string, i: nat, issue: Issue)
    requires IsSquare(B) && i < |B| == |codes|
  {
    var m := Sum(Col(B, i));
    (m < 1.0 && issue == Impossible(codes[i], m)) || (m > 5.0 && issue == Unrealistic(codes[i], m))
  }

  // ---------- when a model is accepted ----------

  /** A model of the right shape with at least one sector, nonnegative flows and positive outputs, in
      which every sector's inputs cost less than its output. */
  predicate Viable(Z: Mat, columns: nat, x: Vec)
    requires Rect(Z, |Z|, columns)
  {
    x != [] && Fits(Z, columns, x) && NonnegMat(Z) && Positive(x) &&
    forall j :: 0 <= j < |x| ==> Sum(Col(Z, j)) < x[j]
  }

  lemma ColumnBelow(c: real, x: real, z: real)
    requires x > 0.0 && c * x == z
    ensures z < x <==> 1.0 - c > 0.0
  {
    assert (1.0 - c) * x == x - z;
    if c > 1.0 {
      SameSignProduct(c - 1.0, x, z - x);
    } else if c < 1.0 {
      SameSignProduct(1.0 - c, x, x - z);
    }
  }

  /** Value added is positive everywhere exactly when every sector's inputs cost less than its output. */
  lemma ValueAddedPositive(Z: Mat, x: Vec)
    requires Rect(Z, |x|, |x|) && Positive(x)
    ensures Positive(ValueAdded(Coefficients(Z, x))) <==>
      forall j :: 0 <= j < |x| ==> Sum(Col(Z, j)) < x[j]
  {
    hide Sum;
    var A := Coefficients(Z, x);
    forall j | 0 <= j < |x| ensures ValueAdded(A)[j] > 0.0 <==> Sum(Col(Z, j)) < x[j] {
      CoefficientColumn(Z, x, j);
      ColumnBelow(Sum(Col(A, j)), x[j], Sum(Col(Z, j)));
    }
  }

  lemma CoefficientsNonneg(Z: Mat, x: Vec)
    requires Rect(Z, |x|, |x|) && Positive(x) && NonnegMat(Z)
    ensures NonnegMat(Coefficients(Z, x))
  {
    forall i, j | 0 <= i < |x| && 0 <= j < |x| ensures Coefficients(Z, x)[i][j] >= 0.0 {
      assert Z[i][j] >= 0.0;
      RatioNotNegative(Z[i][j], x[j]);
    }
  }

  /** A positive bound below every entry. */
  lemma Smallest(v: Vec) returns (m: real)
    requires Positive(v)
    ensures m > 0.0 && forall i :: 0 <= i < |v| ==> m <= v[i]
  {
    m := 1.0;
    for i := 0 to |v|
      invariant m > 0.0 && forall k :: 0 <= k < i ==> m <= v[k]
    {
      if v[i] < m {
        m := v[i];
      }
    }
  }

  /** Nonnegative coefficients that leave every sector some value added are a column contraction. */
  lemma ContractionFromValueAdded(A: Mat) returns (v: real)
    requires IsSquare(A) && NonnegMat(A) && Positive(ValueAdded(A))
    ensures ColumnContraction(A, v)
  {
    hide Sum;
    v := Smallest(ValueAdded(A));
    forall j | 0 <= j < |A| ensures Sum(Col(A, j)) <= 1.0 - v {
      assert v <= ValueAdded(A)[j];
    }
  }

  /** What the tests on the inverse and its multipliers find in a nonnegative, inverse-monotone A:
      nothing negative, and no multiplier below 1. */
  lemma SolvedInverse(A: Mat, r: Routines)
    requires IsSquare(A) && NonnegMat(A) && InverseMonotone(A) && CorrectFor(r, A)
    ensures LeontiefInverse(A, r.solve(A)) && CountBelow(r.solve(A), -INVERSE_TOLERANCE) == 0
    ensures forall j :: 0 <= j < |A| ==> Multipliers(r.solve(A))[j] >= 1.0
  {
    hide Sum, Dot, CountBelow, Multipliers, LeontiefInverse, InverseMonotone;
    var E := InverseExists(A);
    var B := r.solve(A);
    InverseNonnegative(A, B);
    NoneBelow(B, -INVERSE_TOLERANCE);
    MultipliersAtLeastOne(A, B);
  }

  predicate Accepted(v: Validation) {
    v.Validated? && v.errors == []
  }

  /** A model is accepted exactly when it is viable: the tests of the spectral radius and of the
      inverse never reject a model that passes the others. */
  lemma AcceptedExactly(v: Validation, Z: Mat, columns: nat, x: Vec, codes: string, r: Routines)
    requires Rect(Z, |Z|, columns) && |x| <= |codes| && Correct(r)
    requires Describes(v, Z, columns, x, codes, r)
    ensures Accepted(v) <==> Viable(Z, columns, x)
  {
    hide Sum, Errors;
    ErrorFree(Z, columns, x, r);
  }

  lemma ErrorFree(Z: Mat, columns: nat, x: Vec, r: Routines)
    requires Rect(Z, |Z|, columns) && Correct(r)
    ensures x != [] || !Fits(Z, columns, x) ==> (Errors(Z, columns, x, r) == [] <==> Viable(Z, columns, x))
  {
    hide Sum, CountBelow, Nonpositive, Correct, NonnegMat, CoefficientErrors;
    if Positive(x) && Fits(Z, columns, x) {
      ValueAddedPositive(Z, x);
      var A := Coefficients(Z, x);
      assert CorrectFor(r, A) by {
        CorrectAt(r, A);
      }
      if NonnegMat(Z) && Positive(ValueAdded(A)) {
        CoefficientsNonneg(Z, x);
        NoCoefficientErrors(A, r);
      } else {
        ValueAddedError(A, r);
      }
    }
  }

  lemma CorrectAt(r: Routines, A: Mat)
    requires Correct(r) && IsSquare(A)
    ensures CorrectFor(r, A)
  {
  }

  lemma ValueAddedError(A: Mat, r: Routines)
    requires IsSquare(A)
    ensures CoefficientErrors(A, r) == [] ==> Positive(ValueAdded(A))
  {
  }

  lemma NoCoefficientErrors(A: Mat, r: Routines)
    requires IsSquare(A) && NonnegMat(A) && Positive(ValueAdded(A)) && CorrectFor(r, A)
    ensures CoefficientErrors(A, r) == []
    ensures RadiusBelowOne(r.spectrum(A))
    ensures LeontiefInverse(A, r.solve(A))
    ensures forall j :: 0 <= j < |A| ==> Multipliers(r.solve(A))[j] >= 1.0
  {
    hide Sum, Dot, CountBelow, Nonpositive, Complex.SquaredModulus, Multipliers, LeontiefInverse,
      InverseMonotone, ColumnContraction;
    var v := ContractionFromValueAdded(A);
    forall k | 0 <= k < |r.spectrum(A)| ensures r.spectrum(A)[k].SquaredModulus() < 1.0 {
      SpectralRadiusBound(A, v, r.spectrum(A)[k]);
    }
    ColumnMonotone(A, v);
    SolvedInverse(A, r);
  }

  /** Under the row condition A x <= rho x the value-added test is the only one that can fail, and
      it names exactly the sectors whose inputs cost at least their output. */
  lemma RowContractionErrors(A: Mat, x: Vec, rho: real, r: Routines)
    requires RowContraction(A, x, rho) && CorrectFor(r, A)
    ensures CoefficientErrors(A, r) ==
      if Positive(ValueAdded(A)) then [] else [NonpositiveValueAdded(Nonpositive(ValueAdded(A)))]
    ensures RadiusBelowOne(r.spectrum(A)) && LeontiefInverse(A, r.solve(A))
    ensures forall j :: 0 <= j < |A| ==> Multipliers(r.solve(A))[j] >= 1.0
  {
    hide Sum, Dot, CountBelow, Nonpositive, Complex.SquaredModulus, Multipliers, LeontiefInverse,
      InverseMonotone;
    forall k | 0 <= k < |r.spectrum(A)| ensures r.spectrum(A)[k].SquaredModulus() < 1.0 {
      RowSpectralBound(A, x, rho, r.spectrum(A)[k]);
    }
    RowMonotone(A, x, rho);
    SolvedInverse(A, r);
  }

  /** An accepted model draws only warnings of multipliers above 5. */
  lemma AcceptedWarnings(v: Validation, Z: Mat, columns: nat, x: Vec, codes: string, r: Routines, issue: Issue)
    requires Rect(Z, |Z|, columns) && |x| <= |codes| && Correct(r)
    requires Describes(v, Z, columns, x, codes, r) && Accepted(v) && issue in v.warnings
    ensures issue.Unrealistic? && issue.m > 5.0
  {
    AcceptedExactly(v, Z, columns, x, codes, r);
    hide Sum, Correct, Errors, CoefficientErrors, Multipliers;
    var A := Coefficients(Z, x);
    CorrectAt(r, A);
    CoefficientsNonneg(Z, x);
    ValueAddedPositive(Z, x);
    NoCoefficientErrors(A, r);
    RangeIssuesAre(codes[..|x|], Multipliers(r.solve(A)), issue);
  }
}
