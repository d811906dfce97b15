/** The test fixtures: a coefficient matrix whose rows are scaled down in place until no sector
    sells more than 70% of its output to other sectors, the flows built and checked from it, and
    the benchmark multipliers computed from those flows. */
module FixtureModel {
  import opened Vectors
  import opened Matrices
  import opened Leontief
  import opened Elimination
  import opened Rounding
  import opened ModelValidator
  import SyntheticModel

  const MAX_SALES_RATIO := 0.7

  // ---------- capping the rows ----------

  function Scaled(c: real, v: Vec): (w: Vec)
    ensures |w| == |v| && forall j :: 0 <= j < |v| ==> w[j] == v[j] * c
  {
    seq(|v|, j requires 0 <= j < |v| => v[j] * c)
  }

  /** A row of coefficients after capping; `output` is the selling sector's own gross output. */
  function CappedRow(row: Vec, x: Vec, output: real): (r: Vec)
    requires |row| == |x| && output >= 0.0
    ensures |r| == |row|
  {
    var sales := Dot(row, x);
    var limit := MAX_SALES_RATIO * output;
    if sales > limit then Scaled(limit / sales, row) else row
  }

  function Capped(A: Mat, x: Vec): (C: Mat)
    requires Rect(A, |x|, |x|) && Nonneg(x)
    ensures Rect(C, |x|, |x|)
    ensures forall i :: 0 <= i < |x| ==> C[i] == CappedRow(A[i], x, x[i])
  {
    seq(|x|, i requires 0 <= i < |x| => CappedRow(A[i], x, x[i]))
  }

  function Row(A: array2<real>, i: nat): (row: Vec)
    requires i < A.Length0
    reads A
    ensures |row| == A.Length1 && forall j :: 0 <= j < A.Length1 ==> row[j] == A[i, j]
  {
    seq(A.Length1, j requires 0 <= j < A.Length1 reads A => A[i, j])
  }

  /** The scaling loop. Division is safe because a row is scaled only when its sales exceed a
      limit that is not negative. */
  method CapRows(A: array2<real>, x: Vec)
    requires A.Length0 == A.Length1 == |x| && Nonneg(x)
    modifies A
    ensures SyntheticModel.Contents(A) == Capped(old(SyntheticModel.Contents(A)), x)
  {
    hide Dot, CappedRow;
    var n := |x|;
    ghost var before := SyntheticModel.Contents(A);
    for i := 0 to n
      invariant forall k :: 0 <= k < i ==> Row(A, k) == CappedRow(before[k], x, x[k])
      invariant forall k :: i <= k < n ==> Row(A, k) == before[k]
    {
      CapRow(A, i, x);
    }
    assert forall k :: 0 <= k < n ==> SyntheticModel.Contents(A)[k] == Row(A, k);
  }

  method CapRow(A: array2<real>, i: nat, x: Vec)
    requires i < A.Length0 && A.Length1 == |x| && i < |x| && Nonneg(x)
    modifies A
    ensures Row(A, i) == CappedRow(old(Row(A, i)), x, x[i])
    ensures forall k :: 0 <= k < A.Length0 && k != i ==> Row(A, k) == old(Row(A, k))
  {
    hide Dot;
    var rowSales := Dot(Row(A, i), x);
    var maxSales := MAX_SALES_RATIO * x[i];
    if rowSales > maxSales {
      ScaleRow(A, i, maxSales / rowSales);
    }
  }

  method ScaleRow(A: array2<real>, i: nat, scale: real)
    requires i < A.Length0
    modifies A
    ensures Row(A, i) == Scaled(scale, old(Row(A, i)))
    ensures forall k :: 0 <= k < A.Length0 && k != i ==> Row(A, k) == old(Row(A, k))
  {
    for j := 0 to A.Length1
      invariant forall l :: 0 <= l < j ==> A[i, l] == old(A[i, l]) * scale
      invariant forall l :: j <= l < A.Length1 ==> A[i, l] == old(A[i, l])
      invariant forall k, l :: 0 <= k < A.Length0 && k != i && 0 <= l < A.Length1 ==>
        A[k, l] == old(A[k, l])
    {
      A[i, j] := A[i, j] * scale;
    }
    forall l | 0 <= l < A.Length1 ensures Row(A, i)[l] == Scaled(scale, old(Row(A, i)))[l] {
      assert old(A[i, l]) == old(Row(A, i))[l];
    }
    forall k | 0 <= k < A.Length0 && k != i ensures Row(A, k) == old(Row(A, k)) {
      assert forall l :: 0 <= l < A.Length1 ==> old(A[k, l]) == old(Row(A, k))[l];
    }
  }

  // ---------- what capping guarantees ----------

  lemma ScaledSales(row: Vec, x: Vec, c: real)
    requires |row| == |x|
    ensures Dot(Scaled(c, row), x) == c * Dot(row, x)
  {
    hide Dot;
    DotSymmetric(Scaled(c, row), x);
    DotSymmetric(row, x);
    DotScale(x, Scaled(c, row), c, row);
  }

  /** A capped row sells the smaller of what it sold before and 70% of the sector's output. */
  lemma CappedSales(row: Vec, x: Vec, output: real)
    requires |row| == |x| && output >= 0.0
    ensures Dot(CappedRow(row, x, output), x) ==
      if Dot(row, x) > 0.7 * output then 0.7 * output else Dot(row, x)
  {
    hide Dot;
    var sales, limit := Dot(row, x), MAX_SALES_RATIO * output;
    if sales > limit {
      ScaledSales(row, x, limit / sales);
      assert limit / sales * sales == limit;
    }
  }

  /** A capped row keeps its proportions. */
  lemma CappedProportional(row: Vec, x: Vec, output: real, j: nat, k: nat)
    requires |row| == |x| && output >= 0.0 && j < |row| && k < |row|
    ensures var r := CappedRow(row, x, output); r[j] * row[k] == r[k] * row[j]
  {
    hide Dot;
  }

  /** Capping again changes nothing. */
  lemma CappingIdempotent(A: Mat, x: Vec)
    requires Rect(A, |x|, |x|) && Nonneg(x)
    ensures Capped(Capped(A, x), x) == Capped(A, x)
  {
    hide Dot;
    var C := Capped(A, x);
    forall i | 0 <= i < |x| ensures Capped(C, x)[i] == C[i] {
      CappedSales(A[i], x, x[i]);
    }
  }

  /** A row within its limit is left as it was, and only such rows are. */
  lemma CompliantRowsKept(A: Mat, x: Vec, i: nat)
    requires Rect(A, |x|, |x|) && Nonneg(x) && i < |x|
    ensures Capped(A, x)[i] == A[i] <==> Dot(A[i], x) <= 0.7 * x[i]
  {
    hide Dot;
    CappedSales(A[i], x, x[i]);
  }

  lemma Fraction(a: real, b: real)
    requires 0.0 <= a < b
    ensures 0.0 <= a / b < 1.0
  {
    assert a / b * b == a;
    if a / b >= 1.0 {
      ScaleLe(b, 1.0, a / b);
    }
  }

  /** No coefficient is raised and none turns negative. */
  lemma CoefficientsNotRaised(A: Mat, x: Vec, i: nat, j: nat)
    requires Rect(A, |x|, |x|) && Nonneg(x) && NonnegMat(A) && i < |x| && j < |x|
    ensures 0.0 <= Capped(A, x)[i][j] <= A[i][j]
  {
    hide Dot;
    var sales, limit := Dot(A[i], x), MAX_SALES_RATIO * x[i];
    if sales > limit {
      Fraction(limit, sales);
      ScaleLe(A[i][j], 0.0, limit / sales);
      ScaleLe(A[i][j], limit / sales, 1.0);
    }
  }

  /** Nor is any column sum: no buying sector's input share grows. */
  lemma ColumnSumsNotRaised(A: Mat, x: Vec, j: nat)
    requires Rect(A, |x|, |x|) && Nonneg(x) && NonnegMat(A) && j < |x|
    ensures Sum(Col(Capped(A, x), j)) <= Sum(Col(A, j))
  {
    hide Dot, Sum, CappedRow;
    forall i | 0 <= i < |x| ensures Col(Capped(A, x), j)[i] <= Col(A, j)[i] {
      CoefficientsNotRaised(A, x, i, j);
    }
    SumMonotone(Col(Capped(A, x), j), Col(A, j));
  }

  /** After capping, A x <= 0.7 x: the row condition of the Leontief results, with no condition on
      the columns at all. */
  lemma CappedContraction(A: Mat, x: Vec)
    requires Rect(A, |x|, |x|) && NonnegMat(A) && Positive(x)
    ensures RowContraction(Capped(A, x), x, MAX_SALES_RATIO)
  {
    hide Dot, CappedRow;
    forall i, j | 0 <= i < |x| && 0 <= j < |x| ensures Capped(A, x)[i][j] >= 0.0 {
      CoefficientsNotRaised(A, x, i, j);
    }
    forall i | 0 <= i < |x| ensures Dot(Capped(A, x)[i], x) <= MAX_SALES_RATIO * x[i] {
      CappedSales(A[i], x, x[i]);
    }
  }

  // ---------- the model and its guard ----------

  /** Z = A diag(x) */
  function Flows(A: Mat, x: Vec): (Z: Mat)
    requires Rect(A, |x|, |x|)
    ensures Rect(Z, |x|, |x|)
    ensures forall i, j :: 0 <= i < |x| && 0 <= j < |x| ==> Z[i][j] == A[i][j] * x[j]
  {
    seq(|x|, i requires 0 <= i < |x| => seq(|x|, j requires 0 <= j < |x| => A[i][j] * x[j]))
  }

  datatype Outcome<+T> =
    | Ok(value: T)
    | ExcessDeliveries(sector: nat)
    | EmptyModel
    | Invalid(errors: seq<Error>)
    | MultiplierBelowOne(bad: seq<nat>)

  predicate DeliveriesCovered(Z: Mat, x: Vec, n: nat)
    requires n <= |Z| == |x|
  {
    forall i :: 0 <= i < n ==> Sum(Z[i]) <= x[i]
  }

  /** Builds Z, stops at the first sector whose deliveries exceed its output, and then has the
      engine's validator check the model. */
  method BuildModel(A: Mat, x: Vec, codes: string, solvers: Routines) returns (r: Outcome<Mat>)
    requires Rect(A, |x|, |x|) && |codes| == |x|
    requires forall C: Mat :: IsSquare(C) ==> solvers.SolvesTo(C)
    ensures r.ExcessDeliveries? <==> !DeliveriesCovered(Flows(A, x), x, |x|)
    ensures r.ExcessDeliveries? ==>
      (r.sector < |x| && Sum(Flows(A, x)[r.sector]) > x[r.sector] &&
       DeliveriesCovered(Flows(A, x), x, r.sector))
    ensures r.EmptyModel? <==> x == []
    ensures r.Ok? || r.Invalid? <==> !r.ExcessDeliveries? && !r.EmptyModel?
    ensures r.Ok? ==> r.value == Flows(A, x) && Errors(r.value, |x|, x, solvers) == []
    ensures r.Invalid? ==> r.errors == Errors(Flows(A, x), |x|, x, solvers) != []
  {
    hide Sum, Errors;
    var Z := Flows(A, x);
    var rowSums := RowSums(Z);
    for i := 0 to |x|
      invariant DeliveriesCovered(Z, x, i)
    {
      if rowSums[i] > x[i] {
        return ExcessDeliveries(i);
      }
    }
    var result := ValidateModel(Z, |x|, x, codes, solvers);
    if result.NoEigenvalues? {
      return EmptyModel;
    }
    if result.errors != [] {
      return Invalid(result.errors);
    }
    r := Ok(Z);
  }

  lemma {:induction false} RowOfFlows(a: Vec, x: Vec, z: Vec)
    requires |a| == |x| == |z| && forall j :: 0 <= j < |x| ==> z[j] == a[j] * x[j]
    ensures Sum(z) == Dot(a, x)
  {
    if |x| > 0 {
      var m := |x| - 1;
      DotLast(a, x, m);
      SumLast(z, m);
      RowOfFlows(a[..m], x[..m], z[..m]);
    }
  }

  /** The delivery guard never fires on a capped matrix. */
  lemma CappedDeliveriesCovered(A: Mat, x: Vec, i: nat)
    requires Rect(A, |x|, |x|) && Positive(x) && i < |x|
    ensures Sum(Flows(Capped(A, x), x)[i]) <= 0.7 * x[i] < x[i]
  {
    hide Dot, Sum;
    CappedSales(A[i], x, x[i]);
    RowOfFlows(Capped(A, x)[i], x, Flows(Capped(A, x), x)[i]);
  }

  /** Dividing the flows by output recovers the coefficients. */
  lemma FlowsRoundTrip(A: Mat, x: Vec)
    requires Rect(A, |x|, |x|) && Positive(x)
    ensures SyntheticModel.Coefficients(Flows(A, x), x) == A
  {
    hide Flows, SyntheticModel.Coefficients;
    forall i, j | 0 <= i < |x| && 0 <= j < |x|
      ensures SyntheticModel.Coefficients(Flows(A, x), x)[i][j] == A[i][j]
    {
      var z := Flows(A, x)[i][j];
      assert z == A[i][j] * x[j];
      Cancel(A[i][j], x[j], z);
      assert SyntheticModel.Coefficients(Flows(A, x), x)[i][j] == z / x[j];
    }
    MatExtensional(SyntheticModel.Coefficients(Flows(A, x), x), A, |x|);
  }

  lemma Cancel(a: real, b: real, ab: real)
    requires b != 0.0 && ab == a * b
    ensures ab / b == a
  {
  }

  // ---------- the benchmark ----------

  datatype Benchmark = Benchmark(sector: char, multiplier: real)

  /** The benchmark list: column sums of the inverse B returned by the solver, rounded to four
      decimals; raises when a rounded multiplier is below 1. */
  method BuildBenchmark(codes: string, B: Mat) returns (r: Outcome<seq<Benchmark>>)
    requires IsSquare(B) && |codes| <= |B|
    ensures r.Ok? || r.MultiplierBelowOne?
    ensures r.Ok? <==> forall i :: 0 <= i < |codes| ==> RoundTo(Multipliers(B)[i], 10000) >= 1.0
    ensures r.Ok? ==> |r.value| == |codes| && forall i :: 0 <= i < |codes| ==>
      r.value[i] == Benchmark(codes[i], RoundTo(Multipliers(B)[i], 10000))
    ensures r.MultiplierBelowOne? ==> r.bad != [] && forall k :: 0 <= k < |codes| ==>
      (k in r.bad <==> RoundTo(Multipliers(B)[k], 10000) < 1.0)
  {
    hide RoundTo, Sum;
    var multipliers := Multipliers(B);
    var sectors: seq<Benchmark> := [];
    var bad: seq<nat> := [];
    for i := 0 to |codes|
      invariant |sectors| == i && forall k :: 0 <= k < i ==>
        sectors[k] == Benchmark(codes[k], RoundTo(multipliers[k], 10000))
      invariant forall k :: k in bad ==> 0 <= k < i
      invariant forall k :: 0 <= k < i ==> (k in bad <==> RoundTo(multipliers[k], 10000) < 1.0)
    {
      var m := RoundTo(multipliers[i], 10000);
      sectors := sectors + [Benchmark(codes[i], m)];
      if m < 1.0 {
        bad := bad + [i];
      }
    }
    if bad != [] {
      assert bad[0] in bad;
      r := MultiplierBelowOne(bad);
    } else {
      r := Ok(sectors);
    }
  }

  /** Rounding does not push a multiplier of at least 1 below 1. */
  lemma RoundedAtLeastOne(m: real)
    requires m >= 1.0
    ensures RoundTo(m, 10000) >= 1.0
  {
    RoundToExact(1.0, 10000, 10000);
    RoundToMonotone(1.0, m, 10000);
  }

  /** The coefficients the benchmark works with: capped, turned into flows, and divided back. */
  function BenchmarkA(A: Mat, x: Vec): (C: Mat)
    requires Rect(A, |x|, |x|) && Positive(x)
    ensures Rect(C, |x|, |x|)
  {
    SyntheticModel.Coefficients(Flows(Capped(A, x), x), x)
  }

  lemma BenchmarkContraction(A: Mat, x: Vec)
    requires Rect(A, |x|, |x|) && NonnegMat(A) && Positive(x)
    ensures RowContraction(BenchmarkA(A, x), x, MAX_SALES_RATIO)
  {
    FlowsRoundTrip(Capped(A, x), x);
    CappedContraction(A, x);
  }

  /** From any nonnegative profile matrix and positive outputs, the row cap alone makes the inverse
      exist, unique and nonnegative, with B x <= x / 0.3. */
  lemma BenchmarkInverse(A: Mat, x: Vec) returns (B: Mat)
    requires Rect(A, |x|, |x|) && NonnegMat(A) && Positive(x)
    ensures LeontiefInverse(BenchmarkA(A, x), B) && NonnegMat(B)
    ensures forall B' :: LeontiefInverse(BenchmarkA(A, x), B') ==> B' == B
    ensures forall i :: 0 <= i < |x| ==> (1.0 - MAX_SALES_RATIO) * Apply(B, x)[i] <= x[i]
  {
    hide Dot, Sum, Mul, IMinus, BenchmarkA, LeontiefInverse, InverseMonotone;
    var C := BenchmarkA(A, x);
    BenchmarkContraction(A, x);
    RowMonotone(C, x, MAX_SALES_RATIO);
    B := InverseExists(C);
    InverseNonnegative(C, B);
    InverseBoundsOutput(C, B, x, MAX_SALES_RATIO);
    forall B' | LeontiefInverse(C, B') ensures B' == B {
      InverseUnique(C, B, B');
    }
  }

  /** Every benchmark multiplier is at least 1, before and after rounding to four decimals, so
      `BuildBenchmark` never raises. */
  lemma BenchmarkNeverRaises(A: Mat, x: Vec, B: Mat, j: nat)
    requires Rect(A, |x|, |x|) && NonnegMat(A) && Positive(x) && j < |x|
    requires LeontiefInverse(BenchmarkA(A, x), B)
    ensures Multipliers(B)[j] >= 1.0 && RoundTo(Multipliers(B)[j], 10000) >= 1.0
  {
    hide Dot, Sum, Mul, IMinus, BenchmarkA, Multipliers, RoundTo, InverseMonotone;
    BenchmarkContraction(A, x);
    RowMonotone(BenchmarkA(A, x), x, MAX_SALES_RATIO);
    MultipliersAtLeastOne(BenchmarkA(A, x), B);
    RoundedAtLeastOne(Multipliers(B)[j]);
  }

  // ---------- the script from end to end ----------

  /** On a capped model the validator's only possible complaint is value added: the row cap settles
      the spectral radius and the inverse, and says nothing about the columns. */
  lemma CappedErrors(A: Mat, x: Vec, solvers: Routines)
    requires Rect(A, |x|, |x|) && NonnegMat(A) && Positive(x) && Correct(solvers)
    ensures Errors(Flows(Capped(A, x), x), |x|, x, solvers) ==
      var va := ValueAdded(Capped(A, x));
      if Positive(va) then [] else [NonpositiveValueAdded(Nonpositive(va))]
  {
    hide Dot, Sum, Capped, RowContraction, CoefficientErrors, Correct;
    var C := Capped(A, x);
    FlowsRoundTrip(C, x);
    CappedContraction(A, x);
    CorrectAt(solvers, C);
    ContractionIsNonneg(C, x, MAX_SALES_RATIO);
    FlowsNonneg(C, x);
    RowContractionErrors(C, x, MAX_SALES_RATIO, solvers);
  }

  lemma ContractionIsNonneg(A: Mat, x: Vec, rho: real)
    requires RowContraction(A, x, rho)
    ensures NonnegMat(A)
  {
  }

  lemma FlowsNonneg(A: Mat, x: Vec)
    requires Rect(A, |x|, |x|) && NonnegMat(A) && Positive(x)
    ensures NonnegMat(Flows(A, x))
  {
    forall i, j | 0 <= i < |x| && 0 <= j < |x| ensures Flows(A, x)[i][j] >= 0.0 {
      ScaleLe(A[i][j], 0.0, x[j]);
    }
  }

  /** A profile in which every sector's inputs cost less than its output is accepted whatever the
      outputs: capping rows never raises a column. */
  lemma ProfileColumnsSuffice(A: Mat, x: Vec)
    requires Rect(A, |x|, |x|) && NonnegMat(A) && Positive(x) && Positive(ValueAdded(A))
    ensures Positive(ValueAdded(Capped(A, x)))
  {
    hide Sum, Capped;
    forall j | 0 <= j < |x| ensures ValueAdded(Capped(A, x))[j] > 0.0 {
      ColumnSumsNotRaised(A, x, j);
      assert ValueAdded(A)[j] > 0.0;
    }
  }

  const EXPENSIVE: Mat := [[0.0, 5.0], [0.0, 0.0]]
  const EXPENSIVE_OUTPUT: Vec := [100.0, 1.0]

  lemma SumOfTwo(v: Vec)
    requires |v| == 2
    ensures Sum(v) == v[0] + v[1]
  {
    assert SumTo(v, 1) == SumTo(v, 0) + v[0];
  }

  lemma DotOfTwo(u: Vec, v: Vec)
    requires |u| == |v| == 2
    ensures Dot(u, v) == u[0] * v[0] + u[1] * v[1]
  {
    assert DotTo(u, v, 1) == DotTo(u, v, 0) + u[0] * v[0];
  }

  lemma ExpensiveColumns()
    ensures Capped(EXPENSIVE, EXPENSIVE_OUTPUT) == EXPENSIVE
    ensures Nonpositive(ValueAdded(EXPENSIVE)) == [1]
  {
    var A, x := EXPENSIVE, EXPENSIVE_OUTPUT;
    DotOfTwo(A[0], x);
    DotOfTwo(A[1], x);
    hide Dot;
    var va := ValueAdded(A);
    SumOfTwo(Col(A, 0));
    SumOfTwo(Col(A, 1));
    hide Sum;
    assert va == [1.0, -4.0];
    assert va[..1] == [1.0] && va[..1][..0] == [];
    assert Nonpositive(va[..1]) == [];
  }

  /** Some nonnegative matrix with positive outputs is rejected: here both rows are within their
      limits, so capping changes nothing, and the second sector's inputs cost five times its output. */
  lemma ExpensiveColumnRejected(solvers: Routines)
    requires Correct(solvers)
    ensures NonnegMat(EXPENSIVE) && Positive(EXPENSIVE_OUTPUT)
    ensures Errors(Flows(Capped(EXPENSIVE, EXPENSIVE_OUTPUT), EXPENSIVE_OUTPUT), 2, EXPENSIVE_OUTPUT, solvers)
         == [NonpositiveValueAdded([1])]
  {
    hide Errors, Correct, Capped, ValueAdded;
    ExpensiveColumns();
    CappedErrors(EXPENSIVE, EXPENSIVE_OUTPUT, solvers);
    assert Nonpositive([]) == [];
  }

  /** The script from the filled coefficient matrix to the benchmark list: cap the rows in place,
      build the flows, validate them, recover the coefficients, solve, sum and round. For every
      nonnegative matrix and every positive output vector, and with any correct solvers, it
      succeeds exactly when there is some sector and every column of the capped matrix sums to less
      than 1. The one other outcome for a nonempty model is the validator's report of the columns
      that do not; excess deliveries and multipliers below 1 are never reported. */
  method GenerateFixtures(A: array2<real>, x: Vec, codes: string, solvers: Routines)
    returns (r: Outcome<seq<Benchmark>>)
    requires A.Length0 == A.Length1 == |x| && NonnegMat(SyntheticModel.Contents(A)) && Positive(x)
    requires |codes| == |x| && Correct(solvers)
    modifies A
    ensures SyntheticModel.Contents(A) == Capped(old(SyntheticModel.Contents(A)), x)
    ensures r.EmptyModel? <==> x == []
    ensures r.Ok? <==> x != [] && Positive(ValueAdded(SyntheticModel.Contents(A)))
    ensures r.Ok? || r.EmptyModel? ||
      r == Invalid([NonpositiveValueAdded(Nonpositive(ValueAdded(SyntheticModel.Contents(A))))])
    ensures r.Ok? ==> |r.value| == |x| && forall j :: 0 <= j < |x| ==> r.value[j].multiplier >= 1.0
    ensures r.Ok? ==> exists B :: LeontiefInverse(SyntheticModel.Contents(A), B)
    ensures r.Ok? ==> forall B :: LeontiefInverse(SyntheticModel.Contents(A), B) ==> Reports(r.value, codes, B)
  {
    hide Dot, Sum, Capped, Flows, InverseMonotone, LeontiefInverse, RoundTo, Multipliers, NonnegMat,
      Errors, Correct, Nonpositive, Reports;
    ghost var profile := SyntheticModel.Contents(A);
    PositiveIsNonneg(x);
    CapRows(A, x);
    AllShaped(solvers);
    var model := BuildModel(SyntheticModel.Contents(A), x, codes, solvers);
    forall i | 0 <= i < |x| ensures Sum(Flows(Capped(profile, x), x)[i]) <= x[i] {
      CappedDeliveriesCovered(profile, x, i);
    }
    CappedErrors(profile, x, solvers);
    match model {
      case EmptyModel => r := EmptyModel;
      case Invalid(errors) => r := Invalid(errors);
      case Ok(Z) =>
        var C := SyntheticModel.Coefficients(Z, x);
        BenchmarkContraction(profile, x);
        BenchmarkSolved(C, x, solvers);
        var B := solvers.solve(C);
        forall j | 0 <= j < |x| ensures RoundTo(Multipliers(B)[j], 10000) >= 1.0 {
          BenchmarkNeverRaises(profile, x, B, j);
        }
        r := BuildBenchmark(codes, B);
        BenchmarkReports(profile, x, codes, B, r.value);
    }
  }

  /** The list gives each code the column sum of B, rounded to the nearest 0.0001. */
  predicate Reports(list: seq<Benchmark>, codes: string, B: Mat) {
    IsSquare(B) && |list| == |codes| == |B| &&
    forall j :: 0 <= j < |B| ==>
      list[j].sector == codes[j] && Nearest(list[j].multiplier, Sum(Col(B, j)), 10000)
  }

  /** A list of the rounded multipliers of one inverse of the capped matrix reports any inverse. */
  lemma BenchmarkReports(A: Mat, x: Vec, codes: string, B: Mat, list: seq<Benchmark>)
    requires Rect(A, |x|, |x|) && NonnegMat(A) && Positive(x) && |codes| == |list| == |x|
    requires LeontiefInverse(BenchmarkA(A, x), B)
    requires forall j :: 0 <= j < |x| ==> list[j] == Benchmark(codes[j], RoundTo(Multipliers(B)[j], 10000))
    ensures LeontiefInverse(Capped(A, x), B)
    ensures forall B' :: LeontiefInverse(Capped(A, x), B') ==> Reports(list, codes, B')
  {
    hide Dot, Sum, Capped, InverseMonotone, RoundTo, Nearest;
    FlowsRoundTrip(Capped(A, x), x);
    BenchmarkContraction(A, x);
    RowMonotone(Capped(A, x), x, MAX_SALES_RATIO);
    forall j | 0 <= j < |x| ensures Nearest(list[j].multiplier, Sum(Col(B, j)), 10000) {
      RoundToNearest(list[j].multiplier, Sum(Col(B, j)), 10000);
    }
    forall B' | LeontiefInverse(Capped(A, x), B') ensures Reports(list, codes, B') {
      InverseUnique(Capped(A, x), B, B');
    }
  }

  lemma PositiveIsNonneg(x: Vec)
    requires Positive(x)
    ensures Nonneg(x)
  {
  }

  lemma AllShaped(solvers: Routines)
    requires Correct(solvers)
    ensures forall C: Mat :: IsSquare(C) ==> solvers.SolvesTo(C)
  {
    forall C: Mat | IsSquare(C) ensures solvers.SolvesTo(C) {
      CorrectAt(solvers, C);
    }
  }

  lemma BenchmarkSolved(C: Mat, x: Vec, solvers: Routines)
    requires RowContraction(C, x, MAX_SALES_RATIO) && Correct(solvers)
    ensures IsSquare(C) && LeontiefInverse(C, solvers.solve(C)) && Rect(solvers.solve(C), |C|, |C|)
  {
    CorrectAt(solvers, C);
    RowContractionErrors(C, x, MAX_SALES_RATIO, solvers);
  }
}
