/** The synthetic input-output model: flows Z built from outputs x, value-added ratios and flow
    weights W, the quantities derived from Z, and the gates the build script runs on them. */
module SyntheticModel {
  import opened Vectors
  import opened Matrices
  import opened Leontief
  import opened Elimination
  import opened Spectral

  // ---------- building Z ----------

  /** The flow from supplier i to buyer j: j's intermediate inputs, shared out by the weights of
      column j; nothing when the column carries no weight. */
  function Flow(x: Vec, va: Vec, W: Mat, i: nat, j: nat): real
    requires |x| == |va| == |W| && IsSquare(W) && i < |W| && j < |W|
  {
    var total := Sum(Col(W, j));
    if total > 0.0 then x[j] * (1.0 - va[j]) * (W[i][j] / total) else 0.0
  }

  function FlowMatrix(x: Vec, va: Vec, W: Mat): (Z: Mat)
    requires |x| == |va| == |W| && IsSquare(W)
    ensures Rect(Z, |x|, |x|)
    ensures forall i, j :: 0 <= i < |x| && 0 <= j < |x| ==> Z[i][j] == Flow(x, va, W, i, j)
  {
    seq(|x|, i requires 0 <= i < |x| => seq(|x|, j requires 0 <= j < |x| => Flow(x, va, W, i, j)))
  }

  /** The contents of a two-dimensional array, row by row. */
  function Contents(Z: array2<real>): (M: Mat)
    reads Z
    ensures Rect(M, Z.Length0, Z.Length1)
    ensures forall i, j :: 0 <= i < Z.Length0 && 0 <= j < Z.Length1 ==> M[i][j] == Z[i, j]
  {
    seq(Z.Length0, i requires 0 <= i < Z.Length0 reads Z =>
      seq(Z.Length1, j requires 0 <= j < Z.Length1 reads Z => Z[i, j]))
  }

  method BuildFlows(x: Vec, va: Vec, W: Mat) returns (Z: array2<real>)
    requires |x| == |va| == |W| && IsSquare(W)
    ensures Contents(Z) == FlowMatrix(x, va, W)
  {
    hide Sum;
    var n := |x|;
    Z := new real[n, n]((i, j) => 0.0);
    for j := 0 to n
      invariant forall i, k :: 0 <= i < n && 0 <= k < j ==> Z[i, k] == Flow(x, va, W, i, k)
      invariant forall i, k :: 0 <= i < n && j <= k < n ==> Z[i, k] == 0.0
    {
      var colTotal := x[j] * (1.0 - va[j]);
      var weightSum := Sum(Col(W, j));
      if weightSum > 0.0 {
        forall i | 0 <= i < n {
          Z[i, j] := colTotal * (W[i][j] / weightSum);
        }
      }
    }
    MatExtensional(Contents(Z), FlowMatrix(x, va, W), n);
  }

  /** What a column of Z adds up to: all the intermediate inputs, or nothing. */
  lemma FlowColumnTotal(x: Vec, va: Vec, W: Mat, j: nat)
    requires |x| == |va| == |W| && IsSquare(W) && j < |x|
    ensures Sum(Col(FlowMatrix(x, va, W), j)) ==
      if Sum(Col(W, j)) > 0.0 then x[j] * (1.0 - va[j]) else 0.0
  {
    hide Sum;
    var total, c := Sum(Col(W, j)), Col(FlowMatrix(x, va, W), j);
    var inputs := x[j] * (1.0 - va[j]);
    if total > 0.0 {
      forall i | 0 <= i < |x| ensures c[i] == inputs / total * Col(W, j)[i] {
        ShareOut(inputs, W[i][j], total);
      }
      SumScale(c, inputs / total, Col(W, j));
      assert inputs / total * total == inputs;
    } else {
      SumScale(c, 0.0, Col(W, j));
    }
  }

  /** Within a column, flows are in proportion to the weights. */
  lemma FlowProportional(x: Vec, va: Vec, W: Mat, i: nat, k: nat, j: nat)
    requires |x| == |va| == |W| && IsSquare(W) && i < |W| && k < |W| && j < |W|
    ensures Flow(x, va, W, i, j) * W[k][j] == Flow(x, va, W, k, j) * W[i][j]
  {
    hide Sum;
    var total := Sum(Col(W, j));
    if total > 0.0 {
      ShareOut(x[j] * (1.0 - va[j]), W[i][j], total);
      ShareOut(x[j] * (1.0 - va[j]), W[k][j], total);
    }
  }

  lemma ShareOut(a: real, w: real, t: real)
    requires t != 0.0
    ensures a * (w / t) == a / t * w
  {
  }

  // ---------- derived quantities ----------

  /** A = Z diag(1 / x) */
  function Coefficients(Z: Mat, x: Vec): (A: Mat)
    requires Rect(Z, |x|, |x|) && Positive(x)
    ensures Rect(A, |x|, |x|)
    ensures forall i, j :: 0 <= i < |x| && 0 <= j < |x| ==> A[i][j] == Z[i][j] / x[j]
  {
    seq(|x|, i requires 0 <= i < |x| => seq(|x|, j requires 0 <= j < |x| => Z[i][j] / x[j]))
  }

  function FinalDemand(Z: Mat, x: Vec): (f: Vec)
    requires Rect(Z, |x|, |x|)
    ensures |f| == |x| && forall i :: 0 <= i < |x| ==> f[i] == x[i] - RowSums(Z)[i]
  {
    seq(|x|, i requires 0 <= i < |x| => x[i] - RowSums(Z)[i])
  }

  function ValueAddedAbs(A: Mat, x: Vec): (w: Vec)
    requires Rect(A, |x|, |x|)
    ensures |w| == |x| && forall j :: 0 <= j < |x| ==> w[j] == ValueAdded(A)[j] * x[j]
  {
    seq(|x|, j requires 0 <= j < |x| => ValueAdded(A)[j] * x[j])
  }

  datatype Derived = Derived(
    A: Mat, B: Mat, multipliers: Vec, valueAdded: Vec, finalDemand: Vec, valueAddedAbs: Vec)

  /** The derived quantities; B is the matrix the linear solver returned. */
  function Compute(Z: Mat, x: Vec, B: Mat): Derived
    requires Rect(Z, |x|, |x|) && Positive(x) && Rect(B, |x|, |x|)
  {
    var A := Coefficients(Z, x);
    Derived(A, B, Multipliers(B), ValueAdded(A), FinalDemand(Z, x), ValueAddedAbs(A, x))
  }

  /** What the derived quantities are, from Z, x and B alone. */
  lemma ComputeMeans(Z: Mat, x: Vec, B: Mat, i: nat, j: nat)
    requires Rect(Z, |x|, |x|) && Positive(x) && Rect(B, |x|, |x|) && i < |x| && j < |x|
    ensures var d := Compute(Z, x, B);
      d.A[i][j] * x[j] == Z[i][j] && d.B == B && d.multipliers[j] == Sum(Col(B, j)) &&
      d.valueAdded[j] * x[j] == x[j] - Sum(Col(Z, j)) && d.valueAddedAbs[j] == x[j] - Sum(Col(Z, j)) &&
      d.finalDemand[i] == x[i] - Sum(Z[i])
  {
    hide Sum;
    IncomeOfSector(Z, x, j);
    assert Z[i][j] / x[j] * x[j] == Z[i][j];
  }

  /** Sector j's column of A sums to the column of Z over x[j]. */
  lemma CoefficientColumn(Z: Mat, x: Vec, j: nat)
    requires Rect(Z, |x|, |x|) && Positive(x) && j < |x|
    ensures Sum(Col(Coefficients(Z, x), j)) * x[j] == Sum(Col(Z, j))
  {
    hide Sum;
    var a, z := Col(Coefficients(Z, x), j), Col(Z, j);
    forall i | 0 <= i < |x| ensures z[i] == x[j] * a[i] {
      assert Z[i][j] / x[j] * x[j] == Z[i][j];
    }
    SumScale(z, x[j], a);
  }

  /** Row i of A weighted by x gives back the row of Z. */
  lemma CoefficientRow(Z: Mat, x: Vec, i: nat)
    requires Rect(Z, |x|, |x|) && Positive(x) && i < |x|
    ensures Dot(Coefficients(Z, x)[i], x) == Sum(Z[i])
  {
    RowTimes(Coefficients(Z, x)[i], x, Z[i]);
  }

  lemma {:induction false} RowTimes(a: Vec, x: Vec, z: Vec)
    requires |a| == |x| == |z| && Positive(x)
    requires forall j :: 0 <= j < |x| ==> a[j] == z[j] / x[j]
    ensures Dot(a, x) == Sum(z)
  {
    if |x| > 0 {
      var m := |x| - 1;
      DotLast(a, x, m);
      SumLast(z, m);
      RowTimes(a[..m], x[..m], z[..m]);
      assert z[m] / x[m] * x[m] == z[m];
    }
  }

  /** Round trip: the inverse applied to final demand returns gross output exactly, whatever the
      signs of the final demands. */
  lemma OutputRoundTrip(Z: Mat, x: Vec, B: Mat)
    requires Rect(Z, |x|, |x|) && Positive(x)
    requires InverseMonotone(Coefficients(Z, x)) && LeontiefInverse(Coefficients(Z, x), B)
    ensures Apply(B, FinalDemand(Z, x)) == x
  {
    hide Dot, Sum, Mul;
    var A, f := Coefficients(Z, x), FinalDemand(Z, x);
    forall i | 0 <= i < |x| ensures Apply(IMinus(A), x)[i] == f[i] {
      IMinusApply(A, x, i);
      CoefficientRow(Z, x, i);
    }
    assert Apply(IMinus(A), x) == f;
    InverseUndoes(A, B, x);
  }

  /** Summing a matrix by rows or by columns gives the same total. */
  lemma TotalByRowsOrColumns(Z: Mat)
    requires IsSquare(Z)
    ensures Sum(RowSums(Z)) == Sum(ColSums(Z))
  {
    hide Dot, Sum;
    var ones := Const(|Z|, 1.0);
    forall i | 0 <= i < |Z| ensures RowSums(Z)[i] == Apply(Z, ones)[i] {
      SumIsDot(Z[i]);
      DotSymmetric(ones, Z[i]);
    }
    assert RowSums(Z) == Apply(Z, ones);
    SumApply(Z, ones);
    DotSymmetric(ColSums(Z), ones);
    SumIsDot(ColSums(Z));
  }

  lemma IncomeOfSector(Z: Mat, x: Vec, j: nat)
    requires Rect(Z, |x|, |x|) && Positive(x) && j < |x|
    ensures ValueAddedAbs(Coefficients(Z, x), x)[j] == x[j] - Sum(Col(Z, j))
  {
    hide Sum;
    CoefficientColumn(Z, x, j);
    var c := Sum(Col(Coefficients(Z, x), j));
    assert (1.0 - c) * x[j] == x[j] - c * x[j];
  }

  /** Total final demand equals total value added. */
  lemma ExpenditureEqualsIncome(Z: Mat, x: Vec)
    requires Rect(Z, |x|, |x|) && Positive(x)
    ensures Sum(FinalDemand(Z, x)) == Sum(ValueAddedAbs(Coefficients(Z, x), x))
  {
    hide Dot, Sum, Coefficients, ValueAddedAbs;
    var w := ValueAddedAbs(Coefficients(Z, x), x);
    TotalByRowsOrColumns(Z);
    SumDifference(FinalDemand(Z, x), x, RowSums(Z));
    forall j | 0 <= j < |x| ensures w[j] == x[j] - ColSums(Z)[j] {
      IncomeOfSector(Z, x, j);
    }
    SumDifference(w, x, ColSums(Z));
  }

  // ---------- the inputs the script is run on ----------

  /** Positive outputs, nonnegative weights, value-added ratios between v > 0 and 1. */
  predicate ValidInputs(x: Vec, va: Vec, W: Mat, v: real) {
    |x| == |va| == |W| > 0 && IsSquare(W) && Positive(x) && NonnegMat(W) && v > 0.0 &&
    forall j :: 0 <= j < |va| ==> v <= va[j] <= 1.0
  }

  function SyntheticA(x: Vec, va: Vec, W: Mat): (A: Mat)
    requires |x| == |va| == |W| && IsSquare(W) && Positive(x)
    ensures Rect(A, |x|, |x|)
  {
    Coefficients(FlowMatrix(x, va, W), x)
  }

  /** The construction hits its targets: a sector's value-added ratio is the one asked for when its
      column carries weight, and 1 when it does not. */
  lemma ValueAddedIsTarget(x: Vec, va: Vec, W: Mat, j: nat)
    requires |x| == |va| == |W| && IsSquare(W) && Positive(x) && j < |x|
    ensures ValueAdded(SyntheticA(x, va, W))[j] == if Sum(Col(W, j)) > 0.0 then va[j] else 1.0
  {
    hide Sum;
    CoefficientColumn(FlowMatrix(x, va, W), x, j);
    FlowColumnTotal(x, va, W, j);
    var c, t := Sum(Col(SyntheticA(x, va, W), j)), 1.0 - va[j];
    assert c * x[j] == t * x[j] ==> c == t;
    assert c * x[j] == 0.0 ==> c == 0.0;
  }

  lemma FlowNonneg(x: Vec, va: Vec, W: Mat, v: real, i: nat, j: nat)
    requires ValidInputs(x, va, W, v) && i < |x| && j < |x|
    ensures Flow(x, va, W, i, j) >= 0.0
  {
    hide Sum;
    var total := Sum(Col(W, j));
    if total > 0.0 {
      assert W[i][j] / total >= 0.0;
      assert x[j] * (1.0 - va[j]) >= 0.0;
      ScaleLe(x[j] * (1.0 - va[j]), 0.0, W[i][j] / total);
    }
  }

  /** Valid inputs make every column of A sum to at most 1 - v. */
  lemma SyntheticContraction(x: Vec, va: Vec, W: Mat, v: real)
    requires ValidInputs(x, va, W, v)
    ensures ColumnContraction(SyntheticA(x, va, W), v)
  {
    hide Sum;
    var Z, A := FlowMatrix(x, va, W), SyntheticA(x, va, W);
    forall i, j | 0 <= i < |x| && 0 <= j < |x| ensures A[i][j] >= 0.0 {
      FlowNonneg(x, va, W, v, i, j);
      assert Z[i][j] / x[j] >= 0.0;
    }
    forall j | 0 <= j < |A| ensures Sum(Col(A, j)) <= 1.0 - v {
      ValueAddedIsTarget(x, va, W, j);
      assert ValueAdded(A)[j] >= v;
    }
  }

  // ---------- the multiplier report ----------

  datatype Target = Target(code: char, lo: real, hi: real)

  datatype Issue =
    | OutsideTarget(target: Target, m: real)
    | Impossible(code: char, m: real)
    | Unrealistic(code: char, m: real)

  /** The position of a code; the length of the list when it is not there. */
  function IndexOf(codes: string, c: char): (k: nat)
    ensures k <= |codes|
    ensures k < |codes| ==> codes[k] == c
    ensures k == |codes| ==> c !in codes
  {
    if codes == "" then 0 else if codes[0] == c then 0 else 1 + IndexOf(codes[1..], c)
  }

  predicate KnownTargets(codes: string, targets: seq<Target>) {
    forall k :: 0 <= k < |targets| ==> targets[k].code in codes
  }

  function TargetIssues(codes: string, targets: seq<Target>, m: Vec): seq<Issue>
    requires |codes| <= |m| && KnownTargets(codes, targets)
  {
    if targets == [] then [] else
      var k := |targets| - 1;
      var value := m[IndexOf(codes, targets[k].code)];
      TargetIssues(codes, targets[..k], m) +
      if value < targets[k].lo || value > targets[k].hi then [OutsideTarget(targets[k], value)] else []
  }

  function RangeIssues(codes: string, m: Vec): seq<Issue>
    requires |codes| <= |m|
  {
    if codes == "" then [] else
      var k := |codes| - 1;
      RangeIssues(codes[..k], m) +
      if m[k] < 1.0 then [Impossible(codes[k], m[k])]
      else if m[k] > 5.0 then [Unrealistic(codes[k], m[k])] else []
  }

  method CheckMultiplierTargets(codes: string, targets: seq<Target>, multipliers: Vec)
    returns (issues: seq<Issue>)
    requires |codes| <= |multipliers| && KnownTargets(codes, targets)
    ensures issues == TargetIssues(codes, targets, multipliers) + RangeIssues(codes, multipliers)
  {
    issues := [];
    for k := 0 to |targets|
      invariant issues == TargetIssues(codes, targets[..k], multipliers)
    {
      var t := targets[k];
      var m := multipliers[IndexOf(codes, t.code)];
      assert targets[..k + 1][..k] == targets[..k];
      if m < t.lo || m > t.hi {
        issues := issues + [OutsideTarget(t, m)];
      }
    }
    assert targets[..|targets|] == targets;
    ghost var targetIssues := issues;
    for i := 0 to |codes|
      invariant issues == targetIssues + RangeIssues(codes[..i], multipliers)
    {
      var m := multipliers[i];
      assert codes[..i + 1][..i] == codes[..i];
      if m < 1.0 {
        issues := issues + [Impossible(codes[i], m)];
      } else if m > 5.0 {
        issues := issues + [Unrealistic(codes[i], m)];
      }
    }
    assert codes[..|codes|] == codes;
  }

  /** No general-range issue is reported exactly when every multiplier lies in [1, 5]. */
  lemma {:induction false} RangeIssuesExact(codes: string, m: Vec)
    requires |codes| <= |m|
    ensures RangeIssues(codes, m) == [] <==> forall i :: 0 <= i < |codes| ==> 1.0 <= m[i] <= 5.0
  {
    if codes != "" {
      RangeIssuesExact(codes[..|codes| - 1], m);
    }
  }

  /** Sector i's multiplier is below 1 or above 5, and this is the issue saying so. */
  predicate RangeIssueAt(codes: string, m: Vec, i: nat, issue: Issue) {
    i < |codes| <= |m| &&
    ((m[i] < 1.0 && issue == Impossible(codes[i], m[i])) ||
     (m[i] > 5.0 && issue == Unrealistic(codes[i], m[i])))
  }

  /** Target k's sector has a multiplier outside the target, and this is the issue saying so. */
  predicate TargetIssueAt(codes: string, targets: seq<Target>, m: Vec, k: nat, issue: Issue) {
    k < |targets| && targets[k].code in codes && |codes| <= |m| &&
    var value := m[IndexOf(codes, targets[k].code)];
    !(targets[k].lo <= value <= targets[k].hi) && issue == OutsideTarget(targets[k], value)
  }

  /** The range issues are exactly the multipliers below 1 and above 5, with their codes. */
  lemma {:induction false} RangeIssuesAre(codes: string, m: Vec, issue: Issue)
    requires |codes| <= |m|
    ensures issue in RangeIssues(codes, m) <==> exists i: nat :: RangeIssueAt(codes, m, i, issue)
  {
    if codes != "" {
      var k := |codes| - 1;
      RangeIssuesAre(codes[..k], m, issue);
      assert RangeIssueAt(codes, m, k, issue) || !RangeIssueAt(codes, m, k, issue);
      assert forall i: nat :: i < k ==>
        (RangeIssueAt(codes[..k], m, i, issue) <==> RangeIssueAt(codes, m, i, issue));
    }
  }

  /** The target issues are exactly the targets whose sector's multiplier is outside their range. */
  lemma {:induction false} TargetIssuesAre(codes: string, targets: seq<Target>, m: Vec, issue: Issue)
    requires |codes| <= |m| && KnownTargets(codes, targets)
    ensures issue in TargetIssues(codes, targets, m) <==>
      exists k: nat :: TargetIssueAt(codes, targets, m, k, issue)
  {
    if targets != [] {
      var n := |targets| - 1;
      TargetIssuesAre(codes, targets[..n], m, issue);
      LastTargetIssue(codes, targets, m, issue);
      hide TargetIssueAt;
      forall k: nat
        ensures TargetIssueAt(codes, targets, m, k, issue) <==>
          TargetIssueAt(codes, targets[..n], m, k, issue) ||
          (k == n && TargetIssueAt(codes, targets, m, k, issue))
      {
        EarlierTargetIssue(codes, targets, m, k, issue);
      }
    }
  }

  lemma {:induction false} LastTargetIssue(codes: string, targets: seq<Target>, m: Vec, issue: Issue)
    requires targets != [] && |codes| <= |m| && KnownTargets(codes, targets)
    ensures var n := |targets| - 1;
      issue in TargetIssues(codes, targets, m) <==>
      issue in TargetIssues(codes, targets[..n], m) || TargetIssueAt(codes, targets, m, n, issue)
  {
    hide IndexOf;
  }

  lemma EarlierTargetIssue(codes: string, targets: seq<Target>, m: Vec, k: nat, issue: Issue)
    requires targets != []
    ensures var n := |targets| - 1;
      TargetIssueAt(codes, targets[..n], m, k, issue) <==> k < n && TargetIssueAt(codes, targets, m, k, issue)
    ensures TargetIssueAt(codes, targets, m, k, issue) ==> k <= |targets| - 1
  {
    hide IndexOf;
  }

  /** Issues come in the order of the codes and of the targets: those of a first part come first. */
  lemma {:induction false} RangeIssuesInOrder(codes: string, m: Vec, k: nat)
    requires |codes| <= |m| && k <= |codes|
    ensures RangeIssues(codes[..k], m) <= RangeIssues(codes, m)
  {
    if k == |codes| {
      assert codes[..k] == codes;
    } else {
      var n := |codes| - 1;
      RangeIssuesInOrder(codes[..n], m, k);
      assert codes[..n][..k] == codes[..k];
    }
  }

  lemma {:induction false} TargetIssuesInOrder(codes: string, targets: seq<Target>, m: Vec, k: nat)
    requires |codes| <= |m| && KnownTargets(codes, targets) && k <= |targets|
    ensures TargetIssues(codes, targets[..k], m) <= TargetIssues(codes, targets, m)
  {
    hide IndexOf;
    if k == |targets| {
      assert targets[..k] == targets;
    } else {
      var n := |targets| - 1;
      TargetIssuesInOrder(codes, targets[..n], m, k);
      assert targets[..n][..k] == targets[..k];
    }
  }

  /** With every ratio at least 0.2 the general-range check has nothing to report. */
  lemma {:induction false} NoRangeIssues(x: Vec, va: Vec, W: Mat, B: Mat, codes: string)
    requires ValidInputs(x, va, W, 0.2) && LeontiefInverse(SyntheticA(x, va, W), B)
    requires |codes| <= |x|
    ensures RangeIssues(codes, Multipliers(B)) == []
  {
    hide Sum, Dot, Mul, SyntheticA;
    SyntheticContraction(x, va, W, 0.2);
    MultipliersBounded(SyntheticA(x, va, W), B, 0.2);
    RangeIssuesExact(codes, Multipliers(B));
  }

  // ---------- the gates ----------

  datatype GateResult = Passed | SpectralRadiusFailed | InverseHasNegatives | ValueAddedNotPositive

  /** The exits of the build script, in its order. The eigenvalues are those the eigensolver
      returned; the radius is below 1 when every squared modulus is. */
  function Gates(eigenvalues: seq<Complex>, d: Derived): GateResult {
    if !RadiusBelowOne(eigenvalues) then SpectralRadiusFailed
    else if !NonnegMat(d.B) then InverseHasNegatives
    else if exists j :: 0 <= j < |d.valueAdded| && d.valueAdded[j] <= 0.0 then ValueAddedNotPositive
    else Passed
  }

  /** When each gate stops the build: the first of a radius not below 1, a negative entry of the inverse
      and a value-added ratio that is not positive. */
  lemma GatesExactly(eigenvalues: seq<Complex>, d: Derived)
    ensures var wide := exists k :: 0 <= k < |eigenvalues| && eigenvalues[k].SquaredModulus() >= 1.0;
      var negative := exists i, j :: 0 <= i < |d.B| && 0 <= j < |d.B[i]| && d.B[i][j] < 0.0;
      var unpaid := exists j :: 0 <= j < |d.valueAdded| && d.valueAdded[j] <= 0.0;
      (Gates(eigenvalues, d) == SpectralRadiusFailed <==> wide) &&
      (Gates(eigenvalues, d) == InverseHasNegatives <==> !wide && negative) &&
      (Gates(eigenvalues, d) == ValueAddedNotPositive <==> !wide && !negative && unpaid) &&
      (Gates(eigenvalues, d) == Passed <==> !wide && !negative && !unpaid)
  {
    hide Complex.SquaredModulus;
    assert RadiusBelowOne(eigenvalues) <==>
      !exists k :: 0 <= k < |eigenvalues| && eigenvalues[k].SquaredModulus() >= 1.0;
    assert NonnegMat(d.B) <==> !exists i, j :: 0 <= i < |d.B| && 0 <= j < |d.B[i]| && d.B[i][j] < 0.0;
  }

  /** For valid inputs the Leontief inverse exists, is the only one, works from both sides, is
      nonnegative and reproduces gross output from final demand. */
  lemma SyntheticInverse(x: Vec, va: Vec, W: Mat, v: real) returns (B: Mat)
    requires ValidInputs(x, va, W, v)
    ensures LeontiefInverse(SyntheticA(x, va, W), B) && NonnegMat(B)
    ensures forall B' :: LeontiefInverse(SyntheticA(x, va, W), B') ==> B' == B
    ensures Mul(B, IMinus(SyntheticA(x, va, W))) == Identity(|x|)
    ensures Apply(B, FinalDemand(FlowMatrix(x, va, W), x)) == x
  {
    hide Sum, Dot, Mul, IMinus, Coefficients, LeontiefInverse, InverseMonotone;
    var A := SyntheticA(x, va, W);
    SyntheticContraction(x, va, W, v);
    ColumnMonotone(A, v);
    B := InverseExists(A);
    InverseNonnegative(A, B);
    InverseTwoSided(A, B);
    forall B' | LeontiefInverse(A, B') ensures B' == B {
      InverseUnique(A, B, B');
    }
    OutputRoundTrip(FlowMatrix(x, va, W), x, B);
  }

  /** For valid inputs no gate ever stops the build, whatever (correct) eigenvalues and inverse the
      numerical routines return. */
  lemma {:induction false} GatesAlwaysPass(x: Vec, va: Vec, W: Mat, v: real, B: Mat, eigs: seq<Complex>)
    requires ValidInputs(x, va, W, v) && LeontiefInverse(SyntheticA(x, va, W), B)
    requires forall k :: 0 <= k < |eigs| ==> Eigenvalue(SyntheticA(x, va, W), eigs[k])
    ensures Gates(eigs, Compute(FlowMatrix(x, va, W), x, B)) == Passed
  {
    hide Sum, Dot, Mul;
    var A := SyntheticA(x, va, W);
    SyntheticContraction(x, va, W, v);
    forall k | 0 <= k < |eigs| ensures eigs[k].SquaredModulus() < 1.0 {
      SpectralRadiusBound(A, v, eigs[k]);
    }
    ColumnMonotone(A, v);
    InverseNonnegative(A, B);
    forall j | 0 <= j < |x| ensures ValueAdded(A)[j] > 0.0 {
      ValueAddedIsTarget(x, va, W, j);
    }
  }
}
