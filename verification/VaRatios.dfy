/** Value-added ratios recomputed from a stored model, as the coefficient endpoint does. */
module VaRatios {
  import opened Vectors
  import opened Matrices
  import opened SyntheticModel

  function Clip(r: real): real {
    if r < 0.0 then 0.0 else if r > 1.0 then 1.0 else r
  }

  /** Outputs that are not positive are replaced by 1 before dividing. */
  function SafeOutput(x: Vec): (s: Vec)
    ensures |s| == |x| && Positive(s)
    ensures forall j :: 0 <= j < |x| ==> s[j] == if x[j] > 0.0 then x[j] else 1.0
  {
    seq(|x|, j requires 0 <= j < |x| => if x[j] > 0.0 then x[j] else 1.0)
  }

  /** Total on every matrix and vector of matching size, and always within [0, 1]. */
  function ComputeVaRatios(Z: Mat, x: Vec): (va: Vec)
    requires Rect(Z, |x|, |x|)
    ensures |va| == |x| && forall j :: 0 <= j < |x| ==> 0.0 <= va[j] <= 1.0
  {
    var A := Coefficients(Z, SafeOutput(x));
    seq(|x|, j requires 0 <= j < |x| => Clip(1.0 - Sum(Col(A, j))))
  }

  /** Round trip: the ratios recomputed from synthetic flows are the ones the flows were built
      from, and 1 for a column without weights. */
  lemma RatiosRoundTrip(x: Vec, va: Vec, W: Mat, j: nat)
    requires |x| == |va| == |W| && IsSquare(W) && Positive(x) && j < |x|
    requires 0.0 <= va[j] <= 1.0
    ensures ComputeVaRatios(FlowMatrix(x, va, W), x)[j] ==
      if Sum(Col(W, j)) > 0.0 then va[j] else 1.0
  {
    hide Sum;
    assert SafeOutput(x) == x;
    ValueAddedIsTarget(x, va, W, j);
  }

  /** What a ratio says: the share of (safe) output left after the column's inputs when these lie
      between 0 and the output; 0 exactly when they use it up; 1 exactly when there are none. */
  lemma RatioMeaning(Z: Mat, x: Vec, j: nat)
    requires Rect(Z, |x|, |x|) && j < |x|
    ensures var r, out, inputs := ComputeVaRatios(Z, x)[j], SafeOutput(x)[j], Sum(Col(Z, j));
      (r * out == out - inputs <==> 0.0 <= inputs <= out) &&
      (r == 0.0 <==> inputs >= out) && (r == 1.0 <==> inputs <= 0.0)
  {
    hide Sum;
    var c := Sum(Col(Coefficients(Z, SafeOutput(x)), j));
    CoefficientColumn(Z, SafeOutput(x), j);
    ClipExact(c, SafeOutput(x)[j], Sum(Col(Z, j)));
  }

  lemma ClipExact(c: real, x: real, s: real)
    requires x > 0.0 && c * x == s
    ensures Clip(1.0 - c) * x == x - s <==> 0.0 <= s <= x
    ensures (Clip(1.0 - c) == 0.0 <==> s >= x) && (Clip(1.0 - c) == 1.0 <==> s <= 0.0)
  {
    assert (1.0 - c) * x == x - s;
    if c < 0.0 {
      SameSignProduct(-c, x, -s);
    } else if c > 1.0 {
      SameSignProduct(c - 1.0, x, s - x);
    } else {
      ScaleLe(x, 0.0, c);
      ScaleLe(x, c, 1.0);
      if c < 1.0 {
        SameSignProduct(1.0 - c, x, x - s);
      }
      if c > 0.0 {
        SameSignProduct(c, x, s);
      }
    }
  }
}
