/** Real vectors as sequences, with the few facts about sums that the Leontief results rest on. */
module Vectors {
  type Vec = seq<real>

  /** The sum of the first n entries. */
  function SumTo(v: Vec, n: nat): real
    requires n <= |v|
  {
    if n == 0 then 0.0 else SumTo(v, n - 1) + v[n - 1]
  }

  function Sum(v: Vec): real {
    SumTo(v, |v|)
  }

  function DotTo(u: Vec, v: Vec, n: nat): real
    requires n <= |u| == |v|
  {
    if n == 0 then 0.0 else DotTo(u, v, n - 1) + u[n - 1] * v[n - 1]
  }

  function Dot(u: Vec, v: Vec): real
    requires |u| == |v|
  {
    DotTo(u, v, |u|)
  }

  function Const(n: nat, c: real): (v: Vec)
    ensures |v| == n && forall i :: 0 <= i < n ==> v[i] == c
  {
    seq(n, i => c)
  }

  function Delta(i: int, j: int): real {
    if i == j then 1.0 else 0.0
  }

  /** The j-th unit vector. */
  function Unit(n: nat, j: int): (v: Vec)
    ensures |v| == n && forall i :: 0 <= i < n ==> v[i] == Delta(i, j)
  {
    seq(n, i => Delta(i, j))
  }

  function Abs(x: real): real {
    if x < 0.0 then -x else x
  }

  function AbsVec(v: Vec): (w: Vec)
    ensures |w| == |v| && forall i :: 0 <= i < |v| ==> w[i] == Abs(v[i])
  {
    seq(|v|, i requires 0 <= i < |v| => Abs(v[i]))
  }

  function Square(a: real): real {
    a * a
  }

  predicate Nonneg(v: Vec) {
    forall i :: 0 <= i < |v| ==> v[i] >= 0.0
  }

  predicate Positive(v: Vec) {
    forall i :: 0 <= i < |v| ==> v[i] > 0.0
  }

  lemma ScaleLe(c: real, a: real, b: real)
    requires c >= 0.0 && a <= b
    ensures c * a <= c * b
  {
    assert c * (b - a) >= 0.0;
  }

  lemma SameSignProduct(a: real, b: real, s: real)
    requires s == a * b && ((a > 0.0 && b > 0.0) || (a < 0.0 && b < 0.0))
    ensures s > 0.0
  {
  }

  lemma SquarePositive(a: real)
    ensures Square(a) >= 0.0 && (a != 0.0 ==> Square(a) > 0.0)
  {
    if a != 0.0 {
      SameSignProduct(a, a, Square(a));
    }
  }

  lemma {:induction false} DotPrefix(u: Vec, v: Vec, m: nat, n: nat)
    requires n <= m <= |u| == |v|
    ensures DotTo(u[..m], v[..m], n) == DotTo(u, v, n)
  {
    if n > 0 {
      DotPrefix(u, v, m, n - 1);
    }
  }

  lemma DotLast(u: Vec, v: Vec, m: nat)
    requires |u| == |v| == m + 1
    ensures Dot(u, v) == Dot(u[..m], v[..m]) + u[m] * v[m]
  {
    DotPrefix(u, v, m, m);
  }

  lemma {:induction false} SumPrefix(v: Vec, m: nat, n: nat)
    requires n <= m <= |v|
    ensures SumTo(v[..m], n) == SumTo(v, n)
  {
    if n > 0 {
      SumPrefix(v, m, n - 1);
    }
  }

  lemma SumLast(v: Vec, m: nat)
    requires |v| == m + 1
    ensures Sum(v) == Sum(v[..m]) + v[m]
  {
    SumPrefix(v, m, m);
  }

  lemma {:induction false} DotSymmetric(u: Vec, v: Vec)
    requires |u| == |v|
    ensures Dot(u, v) == Dot(v, u)
  {
    if |u| > 0 {
      var m := |u| - 1;
      DotLast(u, v, m); DotLast(v, u, m);
      DotSymmetric(u[..m], v[..m]);
    }
  }

  /** Dot is linear: t = v + c * w gives u.t = u.v + c * u.w. */
  lemma {:induction false} DotLinear(u: Vec, t: Vec, v: Vec, c: real, w: Vec)
    requires |u| == |t| == |v| == |w|
    requires forall i :: 0 <= i < |u| ==> t[i] == v[i] + c * w[i]
    ensures Dot(u, t) == Dot(u, v) + c * Dot(u, w)
  {
    if |u| > 0 {
      var m := |u| - 1;
      DotLast(u, t, m); DotLast(u, v, m); DotLast(u, w, m);
      DotLinear(u[..m], t[..m], v[..m], c, w[..m]);
      assert u[m] * t[m] == u[m] * v[m] + c * (u[m] * w[m]);
    }
  }

  lemma {:induction false} DotMonotone(u: Vec, v: Vec, w: Vec)
    requires |u| == |v| == |w| && Nonneg(u)
    requires forall i :: 0 <= i < |u| ==> v[i] <= w[i]
    ensures Dot(u, v) <= Dot(u, w)
  {
    if |u| > 0 {
      var m := |u| - 1;
      DotLast(u, v, m); DotLast(u, w, m);
      DotMonotone(u[..m], v[..m], w[..m]);
      assert u[m] * (w[m] - v[m]) >= 0.0;
    }
  }

  lemma {:induction false} DotZero(u: Vec, v: Vec)
    requires |u| == |v| && forall i :: 0 <= i < |u| ==> v[i] == 0.0
    ensures Dot(u, v) == 0.0
  {
    if |u| > 0 {
      DotLast(u, v, |u| - 1);
      DotZero(u[..|u| - 1], v[..|u| - 1]);
    }
  }

  lemma DotScale(u: Vec, t: Vec, c: real, w: Vec)
    requires |u| == |t| == |w|
    requires forall i :: 0 <= i < |u| ==> t[i] == c * w[i]
    ensures Dot(u, t) == c * Dot(u, w)
  {
    hide Dot;
    DotZero(u, Const(|u|, 0.0));
    DotLinear(u, t, Const(|u|, 0.0), c, w);
  }

  lemma DotMinus(u: Vec, t: Vec, v: Vec, w: Vec)
    requires |u| == |t| == |v| == |w|
    requires forall i :: 0 <= i < |u| ==> t[i] == v[i] - w[i]
    ensures Dot(u, t) == Dot(u, v) - Dot(u, w)
  {
    hide Dot;
    assert forall i :: 0 <= i < |u| ==> v[i] == t[i] + 1.0 * w[i];
    DotLinear(u, v, t, 1.0, w);
  }

  lemma DotNonneg(u: Vec, v: Vec)
    requires |u| == |v| && Nonneg(u) && Nonneg(v)
    ensures Dot(u, v) >= 0.0
  {
    hide Dot;
    DotZero(u, Const(|u|, 0.0));
    DotMonotone(u, Const(|u|, 0.0), v);
  }

  lemma {:induction false} DotUnit(u: Vec, j: int)
    requires 0 <= j < |u|
    ensures Dot(u, Unit(|u|, j)) == u[j]
  {
    hide Dot;
    var m := |u| - 1;
    DotLast(u, Unit(|u|, j), m);
    if j == m {
      DotZero(u[..m], Unit(|u|, j)[..m]);
    } else {
      DotUnit(u[..m], j);
      assert Unit(|u|, j)[..m] == Unit(m, j);
    }
  }

  /** No term exceeds a sum of nonnegative terms. */
  lemma {:induction false} DotTerm(u: Vec, v: Vec, j: int)
    requires |u| == |v| && Nonneg(u) && Nonneg(v) && 0 <= j < |u|
    ensures u[j] * v[j] <= Dot(u, v)
  {
    hide Dot;
    var m := |u| - 1;
    DotLast(u, v, m);
    if j < m {
      DotTerm(u[..m], v[..m], j);
    } else {
      DotNonneg(u[..m], v[..m]);
    }
    assert u[m] * v[m] >= 0.0;
  }

  lemma {:induction false} SumIsDot(v: Vec)
    ensures Sum(v) == Dot(Const(|v|, 1.0), v)
  {
    if |v| > 0 {
      var m := |v| - 1;
      SumLast(v, m);
      DotLast(Const(|v|, 1.0), v, m);
      SumIsDot(v[..m]);
      assert Const(|v|, 1.0)[..m] == Const(m, 1.0);
    }
  }

  lemma SumLinear(t: Vec, v: Vec, c: real, w: Vec)
    requires |t| == |v| == |w|
    requires forall i :: 0 <= i < |t| ==> t[i] == v[i] + c * w[i]
    ensures Sum(t) == Sum(v) + c * Sum(w)
  {
    SumIsDot(t); SumIsDot(v); SumIsDot(w);
    DotLinear(Const(|t|, 1.0), t, v, c, w);
  }

  lemma SumDifference(t: Vec, v: Vec, w: Vec)
    requires |t| == |v| == |w|
    requires forall i :: 0 <= i < |t| ==> t[i] == v[i] - w[i]
    ensures Sum(t) == Sum(v) - Sum(w)
  {
    SumIsDot(t); SumIsDot(v); SumIsDot(w);
    DotMinus(Const(|t|, 1.0), t, v, w);
  }

  lemma SumMonotone(v: Vec, w: Vec)
    requires |v| == |w| && forall i :: 0 <= i < |v| ==> v[i] <= w[i]
    ensures Sum(v) <= Sum(w)
  {
    SumIsDot(v); SumIsDot(w);
    DotMonotone(Const(|v|, 1.0), v, w);
  }

  lemma SumScale(t: Vec, c: real, w: Vec)
    requires |t| == |w| && forall i :: 0 <= i < |t| ==> t[i] == c * w[i]
    ensures Sum(t) == c * Sum(w)
  {
    SumIsDot(t); SumIsDot(w);
    DotScale(Const(|t|, 1.0), t, c, w);
  }

  lemma SumTerm(v: Vec, j: int)
    requires Nonneg(v) && 0 <= j < |v|
    ensures 0.0 <= v[j] <= Sum(v)
  {
    SumIsDot(v);
    DotTerm(Const(|v|, 1.0), v, j);
  }

  /** |u.v| <= |u|.|v| */
  lemma DotAbs(u: Vec, v: Vec)
    requires |u| == |v| && Nonneg(u)
    ensures Abs(Dot(u, v)) <= Dot(u, AbsVec(v))
  {
    var a, neg := AbsVec(v), Const(|v|, 0.0);
    DotMonotone(u, v, a);
    var minus := seq(|v|, i requires 0 <= i < |v| => -v[i]);
    DotScale(u, minus, -1.0, v);
    DotMonotone(u, minus, a);
  }
}
