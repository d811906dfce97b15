/** Rounding to the nearest multiple of 1 / scale, ties to the even multiple, as Python's `round`. */
module Rounding {
  function RoundInt(r: real): (z: int)
    ensures z as real - 0.5 <= r <= z as real + 0.5
  {
    var f := r.Floor;
    var frac := r - f as real;
    if frac < 0.5 || (frac == 0.5 && f % 2 == 0) then f else f + 1
  }

  function Times(r: real, scale: int): real {
    r * scale as real
  }

  function Over(z: int, scale: int): real
    requires scale > 0
  {
    z as real / scale as real
  }

  function RoundTo(r: real, scale: int): real
    requires scale > 0
  {
    Over(RoundInt(Times(r, scale)), scale)
  }

  lemma RoundIntMonotone(a: real, b: real)
    requires a <= b
    ensures RoundInt(a) <= RoundInt(b)
  {
    if a.Floor < b.Floor {
      assert RoundInt(a) <= a.Floor + 1 <= b.Floor <= RoundInt(b);
    }
  }

  /** Rounding goes to the nearest integer, and to the even one of two equally near. */
  lemma RoundIntUnique(r: real, z: int)
    ensures z == RoundInt(r) <==>
      z as real - 0.5 <= r <= z as real + 0.5 &&
      (r == z as real - 0.5 || r == z as real + 0.5 ==> z % 2 == 0)
  {
  }

  lemma RoundIntExact(z: int)
    ensures RoundInt(z as real) == z
  {
  }

  lemma TimesMonotone(a: real, b: real, scale: int)
    requires scale > 0 && a <= b
    ensures Times(a, scale) <= Times(b, scale)
  {
    assert (b - a) * scale as real >= 0.0;
  }

  lemma OverMonotone(a: int, b: int, scale: int)
    requires scale > 0 && a <= b
    ensures Over(a, scale) <= Over(b, scale)
  {
    Divide(a as real, b as real, scale as real);
  }

  lemma Divide(a: real, b: real, s: real)
    requires a <= b && s > 0.0
    ensures a / s <= b / s
  {
  }

  lemma RoundToMonotone(a: real, b: real, scale: int)
    requires scale > 0 && a <= b
    ensures RoundTo(a, scale) <= RoundTo(b, scale)
  {
    hide RoundInt, Times, Over;
    TimesMonotone(a, b, scale);
    RoundIntMonotone(Times(a, scale), Times(b, scale));
    OverMonotone(RoundInt(Times(a, scale)), RoundInt(Times(b, scale)), scale);
  }

  /** A number over `scale` is m exactly when m times `scale` is that number. */
  lemma OverTimes(m: real, z: int, scale: int)
    requires scale > 0
    ensures m == Over(z, scale) <==> Times(m, scale) == z as real
  {
  }

  /** A multiple of 1 / scale rounds to itself. */
  lemma RoundToExact(r: real, z: int, scale: int)
    requires scale > 0 && r * scale as real == z as real
    ensures RoundTo(r, scale) == r
  {
    assert Times(r, scale) == z as real;
    hide RoundInt, Times, Over;
    RoundIntExact(z);
    OverTimes(r, z, scale);
  }

  /** z, which need be no integer a priori, is the integer nearest to y, the even one of two. */
  predicate NearestInt(z: real, y: real) {
    z == z.Floor as real && z - 0.5 <= y <= z + 0.5 &&
    (y == z - 0.5 || y == z + 0.5 ==> z.Floor % 2 == 0)
  }

  /** m is a multiple of 1 / scale, none is nearer to r, and of two equally near it is the even one. */
  predicate Nearest(m: real, r: real, scale: int) {
    NearestInt(Times(m, scale), Times(r, scale))
  }

  lemma NearestIntIs(z: real, y: real)
    ensures NearestInt(z, y) <==> z == RoundInt(y) as real
  {
    RoundIntUnique(y, z.Floor);
    RoundIntUnique(y, RoundInt(y));
  }

  /** That is what rounding returns, and nothing else. */
  lemma RoundToNearest(m: real, r: real, scale: int)
    requires scale > 0
    ensures Nearest(m, r, scale) <==> m == RoundTo(r, scale)
  {
    hide RoundInt, NearestInt, Times, Over;
    NearestIntIs(Times(m, scale), Times(r, scale));
    OverTimes(m, RoundInt(Times(r, scale)), scale);
  }
}
