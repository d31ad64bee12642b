/** Decimal grids: how many digits a number needs, and what rounding to a grid costs. */
module Decimal {
  import opened Json
  import opened Patch

  const TOLERANCE: real := 0.000000000001
  const MAX_DIGITS: nat := 12

  /** A number needs no digits when it is whole, and `d` digits when rounding to `d` digits moves it by at most the tolerance. */
  predicate Fits(x: real, digits: nat) {
    if digits == 0 then x.Floor as real == x
    else Abs(RoundToDigits(x, digits) - x) <= TOLERANCE
  }

  predicate IsLeastFit(x: real, d: nat) {
    d <= MAX_DIGITS && Fits(x, d) && forall k | 0 <= k < d :: !Fits(x, k)
  }

  /** The least number of digits that fits; twelve always do. */
  ghost function DecimalDigits(x: real): nat {
    LeastFitExists(x);
    var d: nat :| IsLeastFit(x, d);
    d
  }

  lemma LeastFitExists(x: real)
    ensures exists d: nat :: IsLeastFit(x, d)
  {
    TwelveDigitsFit(x);
    var d: nat := 0;
    while !Fits(x, d)
      invariant d <= MAX_DIGITS && forall k | 0 <= k < d :: !Fits(x, k)
      decreases MAX_DIGITS - d
    {
      d := d + 1;
    }
    assert IsLeastFit(x, d);
  }

  lemma LeastFitUnique(x: real, d: nat)
    requires IsLeastFit(x, d)
    ensures DecimalDigits(x) == d
  {
    LeastFitExists(x);
    var e := DecimalDigits(x);
    assert IsLeastFit(x, e);
  }

  /** The bounded digit search. */
  method SearchDigits(x: real) returns (digits: nat)
    ensures digits == DecimalDigits(x)
  {
    TwelveDigitsFit(x);
    digits := 0;
    while digits < MAX_DIGITS && !Fits(x, digits)
      invariant 0 <= digits <= MAX_DIGITS
      invariant forall k | 0 <= k < digits :: !Fits(x, k)
    {
      digits := digits + 1;
    }
    LeastFitUnique(x, digits);
  }

  lemma RoundNearest(y: real, m: int)
    ensures Abs(Round(y) as real - y) <= 0.5
    ensures Abs(Round(y) as real - y) <= Abs(m as real - y)
  {
    var r := Round(y);
    assert r as real <= y + 0.5 < r as real + 1.0;
    if m <= r - 1 {
      assert m as real <= r as real - 1.0;
    } else if m >= r + 1 {
      assert m as real >= r as real + 1.0;
    }
  }

  /** The distance `d` of a grid point from a number, measured in grid steps. */
  lemma GridGap(x: real, y: real, r: real, p: real, g: real) returns (d: real, steps: real)
    requires p > 0.0 && y == x * p && g == r / p
    ensures d == Abs(g - x) && steps == Abs(r - y) && d * p == steps
  {
    d, steps := Abs(g - x), Abs(r - y);
    assert g * p == r;
    assert (g - x) * p == r - y;
    if g - x >= 0.0 {
      assert d * p == r - y;
      assert d * p >= 0.0;
    } else {
      assert d == x - g;
      assert d * p == y - r;
      assert d * p > 0.0;
    }
  }

  lemma CancelScale(x: real, y: real, p: real, xp: real, yp: real)
    requires p > 0.0 && x * p == xp && y * p == yp && xp <= yp
    ensures x <= y
  {
    assert (y - x) * p == yp - xp;
  }

  /** Among the points of one grid, the nearest integer multiple is the nearest point. */
  lemma NearestPoint(x: real, y: real, p: real, m: int, near: real, other: real) returns (d: real)
    requires p > 0.0 && y == x * p
    requires near == Round(y) as real / p && other == m as real / p
    ensures d == Abs(near - x) <= Abs(other - x)
    ensures d * p <= 0.5
  {
    RoundNearest(y, m);
    var steps, e, steps';
    d, steps := GridGap(x, y, Round(y) as real, p, near);
    e, steps' := GridGap(x, y, m as real, p, other);
    CancelScale(d, e, p, steps, steps');
  }

  lemma TwelveDigitsFit(x: real)
    ensures Fits(x, MAX_DIGITS)
  {
    assert Pow10(12) == 1000000000000 by {
      assert Pow10(6) == 1000000;
      assert Pow10(9) == 1000 * Pow10(6);
      assert Pow10(12) == 1000 * Pow10(9);
    }
    var p := Pow10(12) as real;
    var d := NearestPoint(x, x * p, p, 0, RoundToDigits(x, 12), 0.0);
    CancelScale(d, TOLERANCE, p, d * p, TOLERANCE * p);
  }

  lemma {:induction false} Pow10Split(k: nat, d: nat)
    requires k <= d
    ensures Pow10(d) == Pow10(k) * Pow10(d - k)
  {
    if k < d {
      Pow10Split(k, d - 1);
      assert Pow10(d) == 10 * (Pow10(k) * Pow10(d - 1 - k));
    }
  }

  /** Rounding to a grid is at least as close as any point of the grid. */
  lemma GridNearest(x: real, digits: nat, m: int)
    ensures Abs(RoundToDigits(x, digits) - x) <= Abs(m as real / Pow10(digits) as real - x)
  {
    var p := Pow10(digits) as real;
    assert p >= 1.0;
    var _ := NearestPoint(x, x * p, p, m, RoundToDigits(x, digits), m as real / p);
  }

  lemma SameQuotient(c: real, q: real, s: real, cs: real, qs: real)
    requires q > 0.0 && qs > 0.0 && cs == c * s && qs == q * s
    ensures c / q == cs / qs
  {
    var g := c / q;
    assert g * q == c;
    assert g * qs == (g * q) * s;
  }

  lemma RealProduct(a: int, b: int)
    ensures (a * b) as real == a as real * b as real
  {
  }

  lemma FinerQuotient(c: int, q: int, s: int, t: int)
    requires q >= 1 && t >= 1 && t == q * s
    ensures c as real / q as real == (c * s) as real / t as real
  {
    RealProduct(q, s);
    RealProduct(c, s);
    SameQuotient(c as real, q as real, s as real, (c * s) as real, t as real);
  }

  /** A point of a coarse grid is a point of every finer one. */
  lemma CoarseOnFine(c: int, k: nat, d: nat)
    requires k <= d
    ensures c as real / Pow10(k) as real == (c * Pow10(d - k)) as real / Pow10(d) as real
  {
    Pow10Split(k, d);
    FinerQuotient(c, Pow10(k), Pow10(d - k), Pow10(d));
  }

  /** A finer grid is never worse: rounding to more digits than needed still stays within the tolerance. */
  lemma FinerGrid(x: real, k: nat, d: nat)
    requires Fits(x, k) && k <= d
    ensures Abs(RoundToDigits(x, d) - x) <= TOLERANCE
    ensures k == 0 ==> RoundToDigits(x, d) == x
  {
    var c := if k == 0 then x.Floor else Round(x * Pow10(k) as real);
    CoarseOnFine(c, k, d);
    GridNearest(x, d, c * Pow10(d - k));
  }

  // ----- numbers that lie on a grid -----

  /** Rounding to so many digits leaves the number as it is. */
  predicate OnDecimals(x: real, digits: nat) {
    RoundToDigits(x, digits) == x
  }

  lemma PointOfGrid(x: real, m: int, p: real)
    requires p >= 1.0 && x * p == m as real
    ensures m as real / p == x
  {
    assert (x * p) / p == x;
  }

  lemma GridProduct(x: real, m: int, p: real)
    requires p >= 1.0 && x == m as real / p
    ensures x * p == m as real
  {
  }

  lemma GridMultiple(x: real, digits: nat) returns (m: int)
    requires OnDecimals(x, digits)
    ensures x * Pow10(digits) as real == m as real
  {
    m := Round(x * Pow10(digits) as real);
    GridProduct(x, m, Pow10(digits) as real);
  }

  lemma MultipleOnGrid(x: real, digits: nat, m: int)
    requires x * Pow10(digits) as real == m as real
    ensures OnDecimals(x, digits)
  {
    PointOfGrid(x, m, Pow10(digits) as real);
    GridNearest(x, digits, m);
  }

  lemma SumProduct(x: real, y: real, m: int, n: int, p: real)
    requires x * p == m as real && y * p == n as real
    ensures (x + y) * p == (m + n) as real
  {
  }

  lemma DifferenceProduct(x: real, y: real, m: int, n: int, p: real)
    requires x * p == m as real && y * p == n as real
    ensures (y - x) * p == (n - m) as real
  {
  }

  /** Sums of numbers on a grid are on it. */
  lemma SumOnDecimals(x: real, y: real, digits: nat)
    requires OnDecimals(x, digits) && OnDecimals(y, digits)
    ensures OnDecimals(x + y, digits)
  {
    var m := GridMultiple(x, digits);
    var n := GridMultiple(y, digits);
    SumProduct(x, y, m, n, Pow10(digits) as real);
    MultipleOnGrid(x + y, digits, m + n);
  }

  /** So are their differences. */
  lemma DifferenceOnDecimals(x: real, y: real, digits: nat)
    requires OnDecimals(x, digits) && OnDecimals(y, digits)
    ensures OnDecimals(y - x, digits)
  {
    var m := GridMultiple(x, digits);
    var n := GridMultiple(y, digits);
    DifferenceProduct(x, y, m, n, Pow10(digits) as real);
    MultipleOnGrid(y - x, digits, n - m);
  }

  /** Whole numbers are on every grid. */
  lemma WholeOnDecimals(x: real, digits: nat)
    requires x.Floor as real == x
    ensures OnDecimals(x, digits)
  {
    FinerGrid(x, 0, digits);
  }
}
