/** The cubic easing curve of the lock screen and its bisection solver, over the reals. */
module Easing {

  /** One coordinate of a cubic Bezier curve from 0 to 1 with control points `a` and `b`. */
  function Axis(a: real, b: real, t: real): real {
    var u := 1.0 - t;
    3.0 * u * u * t * a + 3.0 * u * t * t * b + t * t * t
  }

  predicate Unit(x: real) { 0.0 <= x <= 1.0 }

  // ---------------------------------------------------------------- bounds of the curve

  function Lerp(t: real, x: real, y: real): real { (1.0 - t) * x + t * y }

  lemma Scaled(t: real, d: real)
    requires Unit(t) && 0.0 <= d
    ensures 0.0 <= t * d <= d
  {
  }

  lemma LerpBound(t: real, x: real, y: real, lo: real, hi: real)
    requires Unit(t) && lo <= x <= hi && lo <= y <= hi
    ensures lo <= Lerp(t, x, y) <= hi
  {
    var d := y - x;
    assert Lerp(t, x, y) == x + t * d;
    if 0.0 <= d {
      Scaled(t, d);
    } else {
      Scaled(t, -d);
      assert t * -d == -(t * d);
    }
  }

  lemma Product(x: real, y: real)
    requires 0.0 <= x && 0.0 <= y
    ensures 0.0 <= x * y
  {
  }

  lemma Product3(x: real, y: real, z: real)
    requires 0.0 <= x && 0.0 <= y && 0.0 <= z
    ensures 0.0 <= x * y * z
  {
    Product(x, y);
  }

  lemma Product4(x: real, y: real, z: real, w: real)
    requires 0.0 <= x && 0.0 <= y && 0.0 <= z && 0.0 <= w
    ensures 0.0 <= 3.0 * x * y * z * w
  {
    Product3(x, y, z);
    Product(x * y * z, w);
  }

  lemma AxisNotNegative(a: real, b: real, t: real)
    requires Unit(a) && Unit(b) && Unit(t)
    ensures 0.0 <= Axis(a, b, t)
  {
    var u := 1.0 - t;
    Product4(u, u, t, a);
    Product4(u, t, t, b);
    Product3(t, t, t);
  }

  /** Walking the curve backwards turns it upside down. */
  lemma AxisMirror(a: real, b: real, t: real)
    ensures 1.0 - Axis(a, b, t) == Axis(1.0 - b, 1.0 - a, 1.0 - t)
  {
  }

  /** The curve is the cubic Bezier curve from 0 to 1 with control points `a` and `b`: de
      Casteljau's repeated interpolation. */
  lemma AxisIsBezier(a: real, b: real, t: real)
    ensures Axis(a, b, t) == Lerp(t, Lerp(t, Lerp(t, 0.0, a), Lerp(t, a, b)), Lerp(t, Lerp(t, a, b), Lerp(t, b, 1.0)))
  {
  }

  /** With control points in [0, 1] the curve stays in [0, 1]. */
  lemma AxisUnit(a: real, b: real, t: real)
    requires Unit(a) && Unit(b) && Unit(t)
    ensures Unit(Axis(a, b, t))
  {
    AxisNotNegative(a, b, t);
    AxisMirror(a, b, t);
    AxisNotNegative(1.0 - b, 1.0 - a, 1.0 - t);
  }

  /** The mixed slope of the curve between parameters `u` and `v`. */
  function Slope(a: real, b: real, u: real, v: real): real {
    a + (u + v) * (b - 2.0 * a) + u * v * (3.0 * a - 3.0 * b + 1.0)
  }

  lemma SlopeByLerp(a: real, b: real, u: real, v: real)
    ensures Slope(a, b, u, v) == Lerp(u, Lerp(v, a, b - a), Lerp(v, b - a, 1.0 - b))
  {
  }

  lemma SlopeBound(a: real, b: real, u: real, v: real)
    requires Unit(a) && Unit(b) && Unit(u) && Unit(v)
    ensures -1.0 <= Slope(a, b, u, v) <= 1.0
  {
    SlopeByLerp(a, b, u, v);
    LerpBound(v, a, b - a, -1.0, 1.0);
    LerpBound(v, b - a, 1.0 - b, -1.0, 1.0);
    LerpBound(u, Lerp(v, a, b - a), Lerp(v, b - a, 1.0 - b), -1.0, 1.0);
  }

  function SlopeSum(a: real, b: real, s: real, t: real): real {
    Slope(a, b, t, t) + Slope(a, b, s, t) + Slope(a, b, s, s)
  }

  lemma SlopeSumBound(a: real, b: real, s: real, t: real)
    requires Unit(a) && Unit(b) && Unit(s) && Unit(t)
    ensures -3.0 <= SlopeSum(a, b, s, t) <= 3.0
  {
    SlopeBound(a, b, t, t);
    SlopeBound(a, b, s, t);
    SlopeBound(a, b, s, s);
  }

  function Mul(x: real, y: real): real { x * y }

  /** The difference of the curve at two parameters, as three mixed slopes. */
  lemma AxisDifference(a: real, b: real, s: real, t: real)
    ensures Axis(a, b, t) - Axis(a, b, s) == Mul(t - s, SlopeSum(a, b, s, t))
  {
  }

  lemma Stretch(d: real, k: real)
    requires 0.0 <= d && -3.0 <= k <= 3.0
    ensures -3.0 * d <= Mul(d, k) <= 3.0 * d
  {
    Product(d, 3.0 - k);
    Product(d, 3.0 + k);
    assert d * (3.0 - k) == 3.0 * d - d * k;
    assert d * (3.0 + k) == 3.0 * d + d * k;
  }

  /** With control points in [0, 1] the curve changes at most three times as fast as its parameter. */
  lemma AxisLipschitz(a: real, b: real, s: real, t: real)
    requires Unit(a) && Unit(b) && Unit(s) && Unit(t) && s <= t
    ensures -3.0 * (t - s) <= Axis(a, b, t) - Axis(a, b, s) <= 3.0 * (t - s)
  {
    AxisDifference(a, b, s, t);
    SlopeSumBound(a, b, s, t);
    Stretch(t - s, SlopeSum(a, b, s, t));
  }

  // ---------------------------------------------------------------- the solver

  const TOLERANCE: real := 0.000001

  function HalfPow(n: nat): real { if n == 0 then 1.0 else HalfPow(n - 1) / 2.0 }

  lemma {:induction false} HalfPowSum(m: nat, n: nat)
    ensures HalfPow(m + n) == HalfPow(m) * HalfPow(n)
    decreases n
  {
    if n > 0 {
      HalfPowSum(m, n - 1);
      assert HalfPow(m + n) == HalfPow(m + (n - 1)) / 2.0;
    }
  }

  lemma HalfPow31()
    ensures HalfPow(31) * 2000000000.0 < 1.0
  {
    assert HalfPow(4) == 1.0 / 16.0;
    HalfPowSum(4, 4);
    assert HalfPow(8) == 1.0 / 256.0;
    HalfPowSum(8, 8);
    assert HalfPow(16) == 1.0 / 65536.0;
    HalfPowSum(8, 7);
    assert HalfPow(7) == HalfPow(8) * 2.0;
    HalfPowSum(16, 15);
  }

  predicate Solves(x1: real, x2: real, x: real, t: real) { -TOLERANCE < Axis(x1, x2, t) - x < TOLERANCE }

  /** A bracket narrower than 2^-31 pins the curve down to the tolerance at its middle. */
  lemma NarrowBracket(x1: real, x2: real, x: real, lo: real, hi: real, t: real)
    requires Unit(x1) && Unit(x2) && Unit(lo) && Unit(hi) && lo <= t <= hi
    requires Axis(x1, x2, lo) <= x <= Axis(x1, x2, hi)
    requires hi - lo <= HalfPow(31)
    ensures Solves(x1, x2, x, t)
  {
    HalfPow31();
    AxisLipschitz(x1, x2, lo, t);
    AxisLipschitz(x1, x2, t, hi);
  }

  ghost predicate Bracket(x1: real, x2: real, x: real, lo: real, hi: real) {
    0.0 <= lo <= hi <= 1.0 && Axis(x1, x2, lo) <= x <= Axis(x1, x2, hi)
  }

  /** `bezier_ease`.  The bisection keeps the sought abscissa between the two ends of its
      bracket; every exit yields the y coordinate at a parameter whose x coordinate is
      within 1e-6 of `x`, and the result stays in [0, 1]. */
  method Ease(x1: real, y1: real, x2: real, y2: real, x: real) returns (y: real, ghost t: real)
    ensures x <= 0.0 ==> y == 0.0
    ensures x >= 1.0 ==> y == 1.0
    ensures 0.0 < x < 1.0 ==> Unit(t) && y == Axis(y1, y2, t)
    ensures 0.0 < x < 1.0 && Unit(x1) && Unit(x2) ==> Solves(x1, x2, x, t)
    ensures Unit(y1) && Unit(y2) ==> Unit(y)
  {
    t := 0.0;
    if x <= 0.0 { return 0.0, t; }
    if x >= 1.0 { return 1.0, t; }
    var lo, hi, p := 0.0, 1.0, x;
    assert Bracket(x1, x2, x, lo, hi);
    var i := 0;
    while i < 32
      invariant 0 <= i <= 32 && Bracket(x1, x2, x, lo, hi) && lo <= p <= hi
      invariant i > 0 ==> p == (lo + hi) / 2.0 && hi - lo <= HalfPow(i - 1)
    {
      var value := Axis(x1, x2, p);
      if -TOLERANCE < value - x < TOLERANCE { break; }
      if value < x { lo := p; } else { hi := p; }
      p := (lo + hi) / 2.0;
      i := i + 1;
    }
    if i == 32 && Unit(x1) && Unit(x2) {
      NarrowBracket(x1, x2, x, lo, hi, p);
    }
    if Unit(y1) && Unit(y2) {
      AxisUnit(y1, y2, p);
    }
    t := p;
    y := Axis(y1, y2, p);
  }

  /** The curve the lock screen uses: its control points meet the bounds above. */
  method EaseStandard(x: real) returns (y: real, ghost t: real)
    ensures Unit(y) && (x <= 0.0 ==> y == 0.0) && (x >= 1.0 ==> y == 1.0)
    ensures 0.0 < x < 1.0 ==> Unit(t) && Solves(0.2, 0.0, x, t) && y == Axis(0.0, 1.0, t)
  {
    y, t := Ease(0.2, 0.0, 0.0, 1.0, x);
  }
}
