/** The easing solver of the motion checks: a cubic Bézier timing function (section 2.2 of CSS Easing Functions
    Level 1) evaluated by thirty rounds of bisection. Arithmetic is over the reals. */
module Bezier {

  ghost predicate Unit(t: real) {
    0.0 <= t <= 1.0
  }

  /** One coordinate of the curve through (0, 0), (a, ·), (c, ·) and (1, 1), in the expanded form the checks use. */
  function Cubic(t: real, a: real, c: real): real {
    3.0 * a * t * (1.0 - t) * (1.0 - t) + 3.0 * c * t * t * (1.0 - t) + t * t * t
  }

  /** The geometric definition of the same coordinate: de Casteljau's three rounds of interpolation in ratio t : s. */
  ghost function Casteljau(s: real, t: real, a: real, c: real): real {
    var p, q, r := t * a, s * a + t * c, s * c + t;
    s * (s * p + t * q) + t * (s * q + t * r)
  }

  lemma CubicIsTheBezierCurve(s: real, t: real, a: real, c: real)
    requires s + t == 1.0
    ensures Cubic(t, a, c) == Casteljau(s, t, a, c)
  {
    assert 1.0 - t == s;
    assert Cubic(t, a, c) == 3.0 * a * t * s * s + 3.0 * c * t * t * s + t * t * t;
  }

  // The three Bernstein sums of the divided difference of a cubic between t and u.
  ghost function First(t: real, u: real): real {
    (1.0 - t) * (1.0 - t) + (1.0 - t) * (1.0 - u) + (1.0 - u) * (1.0 - u)
  }

  ghost function Middle(t: real, u: real): real {
    2.0 * t * (1.0 - t) + t * (1.0 - u) + u * (1.0 - t) + 2.0 * u * (1.0 - u)
  }

  ghost function Last(t: real, u: real): real {
    t * t + t * u + u * u
  }

  /** The slope of the chord from t to u. It is affine in each control value. */
  ghost function Chord(t: real, u: real, a: real, c: real): real {
    a * First(t, u) + (c - a) * Middle(t, u) + (1.0 - c) * Last(t, u)
  }

  lemma ChordIsTheDividedDifference(t: real, u: real, a: real, c: real)
    ensures Cubic(u, a, c) - Cubic(t, a, c) == (u - t) * Chord(t, u, a, c)
  {
  }

  lemma Positive(x: real, y: real) returns (product: real)
    requires 0.0 < x && 0.0 < y
    ensures product == x * y && 0.0 < product
  {
    product := x * y;
  }

  lemma NonNegative(x: real, y: real) returns (product: real)
    requires 0.0 <= x && 0.0 <= y
    ensures product == x * y && 0.0 <= product
  {
    product := x * y;
  }

  /** Every chord slope is above 0 and at most 3 at the four corners of the unit square of control values. */
  lemma CornerChords(t: real, u: real)
    requires Unit(t) && Unit(u) && t < u
    ensures 0.0 < First(t, u) <= 3.0
    ensures 0.0 < Middle(t, u) <= 3.0
    ensures 0.0 < Last(t, u) <= 3.0
    ensures 0.0 < First(t, u) - Middle(t, u) + Last(t, u) <= 3.0
  {
    var s, d := 1.0 - t - u, u - t;
    SquareSum(1.0 - t, 1.0 - u);
    SquareSum(u, t);
    MiddleSum(t, u);
    assert First(t, u) + Middle(t, u) + Last(t, u) == 3.0;
    assert 3.0 - 2.0 * Middle(t, u) == 3.0 * (s * s) + d * d;
    SquaresAbove(3.0 - 2.0 * Middle(t, u), s, d);
  }

  lemma SquaresAbove(x: real, s: real, d: real)
    requires x == 3.0 * (s * s) + d * d && 0.0 < d
    ensures 0.0 < x
  {
    var dd := Positive(d, d);
    assert 0.0 <= s * s;
  }

  lemma SquareSum(x: real, y: real)
    requires 0.0 < x && 0.0 <= y
    ensures 0.0 < x * x + x * y + y * y
  {
    var xx := Positive(x, x);
    assert 0.0 <= x * y && 0.0 <= y * y;
  }

  lemma MiddleSum(t: real, u: real)
    requires Unit(t) && Unit(u) && t < u
    ensures 0.0 < Middle(t, u)
  {
    var uw := Positive(u, 1.0 - t);
    var tt := NonNegative(t, 1.0 - t);
    var tu := NonNegative(t, 1.0 - u);
    var uu := NonNegative(u, 1.0 - u);
  }

  /** A function affine on the unit square is a weighted mean of its four corner values. */
  lemma ChordBounds(t: real, u: real, a: real, c: real)
    requires Unit(t) && Unit(u) && t < u && Unit(a) && Unit(c)
    ensures 0.0 < Chord(t, u, a, c) <= 3.0
  {
    CornerChords(t, u);
    var f, m, l := First(t, u), Middle(t, u), Last(t, u);
    Blend(a, c, l, m, f - m + l, f);
    AffineIsMix(a, c, f, m, l);
  }

  ghost function Mix(a: real, c: real, f00: real, f01: real, f10: real, f11: real): real {
    (1.0 - a) * ((1.0 - c) * f00 + c * f01) + a * ((1.0 - c) * f10 + c * f11)
  }

  lemma AffineIsMix(a: real, c: real, f: real, m: real, l: real)
    ensures a * f + (c - a) * m + (1.0 - c) * l == Mix(a, c, l, m, f - m + l, f)
  {
    var low, high := (1.0 - c) * l + c * m, (1.0 - c) * (f - m + l) + c * f;
    assert high - low == f - m;
    assert Mix(a, c, l, m, f - m + l, f) == low + a * (high - low);
  }

  lemma Blend(a: real, c: real, f00: real, f01: real, f10: real, f11: real)
    requires Unit(a) && Unit(c)
    requires 0.0 < f00 <= 3.0 && 0.0 < f01 <= 3.0 && 0.0 < f10 <= 3.0 && 0.0 < f11 <= 3.0
    ensures 0.0 < Mix(a, c, f00, f01, f10, f11) <= 3.0
  {
    Between(c, f00, f01);
    Between(c, f10, f11);
    Between(a, (1.0 - c) * f00 + c * f01, (1.0 - c) * f10 + c * f11);
  }

  lemma Between(s: real, p: real, q: real)
    requires Unit(s) && 0.0 < p <= 3.0 && 0.0 < q <= 3.0
    ensures 0.0 < (1.0 - s) * p + s * q <= 3.0
  {
    var r := 1.0 - s;
    assert 0.0 <= r * p && 0.0 <= r * (3.0 - p);
    assert 0.0 <= s * q && 0.0 <= s * (3.0 - q);
    assert if 0.0 < r then 0.0 < r * p else 0.0 < s * q;
  }

  /** For control values in [0, 1], as the standard asks of both x values, the curve's coordinate is strictly
      increasing, so a point of it has one parameter, and it never moves more than three times as fast as t. */
  lemma CoordinateIncreases(t: real, u: real, a: real, c: real)
    requires Unit(t) && Unit(u) && t < u && Unit(a) && Unit(c)
    ensures 0.0 < Cubic(u, a, c) - Cubic(t, a, c) <= 3.0 * (u - t)
  {
    ChordIsTheDividedDifference(t, u, a, c);
    ChordBounds(t, u, a, c);
    var product := Between3(u - t, Chord(t, u, a, c));
  }

  lemma Between3(d: real, q: real) returns (product: real)
    requires 0.0 < d && 0.0 < q <= 3.0
    ensures product == d * q && 0.0 < product <= 3.0 * d
  {
    product := Positive(d, q);
    var rest := NonNegative(d, 3.0 - q);
    assert rest == 3.0 * d - product;
  }

  /** The order of two coordinates is the order of their parameters. */
  lemma CoordinateOrder(t: real, u: real, a: real, c: real)
    requires Unit(t) && Unit(u) && Unit(a) && Unit(c)
    ensures Cubic(t, a, c) < Cubic(u, a, c) <==> t < u
    ensures -3.0 * Abs(u - t) <= Cubic(u, a, c) - Cubic(t, a, c) <= 3.0 * Abs(u - t)
  {
    if t < u {
      CoordinateIncreases(t, u, a, c);
    } else if u < t {
      CoordinateIncreases(u, t, a, c);
    }
  }

  function Abs(x: real): real {
    if x < 0.0 then -x else x
  }

  /** The parameter t gives the curve's point whose horizontal coordinate is x. */
  ghost predicate Root(t: real, x: real, ax: real, cx: real) {
    Unit(t) && Cubic(t, ax, cx) == x
  }

  ghost function Halves(n: nat): (w: real)
    ensures 0.0 < w
  {
    if n == 0 then 1.0 else Halves(n - 1) / 2.0
  }

  lemma ThirtyHalves()
    ensures Halves(30) == 1.0 / 1073741824.0
  {
    assert Halves(10) == 1.0 / 1024.0;
    assert Halves(20) == 1.0 / 1048576.0;
  }

  /** The largest error of a solve: three times half the last bracket. */
  const ERROR: real := 3.0 / 2147483648.0

  /** The curve's point at t has its horizontal coordinate near x. */
  ghost predicate Near(t: real, x: real, ax: real, cx: real) {
    Unit(t) && Abs(Cubic(t, ax, cx) - x) <= ERROR
  }

  lemma CubicEnds(a: real, c: real)
    ensures Cubic(0.0, a, c) == 0.0 && Cubic(1.0, a, c) == 1.0
  {
  }

  lemma MiddleIsNear(x: real, lo: real, hi: real, ax: real, cx: real)
    requires 0.0 <= lo < hi <= 1.0 && hi - lo == Halves(30) && Unit(ax) && Unit(cx)
    ensures Cubic(lo, ax, cx) <= x <= Cubic(hi, ax, cx) ==> Near((lo + hi) / 2.0, x, ax, cx)
  {
    ThirtyHalves();
    CoordinateIncreases(lo, (lo + hi) / 2.0, ax, cx);
    CoordinateIncreases((lo + hi) / 2.0, hi, ax, cx);
  }

  /** Bisection for the parameter of `x`, then the vertical coordinate there: within the error of the one at the exact
      parameter, and the exact one of a parameter whose horizontal coordinate is within the error of x. */
  method Solve(x: real, ax: real, cx: real, ay: real, cy: real) returns (y: real)
    requires Unit(ax) && Unit(cx) && Unit(ay) && Unit(cy)
    ensures forall t :: Root(t, x, ax, cx) ==> Abs(y - Cubic(t, ay, cy)) <= ERROR
    ensures Unit(x) ==> exists t :: Near(t, x, ax, cx) && y == Cubic(t, ay, cy)
    ensures 0.0 < y < 1.0
  {
    var lo, hi := 0.0, 1.0;
    CubicEnds(ax, cx);
    for i := 0 to 30
      invariant 0.0 <= lo < hi <= 1.0
      invariant Unit(x) ==> Cubic(lo, ax, cx) <= x <= Cubic(hi, ax, cx)
      invariant hi - lo == Halves(i)
      invariant forall t :: Root(t, x, ax, cx) ==> lo <= t <= hi
    {
      var m := (lo + hi) / 2.0;
      forall t | Root(t, x, ax, cx)
        ensures if Cubic(m, ax, cx) < x then m <= t else t <= m
      {
        CoordinateOrder(m, t, ax, cx);
      }
      if Cubic(m, ax, cx) < x {
        lo := m;
      } else {
        hi := m;
      }
    }
    ThirtyHalves();
    var m := (lo + hi) / 2.0;
    y := Cubic(m, ay, cy);
    if Unit(x) {
      MiddleIsNear(x, lo, hi, ax, cx);
    }
    forall t | Root(t, x, ax, cx)
      ensures Abs(y - Cubic(t, ay, cy)) <= ERROR
    {
      CoordinateOrder(t, m, ay, cy);
    }
    CoordinateIncreases(0.0, m, ay, cy);
    CoordinateIncreases(m, 1.0, ay, cy);
  }

  /** The environment panel's easing, cubic-bezier(.32, .72, 0, 1). */
  method MotionProgress(x: real) returns (y: real)
    ensures forall t :: Root(t, x, 0.32, 0.0) ==> Abs(y - Cubic(t, 0.72, 1.0)) <= ERROR
    ensures Unit(x) ==> exists t :: Near(t, x, 0.32, 0.0) && y == Cubic(t, 0.72, 1.0)
  {
    y := Solve(x, 0.32, 0.0, 0.72, 1.0);
  }

  /** The drag settle's easing, cubic-bezier(.25, .1, .25, 1). */
  method DragProgress(x: real) returns (y: real)
    ensures forall t :: Root(t, x, 0.25, 0.25) ==> Abs(y - Cubic(t, 0.1, 1.0)) <= ERROR
    ensures Unit(x) ==> exists t :: Near(t, x, 0.25, 0.25) && y == Cubic(t, 0.1, 1.0)
  {
    y := Solve(x, 0.25, 0.25, 0.1, 1.0);
  }
}
