/**
 * Geometric primitives shared by every variant of the index:
 * points and edges, the squared Euclidean norm, and Per-Olof Persson's
 * point-to-segment squared distance by clamped projection.
 * Coordinates are exact reals; square roots are never taken.
 */
module Geometry {

  /** A polygon vertex: coordinates, the additive height `coeff` used by the
      custom nearest-vertex metric, and the vertex's original `index`. */
  datatype Point = Point(x: real, y: real, coeff: real, index: nat)

  /** One boundary segment, directed in the polygon's winding order. */
  datatype Edge = Edge(p1: Point, p2: Point)

  /** `f64::min` / `std::min` on finite values. */
  function Min(a: real, b: real): (r: real)
    ensures r <= a && r <= b
    ensures r == a || r == b
  {
    if a <= b then a else b
  }

  /** `f64::max` / `std::max` on finite values. */
  function Max(a: real, b: real): (r: real)
    ensures r >= a && r >= b
    ensures r == a || r == b
  {
    if a >= b then a else b
  }

  /** `distance_squared(x, y)`: the squared length of the vector (x, y). */
  function DistanceSquared(x: real, y: real): (r: real)
    ensures r >= 0.0
  {
    SquareNonneg(x);
    SquareNonneg(y);
    x * x + y * y
  }

  lemma SquareNonneg(x: real)
    ensures x * x >= 0.0
  {
  }

  function Abs(a: real): (r: real)
    ensures r >= 0.0 && (r == a || r == -a)
  {
    if a < 0.0 then -a else a
  }

  lemma SquareOfNegation(a: real)
    ensures (-a) * (-a) == a * a
  {
    NegateLeft(a, -a);
    NegateRight(a, a);
  }

  /** The square of a value is the square of its magnitude. */
  lemma SquareOfAbs(a: real, s: real)
    ensures s == Abs(a) ==> s * s == a * a
  {
    if a < 0.0 {
      SquareOfNegation(a);
    }
  }

  lemma SquareMonotone(a: real, b: real)
    requires Abs(a) <= Abs(b)
    ensures a * a <= b * b
  {
    var s := Abs(a);
    var t := Abs(b);
    SquareOfAbs(a, s);
    SquareOfAbs(b, t);
    MulLeft(s, s, t);
    MulLeftRight(s, t, t);
  }

  /** `distance_squared` is even in each argument and vanishes at the origin. */
  lemma DistanceSquaredProperties(x: real, y: real)
    ensures DistanceSquared(-x, y) == DistanceSquared(x, y)
    ensures DistanceSquared(x, -y) == DistanceSquared(x, y)
    ensures DistanceSquared(0.0, 0.0) == 0.0
  {
    SquareOfNegation(x);
    SquareOfNegation(y);
  }

  /** `distance_squared(x, y)` is 0 exactly at the origin. */
  lemma DistanceSquaredZero(x: real, y: real)
    ensures DistanceSquared(x, y) == 0.0 <==> x == 0.0 && y == 0.0
  {
    DistanceSquaredStrict(0.0, 0.0, x, y);
    DistanceSquaredStrictY(0.0, 0.0, x, y);
    DistanceSquaredProperties(x, y);
  }

  lemma SquareStrictlyMonotone(a: real, b: real)
    requires Abs(a) < Abs(b)
    ensures a * a < b * b
  {
    var s := Abs(a);
    var t := Abs(b);
    SquareOfAbs(a, s);
    SquareOfAbs(b, t);
    SquaresPreserveOrder(s, t);
  }

  lemma DistanceSquaredStrict(x: real, y: real, x': real, y': real)
    ensures Abs(x) < Abs(x') && Abs(y) <= Abs(y') ==> DistanceSquared(x, y) < DistanceSquared(x', y')
  {
    if Abs(x) < Abs(x') && Abs(y) <= Abs(y') {
      SquareStrictlyMonotone(x, x');
      SquareMonotone(y, y');
    }
  }

  lemma DistanceSquaredStrictY(x: real, y: real, x': real, y': real)
    ensures Abs(x) <= Abs(x') && Abs(y) < Abs(y') ==> DistanceSquared(x, y) < DistanceSquared(x', y')
  {
    if Abs(x) <= Abs(x') && Abs(y) < Abs(y') {
      SquareMonotone(x, x');
      SquareStrictlyMonotone(y, y');
    }
  }

  /** Negating both arguments leaves `distance_squared` unchanged. */
  lemma DistanceSquaredReversed(u: real, v: real, u': real, v': real)
    requires u' == -u && v' == -v
    ensures DistanceSquared(u', v') == DistanceSquared(u, v)
  {
    SquareOfNegation(u);
    SquareOfNegation(v);
  }

  /** `distance_squared` grows with the magnitude of each argument. */
  lemma DistanceSquaredMonotone(x: real, y: real, x': real, y': real)
    ensures Abs(x) <= Abs(x') && Abs(y) <= Abs(y') ==> DistanceSquared(x, y) <= DistanceSquared(x', y')
  {
    if Abs(x) <= Abs(x') && Abs(y) <= Abs(y') {
      SquareMonotone(x, x');
      SquareMonotone(y, y');
    }
  }

  /** Deferring the square root is sound: on non-negative values, comparing
      squares agrees with comparing the values themselves, so the candidate
      with the least squared distance is the one with the least distance. */
  lemma SquaresPreserveOrder(a: real, b: real)
    requires a >= 0.0 && b >= 0.0
    ensures a < b <==> a * a < b * b
    ensures a == b <==> a * a == b * b
  {
    var aa, ab, bb := a * a, a * b, b * b;
    if a < b {
      assert aa <= ab;
      assert ab < bb;
    } else if b < a {
      assert bb <= ab;
      assert ab < aa;
    }
  }

  /** `c1` of `dsegment`: the dot product of v = p2 - p1 and w = x0 - p1. */
  function Projection(x0: real, y0: real, p1x: real, p1y: real, p2x: real, p2y: real): real
  {
    (p2x - p1x) * (x0 - p1x) + (p2y - p1y) * (y0 - p1y)
  }

  /** `c2` of `dsegment`: the squared length of v = p2 - p1. */
  function SquaredLength(p1x: real, p1y: real, p2x: real, p2y: real): (r: real)
    ensures r >= 0.0
  {
    SquareNonneg(p2x - p1x);
    SquareNonneg(p2y - p1y);
    (p2x - p1x) * (p2x - p1x) + (p2y - p1y) * (p2y - p1y)
  }

  /** `dsegment(x0, y0, p1x, p1y, p2x, p2y)`: the squared distance from
      (x0, y0) to the segment p1-p2. `c1` is the projection of w = x0 - p1 on
      v = p2 - p1 and `c2` the squared length of v; the division is reached
      only when 0 < c1 < c2, so a zero-length segment never divides. */
  function DSegment(x0: real, y0: real, p1x: real, p1y: real, p2x: real, p2y: real): (r: real)
    ensures r >= 0.0
  {
    var v0, v1 := p2x - p1x, p2y - p1y;
    var c1 := Projection(x0, y0, p1x, p1y, p2x, p2y);
    if c1 <= 0.0 then
      DistanceSquared(x0 - p1x, y0 - p1y)
    else
      var c2 := SquaredLength(p1x, p1y, p2x, p2y);
      if c1 >= c2 then
        DistanceSquared(x0 - p2x, y0 - p2y)
      else
        DistanceSquared(x0 - (p1x + c1 / c2 * v0), y0 - (p1y + c1 / c2 * v1))
  }

  /** `dsegment` applied to a query point and an edge. */
  function EdgeDistance(p: Point, e: Edge): real
  {
    DSegment(p.x, p.y, e.p1.x, e.p1.y, e.p2.x, e.p2.y)
  }

  /** The projection parameter c1 / c2 clamped to [0, 1] the way `dsegment`
      branches: 0 when c1 <= 0, 1 when c1 >= c2. */
  function Clamp(c1: real, c2: real): (t: real)
    ensures 0.0 <= t <= 1.0
  {
    if c1 <= 0.0 then 0.0
    else if c1 >= c2 then 1.0
    else UnitQuotient(c1, c2); c1 / c2
  }

  lemma UnitQuotient(a: real, b: real)
    requires 0.0 <= a <= b && b > 0.0
    ensures 0.0 <= a / b <= 1.0
  {
  }

  /** The parameter of the segment point that `dsegment` measures to. */
  function ClampedParameter(x0: real, y0: real, p1x: real, p1y: real, p2x: real, p2y: real): (t: real)
    ensures 0.0 <= t <= 1.0
  {
    Clamp(Projection(x0, y0, p1x, p1y, p2x, p2y), SquaredLength(p1x, p1y, p2x, p2y))
  }

  /** The squared distance from (x0, y0) to the point p1 + t (p2 - p1). */
  function DistanceToSegmentPoint(x0: real, y0: real, p1x: real, p1y: real, p2x: real, p2y: real, t: real): real
  {
    DistanceSquared(x0 - (p1x + t * (p2x - p1x)), y0 - (p1y + t * (p2y - p1y)))
  }

  /** The squared distance to the point at parameter t, expanded as a
      quadratic in t: |w|^2 - 2 t c1 + t^2 c2. */
  lemma SegmentPointExpansion(x0: real, y0: real, p1x: real, p1y: real, p2x: real, p2y: real, t: real)
    ensures DistanceToSegmentPoint(x0, y0, p1x, p1y, p2x, p2y, t)
            == DistanceSquared(x0 - p1x, y0 - p1y)
               - 2.0 * (t * Projection(x0, y0, p1x, p1y, p2x, p2y))
               + (t * t) * SquaredLength(p1x, p1y, p2x, p2y)
  {
    var cx, cy := (p2x - p1x) * (x0 - p1x), (p2y - p1y) * (y0 - p1y);
    var lx, ly := (p2x - p1x) * (p2x - p1x), (p2y - p1y) * (p2y - p1y);
    var tt := t * t;
    CoordinateExpansion(x0, p1x, p2x, t, cx, lx, tt);
    CoordinateExpansion(y0, p1y, p2y, t, cy, ly, tt);
    Distribute(t, cx, cy);
    Distribute(tt, lx, ly);
  }

  /** One coordinate of the expansion, with c = (p2x - p1x) (x0 - p1x) and
      l = (p2x - p1x)^2. */
  lemma CoordinateExpansion(x0: real, p1x: real, p2x: real, t: real, c: real, l: real, tt: real)
    requires c == (p2x - p1x) * (x0 - p1x) && l == (p2x - p1x) * (p2x - p1x) && tt == t * t
    ensures (x0 - (p1x + t * (p2x - p1x))) * (x0 - (p1x + t * (p2x - p1x)))
            == (x0 - p1x) * (x0 - p1x) - 2.0 * (t * c) + tt * l
  {
  }

  lemma Distribute(k: real, a: real, b: real)
    ensures k * (a + b) == k * a + k * b
  {
  }

  /** Each branch of `dsegment` evaluates the segment point at the clamped
      parameter: p1 when c1 <= 0, p2 when c1 >= c2, the projection otherwise. */
  lemma DSegmentAtClampedParameter(x0: real, y0: real, p1x: real, p1y: real, p2x: real, p2y: real)
    ensures DSegment(x0, y0, p1x, p1y, p2x, p2y)
            == DistanceToSegmentPoint(x0, y0, p1x, p1y, p2x, p2y, ClampedParameter(x0, y0, p1x, p1y, p2x, p2y))
  {
    var c1, c2 := Projection(x0, y0, p1x, p1y, p2x, p2y), SquaredLength(p1x, p1y, p2x, p2y);
    if c1 <= 0.0 {
      DSegmentAtStart(x0, y0, p1x, p1y, p2x, p2y);
    } else if c1 >= c2 {
      DSegmentAtEnd(x0, y0, p1x, p1y, p2x, p2y);
    } else {
      DSegmentInside(x0, y0, p1x, p1y, p2x, p2y);
    }
  }

  lemma DSegmentInside(x0: real, y0: real, p1x: real, p1y: real, p2x: real, p2y: real)
    requires 0.0 < Projection(x0, y0, p1x, p1y, p2x, p2y) < SquaredLength(p1x, p1y, p2x, p2y)
    ensures DSegment(x0, y0, p1x, p1y, p2x, p2y)
            == DistanceToSegmentPoint(x0, y0, p1x, p1y, p2x, p2y, ClampedParameter(x0, y0, p1x, p1y, p2x, p2y))
  {
    var c1, c2 := Projection(x0, y0, p1x, p1y, p2x, p2y), SquaredLength(p1x, p1y, p2x, p2y);
    var t := c1 / c2;
    ClampBranches(c1, c2);
    assert ClampedParameter(x0, y0, p1x, p1y, p2x, p2y) == t;
    assert DSegment(x0, y0, p1x, p1y, p2x, p2y) == DistanceSquared(x0 - (p1x + t * (p2x - p1x)), y0 - (p1y + t * (p2y - p1y)));
  }

  lemma DSegmentAtStart(x0: real, y0: real, p1x: real, p1y: real, p2x: real, p2y: real)
    requires Projection(x0, y0, p1x, p1y, p2x, p2y) <= 0.0
    ensures ClampedParameter(x0, y0, p1x, p1y, p2x, p2y) == 0.0
    ensures DSegment(x0, y0, p1x, p1y, p2x, p2y) == DistanceToSegmentPoint(x0, y0, p1x, p1y, p2x, p2y, 0.0)
  {
    assert DistanceToSegmentPoint(x0, y0, p1x, p1y, p2x, p2y, 0.0) == DistanceSquared(x0 - p1x, y0 - p1y);
  }

  lemma DSegmentAtEnd(x0: real, y0: real, p1x: real, p1y: real, p2x: real, p2y: real)
    requires Projection(x0, y0, p1x, p1y, p2x, p2y) > 0.0
    requires Projection(x0, y0, p1x, p1y, p2x, p2y) >= SquaredLength(p1x, p1y, p2x, p2y)
    ensures ClampedParameter(x0, y0, p1x, p1y, p2x, p2y) == 1.0
    ensures DSegment(x0, y0, p1x, p1y, p2x, p2y) == DistanceToSegmentPoint(x0, y0, p1x, p1y, p2x, p2y, 1.0)
  {
    assert x0 - (p1x + 1.0 * (p2x - p1x)) == x0 - p2x;
    assert y0 - (p1y + 1.0 * (p2y - p1y)) == y0 - p2y;
    assert DistanceToSegmentPoint(x0, y0, p1x, p1y, p2x, p2y, 1.0) == DistanceSquared(x0 - p2x, y0 - p2y);
  }

  lemma ClampBranches(c1: real, c2: real)
    ensures c1 <= 0.0 ==> Clamp(c1, c2) == 0.0
    ensures c1 > 0.0 && c1 >= c2 ==> Clamp(c1, c2) == 1.0
    ensures 0.0 < c1 < c2 ==> Clamp(c1, c2) == c1 / c2
  {
  }

  /** `dsegment` returns the minimum, over every t in [0, 1], of the squared
      distance to p1 + t (p2 - p1): it is attained at the clamped parameter and
      no point of the segment is closer. */
  lemma DSegmentIsMinimum(x0: real, y0: real, p1x: real, p1y: real, p2x: real, p2y: real, t: real)
    requires 0.0 <= t <= 1.0
    ensures DSegment(x0, y0, p1x, p1y, p2x, p2y) <= DistanceToSegmentPoint(x0, y0, p1x, p1y, p2x, p2y, t)
  {
    var s := ClampedParameter(x0, y0, p1x, p1y, p2x, p2y);
    DSegmentAtClampedParameter(x0, y0, p1x, p1y, p2x, p2y);
    SegmentPointExpansion(x0, y0, p1x, p1y, p2x, p2y, t);
    SegmentPointExpansion(x0, y0, p1x, p1y, p2x, p2y, s);
    ClampMinimizes(Projection(x0, y0, p1x, p1y, p2x, p2y), SquaredLength(p1x, p1y, p2x, p2y), t);
  }

  /** The clamped parameter minimises the quadratic -2 t c1 + t^2 c2 over
      [0, 1] when c2 >= 0. */
  lemma ClampMinimizes(c1: real, c2: real, t: real)
    requires c2 >= 0.0 && 0.0 <= t <= 1.0
    ensures var s := Clamp(c1, c2);
            -2.0 * (s * c1) + (s * s) * c2 <= -2.0 * (t * c1) + (t * t) * c2
  {
    if c1 <= 0.0 {
      QuadLow(c1, c2, t);
    } else if c1 >= c2 {
      QuadHigh(c1, c2, t);
    } else {
      var s := c1 / c2;
      QuotientTimesDivisor(c1, c2);
      QuadMid(c1, c2, s, t);
    }
  }

  lemma QuotientTimesDivisor(a: real, b: real)
    requires b != 0.0
    ensures a / b * b == a
  {
  }

  /** Below the projection (c1 <= 0) the quadratic in t is least at t = 0. */
  lemma QuadLow(c1: real, c2: real, t: real)
    requires c1 <= 0.0 && c2 >= 0.0 && 0.0 <= t <= 1.0
    ensures -2.0 * (t * c1) + (t * t) * c2 >= 0.0
  {
    MulNonneg(t, -c1);
    MulNonneg(t, t);
    MulNonneg(t * t, c2);
  }

  /** Beyond the segment (c1 >= c2) the quadratic in t is least at t = 1. */
  lemma QuadHigh(c1: real, c2: real, t: real)
    requires c1 >= c2 && c2 >= 0.0 && 0.0 <= t <= 1.0
    ensures -2.0 * (t * c1) + (t * t) * c2 >= -2.0 * c1 + c2
  {
    MulNonneg(1.0 - t, 2.0 * c1 - (1.0 + t) * c2);
    assert (1.0 - t) * (2.0 * c1 - (1.0 + t) * c2) == (-2.0 * (t * c1) + (t * t) * c2) - (-2.0 * c1 + c2);
  }

  /** Otherwise the quadratic is least at its vertex s = c1 / c2. */
  lemma QuadMid(c1: real, c2: real, s: real, t: real)
    requires 0.0 < c1 < c2 && s * c2 == c1
    ensures -2.0 * (t * c1) + (t * t) * c2 >= -2.0 * (s * c1) + (s * s) * c2
  {
    MulNonneg(c2, (t - s) * (t - s));
    assert c2 * ((t - s) * (t - s)) == (-2.0 * (t * c1) + (t * t) * c2) - (-2.0 * (s * c1) + (s * s) * c2);
  }

  /** Consequences used by the queries and stated by the source: the result
      never exceeds the squared distance to either endpoint, and is 0 when
      the point is an endpoint. */
  lemma DSegmentBelowEndpoints(x0: real, y0: real, p1x: real, p1y: real, p2x: real, p2y: real)
    ensures DSegment(x0, y0, p1x, p1y, p2x, p2y) <= DistanceSquared(x0 - p1x, y0 - p1y)
    ensures DSegment(x0, y0, p1x, p1y, p2x, p2y) <= DistanceSquared(x0 - p2x, y0 - p2y)
    ensures (x0 == p1x && y0 == p1y) || (x0 == p2x && y0 == p2y) ==> DSegment(x0, y0, p1x, p1y, p2x, p2y) == 0.0
  {
    DSegmentIsMinimum(x0, y0, p1x, p1y, p2x, p2y, 0.0);
    assert DistanceToSegmentPoint(x0, y0, p1x, p1y, p2x, p2y, 0.0) == DistanceSquared(x0 - p1x, y0 - p1y);
    DSegmentIsMinimum(x0, y0, p1x, p1y, p2x, p2y, 1.0);
    assert DistanceToSegmentPoint(x0, y0, p1x, p1y, p2x, p2y, 1.0) == DistanceSquared(x0 - p2x, y0 - p2y);
  }

  /** The first two branches of `dsegment`: c1 <= 0 gives the squared
      distance to p1, c1 >= c2 (and c1 > 0) the squared distance to p2. A
      zero-length segment has c1 == 0 and so takes the first branch: the
      division is reached only with 0 < c1 < c2. */
  lemma DSegmentBranches(x0: real, y0: real, p1x: real, p1y: real, p2x: real, p2y: real)
    ensures Projection(x0, y0, p1x, p1y, p2x, p2y) <= 0.0
            ==> DSegment(x0, y0, p1x, p1y, p2x, p2y) == DistanceSquared(x0 - p1x, y0 - p1y)
    ensures Projection(x0, y0, p1x, p1y, p2x, p2y) > 0.0
            && Projection(x0, y0, p1x, p1y, p2x, p2y) >= SquaredLength(p1x, p1y, p2x, p2y)
            ==> DSegment(x0, y0, p1x, p1y, p2x, p2y) == DistanceSquared(x0 - p2x, y0 - p2y)
    ensures p1x == p2x && p1y == p2y
            ==> Projection(x0, y0, p1x, p1y, p2x, p2y) == 0.0 && SquaredLength(p1x, p1y, p2x, p2y) == 0.0
  {
  }

  lemma BetweenEndpoints(a: real, b: real, t: real)
    requires 0.0 <= t <= 1.0
    ensures Min(a, b) <= a + t * (b - a) <= Max(a, b)
  {
    if a <= b {
      MulNonneg(t, b - a);
      MulNonneg(1.0 - t, b - a);
      assert (1.0 - t) * (b - a) == (b - a) - t * (b - a);
    } else {
      MulNonneg(t, a - b);
      MulNonneg(1.0 - t, a - b);
      assert (1.0 - t) * (a - b) == (a - b) - t * (a - b);
      assert t * (b - a) == -(t * (a - b));
    }
  }

  lemma MulNonneg(a: real, b: real)
    ensures a >= 0.0 && b >= 0.0 ==> a * b >= 0.0
  {
  }


  lemma NegateLeft(a: real, b: real)
    ensures (-a) * b == -(a * b)
  {
  }

  lemma NegateRight(a: real, b: real)
    ensures a * (-b) == -(a * b)
  {
  }

  /** Multiplication by a non-negative factor on the left is monotone. */
  lemma MulLeft(k: real, a: real, b: real)
    ensures k >= 0.0 && a <= b ==> k * a <= k * b
  {
    MulNonneg(k, b - a);
    assert k * (b - a) == k * b - k * a;
  }

  /** The same, with the factor on the right. */
  lemma MulLeftRight(a: real, b: real, k: real)
    ensures k >= 0.0 && a <= b ==> a * k <= b * k
  {
    MulNonneg(b - a, k);
    assert (b - a) * k == b * k - a * k;
  }
}
