/**
 * The horizontal-ray crossing test of Dan Sunday's inclusion algorithm, as
 * the Rust variants implement it (`a_z`, `crosses`), and the C++ `is_left`
 * orientation test.
 *
 * `crosses` counts an edge when the ray from the point towards +x meets it.
 * Its y-range test is closed at both ends, so a ray through a vertex shared
 * by two non-horizontal edges meets both of them.
 */
module Crossing {
  import opened Geometry

  /** `a_z`: the z-component of the cross product (p2 - p1) x (r - p1);
      positive when r is left of the line directed from p1 to p2. */
  function AZ(p1x: real, p1y: real, p2x: real, p2y: real, rx: real, ry: real): real
  {
    (p2x - p1x) * (ry - p1y) - (p2y - p1y) * (rx - p1x)
  }

  /** `a_z(r, e)` on an edge, as in the current Rust variant. */
  function EdgeAZ(rx: real, ry: real, e: Edge): real
  {
    AZ(e.p1.x, e.p1.y, e.p2.x, e.p2.y, rx, ry)
  }

  /** `is_left(p0, p1, p2)`: > 0 when p2 is left of the line through p0 and
      p1, < 0 when right, 0 when on it. */
  function IsLeft(p0x: real, p0y: real, p1x: real, p1y: real, p2x: real, p2y: real): real
  {
    (p1x - p0x) * (p2y - p0y) - (p2x - p0x) * (p1y - p0y)
  }

  /** `crosses(px, py, e)`: false above or below the edge's closed y-range;
      otherwise an upward edge is crossed when the point is left of it and a
      downward or horizontal edge when the point is right of it. */
  predicate Crosses(px: real, py: real, e: Edge)
  {
    if py > Max(e.p1.y, e.p2.y) then false
    else if py < Min(e.p1.y, e.p2.y) then false
    else if e.p1.y < e.p2.y then EdgeAZ(px, py, e) > 0.0
    else EdgeAZ(px, py, e) < 0.0
  }

  /** The edge with its endpoints swapped. */
  function Reverse(e: Edge): (r: Edge)
    ensures r.p1 == e.p2 && r.p2 == e.p1
  {
    Edge(e.p2, e.p1)
  }

  /** The x-coordinate of a non-horizontal edge's supporting line at height y. */
  function XAt(e: Edge, y: real): real
    requires e.p1.y != e.p2.y
  {
    e.p1.x + (y - e.p1.y) / (e.p2.y - e.p1.y) * (e.p2.x - e.p1.x)
  }

  /** The two orientation tests of the code base agree: `is_left(p0, p1, p2)`
      is `a_z` of the point p2 against the line p0-p1. */
  lemma IsLeftIsAZ(p0x: real, p0y: real, p1x: real, p1y: real, p2x: real, p2y: real)
    ensures IsLeft(p0x, p0y, p1x, p1y, p2x, p2y) == AZ(p0x, p0y, p1x, p1y, p2x, p2y)
  {
    assert (p2x - p0x) * (p1y - p0y) == (p1y - p0y) * (p2x - p0x);
  }

  /** `is_left` is antisymmetric in the two points defining the line, and it
      is 0 when the tested point is one of them. */
  lemma IsLeftAntisymmetric(p0x: real, p0y: real, p1x: real, p1y: real, p2x: real, p2y: real)
    ensures IsLeft(p1x, p1y, p0x, p0y, p2x, p2y) == -IsLeft(p0x, p0y, p1x, p1y, p2x, p2y)
    ensures IsLeft(p0x, p0y, p1x, p1y, p0x, p0y) == 0.0
    ensures IsLeft(p0x, p0y, p1x, p1y, p1x, p1y) == 0.0
  {
    var a, b := p1x - p0x, p1y - p0y;
    var c, d := p2x - p0x, p2y - p0y;
    assert p0x - p1x == -a && p0y - p1y == -b;
    assert p2x - p1x == c - a && p2y - p1y == d - b;
    assert (-a) * (d - b) - (c - a) * (-b) == -(a * d - c * b);
    assert a * b - a * b == 0.0;
  }

  /** `a_z` vanishes when r is p1 or p2, or lies on the line through them. */
  lemma AZZeroOnLine(p1x: real, p1y: real, p2x: real, p2y: real, t: real)
    ensures AZ(p1x, p1y, p2x, p2y, p1x, p1y) == 0.0
    ensures AZ(p1x, p1y, p2x, p2y, p2x, p2y) == 0.0
    ensures AZ(p1x, p1y, p2x, p2y, p1x + t * (p2x - p1x), p1y + t * (p2y - p1y)) == 0.0
  {
    var vx, vy := p2x - p1x, p2y - p1y;
    assert vx * vy - vy * vx == 0.0;
    assert vx * (t * vy) - vy * (t * vx) == 0.0;
    assert p1x + t * vx - p1x == t * vx && p1y + t * vy - p1y == t * vy;
  }

  /** Reversing an edge negates `a_z`. */
  lemma ReverseNegatesAZ(rx: real, ry: real, e: Edge)
    ensures EdgeAZ(rx, ry, Reverse(e)) == -EdgeAZ(rx, ry, e)
  {
    var vx, vy := e.p2.x - e.p1.x, e.p2.y - e.p1.y;
    var cx, cy := rx - e.p1.x, ry - e.p1.y;
    assert rx - e.p2.x == cx - vx && ry - e.p2.y == cy - vy;
    assert (-vx) * (cy - vy) - (-vy) * (cx - vx) == -(vx * cy - vy * cx);
  }

  /** A horizontal edge is never crossed: the only height it admits is its
      own, where `a_z` is 0 and neither strict comparison holds. */
  lemma HorizontalNeverCrosses(px: real, py: real, e: Edge)
    requires e.p1.y == e.p2.y
    ensures !Crosses(px, py, e)
  {
    if py == e.p1.y {
      assert EdgeAZ(px, py, e) == (e.p2.x - e.p1.x) * 0.0 - 0.0 * (px - e.p1.x);
    }
  }

  /** A point on the edge's supporting line never crosses it. */
  lemma OnLineNeverCrosses(px: real, py: real, e: Edge)
    requires EdgeAZ(px, py, e) == 0.0
    ensures !Crosses(px, py, e)
  {
  }

  /** `crosses` does not depend on the edge's direction. */
  lemma CrossesIgnoresDirection(px: real, py: real, e: Edge)
    ensures Crosses(px, py, Reverse(e)) == Crosses(px, py, e)
  {
    ReverseNegatesAZ(px, py, e);
    if e.p1.y == e.p2.y {
      HorizontalNeverCrosses(px, py, e);
      HorizontalNeverCrosses(px, py, Reverse(e));
    }
  }

  /** For a non-horizontal edge, `a_z` at height y is the edge's rise times
      the horizontal gap from the point to the supporting line. */
  lemma AZAtHeight(px: real, py: real, e: Edge)
    requires e.p1.y != e.p2.y
    ensures EdgeAZ(px, py, e) == (e.p2.y - e.p1.y) * (XAt(e, py) - px)
  {
    var h := e.p2.y - e.p1.y;
    var vx := e.p2.x - e.p1.x;
    var t := (py - e.p1.y) / h;
    assert t * h == py - e.p1.y;
    assert XAt(e, py) - px == t * vx - (px - e.p1.x);
    assert h * (t * vx - (px - e.p1.x)) == vx * (t * h) - h * (px - e.p1.x);
  }

  lemma ProductSign(h: real, z: real)
    requires h != 0.0
    ensures h > 0.0 ==> (h * z > 0.0 <==> z > 0.0)
    ensures h < 0.0 ==> (h * z < 0.0 <==> z > 0.0)
  {
    if z > 0.0 {
      assert h > 0.0 ==> h * z > 0.0;
      assert h < 0.0 ==> h * z < 0.0;
    } else {
      assert h > 0.0 ==> h * z <= 0.0;
      assert h < 0.0 ==> h * z >= 0.0;
    }
  }

  /** What `crosses` decides: the edge is not horizontal, its closed y-range
      holds the point's height, and at that height it lies strictly to the
      +x side of the point, so the ray from the point towards +x meets it. */
  lemma CrossesMeaning(px: real, py: real, e: Edge)
    ensures Crosses(px, py, e) <==>
              e.p1.y != e.p2.y && Min(e.p1.y, e.p2.y) <= py <= Max(e.p1.y, e.p2.y) && px < XAt(e, py)
  {
    if e.p1.y == e.p2.y {
      HorizontalNeverCrosses(px, py, e);
    } else {
      AZAtHeight(px, py, e);
      ProductSign(e.p2.y - e.p1.y, XAt(e, py) - px);
    }
  }

  /** A crossed edge has an endpoint strictly to the +x side of the point,
      and the point's height lies in the edge's y-range. This makes `p.x >
      xmax` a sound pruning test for the +x ray. */
  lemma CrossesLeftOfEdge(px: real, py: real, e: Edge)
    requires Crosses(px, py, e)
    ensures Min(e.p1.y, e.p2.y) <= py <= Max(e.p1.y, e.p2.y)
    ensures px < Max(e.p1.x, e.p2.x)
  {
    if e.p1.y > e.p2.y {
      CrossesIgnoresDirection(px, py, e);
      NotUpwardCrossingLeft(px, py, Reverse(e));
    } else {
      NotUpwardCrossingLeft(px, py, e);
    }
  }

  /** The case of an edge that does not go downwards. */
  lemma NotUpwardCrossingLeft(px: real, py: real, e: Edge)
    requires Crosses(px, py, e) && e.p1.y <= e.p2.y
    ensures px < Max(e.p1.x, e.p2.x)
  {
    var u, a := e.p2.x - e.p1.x, py - e.p1.y;
    var h, w := e.p2.y - e.p1.y, px - e.p1.x;
    CrossBound(u, a, h, w);
  }

  /** If 0 <= a <= h and w >= max(u, 0), then u a - h w <= 0. */
  lemma CrossBound(u: real, a: real, h: real, w: real)
    ensures 0.0 <= a <= h && w >= u && w >= 0.0 ==> u * a - h * w <= 0.0
  {
    if 0.0 <= a <= h && w >= u && w >= 0.0 {
      MulNonneg(h, w);
      if u >= 0.0 {
        MulLeft(u, a, h);
        MulLeft(h, u, w);
        assert u * h == h * u;
      } else {
        MulNonneg(-u, a);
        NegateLeft(u, a);
      }
    }
  }

  /** The y-range test is closed at both ends: a point level with an endpoint
      of a non-horizontal edge and strictly left of that endpoint is counted. */
  lemma CrossesAtEndpointHeight(px: real, e: Edge)
    requires e.p1.y != e.p2.y
    ensures px < e.p1.x ==> Crosses(px, e.p1.y, e)
    ensures px < e.p2.x ==> Crosses(px, e.p2.y, e)
  {
    var u, h := e.p2.x - e.p1.x, e.p2.y - e.p1.y;
    var w := px - e.p1.x;
    NegativeFactorSign(h, w);
    EndpointSign(u, h, w);
    assert EdgeAZ(px, e.p1.y, e) == u * 0.0 - h * w;
    assert EdgeAZ(px, e.p2.y, e) == u * h - h * w;
  }

  lemma NegativeFactorSign(a: real, b: real)
    ensures a > 0.0 && b < 0.0 ==> a * b < 0.0
    ensures a < 0.0 && b < 0.0 ==> a * b > 0.0
  {
  }

  /** `a_z` at the far endpoint's height is h (u - w). */
  lemma EndpointSign(u: real, h: real, w: real)
    ensures h > 0.0 && w < u ==> u * h - h * w > 0.0
    ensures h < 0.0 && w < u ==> u * h - h * w < 0.0
  {
    assert u * h - h * w == h * (u - w);
  }
}
