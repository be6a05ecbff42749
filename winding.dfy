/**
 * The winding-number test of the C++ variants (`winding_number`), after Dan
 * Sunday's inclusion algorithm: for each edge v[i] -> v[i+1] of the vertex
 * list, an upward edge whose half-open y-range [v[i].y, v[i+1].y) holds the
 * point's height adds one when the point is left of it, and a downward edge
 * whose range [v[i+1].y, v[i].y) holds it subtracts one when the point is
 * right of it.
 *
 * The algorithm expects a closed ring (last vertex equal to the first). On
 * such a ring the count is zero for a point outside the ring's bounding box
 * on any side; for a ring that is not closed that fails on the left side.
 */
module Winding {
  import opened Geometry
  import opened Crossing

  /** What the edge a -> b adds to the winding number of (px, py). */
  function EdgeWinding(px: real, py: real, a: Point, b: Point): int
  {
    if a.y <= py then
      if b.y > py && IsLeft(a.x, a.y, b.x, b.y, px, py) > 0.0 then 1 else 0
    else
      if b.y <= py && IsLeft(a.x, a.y, b.x, b.y, px, py) < 0.0 then -1 else 0
  }

  /** An edge adds +1 exactly for an upward crossing with the point on its
      left, -1 exactly for a downward crossing with the point on its right,
      and nothing otherwise; a horizontal edge adds nothing. */
  lemma EdgeWindingCases(px: real, py: real, a: Point, b: Point)
    ensures -1 <= EdgeWinding(px, py, a, b) <= 1
    ensures EdgeWinding(px, py, a, b) == 1 <==> a.y <= py < b.y && IsLeft(a.x, a.y, b.x, b.y, px, py) > 0.0
    ensures EdgeWinding(px, py, a, b) == -1 <==> b.y <= py < a.y && IsLeft(a.x, a.y, b.x, b.y, px, py) < 0.0
    ensures a.y == b.y ==> EdgeWinding(px, py, a, b) == 0
  {
  }

  /** The winding number over the first n edges of the vertex list. */
  function WindingUpTo(px: real, py: real, v: seq<Point>, n: nat): int
    requires n < |v|
  {
    if n == 0 then 0 else WindingUpTo(px, py, v, n - 1) + EdgeWinding(px, py, v[n - 1], v[n])
  }

  /** The winding number over all |v| - 1 edges. */
  function WindingOf(px: real, py: real, v: seq<Point>): int
    requires |v| >= 1
  {
    WindingUpTo(px, py, v, |v| - 1)
  }

  /** `winding_number`: the edge contributions summed in a loop. The loop
      bound `v.size() - 1` underflows on an empty list, so the list must
      hold a vertex. */
  method WindingNumber(px: real, py: real, v: seq<Point>) returns (wn: int)
    requires |v| >= 1
    ensures wn == WindingOf(px, py, v)
  {
    wn := 0;
    for i := 0 to |v| - 1
      invariant wn == WindingUpTo(px, py, v, i)
    {
      if v[i].y <= py {
        if v[i + 1].y > py {
          if IsLeft(v[i].x, v[i].y, v[i + 1].x, v[i + 1].y, px, py) > 0.0 {
            wn := wn + 1;
          }
        }
      } else {
        if v[i + 1].y <= py {
          if IsLeft(v[i].x, v[i].y, v[i + 1].x, v[i + 1].y, px, py) < 0.0 {
            wn := wn - 1;
          }
        }
      }
    }
  }

  /** Each edge changes the count by at most one. */
  lemma {:induction false} WindingBound(px: real, py: real, v: seq<Point>, n: nat)
    requires n < |v|
    ensures -(n as int) <= WindingUpTo(px, py, v, n) <= n
  {
    if n > 0 {
      WindingBound(px, py, v, n - 1);
      EdgeWindingCases(px, py, v[n - 1], v[n]);
    }
  }

  /** |wn| <= v.size() - 1. */
  lemma WindingNumberBound(px: real, py: real, v: seq<Point>)
    requires |v| >= 1
    ensures -(|v| - 1) <= WindingOf(px, py, v) <= |v| - 1
  {
    WindingBound(px, py, v, |v| - 1);
  }

  /** A point strictly above every vertex, or strictly below every vertex,
      winds zero times. */
  lemma {:induction false} WindingZeroAboveOrBelow(px: real, py: real, v: seq<Point>, n: nat)
    requires n < |v|
    requires (forall i :: 0 <= i < |v| ==> v[i].y < py) || (forall i :: 0 <= i < |v| ==> v[i].y > py)
    ensures WindingUpTo(px, py, v, n) == 0
  {
    if n > 0 {
      WindingZeroAboveOrBelow(px, py, v, n - 1);
      assert v[n - 1].y < py || v[n - 1].y > py;
    }
  }

  /** For an upward edge whose closed y-range holds the point's height, the
      point is right of the edge when it is right of both endpoints, and
      left of it when it is left of both. */
  lemma UpwardSide(px: real, py: real, a: Point, b: Point)
    requires a.y <= py <= b.y && a.y < b.y
    ensures px > Max(a.x, b.x) ==> IsLeft(a.x, a.y, b.x, b.y, px, py) < 0.0
    ensures px < Min(a.x, b.x) ==> IsLeft(a.x, a.y, b.x, b.y, px, py) > 0.0
  {
    var e := Edge(a, b);
    IsLeftIsAZ(a.x, a.y, b.x, b.y, px, py);
    AZAtHeight(px, py, e);
    var h := b.y - a.y;
    var t := (py - a.y) / h;
    UnitQuotient(py - a.y, h);
    BetweenEndpoints(a.x, b.x, t);
    assert XAt(e, py) == a.x + t * (b.x - a.x);
    ProductSign(h, XAt(e, py) - px);
    ProductSign(h, px - XAt(e, py));
    assert h * (px - XAt(e, py)) == -(h * (XAt(e, py) - px));
  }

  /** The same for any non-horizontal edge: both orientations. */
  lemma EdgeSide(px: real, py: real, a: Point, b: Point)
    requires Min(a.y, b.y) <= py <= Max(a.y, b.y) && a.y != b.y
    ensures px > Max(a.x, b.x) ==>
              (a.y < b.y ==> IsLeft(a.x, a.y, b.x, b.y, px, py) < 0.0) &&
              (a.y > b.y ==> IsLeft(a.x, a.y, b.x, b.y, px, py) > 0.0)
    ensures px < Min(a.x, b.x) ==>
              (a.y < b.y ==> IsLeft(a.x, a.y, b.x, b.y, px, py) > 0.0) &&
              (a.y > b.y ==> IsLeft(a.x, a.y, b.x, b.y, px, py) < 0.0)
  {
    if a.y < b.y {
      UpwardSide(px, py, a, b);
    } else {
      UpwardSide(px, py, b, a);
      IsLeftAntisymmetric(b.x, b.y, a.x, a.y, px, py);
    }
  }

  /** A point strictly right of every vertex winds zero times: every edge
      at its height lies to its left, so no edge counts. */
  lemma {:induction false} WindingZeroRightOfAll(px: real, py: real, v: seq<Point>, n: nat)
    requires n < |v|
    requires forall i :: 0 <= i < |v| ==> v[i].x < px
    ensures WindingUpTo(px, py, v, n) == 0
  {
    if n > 0 {
      WindingZeroRightOfAll(px, py, v, n - 1);
      var a, b := v[n - 1], v[n];
      if a.y != b.y && Min(a.y, b.y) <= py <= Max(a.y, b.y) {
        EdgeSide(px, py, a, b);
      }
    }
  }

  /** Whether a vertex is at or below the point's height. */
  function AtOrBelow(py: real, q: Point): int
  {
    if q.y <= py then 1 else 0
  }

  /** For a point strictly left of every vertex each edge counts, and the
      count telescopes: it is whether the first vertex is at or below the
      point minus whether the n-th one is. */
  lemma {:induction false} WindingLeftOfAll(px: real, py: real, v: seq<Point>, n: nat)
    requires n < |v|
    requires forall i :: 0 <= i < |v| ==> v[i].x > px
    ensures WindingUpTo(px, py, v, n) == AtOrBelow(py, v[0]) - AtOrBelow(py, v[n])
  {
    if n > 0 {
      WindingLeftOfAll(px, py, v, n - 1);
      var a, b := v[n - 1], v[n];
      if a.y != b.y && Min(a.y, b.y) <= py <= Max(a.y, b.y) {
        EdgeSide(px, py, a, b);
      }
    }
  }

  /** A closed ring: the last vertex repeats the first. */
  predicate ClosedRing(v: seq<Point>)
  {
    |v| >= 1 && v[|v| - 1] == v[0]
  }

  /** On a closed ring, a point strictly left of every vertex winds zero
      times. */
  lemma WindingZeroLeftOfClosedRing(px: real, py: real, v: seq<Point>)
    requires ClosedRing(v)
    requires forall i :: 0 <= i < |v| ==> v[i].x > px
    ensures WindingOf(px, py, v) == 0
  {
    WindingLeftOfAll(px, py, v, |v| - 1);
  }

  /** Without the closing vertex that fails: the single upward edge
      (1, 0) -> (1, 2) winds once around (0, 1), which is left of it. */
  lemma OpenRingLeftOfAllWinds()
    ensures var v := [Point(1.0, 0.0, 0.0, 0), Point(1.0, 2.0, 0.0, 0)];
            !ClosedRing(v) && (forall i :: 0 <= i < |v| ==> v[i].x > 0.0) && WindingOf(0.0, 1.0, v) == 1
  {
    var v := [Point(1.0, 0.0, 0.0, 0), Point(1.0, 2.0, 0.0, 0)];
    assert IsLeft(1.0, 0.0, 1.0, 2.0, 0.0, 1.0) == 2.0;
    assert WindingUpTo(0.0, 1.0, v, 1) == WindingUpTo(0.0, 1.0, v, 0) + EdgeWinding(0.0, 1.0, v[0], v[1]);
  }
}
