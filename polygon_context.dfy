/**
 * The brute-force C++ context of polygon/polygon.cpp: it stores every polygon
 * as its vertex list together with the polygon's bounding box, and answers
 * point-in-polygon queries by running the winding-number test on every
 * polygon whose box holds the point.
 *
 * A polygon starts from the inverted sentinel box (MAX, MAX) .. (-MAX, -MAX)
 * and widens it vertex by vertex; here that sentinel is `Box.Empty`, so the
 * box of a polygon without vertices stays `Empty` and no point is inside it.
 */
module PolygonContext {
  import opened Geometry
  import opened Boxes
  import opened Winding

  /** The bounding box of a vertex list, widened one vertex at a time in
      list order. */
  function PointsBox(v: seq<Point>): Box
  {
    if |v| == 0 then Empty
    else Union(PointsBox(v[..|v| - 1]), PointBox(v[|v| - 1].x, v[|v| - 1].y))
  }

  /** The box is empty exactly when there are no vertices; otherwise it
      holds every vertex and lies inside any box that holds them all. */
  lemma {:induction false} PointsBoxIsSmallest(v: seq<Point>)
    ensures PointsBox(v).Empty? <==> |v| == 0
    ensures WellFormed(PointsBox(v))
    ensures forall i :: 0 <= i < |v| ==> Contains(PointsBox(v), v[i].x, v[i].y)
    ensures forall c: Box :: (forall i :: 0 <= i < |v| ==> Contains(c, v[i].x, v[i].y)) ==> SubBox(PointsBox(v), c)
  {
    if |v| > 0 {
      var w := v[..|v| - 1];
      PointsBoxIsSmallest(w);
      forall c: Box | forall i :: 0 <= i < |v| ==> Contains(c, v[i].x, v[i].y)
        ensures SubBox(PointsBox(v), c)
      {
        assert forall i :: 0 <= i < |w| ==> w[i] == v[i];
        var q := v[|v| - 1];
        assert Contains(c, q.x, q.y);
        assert SubBox(PointBox(q.x, q.y), c);
        UnionIsLeastUpperBound(PointsBox(w), PointBox(q.x, q.y), c);
      }
      UnionIsLeastUpperBound(PointsBox(w), PointBox(v[|v| - 1].x, v[|v| - 1].y), PointsBox(v));
      UnionEmpty(PointsBox(w), PointBox(v[|v| - 1].x, v[|v| - 1].y));
      forall i | 0 <= i < |v|
        ensures Contains(PointsBox(v), v[i].x, v[i].y)
      {
        if i < |w| {
          assert w[i] == v[i];
          SubBoxContains(PointsBox(w), PointsBox(v), v[i].x, v[i].y);
        }
      }
    }
  }

  /** The vertex list `add_polygon` stores: the first n coordinate pairs.
      These points carry no weight and no index. */
  function RingPoints(x: seq<real>, y: seq<real>, n: nat): (v: seq<Point>)
    requires n <= |x| && n <= |y|
    ensures |v| == n
    ensures forall i :: 0 <= i < n ==> v[i].x == x[i] && v[i].y == y[i]
  {
    seq(n, i requires 0 <= i < n => Point(x[i], y[i], 0.0, 0))
  }

  /** What the query decides for one polygon: the point passes the four
      bounding-box tests and the winding number is non-zero. The box of a
      stored polygon holds a point only when the polygon has a vertex, so
      the length test never decides anything for a stored polygon. */
  predicate Hit(b: Box, v: seq<Point>, px: real, py: real)
  {
    Contains(b, px, py) && |v| >= 1 && WindingOf(px, py, v) != 0
  }

  /** On a closed ring the bounding-box tests lose nothing: a point outside
      the box on any side has winding number zero. So the query's answer for
      the polygon is exactly "the winding number is non-zero". */
  lemma HitIsWinding(v: seq<Point>, px: real, py: real)
    requires ClosedRing(v)
    ensures Hit(PointsBox(v), v, px, py) <==> WindingOf(px, py, v) != 0
  {
    var b := PointsBox(v);
    PointsBoxIsSmallest(v);
    if !Contains(b, px, py) {
      if px < b.xmin {
        WindingZeroLeftOfClosedRing(px, py, v);
      } else if px > b.xmax {
        WindingZeroRightOfAll(px, py, v, |v| - 1);
      } else {
        WindingZeroAboveOrBelow(px, py, v, |v| - 1);
      }
    }
  }

  /** The context object: the number of polygons, one bounding box per
      polygon and one vertex list per polygon. */
  class PolygonContext {
    var numPolygons: nat
    var boundingBox: seq<Box>
    var polygonsV: seq<seq<Point>>

    /** The three lists line up, and each box is the box of its polygon. */
    ghost predicate Valid()
      reads this
    {
      |boundingBox| == numPolygons && |polygonsV| == numPolygons &&
      forall k :: 0 <= k < numPolygons ==> boundingBox[k] == PointsBox(polygonsV[k])
    }

    /** A fresh context holds no polygon. */
    constructor()
      ensures Valid()
      ensures numPolygons == 0 && boundingBox == [] && polygonsV == []
    {
      numPolygons := 0;
      boundingBox := [];
      polygonsV := [];
    }

    /** The point lies in some stored polygon, in the sense of `Hit`. */
    predicate InsideSome(px: real, py: real)
      reads this
      requires Valid()
    {
      exists k :: 0 <= k < numPolygons && Hit(boundingBox[k], polygonsV[k], px, py)
    }

    /** `add_polygon`: appends the polygon's first numPoints vertices and
        their bounding box, widened point by point. */
    method AddPolygon(numPoints: nat, x: seq<real>, y: seq<real>)
      requires Valid()
      requires numPoints <= |x| && numPoints <= |y|
      modifies this
      ensures Valid()
      ensures numPolygons == old(numPolygons) + 1
      ensures polygonsV == old(polygonsV) + [RingPoints(x, y, numPoints)]
      ensures boundingBox == old(boundingBox) + [PointsBox(RingPoints(x, y, numPoints))]
    {
      var ipolygon := numPolygons;
      numPolygons := numPolygons + 1;
      boundingBox := boundingBox + [Empty];
      ghost var ring := RingPoints(x, y, numPoints);
      var temp: seq<Point> := [];
      for ipoint := 0 to numPoints
        invariant temp == ring[..ipoint]
        invariant boundingBox == old(boundingBox) + [PointsBox(temp)]
        invariant numPolygons == ipolygon + 1 && polygonsV == old(polygonsV)
      {
        var x_ := x[ipoint];
        var y_ := y[ipoint];
        assert temp + [Point(x_, y_, 0.0, 0)] == ring[..ipoint + 1];
        temp := temp + [Point(x_, y_, 0.0, 0)];
        boundingBox := boundingBox[ipolygon := Union(boundingBox[ipolygon], PointBox(x_, y_))];
      }
      assert temp == ring;
      polygonsV := polygonsV + [temp];
    }

    /** The body of `contains_points` for one point: the polygons in order,
        each skipped by its bounding box or else asked for its winding
        number, until one of them holds the point. */
    method PointInSome(px: real, py: real) returns (inside: bool)
      requires Valid()
      ensures inside == InsideSome(px, py)
    {
      inside := false;
      for ipolygon := 0 to numPolygons
        invariant inside <==> exists k :: 0 <= k < ipolygon && Hit(boundingBox[k], polygonsV[k], px, py)
      {
        if !inside {
          // the four bounding-box tests that skip the polygon
          if Contains(boundingBox[ipolygon], px, py) {
            PointsBoxIsSmallest(polygonsV[ipolygon]);
            var wn := WindingNumber(px, py, polygonsV[ipolygon]);
            inside := wn != 0;
          }
        }
      }
    }

    /** `contains_points`: clears the first numPoints answers, then for each
        point tries the polygons in order until one of them holds it. */
    method ContainsPoints(numPoints: nat, x: seq<real>, y: seq<real>, contains: array<bool>)
      requires Valid()
      requires numPoints <= |x| && numPoints <= |y| && numPoints <= contains.Length
      modifies contains
      ensures forall i :: 0 <= i < numPoints ==> contains[i] == InsideSome(x[i], y[i])
      ensures forall i :: numPoints <= i < contains.Length ==> contains[i] == old(contains[i])
    {
      for i := 0 to numPoints
        invariant forall j :: numPoints <= j < contains.Length ==> contains[j] == old(contains[j])
      {
        contains[i] := false;
      }
      for ipoint := 0 to numPoints
        invariant forall j :: 0 <= j < ipoint ==> contains[j] == InsideSome(x[j], y[j])
        invariant forall j :: numPoints <= j < contains.Length ==> contains[j] == old(contains[j])
      {
        var inside := PointInSome(x[ipoint], y[ipoint]);
        contains[ipoint] := inside;
      }
    }
  }
}
