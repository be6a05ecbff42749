/**
 * The brute-force distance reference of polygon/distance.cpp: `vdsegment`
 * measures every query point against every segment of one vertex list and
 * keeps the least squared distance, starting from the largest `float`.
 * `length` is `Geometry.DistanceSquared` and `dsegment` is
 * `Geometry.DSegment`; both variants of `dsegment` (polygon/ and polygons/)
 * compute the same three branches.
 */
module BruteForce {
  import opened Geometry
  import opened Queries
  import opened Grouping
  import opened PolygonContext

  /** `std::numeric_limits<float>::max()`, 2^128 - 2^104, the starting value
      of the running minimum. */
  const FloatMax: real := 340282346638528859811704183484516925440.0

  /** The squared distance from (px, py) to each of the n - 1 segments
      joining vertex i to vertex i + 1. */
  function SegmentDistances(px: real, py: real, vx: seq<real>, vy: seq<real>, n: nat): (r: seq<real>)
    requires n <= |vx| && n <= |vy|
    ensures |r| == if n == 0 then 0 else n - 1
    ensures forall i :: 0 <= i < |r| ==> r[i] == DSegment(px, py, vx[i], vy[i], vx[i + 1], vy[i + 1])
  {
    if n == 0 then []
    else seq(n - 1, i requires 0 <= i < n - 1 => DSegment(px, py, vx[i], vy[i], vx[i + 1], vy[i + 1]))
  }

  /** The value `vdsegment` takes the square root of for one point. */
  function BruteDistance(px: real, py: real, vx: seq<real>, vy: seq<real>, n: nat): real
    requires n <= |vx| && n <= |vy|
  {
    MinFrom(FloatMax, SegmentDistances(px, py, vx, vy, n))
  }

  /** The result is the least squared distance to any segment, capped by the
      sentinel; it is the sentinel itself when there is no segment. */
  lemma BruteDistanceIsMinimum(px: real, py: real, vx: seq<real>, vy: seq<real>, n: nat)
    requires n <= |vx| && n <= |vy|
    ensures BruteDistance(px, py, vx, vy, n) <= FloatMax
    ensures forall i :: 0 <= i < n - 1 ==>
              BruteDistance(px, py, vx, vy, n) <= DSegment(px, py, vx[i], vy[i], vx[i + 1], vy[i + 1])
    ensures BruteDistance(px, py, vx, vy, n) == FloatMax ||
            exists i :: 0 <= i < n - 1 && BruteDistance(px, py, vx, vy, n) == DSegment(px, py, vx[i], vy[i], vx[i + 1], vy[i + 1])
    ensures n <= 1 ==> BruteDistance(px, py, vx, vy, n) == FloatMax
  {
    var xs := SegmentDistances(px, py, vx, vy, n);
    MinFromIsMinimum(FloatMax, xs);
    if BruteDistance(px, py, vx, vy, n) != FloatMax {
      var i :| 0 <= i < |xs| && BruteDistance(px, py, vx, vy, n) == xs[i];
    }
  }

  /** The brute force and the tree query fold the same distances: over the
      edges joining consecutive vertices, from the same starting bound,
      `vdsegment` gives what `NearestEdge` specifies for a query point
      without weight. */
  lemma BruteDistanceIsNearestEdge(px: real, py: real, vx: seq<real>, vy: seq<real>, n: nat)
    requires 1 <= n <= |vx| && n <= |vy|
    ensures BruteDistance(px, py, vx, vy, n) ==
              NearestEdge(FloatMax, Point(px, py, 0.0, 0), ConsecutiveEdges(RingPoints(vx, vy, n)))
  {
    var p := Point(px, py, 0.0, 0);
    var es := ConsecutiveEdges(RingPoints(vx, vy, n));
    assert EdgeDistances(p, es) == SegmentDistances(px, py, vx, vy, n);
  }

  /** The inner loop of `vdsegment`: the running minimum, from the sentinel,
      over the segments of the first numVertices vertices. */
  method NearestSegment(px: real, py: real, numVertices: nat, vsx: seq<real>, vsy: seq<real>) returns (d: real)
    requires numVertices <= |vsx| && numVertices <= |vsy|
    ensures d == BruteDistance(px, py, vsx, vsy, numVertices)
  {
    ghost var xs := SegmentDistances(px, py, vsx, vsy, numVertices);
    d := FloatMax;
    var iv := 0;
    while iv + 1 < numVertices
      invariant iv <= |xs|
      invariant d == MinFrom(FloatMax, xs[..iv])
    {
      var d' := DSegment(px, py, vsx[iv], vsy[iv], vsx[iv + 1], vsy[iv + 1]);
      MinFromSnoc(FloatMax, xs[..iv], d');
      assert xs[..iv + 1] == xs[..iv] + [d'];
      d := Min(d, d');
      iv := iv + 1;
    }
    assert xs[..iv] == xs;
  }

  /** `vdsegment`: for each of the first numPoints query points, the least
      squared distance to a segment of the vertex list; the square root
      taken before storing is not modelled. Entries beyond numPoints are
      left alone. */
  method VDSegment(numPoints: nat, psx: seq<real>, psy: seq<real>,
                   numVertices: nat, vsx: seq<real>, vsy: seq<real>, distances: array<real>)
    requires numPoints <= |psx| && numPoints <= |psy| && numPoints <= distances.Length
    requires numVertices <= |vsx| && numVertices <= |vsy|
    modifies distances
    ensures forall ip :: 0 <= ip < numPoints ==>
              distances[ip] == BruteDistance(psx[ip], psy[ip], vsx, vsy, numVertices)
    ensures forall ip :: numPoints <= ip < distances.Length ==> distances[ip] == old(distances[ip])
  {
    for ip := 0 to numPoints
      invariant forall j :: 0 <= j < ip ==> distances[j] == BruteDistance(psx[j], psy[j], vsx, vsy, numVertices)
      invariant forall j :: numPoints <= j < distances.Length ==> distances[j] == old(distances[j])
    {
      var d := NearestSegment(psx[ip], psy[ip], numVertices, vsx, vsy);
      ghost var before := distances[..];
      distances[ip] := d;
      assert forall j :: 0 <= j < distances.Length && j != ip ==> distances[j] == before[j];
    }
  }
}
