/**
 * Axis-aligned bounding boxes of the index and the three tests that prune a
 * box during a query: the distance lower bound (`box_distance`,
 * `skip_box_distance`, the Python `skip_box`) and the crossing test
 * (`skip_box_intersection`).
 *
 * The source starts every node from the inverted sentinel box xmin = MAX,
 * xmax = -MAX, ymin = MAX, ymax = -MAX, so that the first min/max update
 * yields exactly the first child's box. Here that state is the constructor
 * `Empty`: it is the identity of `Union` and every pruning test discards it,
 * as the sentinel's huge offsets do.
 */
module Boxes {
  import opened Geometry
  import opened Crossing

  datatype Box = Empty | Rect(xmin: real, xmax: real, ymin: real, ymax: real)

  /** The closed box holds the point. The empty box holds nothing. */
  predicate Contains(b: Box, x: real, y: real)
  {
    b.Rect? && b.xmin <= x <= b.xmax && b.ymin <= y <= b.ymax
  }

  /** Every point of `a` lies in `b`, stated on the bounds. */
  predicate SubBox(a: Box, b: Box)
  {
    a.Empty? || (b.Rect? && b.xmin <= a.xmin && a.xmax <= b.xmax && b.ymin <= a.ymin && a.ymax <= b.ymax)
  }

  /** A box whose lower bounds do not exceed its upper bounds. Boxes built
      from points always have this shape. */
  predicate WellFormed(b: Box)
  {
    b.Rect? ==> b.xmin <= b.xmax && b.ymin <= b.ymax
  }

  /** The degenerate box of one point (`adjust_bounds(x, x, y, y)`). */
  function PointBox(x: real, y: real): (b: Box)
    ensures Contains(b, x, y) && WellFormed(b)
    ensures forall u, v :: Contains(b, u, v) <==> u == x && v == y
  {
    Rect(x, x, y, y)
  }

  /** The box after the min/max updates of `adjust_bounds` with another box. */
  function Union(a: Box, b: Box): (r: Box)
  {
    if a.Empty? then b
    else if b.Empty? then a
    else Rect(Min(a.xmin, b.xmin), Max(a.xmax, b.xmax), Min(a.ymin, b.ymin), Max(a.ymax, b.ymax))
  }

  lemma SubBoxContains(a: Box, b: Box, x: real, y: real)
    requires SubBox(a, b) && Contains(a, x, y)
    ensures Contains(b, x, y)
  {
  }

  lemma SubBoxTransitive(a: Box, b: Box, c: Box)
    requires SubBox(a, b) && SubBox(b, c)
    ensures SubBox(a, c)
  {
  }

  /** `Union` is the least box containing both arguments: it only grows the
      box, and any box holding both arguments holds the union. */
  lemma UnionIsLeastUpperBound(a: Box, b: Box, c: Box)
    ensures SubBox(a, Union(a, b)) && SubBox(b, Union(a, b))
    ensures SubBox(a, c) && SubBox(b, c) ==> SubBox(Union(a, b), c)
  {
  }

  /** The empty box is the identity, and the union of well-formed boxes is
      well-formed. */
  lemma UnionEmpty(a: Box, b: Box)
    ensures Union(Empty, a) == a && Union(a, Empty) == a
    ensures WellFormed(a) && WellFormed(b) ==> WellFormed(Union(a, b))
  {
  }

  /** Repeating an update changes nothing, and the order of updates does not
      matter: the final box depends only on the set of arguments. */
  lemma UnionAlgebra(a: Box, b: Box, c: Box)
    ensures Union(Union(a, b), b) == Union(a, b)
    ensures Union(a, b) == Union(b, a)
    ensures Union(Union(a, b), c) == Union(a, Union(b, c))
  {
  }

  /** A point of either argument is a point of the union. */
  lemma UnionContains(a: Box, b: Box, x: real, y: real)
    ensures Contains(a, x, y) || Contains(b, x, y) ==> Contains(Union(a, b), x, y)
  {
    UnionIsLeastUpperBound(a, b, Empty);
    if Contains(a, x, y) {
      SubBoxContains(a, Union(a, b), x, y);
    } else if Contains(b, x, y) {
      SubBoxContains(b, Union(a, b), x, y);
    }
  }

  /** Both endpoints of the edge lie in the box. */
  predicate EdgeInBox(e: Edge, b: Box)
  {
    Contains(b, e.p1.x, e.p1.y) && Contains(b, e.p2.x, e.p2.y)
  }

  /** The box of an edge, as `group_edges` / `add_child_edge` build it from
      its two endpoints. */
  function EdgeBox(e: Edge): (b: Box)
    ensures EdgeInBox(e, b) && WellFormed(b)
  {
    UnionContains(PointBox(e.p1.x, e.p1.y), PointBox(e.p2.x, e.p2.y), e.p1.x, e.p1.y);
    UnionContains(PointBox(e.p1.x, e.p1.y), PointBox(e.p2.x, e.p2.y), e.p2.x, e.p2.y);
    Union(PointBox(e.p1.x, e.p1.y), PointBox(e.p2.x, e.p2.y))
  }

  /** How far v lies outside [lo, hi], signed; 0 inside. */
  function Offset(v: real, lo: real, hi: real): real
  {
    if v < lo then v - lo else if v > hi then v - hi else 0.0
  }

  /** The offset is zero exactly inside the interval, and it never exceeds in
      magnitude the gap from v to any point of the interval. */
  lemma OffsetBounds(v: real, lo: real, hi: real, q: real)
    ensures Offset(v, lo, hi) == 0.0 <==> lo <= v <= hi
    ensures lo <= q <= hi ==> Abs(Offset(v, lo, hi)) <= Abs(v - q)
  {
  }

  /** `box_distance` (squared): the squared distance from the point to the
      nearest point of the closed box [xmin, xmax] x [ymin, ymax]. */
  function BoxDistance(px: real, py: real, xmin: real, xmax: real, ymin: real, ymax: real): (r: real)
    ensures r >= 0.0
  {
    DistanceSquared(Offset(px, xmin, xmax), Offset(py, ymin, ymax))
  }

  /** `box_distance` is 0 exactly for points inside or on the box. */
  lemma BoxDistanceZero(px: real, py: real, xmin: real, xmax: real, ymin: real, ymax: real)
    ensures BoxDistance(px, py, xmin, xmax, ymin, ymax) == 0.0 <==> xmin <= px <= xmax && ymin <= py <= ymax
  {
    var dx, dy := Offset(px, xmin, xmax), Offset(py, ymin, ymax);
    OffsetBounds(px, xmin, xmax, xmin);
    OffsetBounds(py, ymin, ymax, ymin);
    DistanceSquaredZero(dx, dy);
  }

  /** Admissibility: `box_distance` never exceeds the squared distance from
      the point to any point (qx, qy) of the box. */
  lemma BoxDistanceLowerBound(px: real, py: real, xmin: real, xmax: real, ymin: real, ymax: real, qx: real, qy: real)
    requires xmin <= qx <= xmax && ymin <= qy <= ymax
    ensures BoxDistance(px, py, xmin, xmax, ymin, ymax) <= DistanceSquared(px - qx, py - qy)
  {
    var dx, dy := Offset(px, xmin, xmax), Offset(py, ymin, ymax);
    var ex, ey := px - qx, py - qy;
    OffsetBounds(px, xmin, xmax, qx);
    OffsetBounds(py, ymin, ymax, qy);
    DistanceSquaredMonotone(dx, dy, ex, ey);
  }

  /** The box distance of a node box; the empty box has none. */
  function NodeBoxDistance(px: real, py: real, b: Box): (r: real)
    requires b.Rect?
    ensures r >= 0.0
  {
    BoxDistance(px, py, b.xmin, b.xmax, b.ymin, b.ymax)
  }

  /** A vertex in the box is at least the box distance away, whichever way
      the difference is taken (`tree.rs` measures vertex minus point). */
  lemma VertexAtLeastBoxDistance(px: real, py: real, b: Box, vx: real, vy: real)
    requires Contains(b, vx, vy)
    ensures NodeBoxDistance(px, py, b) <= DistanceSquared(px - vx, py - vy)
    ensures NodeBoxDistance(px, py, b) <= DistanceSquared(vx - px, vy - py)
  {
    BoxDistanceLowerBound(px, py, b.xmin, b.xmax, b.ymin, b.ymax, vx, vy);
    DistanceSquaredReversed(px - vx, py - vy, vx - px, vy - py);
  }

  /** An edge with both endpoints in the box is at least the box distance
      away: the point of the segment that `dsegment` measures to lies
      between the endpoints, hence in the box. */
  lemma EdgeAtLeastBoxDistance(p: Point, e: Edge, b: Box)
    requires EdgeInBox(e, b)
    ensures NodeBoxDistance(p.x, p.y, b) <= EdgeDistance(p, e)
  {
    var t := ClampedParameter(p.x, p.y, e.p1.x, e.p1.y, e.p2.x, e.p2.y);
    DSegmentAtClampedParameter(p.x, p.y, e.p1.x, e.p1.y, e.p2.x, e.p2.y);
    SegmentPointAtLeastBoxDistance(p.x, p.y, b, e.p1.x, e.p1.y, e.p2.x, e.p2.y, t);
  }

  /** Every point p1 + t (p2 - p1), t in [0, 1], of a segment whose endpoints
      are in the box is at least the box distance away. */
  lemma SegmentPointAtLeastBoxDistance(px: real, py: real, b: Box, x1: real, y1: real, x2: real, y2: real, t: real)
    requires Contains(b, x1, y1) && Contains(b, x2, y2) && 0.0 <= t <= 1.0
    ensures NodeBoxDistance(px, py, b) <= DistanceToSegmentPoint(px, py, x1, y1, x2, y2, t)
  {
    var qx := x1 + t * (x2 - x1);
    var qy := y1 + t * (y2 - y1);
    BetweenEndpoints(x1, x2, t);
    BetweenEndpoints(y1, y2, t);
    BoxDistanceLowerBound(px, py, b.xmin, b.xmax, b.ymin, b.ymax, qx, qy);
  }

  /** The distance prune of `get_distance_edge` and `get_distance_vertex`:
      the sentinel box is always discarded, any other box when its distance
      lower bound exceeds the bound `d`. */
  predicate PruneByDistance(px: real, py: real, b: Box, d: real)
  {
    b.Empty? || NodeBoxDistance(px, py, b) > d
  }

  /** A pruned box holds no edge closer than `d`. */
  lemma PruneByDistanceSound(p: Point, b: Box, d: real, e: Edge)
    requires PruneByDistance(p.x, p.y, b, d) && EdgeInBox(e, b)
    ensures EdgeDistance(p, e) > d
  {
    EdgeAtLeastBoxDistance(p, e, b);
  }

  /** `skip_box_intersection`: the crossing prune. The sentinel box is always
      discarded (p.x > -MAX). */
  predicate SkipBoxIntersection(px: real, py: real, b: Box)
  {
    b.Empty? || px > b.xmax || py > b.ymax || py < b.ymin
  }

  /** The crossing prune is sound: a box it discards holds no edge that the
      ray from the point towards +x crosses. So `p.x > xmax` is the right
      test for that ray. */
  lemma SkipBoxIntersectionSound(px: real, py: real, b: Box, e: Edge)
    requires SkipBoxIntersection(px, py, b) && EdgeInBox(e, b)
    ensures !Crosses(px, py, e)
  {
    if Crosses(px, py, e) {
      CrossesLeftOfEdge(px, py, e);
    }
  }

  /** The mirrored test `p.x < xmin` would not be sound: with the vertical
      edge (1, 0)-(1, 2) in the box [1, 1] x [0, 2], the point (0, 1) has
      p.x < xmin, yet its ray crosses the edge. */
  lemma MirroredSkipWouldBeUnsound()
    ensures var e := Edge(Point(1.0, 0.0, 0.0, 0), Point(1.0, 2.0, 0.0, 1));
            var b := Rect(1.0, 1.0, 0.0, 2.0);
            EdgeInBox(e, b) && 0.0 < b.xmin && Crosses(0.0, 1.0, e) && !SkipBoxIntersection(0.0, 1.0, b)
  {
    var e := Edge(Point(1.0, 0.0, 0.0, 0), Point(1.0, 2.0, 0.0, 1));
    assert EdgeAZ(0.0, 1.0, e) == 0.0 * 1.0 - 2.0 * (0.0 - 1.0);
  }

  /** `skip_box_distance` of the C++ variant: never prunes when the point is
      in the box (region 5), otherwise prunes when the squared box distance
      exceeds `d`. */
  function SkipBoxDistance(d: real, px: real, py: real, xmin: real, xmax: real, ymin: real, ymax: real): bool
  {
    var difx := Offset(px, xmin, xmax);
    var dify := Offset(py, ymin, ymax);
    if difx == 0.0 && dify == 0.0 then false
    else DistanceSquared(difx, dify) > d
  }

  /** Outside the box it is the plain `box_distance` test; inside it never
      prunes; and for a non-negative bound the two tests agree. Pruning is
      monotone in `d`: what is pruned for d is pruned for every smaller d. */
  lemma SkipBoxDistanceMeaning(d: real, d': real, px: real, py: real, xmin: real, xmax: real, ymin: real, ymax: real)
    ensures xmin <= px <= xmax && ymin <= py <= ymax ==> !SkipBoxDistance(d, px, py, xmin, xmax, ymin, ymax)
    ensures !(xmin <= px <= xmax && ymin <= py <= ymax) ==>
              (SkipBoxDistance(d, px, py, xmin, xmax, ymin, ymax) <==> BoxDistance(px, py, xmin, xmax, ymin, ymax) > d)
    ensures d >= 0.0 ==>
              (SkipBoxDistance(d, px, py, xmin, xmax, ymin, ymax) <==> BoxDistance(px, py, xmin, xmax, ymin, ymax) > d)
    ensures d' <= d && SkipBoxDistance(d, px, py, xmin, xmax, ymin, ymax) ==> SkipBoxDistance(d', px, py, xmin, xmax, ymin, ymax)
  {
    OffsetBounds(px, xmin, xmax, xmin);
    OffsetBounds(py, ymin, ymax, ymin);
    BoxDistanceZero(px, py, xmin, xmax, ymin, ymax);
  }

  /** The C++ prune on a node box; the sentinel box is always discarded. */
  predicate SkipNodeBox(d: real, px: real, py: real, b: Box)
  {
    b.Empty? || SkipBoxDistance(d, px, py, b.xmin, b.xmax, b.ymin, b.ymax)
  }

  /** A box the C++ prune discards holds no edge closer than `d`. */
  lemma SkipNodeBoxSound(d: real, p: Point, b: Box, e: Edge)
    requires SkipNodeBox(d, p.x, p.y, b) && EdgeInBox(e, b)
    ensures EdgeDistance(p, e) > d
  {
    if b.Rect? {
      SkipBoxDistanceMeaning(d, d, p.x, p.y, b.xmin, b.xmax, b.ymin, b.ymax);
      EdgeAtLeastBoxDistance(p, e, b);
    }
  }

  /** `Node.skip_box` of the Python prototype, region by region: rows are
      decided on y first (above, below, level), then columns on x. */
  function PySkipBox(distance: real, px: real, py: real, b: Box): bool
  {
    if b.Empty? then true
    else if py > b.ymax then
      if px < b.xmin then DistanceSquared(px - b.xmin, py - b.ymax) > distance
      else if px > b.xmax then DistanceSquared(px - b.xmax, py - b.ymax) > distance
      else (py - b.ymax) * (py - b.ymax) > distance
    else if py < b.ymin then
      if px < b.xmin then DistanceSquared(px - b.xmin, py - b.ymin) > distance
      else if px > b.xmax then DistanceSquared(px - b.xmax, py - b.ymin) > distance
      else (py - b.ymin) * (py - b.ymin) > distance
    else
      if px < b.xmin then (px - b.xmin) * (px - b.xmin) > distance
      else if px > b.xmax then (px - b.xmax) * (px - b.xmax) > distance
      else false
  }

  /** On a well-formed box the nine regions of the Python test compute
      exactly the C++ `skip_box_distance`. */
  lemma PySkipBoxAgrees(distance: real, px: real, py: real, b: Box)
    requires WellFormed(b)
    ensures PySkipBox(distance, px, py, b) == SkipNodeBox(distance, px, py, b)
  {
    if b.Rect? {
      var dx, dy := px - b.xmin, py - b.ymax;
      assert DistanceSquared(0.0, dy) == dy * dy;
      var ex, ey := px - b.xmin, py - b.ymin;
      assert DistanceSquared(0.0, ey) == ey * ey;
      assert DistanceSquared(dx, 0.0) == dx * dx;
      var fx := px - b.xmax;
      assert DistanceSquared(fx, 0.0) == fx * fx;
    }
  }
}
