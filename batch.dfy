/**
 * The batch entry points: one query per input point, against the root
 * `tree[0]` of a built index.
 *
 * The current Rust variant maps a query over a list of points and collects
 * the answers in order (the parallel map is modelled as a sequential one).
 * The older Rust variant writes the answers for the first `num_points`
 * coordinates into a caller's output slice, modelled as an array. Both start
 * every distance search from the largest finite double.
 *
 * The last part connects the answers on a tree built by `build_tree` to the
 * brute-force answers over the polygons themselves: they do not depend on
 * the group sizes the tree was built with.
 */
module Batch {
  import opened Geometry
  import opened Nodes
  import opened Queries
  import opened Grouping

  /** `f64::MAX`, the incoming bound of every distance search:
      2^1024 - 2^971. */
  const LargeNumber: real := 179769313486231570814527423731704356798070567525844996598917476803157260780028538760589558632766878171540458953514382464234321326889464182768467546703537516986049910576551282076245490090389328944075868508455133942304583236903222948165808559332123348274797826204144723168738177180919299881250404026184124858368.0

  /** The parity test of the containment queries. */
  predicate Odd(n: int)
  {
    n % 2 != 0
  }

  /** The query points of the older variants: coordinates only. */
  function QueryPoint(x: real, y: real): Point
  {
    Point(x, y, 0.0, 0)
  }

  // ------------------------------------------------------------------
  // tree.rs

  /** `points_are_inside`: for each point, whether the ray from it crosses
      an odd number of the root's edges. */
  method PointsAreInside(tree: seq<Node>, points: seq<Point>) returns (inside: seq<bool>)
    requires |points| > 0 ==> |tree| > 0 && Sound(tree[0])
    ensures |inside| == |points|
    ensures forall i :: 0 <= i < |points| ==>
              inside[i] == Odd(CrossingCount(points[i].x, points[i].y, Edges(tree[0])))
  {
    inside := [];
    for i := 0 to |points|
      invariant |inside| == i
      invariant forall j :: 0 <= j < i ==> inside[j] == Odd(CrossingCount(points[j].x, points[j].y, Edges(tree[0])))
    {
      var n := NumIntersections(tree[0], 0, points[i]);
      inside := inside + [n % 2 != 0];
    }
  }

  /** `distances_nearest_edges`: for each point, the squared distance to
      the nearest edge below the root (the source takes its square root). */
  method DistancesNearestEdges(tree: seq<Node>, points: seq<Point>) returns (distances: seq<real>)
    requires |points| > 0 ==> |tree| > 0 && Sound(tree[0])
    ensures |distances| == |points|
    ensures forall i :: 0 <= i < |points| ==> distances[i] == NearestEdge(LargeNumber, points[i], Edges(tree[0]))
  {
    distances := [];
    for i := 0 to |points|
      invariant |distances| == i
      invariant forall j :: 0 <= j < i ==> distances[j] == NearestEdge(LargeNumber, points[j], Edges(tree[0]))
    {
      var d := GetDistanceEdge(tree[0], LargeNumber, points[i]);
      distances := distances + [d];
    }
  }

  /** `distances_nearest_vertices_custom`: for each point, the least
      `g(distance) + coeff` over the root's vertices, for a monotone `g`. */
  method DistancesNearestVerticesCustom(tree: seq<Node>, points: seq<Point>, g: real -> real)
    returns (distances: seq<real>)
    requires |points| > 0 ==> |tree| > 0 && Sound(tree[0]) && HeightSound(tree[0])
    requires Monotone(g)
    ensures |distances| == |points|
    ensures forall i :: 0 <= i < |points| ==>
              distances[i] == NearestVertexValue(LargeNumber, g, points[i], Vertices(tree[0]))
  {
    distances := [];
    for i := 0 to |points|
      invariant |distances| == i
      invariant forall j :: 0 <= j < i ==>
                  distances[j] == NearestVertexValue(LargeNumber, g, points[j], Vertices(tree[0]))
    {
      var d := GetDistanceVertex(tree[0], LargeNumber, points[i], g);
      distances := distances + [d];
    }
  }

  /** `s` is the square root on the non-negative reals: `f64::sqrt` on
      exact values. */
  ghost predicate IsSquareRoot(s: real -> real)
  {
    forall x :: x >= 0.0 ==> s(x) >= 0.0 && s(x) * s(x) == x
  }

  /** `distances_nearest_vertices`: the custom query with `g = |x| x` on
      distances. The source takes the square root of the squared distance
      before applying `g`, so on squared distances its transform is the
      square root `root`; every entry is the least true distance plus
      height over the root's vertices. */
  method DistancesNearestVertices(tree: seq<Node>, points: seq<Point>, root: real -> real)
    returns (distances: seq<real>)
    requires |points| > 0 ==> |tree| > 0 && Sound(tree[0]) && HeightSound(tree[0])
    requires IsSquareRoot(root) && Monotone(root)
    ensures |distances| == |points|
    ensures forall i :: 0 <= i < |points| ==>
              distances[i] == NearestVertexValue(LargeNumber, root, points[i], Vertices(tree[0]))
  {
    distances := DistancesNearestVerticesCustom(tree, points, root);
  }

  /** With the square root as transform, a vertex offers its true distance
      plus its height: a non-negative r with r * r the squared distance. */
  lemma RootValue(root: real -> real, p: Point, v: Point)
    requires IsSquareRoot(root)
    ensures VertexValue(root, p, v) >= v.coeff
    ensures (VertexValue(root, p, v) - v.coeff) * (VertexValue(root, p, v) - v.coeff) == VertexDistance(p, v)
  {
  }

  /** A square root never reverses the order of non-negative values, so
      comparing true distances agrees with comparing squared ones. */
  lemma RootIsMonotone(root: real -> real, a: real, b: real)
    requires IsSquareRoot(root)
    requires 0.0 <= a <= b
    ensures root(a) <= root(b)
  {
    var ra, rb := root(a), root(b);
    assert ra >= 0.0 && ra * ra == a;
    assert rb >= 0.0 && rb * rb == b;
    if ra + rb > 0.0 {
      assert (rb - ra) * (rb + ra) == b - a;
      NonNegativeFactor(rb - ra, rb + ra);
    }
  }

  lemma NonNegativeFactor(x: real, y: real)
    requires y > 0.0 && x * y >= 0.0
    ensures x >= 0.0
  {
  }

  // ------------------------------------------------------------------
  // stuff.rs

  /** `contains_points`: every entry of `contains` is cleared, then entry i
      below `num_points` is set to the parity of the crossing count of
      (x[i], y[i]); entries from `num_points` on stay false. */
  method ContainsPoints(tree: seq<Node>, numPoints: nat, x: seq<real>, y: seq<real>, contains: array<bool>)
    requires numPoints <= |x| && numPoints <= |y| && numPoints <= contains.Length
    requires numPoints > 0 ==> |tree| > 0 && Sound(tree[0])
    modifies contains
    ensures forall i :: 0 <= i < contains.Length ==>
              contains[i] == (i < numPoints && Odd(CrossingCount(x[i], y[i], Edges(tree[0]))))
  {
    for i := 0 to contains.Length
      invariant forall j :: 0 <= j < i ==> !contains[j]
    {
      contains[i] := false;
    }
    for i := 0 to numPoints
      invariant forall j :: 0 <= j < contains.Length ==>
                  contains[j] == (j < i && Odd(CrossingCount(x[j], y[j], Edges(tree[0]))))
    {
      var n := NumIntersections(tree[0], 0, QueryPoint(x[i], y[i]));
      contains[i] := n % 2 != 0;
    }
  }

  /** `get_distances_edge`: entry i below `num_points` becomes the squared
      distance from (x[i], y[i]) to the nearest edge; the rest is untouched. */
  method GetDistancesEdge(tree: seq<Node>, numPoints: nat, x: seq<real>, y: seq<real>, distances: array<real>)
    requires numPoints <= |x| && numPoints <= |y| && numPoints <= distances.Length
    requires numPoints > 0 ==> |tree| > 0 && Sound(tree[0])
    modifies distances
    ensures forall i :: 0 <= i < numPoints ==>
              distances[i] == NearestEdge(LargeNumber, QueryPoint(x[i], y[i]), Edges(tree[0]))
    ensures forall i :: numPoints <= i < distances.Length ==> distances[i] == old(distances[i])
  {
    for i := 0 to numPoints
      invariant forall j :: 0 <= j < i ==>
                  distances[j] == NearestEdge(LargeNumber, QueryPoint(x[j], y[j]), Edges(tree[0]))
      invariant forall j :: i <= j < distances.Length ==> distances[j] == old(distances[j])
    {
      distances[i] := GetDistanceEdge(tree[0], LargeNumber, QueryPoint(x[i], y[i]));
    }
  }

  /** `get_distances_vertex`: entry i below `num_points` becomes the squared
      distance from (x[i], y[i]) to the nearest vertex. */
  method GetDistancesVertex(tree: seq<Node>, numPoints: nat, x: seq<real>, y: seq<real>, distances: array<real>)
    requires numPoints <= |x| && numPoints <= |y| && numPoints <= distances.Length
    requires numPoints > 0 ==> |tree| > 0 && Sound(tree[0])
    modifies distances
    ensures forall i :: 0 <= i < numPoints ==>
              distances[i] == NearestVertex(0, LargeNumber, QueryPoint(x[i], y[i]), Vertices(tree[0])).1
    ensures forall i :: numPoints <= i < distances.Length ==> distances[i] == old(distances[i])
  {
    for i := 0 to numPoints
      invariant forall j :: 0 <= j < i ==>
                  distances[j] == NearestVertex(0, LargeNumber, QueryPoint(x[j], y[j]), Vertices(tree[0])).1
      invariant forall j :: i <= j < distances.Length ==> distances[j] == old(distances[j])
    {
      var _, d := GetDistanceVertexIndexed(tree[0], 0, LargeNumber, QueryPoint(x[i], y[i]));
      distances[i] := d;
    }
  }

  /** `get_closest_vertices`: entry i below `num_points` becomes the index
      of the first vertex nearest to (x[i], y[i]) (0 when none is closer
      than the bound). */
  method GetClosestVertices(tree: seq<Node>, numPoints: nat, x: seq<real>, y: seq<real>, indices: array<nat>)
    requires numPoints <= |x| && numPoints <= |y| && numPoints <= indices.Length
    requires numPoints > 0 ==> |tree| > 0 && Sound(tree[0])
    modifies indices
    ensures forall i :: 0 <= i < numPoints ==>
              indices[i] == NearestVertex(0, LargeNumber, QueryPoint(x[i], y[i]), Vertices(tree[0])).0
    ensures forall i :: numPoints <= i < indices.Length ==> indices[i] == old(indices[i])
  {
    for i := 0 to numPoints
      invariant forall j :: 0 <= j < i ==>
                  indices[j] == NearestVertex(0, LargeNumber, QueryPoint(x[j], y[j]), Vertices(tree[0])).0
      invariant forall j :: i <= j < indices.Length ==> indices[j] == old(indices[j])
    {
      var iv, _ := GetDistanceVertexIndexed(tree[0], 0, LargeNumber, QueryPoint(x[i], y[i]));
      indices[i] := iv;
    }
  }

  // ------------------------------------------------------------------
  // Answers on a built tree

  /** The root of a tree `build_tree` returned reaches exactly the
      polygons' edges, in order, and the polygons' points. */
  lemma RootReachesPolygons(polygons: seq<seq<Point>>, nodes: seq<Node>)
    requires forall j :: 0 <= j < |polygons| ==> |polygons[j]| >= 1
    requires |nodes| == 1
    requires AllEdges(nodes) == PolygonEdges(polygons)
    requires Elements(AllVertices(nodes)) == Elements(PolygonPoints(polygons))
    ensures Edges(nodes[0]) == PolygonEdges(polygons)
    ensures forall v :: v in Vertices(nodes[0]) <==> v in PolygonPoints(polygons)
  {
    assert nodes[..0] == [];
    assert AllVertices(nodes) == Vertices(nodes[0]);
    ElementsMeaning(Vertices(nodes[0]));
    ElementsMeaning(PolygonPoints(polygons));
  }

  /** On a tree built from `polygons`, whatever the group sizes, every query
      gives the brute-force answer over the polygons: the nearest edge over
      all their edges, the crossing count over all their edges, and the
      nearest vertex (weighted, or by distance alone) over all their
      points. */
  lemma BuiltTreeAnswersAreBruteForce(polygons: seq<seq<Point>>, nodes: seq<Node>, index: nat, d: real,
                                      g: real -> real, p: Point)
    requires forall j :: 0 <= j < |polygons| ==> |polygons[j]| >= 1
    requires |nodes| == 1
    requires AllEdges(nodes) == PolygonEdges(polygons)
    requires Elements(AllVertices(nodes)) == Elements(PolygonPoints(polygons))
    ensures NearestEdge(d, p, Edges(nodes[0])) == NearestEdge(d, p, PolygonEdges(polygons))
    ensures CrossingCount(p.x, p.y, Edges(nodes[0])) == CrossingCount(p.x, p.y, PolygonEdges(polygons))
    ensures NearestVertexValue(d, g, p, Vertices(nodes[0])) == NearestVertexValue(d, g, p, PolygonPoints(polygons))
    ensures NearestVertex(index, d, p, Vertices(nodes[0])).1 == MinFrom(d, VertexDistances(p, PolygonPoints(polygons)))
  {
    RootReachesPolygons(polygons, nodes);
    var vs, ws := Vertices(nodes[0]), PolygonPoints(polygons);
    NearestVertexValueSamePoints(d, g, p, vs, ws);
    NearestVertexIsFirstMinimum(index, d, p, vs);
    var xs, ys := VertexDistances(p, vs), VertexDistances(p, ws);
    forall x | x in xs ensures x in ys {
      var i :| 0 <= i < |xs| && xs[i] == x;
      assert vs[i] in vs;
      var j :| 0 <= j < |ws| && ws[j] == vs[i];
      assert ys[j] == x;
    }
    forall y | y in ys ensures y in xs {
      var j :| 0 <= j < |ys| && ys[j] == y;
      assert ws[j] in ws;
      var i :| 0 <= i < |vs| && vs[i] == ws[j];
      assert xs[i] == y;
    }
    MinFromSameValues(d, xs, ys);
  }
}
