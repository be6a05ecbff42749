/**
 * The branch-and-bound queries on the spatial index.
 *
 * Each query walks a node: when the node's box passes its pruning test, the
 * incoming bound (or count) comes back unchanged; otherwise the children are
 * visited in order, threading the running value from one to the next, or,
 * at a leaf, the edges or vertices are folded in. Every query method is
 * proved equal to a brute-force fold over the edges (`Edges`) or vertices
 * (`Vertices`) the node reaches, and the folds are characterised on their
 * own: the least of the bound and all values, the number of crossing edges,
 * the first vertex at least distance. The box and height invariants `Sound`
 * and `HeightSound` are what make every prune safe.
 *
 * Distances are squared throughout: the current Rust variant compares
 * square roots and the older ones squares, and since the square root is
 * monotone the two agree on every comparison.
 */
module Queries {
  import opened Geometry
  import opened Crossing
  import opened Boxes
  import opened Nodes

  // ------------------------------------------------------------------
  // The running minimum

  /** The bound `d` lowered by each value in turn: the accumulator `d_` of
      the distance queries after a `min` with every value of `xs`. */
  function MinFrom(d: real, xs: seq<real>): real
  {
    if |xs| == 0 then d else Min(MinFrom(d, xs[..|xs| - 1]), xs[|xs| - 1])
  }

  /** The running minimum is the least of the bound and all values, and it
      is the bound itself or one of the values. */
  lemma {:induction false} MinFromIsMinimum(d: real, xs: seq<real>)
    ensures MinFrom(d, xs) <= d
    ensures forall i :: 0 <= i < |xs| ==> MinFrom(d, xs) <= xs[i]
    ensures MinFrom(d, xs) == d || exists i :: 0 <= i < |xs| && MinFrom(d, xs) == xs[i]
  {
    if |xs| > 0 {
      var init := xs[..|xs| - 1];
      MinFromIsMinimum(d, init);
      assert forall i :: 0 <= i < |init| ==> init[i] == xs[i];
    }
  }

  lemma MinFromSnoc(d: real, xs: seq<real>, y: real)
    ensures MinFrom(d, xs + [y]) == Min(MinFrom(d, xs), y)
  {
    assert (xs + [y])[..|xs|] == xs;
  }

  /** Folding a concatenation is folding the second part from the result of
      the first: what lets a parent thread its bound through its children. */
  lemma {:induction false} MinFromAppend(d: real, xs: seq<real>, ys: seq<real>)
    ensures MinFrom(d, xs + ys) == MinFrom(MinFrom(d, xs), ys)
    decreases |ys|
  {
    if |ys| == 0 {
      assert xs + ys == xs;
    } else {
      var init := ys[..|ys| - 1];
      MinFromAppend(d, xs, init);
      assert (xs + ys)[..|xs + ys| - 1] == xs + init;
    }
  }

  /** When no value is below the bound, the bound comes back unchanged. */
  lemma {:induction false} MinFromAboveBound(d: real, xs: seq<real>)
    requires forall i :: 0 <= i < |xs| ==> xs[i] > d
    ensures MinFrom(d, xs) == d
  {
    if |xs| > 0 {
      var init := xs[..|xs| - 1];
      assert forall i :: 0 <= i < |init| ==> init[i] == xs[i];
      MinFromAboveBound(d, init);
    }
  }

  /** Only the values that occur matter, not their order or repetition. */
  lemma MinFromSameValues(d: real, xs: seq<real>, ys: seq<real>)
    requires forall x :: x in xs <==> x in ys
    ensures MinFrom(d, xs) == MinFrom(d, ys)
  {
    MinFromIsMinimum(d, xs);
    MinFromIsMinimum(d, ys);
    assert forall i :: 0 <= i < |xs| ==> xs[i] in ys;
    assert forall i :: 0 <= i < |ys| ==> ys[i] in xs;
    if MinFrom(d, xs) != d {
      var i :| 0 <= i < |xs| && MinFrom(d, xs) == xs[i];
      var j :| 0 <= j < |ys| && ys[j] == xs[i];
    }
    if MinFrom(d, ys) != d {
      var j :| 0 <= j < |ys| && MinFrom(d, ys) == ys[j];
      var i :| 0 <= i < |xs| && xs[i] == ys[j];
    }
  }

  // ------------------------------------------------------------------
  // Nearest edge: `get_distance_edge` (both Rust variants) and the C++
  // `node::get_distance`

  /** `dsegment` from `p` to each edge, in order. */
  function EdgeDistances(p: Point, es: seq<Edge>): (r: seq<real>)
    ensures |r| == |es| && forall i :: 0 <= i < |es| ==> r[i] == EdgeDistance(p, es[i])
  {
    seq(|es|, i requires 0 <= i < |es| => EdgeDistance(p, es[i]))
  }

  lemma EdgeDistancesAppend(p: Point, a: seq<Edge>, b: seq<Edge>)
    ensures EdgeDistances(p, a + b) == EdgeDistances(p, a) + EdgeDistances(p, b)
  {
  }

  /** The brute-force answer of the nearest-edge queries: the least of `d`
      and the distance to every edge, and one of them. */
  function NearestEdge(d: real, p: Point, es: seq<Edge>): real
  {
    MinFrom(d, EdgeDistances(p, es))
  }

  lemma NearestEdgeIsMinimum(d: real, p: Point, es: seq<Edge>)
    ensures NearestEdge(d, p, es) <= d
    ensures forall e :: e in es ==> NearestEdge(d, p, es) <= EdgeDistance(p, e)
    ensures NearestEdge(d, p, es) == d || exists e :: e in es && NearestEdge(d, p, es) == EdgeDistance(p, e)
  {
    var xs := EdgeDistances(p, es);
    MinFromIsMinimum(d, xs);
    if MinFrom(d, xs) != d {
      var i :| 0 <= i < |xs| && MinFrom(d, xs) == xs[i];
      assert es[i] in es;
    }
  }

  /** The answer depends only on which edges there are: any tree over the
      same edges, whatever its group sizes, gives the same distance. */
  lemma NearestEdgeSameEdges(d: real, p: Point, a: seq<Edge>, b: seq<Edge>)
    requires forall e :: e in a <==> e in b
    ensures NearestEdge(d, p, a) == NearestEdge(d, p, b)
  {
    var xs, ys := EdgeDistances(p, a), EdgeDistances(p, b);
    forall x | x in xs ensures x in ys {
      var i :| 0 <= i < |xs| && xs[i] == x;
      assert a[i] in a;
      var j :| 0 <= j < |b| && b[j] == a[i];
      assert ys[j] == x;
    }
    forall y | y in ys ensures y in xs {
      var j :| 0 <= j < |ys| && ys[j] == y;
      assert b[j] in b;
      var i :| 0 <= i < |a| && a[i] == b[j];
      assert xs[i] == y;
    }
    MinFromSameValues(d, xs, ys);
  }

  /** A node whose box is discarded by the distance test holds no edge
      closer than `d`, so skipping it returns what a full search would. */
  lemma PrunedNodeKeepsDistance(node: Node, d: real, p: Point)
    requires Sound(node) && PruneByDistance(p.x, p.y, node.box, d)
    ensures NearestEdge(d, p, Edges(node)) == d
  {
    SoundEdgesInBox(node);
    var es := Edges(node);
    forall i | 0 <= i < |es|
      ensures EdgeDistances(p, es)[i] > d
    {
      PruneByDistanceSound(p, node.box, d, es[i]);
    }
    MinFromAboveBound(d, EdgeDistances(p, es));
  }

  /** The same for the C++ test `skip_box_distance`. */
  lemma SkippedNodeKeepsDistance(node: Node, d: real, p: Point)
    requires Sound(node) && SkipNodeBox(d, p.x, p.y, node.box)
    ensures NearestEdge(d, p, Edges(node)) == d
  {
    SoundEdgesInBox(node);
    var es := Edges(node);
    forall i | 0 <= i < |es|
      ensures EdgeDistances(p, es)[i] > d
    {
      SkipNodeBoxSound(d, p, node.box, es[i]);
    }
    MinFromAboveBound(d, EdgeDistances(p, es));
  }

  /** One child visited: the bound after it is the fold over the edges of
      the children so far. */
  lemma ChildEdgesStep(node: Node, i: nat, d: real, p: Point, before: real, temp: real)
    requires i < |node.children|
    requires before == NearestEdge(d, p, ChildEdges(node, i))
    requires temp == NearestEdge(before, p, Edges(node.children[i]))
    ensures Min(before, temp) == NearestEdge(d, p, ChildEdges(node, i + 1))
  {
    NearestEdgeIsMinimum(before, p, Edges(node.children[i]));
    EdgeDistancesAppend(p, ChildEdges(node, i), Edges(node.children[i]));
    MinFromAppend(d, EdgeDistances(p, ChildEdges(node, i)), EdgeDistances(p, Edges(node.children[i])));
  }

  /** One edge of a leaf folded in. */
  lemma LeafEdgeStep(es: seq<Edge>, i: nat, d: real, p: Point)
    requires i < |es|
    ensures NearestEdge(d, p, es[..i + 1]) == Min(NearestEdge(d, p, es[..i]), EdgeDistance(p, es[i]))
  {
    assert es[..i + 1] == es[..i] + [es[i]];
    EdgeDistancesAppend(p, es[..i], [es[i]]);
    MinFromSnoc(d, EdgeDistances(p, es[..i]), EdgeDistance(p, es[i]));
  }

  /** `get_distance_edge` (tree.rs, node.rs): the nearest-edge search below
      `node` from the bound `d` returns the brute-force answer over every
      edge below it. */
  method GetDistanceEdge(node: Node, d: real, p: Point) returns (r: real)
    requires Sound(node)
    ensures r == NearestEdge(d, p, Edges(node))
    decreases node
  {
    if PruneByDistance(p.x, p.y, node.box, d) {
      PrunedNodeKeepsDistance(node, d, p);
      return d;
    }
    var d' := d;
    if |node.children| > 0 {
      for i := 0 to |node.children|
        invariant d' == NearestEdge(d, p, ChildEdges(node, i))
      {
        var temp := GetDistanceEdge(node.children[i], d', p);
        ChildEdgesStep(node, i, d, p, d', temp);
        d' := Min(d', temp);
      }
      return d';
    }
    if |node.edges| > 0 {
      for i := 0 to |node.edges|
        invariant d' == NearestEdge(d, p, node.edges[..i])
      {
        LeafEdgeStep(node.edges, i, d, p);
        d' := Min(d', EdgeDistance(p, node.edges[i]));
      }
      assert node.edges[..|node.edges|] == node.edges;
      return d';
    }
    return d;
  }

  /** `node::get_distance` of the C++ variant: the same search with the
      `skip_box_distance` prune. The source has no return value for a node
      with neither children nor edges, so every node below must hold one. */
  method GetDistance(node: Node, d: real, p: Point) returns (r: real)
    requires Sound(node) && Populated(node)
    ensures r == NearestEdge(d, p, Edges(node))
    decreases node
  {
    if SkipNodeBox(d, p.x, p.y, node.box) {
      SkippedNodeKeepsDistance(node, d, p);
      return d;
    }
    var d' := d;
    if |node.children| > 0 {
      for i := 0 to |node.children|
        invariant d' == NearestEdge(d, p, ChildEdges(node, i))
      {
        var temp := GetDistance(node.children[i], d', p);
        ChildEdgesStep(node, i, d, p, d', temp);
        d' := Min(d', temp);
      }
      return d';
    }
    assert |node.edges| > 0;
    for i := 0 to |node.edges|
      invariant d' == NearestEdge(d, p, node.edges[..i])
    {
      LeafEdgeStep(node.edges, i, d, p);
      d' := Min(d', EdgeDistance(p, node.edges[i]));
    }
    assert node.edges[..|node.edges|] == node.edges;
    return d';
  }

  // ------------------------------------------------------------------
  // Crossing count: `num_intersections` (tree.rs, node.rs, intersections.rs)

  /** The number of edges the ray from (px, py) towards +x crosses. */
  function CrossingCount(px: real, py: real, es: seq<Edge>): nat
  {
    if |es| == 0 then 0
    else CrossingCount(px, py, es[..|es| - 1]) + (if Crosses(px, py, es[|es| - 1]) then 1 else 0)
  }

  /** The positions of the crossing edges among the first n. */
  ghost function CrossingPositions(px: real, py: real, es: seq<Edge>, n: nat): set<nat>
    requires n <= |es|
  {
    set i: nat | i < n && Crosses(px, py, es[i])
  }

  /** The count is the number of positions holding a crossing edge. */
  lemma {:induction false} CrossingCountCountsPositions(px: real, py: real, es: seq<Edge>)
    ensures CrossingCount(px, py, es) == |CrossingPositions(px, py, es, |es|)|
  {
    if |es| > 0 {
      var n := |es| - 1;
      var init := es[..n];
      CrossingCountCountsPositions(px, py, init);
      var before := CrossingPositions(px, py, init, n);
      assert CrossingPositions(px, py, es, n) == before;
      if Crosses(px, py, es[n]) {
        assert CrossingPositions(px, py, es, |es|) == before + {n};
      } else {
        assert CrossingPositions(px, py, es, |es|) == before;
      }
    }
  }

  /** At most one per edge, and none when no edge crosses. */
  lemma {:induction false} CrossingCountBounds(px: real, py: real, es: seq<Edge>)
    ensures CrossingCount(px, py, es) <= |es|
    ensures (forall e :: e in es ==> !Crosses(px, py, e)) ==> CrossingCount(px, py, es) == 0
  {
    if |es| > 0 {
      var init := es[..|es| - 1];
      CrossingCountBounds(px, py, init);
      assert forall e :: e in init ==> e in es;
    }
  }

  lemma {:induction false} CrossingCountAppend(px: real, py: real, a: seq<Edge>, b: seq<Edge>)
    ensures CrossingCount(px, py, a + b) == CrossingCount(px, py, a) + CrossingCount(px, py, b)
    decreases |b|
  {
    if |b| == 0 {
      assert a + b == a;
    } else {
      var init := b[..|b| - 1];
      CrossingCountAppend(px, py, a, init);
      assert (a + b)[..|a + b| - 1] == a + init;
    }
  }

  /** A node the crossing prune discards holds no crossing edge. */
  lemma PrunedNodeHasNoCrossing(node: Node, p: Point)
    requires Sound(node) && SkipBoxIntersection(p.x, p.y, node.box)
    ensures CrossingCount(p.x, p.y, Edges(node)) == 0
  {
    SoundEdgesInBox(node);
    forall e | e in Edges(node)
      ensures !Crosses(p.x, p.y, e)
    {
      SkipBoxIntersectionSound(p.x, p.y, node.box, e);
    }
    CrossingCountBounds(p.x, p.y, Edges(node));
  }

  /** `num_intersections`: the incoming count `n` plus the number of edges
      below `node` that the ray from `p` crosses; never less than `n`. */
  method NumIntersections(node: Node, n: int, p: Point) returns (r: int)
    requires Sound(node)
    ensures r == n + CrossingCount(p.x, p.y, Edges(node))
    ensures r >= n
    decreases node
  {
    if SkipBoxIntersection(p.x, p.y, node.box) {
      PrunedNodeHasNoCrossing(node, p);
      return n;
    }
    var n' := n;
    if |node.children| > 0 {
      for i := 0 to |node.children|
        invariant n' == n + CrossingCount(p.x, p.y, ChildEdges(node, i))
      {
        n' := NumIntersections(node.children[i], n', p);
        CrossingCountAppend(p.x, p.y, ChildEdges(node, i), Edges(node.children[i]));
      }
      return n';
    }
    if |node.edges| > 0 {
      for i := 0 to |node.edges|
        invariant n' == n + CrossingCount(p.x, p.y, node.edges[..i])
      {
        assert node.edges[..i + 1][..i] == node.edges[..i];
        if Crosses(p.x, p.y, node.edges[i]) {
          n' := n' + 1;
        }
      }
      assert node.edges[..|node.edges|] == node.edges;
      return n';
    }
    return n;
  }

  // ------------------------------------------------------------------
  // Nearest vertex with heights: `get_distance_vertex` of tree.rs

  /** The squared distance from the query point to a vertex. */
  function VertexDistance(p: Point, v: Point): real
  {
    DistanceSquared(v.x - p.x, v.y - p.y)
  }

  /** The transform `g` never reverses an order. */
  ghost predicate Monotone(g: real -> real)
  {
    forall a, b :: a <= b ==> g(a) <= g(b)
  }

  /** The value a vertex offers: `g` of its distance plus its height. */
  function VertexValue(g: real -> real, p: Point, v: Point): real
  {
    g(VertexDistance(p, v)) + v.coeff
  }

  function VertexValues(g: real -> real, p: Point, vs: seq<Point>): (r: seq<real>)
    ensures |r| == |vs| && forall i :: 0 <= i < |vs| ==> r[i] == VertexValue(g, p, vs[i])
  {
    seq(|vs|, i requires 0 <= i < |vs| => VertexValue(g, p, vs[i]))
  }

  lemma VertexValuesAppend(g: real -> real, p: Point, a: seq<Point>, b: seq<Point>)
    ensures VertexValues(g, p, a + b) == VertexValues(g, p, a) + VertexValues(g, p, b)
  {
  }

  /** The brute-force answer of the weighted nearest-vertex query. */
  function NearestVertexValue(d: real, g: real -> real, p: Point, vs: seq<Point>): real
  {
    MinFrom(d, VertexValues(g, p, vs))
  }

  lemma NearestVertexValueIsMinimum(d: real, g: real -> real, p: Point, vs: seq<Point>)
    ensures NearestVertexValue(d, g, p, vs) <= d
    ensures forall v :: v in vs ==> NearestVertexValue(d, g, p, vs) <= VertexValue(g, p, v)
    ensures NearestVertexValue(d, g, p, vs) == d ||
            exists v :: v in vs && NearestVertexValue(d, g, p, vs) == VertexValue(g, p, v)
  {
    var xs := VertexValues(g, p, vs);
    MinFromIsMinimum(d, xs);
    if MinFrom(d, xs) != d {
      var i :| 0 <= i < |xs| && MinFrom(d, xs) == xs[i];
      assert vs[i] in vs;
    }
  }

  /** Only which vertices there are matters: a tree over the same points,
      whatever its group sizes, gives the same value. */
  lemma NearestVertexValueSamePoints(d: real, g: real -> real, p: Point, a: seq<Point>, b: seq<Point>)
    requires forall v :: v in a <==> v in b
    ensures NearestVertexValue(d, g, p, a) == NearestVertexValue(d, g, p, b)
  {
    var xs, ys := VertexValues(g, p, a), VertexValues(g, p, b);
    forall x | x in xs ensures x in ys {
      var i :| 0 <= i < |xs| && xs[i] == x;
      assert a[i] in a;
      var j :| 0 <= j < |b| && b[j] == a[i];
      assert ys[j] == x;
    }
    forall y | y in ys ensures y in xs {
      var j :| 0 <= j < |ys| && ys[j] == y;
      assert b[j] in b;
      var i :| 0 <= i < |a| && a[i] == b[j];
      assert xs[i] == y;
    }
    MinFromSameValues(d, xs, ys);
  }

  /** The prune of the weighted query: the sentinel box, or a box whose
      distance, transformed, plus the least height below exceeds `d`. */
  predicate PruneByHeight(g: real -> real, p: Point, b: Box, hmin: real, d: real)
  {
    b.Empty? || g(NodeBoxDistance(p.x, p.y, b)) + hmin > d
  }

  /** Under both invariants and a monotone `g`, a pruned node offers no
      vertex value at or below `d`. */
  lemma PrunedNodeKeepsValue(node: Node, d: real, g: real -> real, p: Point)
    requires Sound(node) && HeightSound(node) && Monotone(g)
    requires PruneByHeight(g, p, node.box, node.hmin, d)
    ensures NearestVertexValue(d, g, p, Vertices(node)) == d
  {
    SoundVerticesInBox(node);
    var vs := Vertices(node);
    forall i | 0 <= i < |vs|
      ensures VertexValues(g, p, vs)[i] > d
    {
      var v := vs[i];
      assert v in vs;
      VertexAtLeastBoxDistance(p.x, p.y, node.box, v.x, v.y);
      assert g(NodeBoxDistance(p.x, p.y, node.box)) <= g(VertexDistance(p, v));
    }
    MinFromAboveBound(d, VertexValues(g, p, vs));
  }

  lemma ChildVerticesStep(node: Node, i: nat, d: real, g: real -> real, p: Point, before: real, t: real)
    requires i < |node.children|
    requires before == NearestVertexValue(d, g, p, ChildVertices(node, i))
    requires t == NearestVertexValue(before, g, p, Vertices(node.children[i]))
    ensures Min(before, t) == NearestVertexValue(d, g, p, ChildVertices(node, i + 1))
  {
    NearestVertexValueIsMinimum(before, g, p, Vertices(node.children[i]));
    VertexValuesAppend(g, p, ChildVertices(node, i), Vertices(node.children[i]));
    MinFromAppend(d, VertexValues(g, p, ChildVertices(node, i)), VertexValues(g, p, Vertices(node.children[i])));
  }

  /** One more vertex folded in at the end. */
  lemma VertexValueStep(d: real, g: real -> real, p: Point, vs: seq<Point>, v: Point)
    ensures NearestVertexValue(d, g, p, vs + [v]) == Min(NearestVertexValue(d, g, p, vs), VertexValue(g, p, v))
  {
    VertexValuesAppend(g, p, vs, [v]);
    MinFromSnoc(d, VertexValues(g, p, vs), VertexValue(g, p, v));
  }

  lemma FirstPointsStep(es: seq<Edge>, i: nat)
    requires i < |es|
    ensures FirstPoints(es[..i + 1]) == FirstPoints(es[..i]) + [es[i].p1]
  {
    assert es[..i + 1][..i] == es[..i];
  }

  /** `get_distance_vertex` of tree.rs: for a monotone `g`, the least of `d`
      and `g(distance) + coeff` over every vertex below `node`. */
  method GetDistanceVertex(node: Node, d: real, p: Point, g: real -> real) returns (r: real)
    requires Sound(node) && HeightSound(node) && Monotone(g)
    ensures r == NearestVertexValue(d, g, p, Vertices(node))
    decreases node
  {
    if PruneByHeight(g, p, node.box, node.hmin, d) {
      PrunedNodeKeepsValue(node, d, g, p);
      return d;
    }
    var dMin := d;
    if |node.children| > 0 {
      for i := 0 to |node.children|
        invariant dMin == NearestVertexValue(d, g, p, ChildVertices(node, i))
      {
        var t := GetDistanceVertex(node.children[i], dMin, p, g);
        ChildVerticesStep(node, i, d, g, p, dMin, t);
        dMin := Min(dMin, t);
      }
      return dMin;
    }
    if |node.edges| > 0 {
      var es := node.edges;
      for i := 0 to |es|
        invariant dMin == NearestVertexValue(d, g, p, FirstPoints(es[..i]))
      {
        FirstPointsStep(es, i);
        VertexValueStep(d, g, p, FirstPoints(es[..i]), es[i].p1);
        dMin := Min(dMin, VertexValue(g, p, es[i].p1));
      }
      assert es[..|es|] == es;
      var last := es[|es| - 1];
      VertexValueStep(d, g, p, FirstPoints(es), last.p2);
      dMin := Min(dMin, VertexValue(g, p, last.p2));
      return dMin;
    }
    return dMin;
  }

  // ------------------------------------------------------------------
  // Nearest vertex with its index: `get_distance_vertex` of node.rs

  /** The brute-force answer of the indexed query: scanning the vertices in
      order, a vertex strictly closer than the best so far replaces it. */
  function NearestVertex(index: nat, d: real, p: Point, vs: seq<Point>): (nat, real)
  {
    if |vs| == 0 then (index, d)
    else
      var best := NearestVertex(index, d, p, vs[..|vs| - 1]);
      var t := VertexDistance(p, vs[|vs| - 1]);
      if t < best.1 then (vs[|vs| - 1].index, t) else best
  }

  function VertexDistances(p: Point, vs: seq<Point>): (r: seq<real>)
    ensures |r| == |vs| && forall i :: 0 <= i < |vs| ==> r[i] == VertexDistance(p, vs[i])
  {
    seq(|vs|, i requires 0 <= i < |vs| => VertexDistance(p, vs[i]))
  }

  /** The distance found is the least of `d` and all vertex distances. If
      it is below `d`, the index is that of the FIRST vertex at that
      distance (later ties do not replace it); otherwise the incoming index
      comes back unchanged. */
  lemma {:induction false} NearestVertexIsFirstMinimum(index: nat, d: real, p: Point, vs: seq<Point>)
    ensures NearestVertex(index, d, p, vs).1 == MinFrom(d, VertexDistances(p, vs))
    ensures NearestVertex(index, d, p, vs).1 == d ==> NearestVertex(index, d, p, vs).0 == index
    ensures NearestVertex(index, d, p, vs).1 < d ==>
              exists k :: 0 <= k < |vs| && vs[k].index == NearestVertex(index, d, p, vs).0 &&
                VertexDistance(p, vs[k]) == NearestVertex(index, d, p, vs).1 &&
                forall j :: 0 <= j < k ==> VertexDistance(p, vs[j]) > NearestVertex(index, d, p, vs).1
  {
    if |vs| > 0 {
      var n := |vs| - 1;
      var init := vs[..n];
      NearestVertexIsFirstMinimum(index, d, p, init);
      var best := NearestVertex(index, d, p, init);
      var t := VertexDistance(p, vs[n]);
      assert VertexDistances(p, vs) == VertexDistances(p, init) + [t];
      MinFromSnoc(d, VertexDistances(p, init), t);
      MinFromIsMinimum(d, VertexDistances(p, init));
      if t < best.1 {
        forall j | 0 <= j < n
          ensures VertexDistance(p, vs[j]) > t
        {
          assert VertexDistances(p, init)[j] == VertexDistance(p, vs[j]);
        }
      } else if best.1 < d {
        var k :| 0 <= k < |init| && init[k].index == best.0 && VertexDistance(p, init[k]) == best.1 &&
                 forall j :: 0 <= j < k ==> VertexDistance(p, init[j]) > best.1;
        assert vs[k] == init[k];
        assert forall j :: 0 <= j < k ==> vs[j] == init[j];
      }
    }
  }

  lemma {:induction false} NearestVertexAppend(index: nat, d: real, p: Point, a: seq<Point>, b: seq<Point>)
    ensures NearestVertex(index, d, p, a + b) ==
            NearestVertex(NearestVertex(index, d, p, a).0, NearestVertex(index, d, p, a).1, p, b)
    decreases |b|
  {
    if |b| == 0 {
      assert a + b == a;
    } else {
      var init := b[..|b| - 1];
      NearestVertexAppend(index, d, p, a, init);
      assert (a + b)[..|a + b| - 1] == a + init;
    }
  }

  /** When no vertex is within `d`, index and bound come back unchanged. */
  lemma {:induction false} NearestVertexAboveBound(index: nat, d: real, p: Point, vs: seq<Point>)
    requires forall i :: 0 <= i < |vs| ==> VertexDistance(p, vs[i]) > d
    ensures NearestVertex(index, d, p, vs) == (index, d)
  {
    if |vs| > 0 {
      var init := vs[..|vs| - 1];
      assert forall i :: 0 <= i < |init| ==> init[i] == vs[i];
      NearestVertexAboveBound(index, d, p, init);
    }
  }

  lemma PrunedNodeKeepsVertex(node: Node, index: nat, d: real, p: Point)
    requires Sound(node) && PruneByDistance(p.x, p.y, node.box, d)
    ensures NearestVertex(index, d, p, Vertices(node)) == (index, d)
  {
    SoundVerticesInBox(node);
    var vs := Vertices(node);
    forall i | 0 <= i < |vs|
      ensures VertexDistance(p, vs[i]) > d
    {
      assert vs[i] in vs;
      PrunedVertexIsFar(p, node.box, d, vs[i]);
    }
    NearestVertexAboveBound(index, d, p, vs);
  }

  lemma PrunedVertexIsFar(p: Point, b: Box, d: real, v: Point)
    requires PruneByDistance(p.x, p.y, b, d) && Contains(b, v.x, v.y)
    ensures VertexDistance(p, v) > d
  {
    VertexAtLeastBoxDistance(p.x, p.y, b, v.x, v.y);
  }

  /** One child visited: keeping the child's answer only when strictly
      closer is the same as taking it, since an answer that is not closer
      carries the incoming index. */
  lemma ChildVertexStep(node: Node, i: nat, index: nat, d: real, p: Point, before: (nat, real), it: nat, dt: real)
    requires i < |node.children|
    requires before == NearestVertex(index, d, p, ChildVertices(node, i))
    requires (it, dt) == NearestVertex(before.0, before.1, p, Vertices(node.children[i]))
    ensures (if dt < before.1 then (it, dt) else before) == NearestVertex(index, d, p, ChildVertices(node, i + 1))
  {
    NearestVertexIsFirstMinimum(before.0, before.1, p, Vertices(node.children[i]));
    MinFromIsMinimum(before.1, VertexDistances(p, Vertices(node.children[i])));
    NearestVertexAppend(index, d, p, ChildVertices(node, i), Vertices(node.children[i]));
  }

  lemma VertexStep(index: nat, d: real, p: Point, vs: seq<Point>, v: Point)
    ensures NearestVertex(index, d, p, vs + [v]) ==
            (var best := NearestVertex(index, d, p, vs);
             if VertexDistance(p, v) < best.1 then (v.index, VertexDistance(p, v)) else best)
  {
    assert (vs + [v])[..|vs|] == vs;
  }

  /** The leaf part of the indexed query: `p1` of every edge, then `p2`
      of the last edge, each replacing the best so far only when strictly
      closer. */
  method NearestLeafVertex(es: seq<Edge>, index: nat, d: real, p: Point) returns (idx: nat, dist: real)
    requires |es| > 0
    ensures (idx, dist) == NearestVertex(index, d, p, LeafVertices(es))
  {
    idx, dist := index, d;
    for i := 0 to |es|
      invariant idx == NearestVertex(index, d, p, FirstPoints(es[..i])).0
      invariant dist == NearestVertex(index, d, p, FirstPoints(es[..i])).1
    {
      FirstPointsStep(es, i);
      VertexStep(index, d, p, FirstPoints(es[..i]), es[i].p1);
      var t := VertexDistance(p, es[i].p1);
      if t < dist {
        dist := t;
        idx := es[i].p1.index;
      }
    }
    assert es[..|es|] == es;
    var last := es[|es| - 1];
    VertexStep(index, d, p, FirstPoints(es), last.p2);
    var dTemp := VertexDistance(p, last.p2);
    if dTemp < dist {
      dist := dTemp;
      idx := last.p2.index;
    }
  }

  /** `get_distance_vertex` of node.rs: the nearest vertex below `node`
      within `d` and its index, first one met on ties. */
  method GetDistanceVertexIndexed(node: Node, index: nat, d: real, p: Point) returns (idx: nat, dist: real)
    requires Sound(node)
    ensures (idx, dist) == NearestVertex(index, d, p, Vertices(node))
    decreases node
  {
    if PruneByDistance(p.x, p.y, node.box, d) {
      PrunedNodeKeepsVertex(node, index, d, p);
      return index, d;
    }
    var d' := d;
    var index' := index;
    if |node.children| > 0 {
      for i := 0 to |node.children|
        invariant index' == NearestVertex(index, d, p, ChildVertices(node, i)).0
        invariant d' == NearestVertex(index, d, p, ChildVertices(node, i)).1
      {
        var it, dt := GetDistanceVertexIndexed(node.children[i], index', d', p);
        ChildVertexStep(node, i, index, d, p, (index', d'), it, dt);
        if dt < d' {
          d' := dt;
          index' := it;
        }
      }
      return index', d';
    }
    if |node.edges| > 0 {
      index', d' := NearestLeafVertex(node.edges, index, d, p);
      return index', d';
    }
    return index', d';
  }
}
