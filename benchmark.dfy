/**
 * The Python prototype of benchmark.py: a tree whose leaves are the edges
 * themselves, built by `build_nodes`, searched by `Node.get_distance`, and
 * checked against the brute force `vdsegment`.
 *
 * A Python tree is `Edge` objects at the bottom and `Node` objects above,
 * each with a `bounds` pair [[xmin, xmax], [ymin, ymax]] that starts from
 * the inverted sentinel of `init_bounds`; here that sentinel is
 * `Box.Empty`. A `Node` under construction is the class `PyNode`; once
 * built, nothing changes it, so the finished tree is the value `PyTree`.
 * Query points are tuples (x, y), here points without weight.
 */
module Benchmark {
  import opened Geometry
  import opened Boxes
  import opened Queries
  import opened Grouping
  import Batch

  datatype PyTree = PyEdge(edge: Edge) | PyBranch(bounds: Box, children: seq<PyTree>)

  /** `adjust_bounds`: a new bounds pair widened to hold the point; the
      input pair is a value and stays as it was. */
  function AdjustBounds(b: Box, x: real, y: real): (r: Box)
    ensures Contains(r, x, y) && SubBox(b, r)
    ensures forall c: Box :: SubBox(b, c) && Contains(c, x, y) ==> SubBox(r, c)
    ensures WellFormed(b) ==> WellFormed(r)
  {
    UnionIsLeastUpperBound(b, PointBox(x, y), PointBox(x, y));
    UnionEmpty(b, PointBox(x, y));
    UnionContains(b, PointBox(x, y), x, y);
    Union(b, PointBox(x, y))
  }

  /** The bounds `Edge.__init__` computes from its two points. */
  function EdgeBounds(e: Edge): (r: Box)
    ensures EdgeInBox(e, r)
  {
    var b1 := AdjustBounds(Empty, e.p1.x, e.p1.y);
    SubBoxContains(b1, AdjustBounds(b1, e.p2.x, e.p2.y), e.p1.x, e.p1.y);
    AdjustBounds(b1, e.p2.x, e.p2.y)
  }

  /** The `bounds` attribute of an edge or a node. */
  function Bounds(t: PyTree): Box
  {
    if t.PyEdge? then EdgeBounds(t.edge) else t.bounds
  }

  /** The two corners `add_child` feeds to `adjust_bounds`: (xmin, ymin) and
      (xmax, ymax) of the child's bounds. A child still at the sentinel
      gives (MAX, MAX) and (-MAX, -MAX). */
  function Corners(c: Box): (real, real, real, real)
  {
    if c.Rect? then (c.xmin, c.ymin, c.xmax, c.ymax)
    else (Batch.LargeNumber, Batch.LargeNumber, -Batch.LargeNumber, -Batch.LargeNumber)
  }

  /** The bounds after `add_child` of a child with bounds c. */
  function AddChildBounds(b: Box, c: Box): (r: Box)
    ensures SubBox(b, r) && SubBox(c, r)
  {
    var (x1, y1, x2, y2) := Corners(c);
    var b1 := AdjustBounds(b, x1, y1);
    var r := AdjustBounds(b1, x2, y2);
    SubBoxTransitive(b, b1, r);
    SubBoxContains(b1, r, x1, y1);
    r
  }

  /** For a child with proper bounds, the two corner updates are exactly the
      union of the two boxes. */
  lemma AddChildIsUnion(b: Box, c: Box)
    requires c.Rect? && WellFormed(c)
    ensures AddChildBounds(b, c) == Union(b, c)
  {
    var lo := PointBox(c.xmin, c.ymin);
    var hi := PointBox(c.xmax, c.ymax);
    UnionAlgebra(b, lo, hi);
    assert Union(lo, hi) == c;
  }

  /** The bounds of a node after `add_child` of each child in turn. */
  function ChildrenBounds(cs: seq<PyTree>): Box
  {
    if |cs| == 0 then Empty else AddChildBounds(ChildrenBounds(cs[..|cs| - 1]), Bounds(cs[|cs| - 1]))
  }

  /** The node `build_nodes` makes from a run of children. */
  function PyParentOf(cs: seq<PyTree>): PyTree
  {
    PyBranch(ChildrenBounds(cs), cs)
  }

  /** The nodes `build_nodes` makes from runs of children. */
  function PyParents(cs: seq<seq<PyTree>>): (r: seq<PyTree>)
    ensures |r| == |cs| && forall j :: 0 <= j < |cs| ==> r[j] == PyParentOf(cs[j])
  {
    seq(|cs|, j requires 0 <= j < |cs| => PyParentOf(cs[j]))
  }

  /** A node under construction: `Node()` and `add_child`. */
  class PyNode {
    var children: seq<PyTree>
    var bounds: Box

    constructor()
      ensures children == [] && bounds == Empty
    {
      children := [];
      bounds := Empty;
    }

    /** `add_child`: appends the child and widens the bounds by its two
        corners. */
    method AddChild(child: PyTree)
      modifies this
      ensures children == old(children) + [child]
      ensures bounds == AddChildBounds(old(bounds), Bounds(child))
    {
      children := children + [child];
      var (x1, y1, x2, y2) := Corners(Bounds(child));
      bounds := AdjustBounds(bounds, x1, y1);
      bounds := AdjustBounds(bounds, x2, y2);
    }

    /** The finished node. */
    function Value(): PyTree
      reads this
    {
      PyBranch(bounds, children)
    }
  }

  /** The inner loop of `build_nodes`: n draws from the iterator; a draw
      past the end sets `done` instead of adding a child. */
  method FillNode(node: PyNode, children: seq<PyTree>, start: nat, n: nat) returns (i: nat, done: bool)
    requires start <= |children|
    requires node.children == [] && node.bounds == Empty
    modifies node
    ensures start <= i <= |children| && i - start == if n <= |children| - start then n else |children| - start
    ensures done <==> |children| - start < n
    ensures node.Value() == PyParentOf(children[start..i])
  {
    i := start;
    done := false;
    for l := 0 to n
      invariant start <= i <= |children|
      invariant i - start == if l <= |children| - start then l else |children| - start
      invariant done <==> |children| - start < l
      invariant node.children == children[start..i] && node.bounds == ChildrenBounds(children[start..i])
    {
      if i < |children| {
        assert children[start..i + 1] == children[start..i] + [children[i]];
        assert children[start..i + 1][..i - start] == children[start..i];
        node.AddChild(children[i]);
        i := i + 1;
      } else {
        done := true;
      }
    }
  }

  /** `build_nodes`: nodes of n children each drawn in order from the
      iterator, the last one possibly shorter; an empty node is not kept,
      and the loop stops once a draw runs past the end. With n = 0 the
      source loops forever, so n must be positive. */
  method BuildNodesPy(n: nat, children: seq<PyTree>) returns (nodes: seq<PyTree>)
    requires n >= 1
    ensures nodes == PyParents(Chunks(children, n))
  {
    nodes := [];
    var i := 0;
    while true
      invariant i <= |children|
      invariant nodes + PyParents(Chunks(children[i..], n)) == PyParents(Chunks(children, n))
      decreases |children| - i
    {
      var node := new PyNode();
      var start := i;
      var done;
      i, done := FillNode(node, children, start, n);
      if start < |children| {
        RunTaken(children, start, i, n);
        PyParentsCons(children[start..i], Chunks(children[i..], n));
        nodes := nodes + [node.Value()];
      } else {
        assert children[start..] == [];
      }
      if done {
        assert children[i..] == [];
        assert PyParents(Chunks(children[i..], n)) == [];
        return;
      }
    }
  }

  lemma PyParentsCons(c: seq<PyTree>, cs: seq<seq<PyTree>>)
    ensures PyParents([c] + cs) == [PyParentOf(c)] + PyParents(cs)
  {
  }

  // ----- what a search sees -----

  /** The edges below a tree, in the order `get_distance` visits them. */
  function PyEdges(t: PyTree): seq<Edge>
    decreases t, 1
  {
    if t.PyEdge? then [t.edge] else PyChildEdges(t, |t.children|)
  }

  /** The edges below the first k children of a node. */
  function PyChildEdges(t: PyTree, k: nat): seq<Edge>
    requires t.PyBranch? && k <= |t.children|
    decreases t, 0, k
  {
    if k == 0 then [] else PyChildEdges(t, k - 1) + PyEdges(t.children[k - 1])
  }

  /** The edges below a list of trees, one tree after the other. */
  function PyAllEdges(ts: seq<PyTree>): seq<Edge>
  {
    if |ts| == 0 then [] else PyAllEdges(ts[..|ts| - 1]) + PyEdges(ts[|ts| - 1])
  }

  /** Each node's bounds hold the bounds of each of its children. */
  predicate PySound(t: PyTree)
    decreases t
  {
    t.PyBranch? ==>
      forall i :: 0 <= i < |t.children| ==> PySound(t.children[i]) && SubBox(Bounds(t.children[i]), t.bounds)
  }

  lemma {:induction false} PyAllEdgesAppend(a: seq<PyTree>, b: seq<PyTree>)
    ensures PyAllEdges(a + b) == PyAllEdges(a) + PyAllEdges(b)
    decreases |b|
  {
    if |b| == 0 {
      assert a + b == a;
    } else {
      PyAllEdgesAppend(a, b[..|b| - 1]);
      assert (a + b)[..|a + b| - 1] == a + b[..|b| - 1];
    }
  }

  lemma {:induction false} PyChildEdgesAreAllEdges(t: PyTree, k: nat)
    requires t.PyBranch? && k <= |t.children|
    ensures PyChildEdges(t, k) == PyAllEdges(t.children[..k])
  {
    if k > 0 {
      PyChildEdgesAreAllEdges(t, k - 1);
      assert t.children[..k][..k - 1] == t.children[..k - 1];
    }
  }

  /** Every edge below a sound tree lies in its bounds. */
  lemma {:induction false} PySoundEdgesInBox(t: PyTree)
    requires PySound(t)
    ensures forall e :: e in PyEdges(t) ==> EdgeInBox(e, Bounds(t))
    decreases t, 1
  {
    if t.PyBranch? {
      PySoundChildEdgesInBox(t, |t.children|);
    }
  }

  lemma {:induction false} PySoundChildEdgesInBox(t: PyTree, k: nat)
    requires PySound(t) && t.PyBranch? && k <= |t.children|
    ensures forall e :: e in PyChildEdges(t, k) ==> EdgeInBox(e, t.bounds)
    decreases t, 0, k
  {
    if k > 0 {
      var c := t.children[k - 1];
      PySoundChildEdgesInBox(t, k - 1);
      PySoundEdgesInBox(c);
      forall e | e in PyEdges(c)
        ensures EdgeInBox(e, t.bounds)
      {
        SubBoxContains(Bounds(c), t.bounds, e.p1.x, e.p1.y);
        SubBoxContains(Bounds(c), t.bounds, e.p2.x, e.p2.y);
      }
    }
  }

  // ----- build_nodes on its specification -----

  /** The bounds after the children are added hold each child's bounds. */
  lemma {:induction false} ChildrenBoundsHold(cs: seq<PyTree>)
    ensures forall i :: 0 <= i < |cs| ==> SubBox(Bounds(cs[i]), ChildrenBounds(cs))
  {
    if |cs| > 0 {
      var pre := cs[..|cs| - 1];
      ChildrenBoundsHold(pre);
      forall i | 0 <= i < |pre|
        ensures SubBox(Bounds(cs[i]), ChildrenBounds(cs))
      {
        assert cs[i] == pre[i];
        SubBoxTransitive(Bounds(cs[i]), ChildrenBounds(pre), ChildrenBounds(cs));
      }
    }
  }

  lemma {:induction false} PyParentsEdges(cs: seq<seq<PyTree>>)
    ensures PyAllEdges(PyParents(cs)) == PyAllEdges(Flatten(cs))
    decreases |cs|
  {
    if |cs| > 0 {
      var c := cs[0];
      PyParentsEdges(cs[1..]);
      assert PyParents(cs) == [PyParentOf(c)] + PyParents(cs[1..]);
      PyAllEdgesAppend([PyParentOf(c)], PyParents(cs[1..]));
      PyAllEdgesAppend(c, Flatten(cs[1..]));
      PyParentEdges(c);
    }
  }

  /** A node made from a run of children reaches their edges in order. */
  lemma PyParentEdges(c: seq<PyTree>)
    ensures PyAllEdges([PyParentOf(c)]) == PyAllEdges(c)
  {
    PyChildEdgesAreAllEdges(PyParentOf(c), |c|);
    assert c[..|c|] == c;
    assert [PyParentOf(c)][..0] == [];
  }

  /** `build_nodes` returns ceil(len / n) nodes, each holding one to n of
      the children, none empty; the children stay in order, so the edges
      below the nodes are the edges below the children, in order; and the
      bounds of each node hold those of its children. */
  lemma BuildNodesPyProperties(children: seq<PyTree>, n: nat)
    requires n >= 1
    ensures |PyParents(Chunks(children, n))| == NumParents(|children|, n)
    ensures forall j :: 0 <= j < |PyParents(Chunks(children, n))| ==>
              1 <= |PyParents(Chunks(children, n))[j].children| <= n
    ensures PyAllEdges(PyParents(Chunks(children, n))) == PyAllEdges(children)
    ensures (forall i :: 0 <= i < |children| ==> PySound(children[i])) ==>
              forall j :: 0 <= j < |PyParents(Chunks(children, n))| ==> PySound(PyParents(Chunks(children, n))[j])
  {
    var cs := Chunks(children, n);
    ChunksProperties(children, n);
    PyParentsEdges(cs);
    FlattenMembers(cs);
    if forall i :: 0 <= i < |children| ==> PySound(children[i]) {
      forall j | 0 <= j < |cs|
        ensures PySound(PyParents(cs)[j])
      {
        ChildrenBoundsHold(cs[j]);
        forall i | 0 <= i < |cs[j]|
          ensures PySound(cs[j][i])
        {
          assert cs[j][i] in Flatten(cs);
        }
      }
    }
  }

  // ----- the search -----

  /** A node whose bounds `skip_box` discards holds no edge closer than the
      bound, so returning the bound loses nothing. */
  lemma PySkippedNodeKeepsDistance(t: PyTree, d: real, p: Point)
    requires PySound(t) && t.PyBranch? && PySkipBox(d, p.x, p.y, t.bounds)
    ensures NearestEdge(d, p, PyEdges(t)) == d
  {
    PySoundEdgesInBox(t);
    var es := PyEdges(t);
    forall i | 0 <= i < |es|
      ensures EdgeDistances(p, es)[i] > d
    {
      assert es[i] in es;
      PySkipBoxAgrees(d, p.x, p.y, t.bounds);
      SkipNodeBoxSound(d, p, t.bounds, es[i]);
    }
    MinFromAboveBound(d, EdgeDistances(p, es));
  }

  /** One child visited: `min(distance, child.get_distance(distance, p))`
      is the fold over the edges below the children so far. */
  lemma PyChildStep(t: PyTree, i: nat, d: real, p: Point, before: real, c: real)
    requires t.PyBranch? && i < |t.children|
    requires before == NearestEdge(d, p, PyChildEdges(t, i))
    requires Min(before, c) == NearestEdge(before, p, PyEdges(t.children[i]))
    ensures Min(before, c) == NearestEdge(d, p, PyChildEdges(t, i + 1))
  {
    EdgeDistancesAppend(p, PyChildEdges(t, i), PyEdges(t.children[i]));
    MinFromAppend(d, EdgeDistances(p, PyChildEdges(t, i)), EdgeDistances(p, PyEdges(t.children[i])));
  }

  /** Both kinds of child agree with the fold: an edge returns its own
      distance, a node the fold from the bound it is given. */
  lemma PyChildValue(child: PyTree, before: real, p: Point, c: real)
    requires child.PyEdge? ==> c == EdgeDistance(p, child.edge)
    requires child.PyBranch? ==> c == NearestEdge(before, p, PyEdges(child))
    ensures Min(before, c) == NearestEdge(before, p, PyEdges(child))
  {
    NearestEdgeIsMinimum(before, p, PyEdges(child));
    if child.PyEdge? {
      MinFromSnoc(before, [], EdgeDistance(p, child.edge));
      assert EdgeDistances(p, [child.edge]) == [] + [EdgeDistance(p, child.edge)];
    }
  }

  /** `get_distance` on an `Edge` (the squared distance, the bound ignored)
      and on a `Node` (the bound when `skip_box` discards it, otherwise the
      running minimum over the children): below a sound node it returns the
      brute-force fold over every edge below it. */
  method PyGetDistance(t: PyTree, distance: real, p: Point) returns (r: real)
    requires PySound(t)
    ensures t.PyEdge? ==> r == EdgeDistance(p, t.edge)
    ensures t.PyBranch? ==> r == NearestEdge(distance, p, PyEdges(t))
    decreases t
  {
    if t.PyEdge? {
      return DSegment(p.x, p.y, t.edge.p1.x, t.edge.p1.y, t.edge.p2.x, t.edge.p2.y);
    }
    if PySkipBox(distance, p.x, p.y, t.bounds) {
      PySkippedNodeKeepsDistance(t, distance, p);
      return distance;
    }
    var d := distance;
    for i := 0 to |t.children|
      invariant d == NearestEdge(distance, p, PyChildEdges(t, i))
    {
      var c := PyGetDistance(t.children[i], d, p);
      PyChildValue(t.children[i], d, p, c);
      PyChildStep(t, i, distance, p, d, c);
      d := Min(d, c);
    }
    return d;
  }

  // ----- the brute force -----

  /** The innermost loop of `vdsegment`: the running minimum carried on
      over the edges of one polygon. */
  method PolygonDistance(p: Point, d0: real, polygon: seq<Edge>) returns (d: real)
    ensures d == NearestEdge(d0, p, polygon)
  {
    d := d0;
    for j := 0 to |polygon|
      invariant d == NearestEdge(d0, p, polygon[..j])
    {
      LeafEdgeStep(polygon, j, d0, p);
      d := Min(d, DSegment(p.x, p.y, polygon[j].p1.x, polygon[j].p1.y, polygon[j].p2.x, polygon[j].p2.y));
    }
    assert polygon[..|polygon|] == polygon;
  }

  /** The loops of `vdsegment` for one point: the running minimum, from
      `sys.float_info.max`, over every edge of every polygon. */
  method NaiveDistance(p: Point, polygons: seq<seq<Edge>>) returns (d: real)
    ensures d == NearestEdge(Batch.LargeNumber, p, Flatten(polygons))
  {
    d := Batch.LargeNumber;
    for k := 0 to |polygons|
      invariant d == NearestEdge(Batch.LargeNumber, p, Flatten(polygons[..k]))
    {
      var before := d;
      d := PolygonDistance(p, d, polygons[k]);
      NaiveStep(p, polygons, k, before, d);
    }
    assert polygons[..|polygons|] == polygons;
  }

  /** One polygon folded in after the ones before it. */
  lemma NaiveStep(p: Point, polygons: seq<seq<Edge>>, k: nat, before: real, after: real)
    requires k < |polygons|
    requires before == NearestEdge(Batch.LargeNumber, p, Flatten(polygons[..k]))
    requires after == NearestEdge(before, p, polygons[k])
    ensures after == NearestEdge(Batch.LargeNumber, p, Flatten(polygons[..k + 1]))
  {
    var pre := Flatten(polygons[..k]);
    assert polygons[..k + 1] == polygons[..k] + [polygons[k]];
    FlattenSnoc(polygons[..k], polygons[k]);
    EdgeDistancesAppend(p, pre, polygons[k]);
    MinFromAppend(Batch.LargeNumber, EdgeDistances(p, pre), EdgeDistances(p, polygons[k]));
  }

  /** `vdsegment`: the squared distance from each point to the nearest edge
      of any polygon, in point order. */
  method VDSegmentPy(points: seq<Point>, polygons: seq<seq<Edge>>) returns (distancesSquared: seq<real>)
    ensures |distancesSquared| == |points|
    ensures forall i :: 0 <= i < |points| ==>
              distancesSquared[i] == NearestEdge(Batch.LargeNumber, points[i], Flatten(polygons))
  {
    distancesSquared := [];
    for i := 0 to |points|
      invariant |distancesSquared| == i
      invariant forall j :: 0 <= j < i ==>
                  distancesSquared[j] == NearestEdge(Batch.LargeNumber, points[j], Flatten(polygons))
    {
      var d := NaiveDistance(points[i], polygons);
      distancesSquared := distancesSquared + [d];
    }
  }

  /** The check the script makes: when the root's edges are the polygons'
      edges (in any order), the tree search from `sys.float_info.max`
      returns what `vdsegment` returns. */
  lemma TreeSearchIsNaive(root: PyTree, polygons: seq<seq<Edge>>, p: Point)
    requires root.PyBranch?
    requires forall e :: e in PyEdges(root) <==> e in Flatten(polygons)
    ensures NearestEdge(Batch.LargeNumber, p, PyEdges(root)) == NearestEdge(Batch.LargeNumber, p, Flatten(polygons))
  {
    NearestEdgeSameEdges(Batch.LargeNumber, p, PyEdges(root), Flatten(polygons));
  }
}
