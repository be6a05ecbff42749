/**
 * The nodes of the spatial index.
 *
 * A built node is a value: its box, the least vertex height `hmin` below it
 * (read only by the nearest-vertex query of the current Rust variant), and
 * either child nodes or edges. The queries descend into the children when
 * there are any and look at the edges otherwise, so `Edges` and `Vertices`
 * below are the sequences a query sees, in traversal order.
 *
 * A node under construction is the class `ParentNode`, whose methods are
 * the `&mut self` / member-function updates of the source: `adjust_bounds`,
 * `insert_node`, `insert_edge` (Rust) and `add_child_node`,
 * `add_child_edge` (C++). The finished node is copied out with `Value()`,
 * as the source clones or copies it into its parent vector.
 */
module Nodes {
  import opened Geometry
  import opened Boxes

  datatype Node = Node(box: Box, hmin: real, children: seq<Node>, edges: seq<Edge>)

  /** The edges a query visits below `n`, in visiting order: the children's
      edges when `n` has children (its own edge list is then never read),
      its own edges otherwise. */
  function Edges(n: Node): seq<Edge>
    decreases n, 1
  {
    if |n.children| > 0 then ChildEdges(n, |n.children|) else n.edges
  }

  /** The edges below the first k children of `n`. */
  function ChildEdges(n: Node, k: nat): seq<Edge>
    requires k <= |n.children|
    decreases n, 0, k
  {
    if k == 0 then [] else ChildEdges(n, k - 1) + Edges(n.children[k - 1])
  }

  /** The first endpoints of a run of edges. */
  function FirstPoints(es: seq<Edge>): (r: seq<Point>)
    ensures |r| == |es| && forall i :: 0 <= i < |es| ==> r[i] == es[i].p1
  {
    if |es| == 0 then [] else FirstPoints(es[..|es| - 1]) + [es[|es| - 1].p1]
  }

  /** The vertices a leaf examines: `p1` of every edge and then `p2` of the
      last one. */
  function LeafVertices(es: seq<Edge>): (r: seq<Point>)
    ensures |es| == 0 ==> r == []
    ensures |es| > 0 ==> r == FirstPoints(es) + [es[|es| - 1].p2]
  {
    if |es| == 0 then [] else FirstPoints(es) + [es[|es| - 1].p2]
  }

  /** The vertices the nearest-vertex queries visit below `n`, in order. */
  function Vertices(n: Node): seq<Point>
    decreases n, 1
  {
    if |n.children| > 0 then ChildVertices(n, |n.children|) else LeafVertices(n.edges)
  }

  function ChildVertices(n: Node, k: nat): seq<Point>
    requires k <= |n.children|
    decreases n, 0, k
  {
    if k == 0 then [] else ChildVertices(n, k - 1) + Vertices(n.children[k - 1])
  }

  /** The box invariant the construction establishes: a leaf's box holds
      both endpoints of each of its edges, a parent's box holds each child's
      box, and every child satisfies the invariant. */
  predicate Sound(n: Node)
    decreases n
  {
    if |n.children| > 0 then
      forall i :: 0 <= i < |n.children| ==> Sound(n.children[i]) && SubBox(n.children[i].box, n.box)
    else
      forall i :: 0 <= i < |n.edges| ==> EdgeInBox(n.edges[i], n.box)
  }

  /** The height invariant of the current Rust variant: `hmin` is at most
      the `coeff` of every endpoint of a leaf's edges and at most the `hmin`
      of every child that has a box (a child still holding the sentinel box
      holds no vertex). */
  predicate HeightSound(n: Node)
    decreases n
  {
    if |n.children| > 0 then
      forall i :: 0 <= i < |n.children| ==>
        HeightSound(n.children[i]) && (n.children[i].box.Rect? ==> n.hmin <= n.children[i].hmin)
    else
      forall i :: 0 <= i < |n.edges| ==> n.hmin <= n.edges[i].p1.coeff && n.hmin <= n.edges[i].p2.coeff
  }

  /** Every node below holds children or edges: the C++ `node::get_distance`
      has no return value for a node with neither. */
  predicate Populated(n: Node)
    decreases n
  {
    (|n.children| > 0 || |n.edges| > 0) &&
    forall i :: 0 <= i < |n.children| ==> Populated(n.children[i])
  }

  /** Every edge a query can reach below a sound node lies in its box. */
  lemma {:induction false} SoundEdgesInBox(n: Node)
    requires Sound(n)
    ensures forall e :: e in Edges(n) ==> EdgeInBox(e, n.box)
    decreases n, 1
  {
    if |n.children| > 0 {
      SoundChildEdgesInBox(n, |n.children|);
    } else {
      forall e | e in n.edges
        ensures EdgeInBox(e, n.box)
      {
        var i :| 0 <= i < |n.edges| && n.edges[i] == e;
      }
    }
  }

  lemma {:induction false} SoundChildEdgesInBox(n: Node, k: nat)
    requires Sound(n) && 0 < |n.children| && k <= |n.children|
    ensures forall e :: e in ChildEdges(n, k) ==> EdgeInBox(e, n.box)
    decreases n, 0, k
  {
    if k > 0 {
      var c := n.children[k - 1];
      SoundChildEdgesInBox(n, k - 1);
      SoundEdgesInBox(c);
      forall e | e in Edges(c)
        ensures EdgeInBox(e, n.box)
      {
        SubBoxContains(c.box, n.box, e.p1.x, e.p1.y);
        SubBoxContains(c.box, n.box, e.p2.x, e.p2.y);
      }
    }
  }

  /** Every vertex a query can reach below a sound node lies in its box,
      and under the height invariant its `coeff` is at least `hmin`. */
  lemma {:induction false} SoundVerticesInBox(n: Node)
    requires Sound(n)
    ensures forall v :: v in Vertices(n) ==> Contains(n.box, v.x, v.y)
    ensures HeightSound(n) ==> forall v :: v in Vertices(n) ==> n.hmin <= v.coeff
    decreases n, 1
  {
    if |n.children| > 0 {
      SoundChildVerticesInBox(n, |n.children|);
    } else {
      forall v | v in LeafVertices(n.edges)
        ensures Contains(n.box, v.x, v.y)
        ensures HeightSound(n) ==> n.hmin <= v.coeff
      {
        var es := n.edges;
        var i :| 0 <= i < |LeafVertices(es)| && LeafVertices(es)[i] == v;
        if i < |es| {
          assert v == es[i].p1;
        } else {
          assert v == es[|es| - 1].p2;
        }
      }
    }
  }

  lemma {:induction false} SoundChildVerticesInBox(n: Node, k: nat)
    requires Sound(n) && 0 < |n.children| && k <= |n.children|
    ensures forall v :: v in ChildVertices(n, k) ==> Contains(n.box, v.x, v.y)
    ensures HeightSound(n) ==> forall v :: v in ChildVertices(n, k) ==> n.hmin <= v.coeff
    decreases n, 0, k
  {
    if k > 0 {
      var c := n.children[k - 1];
      SoundChildVerticesInBox(n, k - 1);
      SoundVerticesInBox(c);
      forall v | v in Vertices(c)
        ensures Contains(n.box, v.x, v.y)
      {
        SubBoxContains(c.box, n.box, v.x, v.y);
      }
    }
  }

  /** The `hmin` update of `adjust_bounds`: the minimum of the old value and
      the argument; the sentinel (any box still `Empty`) gives way to the
      argument; an `Empty` argument box stands for a sentinel argument and
      changes nothing. */
  function LowerHeight(box: Box, hmin: real, b: Box, h: real): (r: real)
    ensures b.Rect? && box.Rect? ==> r <= hmin && r <= h && (r == hmin || r == h)
    ensures b.Rect? && box.Empty? ==> r == h
    ensures b.Empty? ==> r == hmin
  {
    if b.Empty? then hmin else if box.Empty? then h else Min(hmin, h)
  }

  /** A node being filled: the fields of the Rust `Node` / C++ `node`. */
  class ParentNode {
    var box: Box
    var hmin: real
    var children: seq<Node>
    var edges: seq<Edge>

    /** The fresh node: the sentinel box, no children, no edges. `hmin` is
        the sentinel as long as the box is; it is 0 here. */
    constructor ()
      ensures box == Empty && hmin == 0.0 && children == [] && edges == []
    {
      box := Empty;
      hmin := 0.0;
      children := [];
      edges := [];
    }

    /** The node as a value. */
    function Value(): (n: Node)
      reads this
      ensures n.box == box && n.hmin == hmin && n.children == children && n.edges == edges
    {
      Node(box, hmin, children, edges)
    }

    /** `adjust_bounds` of the current Rust variant: box and `hmin` both
        widen to include the argument; nothing else changes. */
    method AdjustBounds(b: Box, h: real)
      modifies this
      ensures box == Union(old(box), b)
      ensures hmin == LowerHeight(old(box), old(hmin), b, h)
      ensures children == old(children) && edges == old(edges)
    {
      hmin := LowerHeight(box, hmin, b, h);
      box := Union(box, b);
    }

    /** `adjust_bounds` of the older Rust variant, which has no `hmin`. */
    method AdjustBox(b: Box)
      modifies this
      ensures box == Union(old(box), b)
      ensures hmin == old(hmin) && children == old(children) && edges == old(edges)
    {
      box := Union(box, b);
    }

    /** `insert_node`: one child appended at the end; bounds unchanged. */
    method InsertNode(n: Node)
      modifies this
      ensures children == old(children) + [n]
      ensures box == old(box) && hmin == old(hmin) && edges == old(edges)
    {
      children := children + [n];
    }

    /** `insert_edge`: one edge appended at the end; bounds unchanged. */
    method InsertEdge(e: Edge)
      modifies this
      ensures edges == old(edges) + [e]
      ensures box == old(box) && hmin == old(hmin) && children == old(children)
    {
      edges := edges + [e];
    }

    /** `node::add_child_node`: the child appended, the box widened to the
        union with the child's box. */
    method AddChildNode(child: Node)
      modifies this
      ensures children == old(children) + [child]
      ensures box == Union(old(box), child.box)
      ensures hmin == old(hmin) && edges == old(edges)
    {
      children := children + [child];
      box := Union(box, child.box);
    }

    /** `node::add_child_edge`: the edge appended, the box widened by its
        first and then its second endpoint. */
    method AddChildEdge(e: Edge)
      modifies this
      ensures edges == old(edges) + [e]
      ensures box == Union(Union(old(box), PointBox(e.p1.x, e.p1.y)), PointBox(e.p2.x, e.p2.y))
      ensures hmin == old(hmin) && children == old(children)
    {
      edges := edges + [e];
      box := Union(box, PointBox(e.p1.x, e.p1.y));
      box := Union(box, PointBox(e.p2.x, e.p2.y));
    }
  }

  /** The first `add_child_*` call on a fresh node yields exactly the
      child's box, and every later call only grows the box. */
  lemma AddChildBox(b: Box, c: Box)
    ensures Union(Empty, c) == c
    ensures SubBox(b, Union(b, c)) && SubBox(c, Union(b, c))
  {
    UnionIsLeastUpperBound(b, c, Empty);
  }
}
