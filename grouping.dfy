/**
 * Building the index bottom-up.
 *
 * A polygon's points become consecutive edges (`points_to_edges`,
 * `create_polygon`); runs of at most k edges become leaves (`group_edges`);
 * runs of at most k nodes become parents (`group_nodes`, C++ `build_nodes`);
 * and the packing of nodes repeats until at most one root is left
 * (`build_tree`).
 *
 * Every builder is a loop over the input with a running index `i`, filling
 * a fresh `ParentNode` with at most k items per outer iteration. Each is
 * proved against `Chunks`, the runs of k consecutive items, and the lemmas
 * here state what the source promises about those runs: their number is
 * the source's ceil-division, each holds 1..k items, their concatenation
 * gives back the input in order, and the boxes and heights they get satisfy
 * the invariants the queries rely on.
 */
module Grouping {
  import opened Geometry
  import opened Boxes
  import opened Nodes

  /** Consecutive runs of k items; only the last one may be shorter. */
  function Chunks<T>(s: seq<T>, k: nat): seq<seq<T>>
    requires k >= 1
    decreases |s|
  {
    if |s| == 0 then [] else if |s| <= k then [s] else [s[..k]] + Chunks(s[k..], k)
  }

  /** The number of parents the source computes: n / k, plus one when the
      division leaves a remainder. */
  function NumParents(n: nat, k: nat): nat
    requires k >= 1
  {
    if n % k == 0 then n / k else n / k + 1
  }

  function Flatten<T>(ss: seq<seq<T>>): seq<T>
  {
    if |ss| == 0 then [] else ss[0] + Flatten(ss[1..])
  }

  /** Flattening one more run appends it. */
  lemma {:induction false} FlattenSnoc<T>(ss: seq<seq<T>>, s: seq<T>)
    ensures Flatten(ss + [s]) == Flatten(ss) + s
    decreases |ss|
  {
    if |ss| == 0 {
      assert Flatten([s]) == s + Flatten([]);
    } else {
      assert (ss + [s])[1..] == ss[1..] + [s];
      FlattenSnoc(ss[1..], s);
    }
  }

  lemma NumParentsStep(n: nat, k: nat)
    requires k >= 1 && n > k
    ensures NumParents(n, k) == NumParents(n - k, k) + 1
  {
    var q, r := (n - k) / k, (n - k) % k;
    assert n - k == q * k + r;
    assert n == (q + 1) * k + r;
    DivModUnique(n, k, q + 1, r);
  }

  lemma DivModUnique(n: nat, k: nat, q: nat, r: nat)
    requires k >= 1 && r < k && n == q * k + r
    ensures n / k == q && n % k == r
  {
    var q', r' := n / k, n % k;
    assert (q' - q) * k == r - r';
    MultipleBetween(q' - q, k);
  }

  /** The only multiple of k strictly between -k and k is 0. */
  lemma MultipleBetween(x: int, k: int)
    ensures k >= 1 && -k < x * k < k ==> x == 0
  {
    if x >= 1 {
      assert x * k == (x - 1) * k + k;
      MulNonnegInt(x - 1, k);
    } else if x <= -1 {
      assert x * k == -((-x - 1) * k) - k;
      MulNonnegInt(-x - 1, k);
    }
  }

  lemma MulNonnegInt(a: int, b: int)
    ensures a >= 0 && b >= 0 ==> a * b >= 0
  {
  }

  /** The runs `group_*` cuts: there are as many as the source's parent
      count, each holds between 1 and k items, and together they are the
      input in order. */
  lemma {:induction false} ChunksProperties<T>(s: seq<T>, k: nat)
    requires k >= 1
    ensures |Chunks(s, k)| == NumParents(|s|, k)
    ensures forall j :: 0 <= j < |Chunks(s, k)| ==> 1 <= |Chunks(s, k)[j]| <= k
    ensures Flatten(Chunks(s, k)) == s
    decreases |s|
  {
    if |s| == 0 {
    } else if |s| <= k {
      if |s| < k {
        DivModUnique(|s|, k, 0, |s|);
      } else {
        DivModUnique(|s|, k, 1, 0);
      }
      assert Flatten(Chunks(s, k)) == s + Flatten([]);
    } else {
      ChunksProperties(s[k..], k);
      NumParentsStep(|s|, k);
      var cs := Chunks(s, k);
      assert cs == [s[..k]] + Chunks(s[k..], k);
      assert cs[1..] == Chunks(s[k..], k);
      assert Flatten(cs) == s[..k] + s[k..];
    }
  }

  /** A non-empty input starts with the run of its first min(k, |s|) items. */
  lemma ChunksHead<T>(s: seq<T>, k: nat)
    requires k >= 1 && |s| > 0
    ensures |s| <= k ==> Chunks(s, k) == [s]
    ensures |s| > k ==> Chunks(s, k) == [s[..k]] + Chunks(s[k..], k)
  {
  }

  /** Fewer runs than items once k >= 2: the tree shrinks at every level. */
  lemma {:induction false} ChunksShrink<T>(s: seq<T>, k: nat)
    requires k >= 2 && |s| > 1
    ensures |Chunks(s, k)| < |s|
    decreases |s|
  {
    if |s| > k {
      var rest := s[k..];
      assert Chunks(s, k) == [s[..k]] + Chunks(rest, k);
      if |rest| > 1 {
        ChunksShrink(rest, k);
      } else {
        assert Chunks(rest, k) == [rest];
      }
    }
  }

  // ----- the edges of a polygon -----

  /** Each edge starts where the previous one ends. */
  predicate Chained(es: seq<Edge>)
  {
    forall i, j :: 0 <= i < |es| && j == i + 1 < |es| ==> es[i].p2 == es[j].p1
  }

  /** The edges joining consecutive points, without a closing edge. */
  function ConsecutiveEdges(points: seq<Point>): (es: seq<Edge>)
    requires |points| >= 1
    ensures |es| == |points| - 1
    ensures forall i :: 0 <= i < |es| ==> es[i] == Edge(points[i], points[i + 1])
  {
    seq(|points| - 1, i requires 0 <= i < |points| - 1 => Edge(points[i], points[i + 1]))
  }

  /** Consecutive edges share an endpoint, and the points a leaf over them
      examines (every first endpoint, then the last second endpoint) are the
      polygon's points, each exactly once, in order. */
  lemma ConsecutiveEdgesCoverPoints(points: seq<Point>)
    requires |points| >= 2
    ensures Chained(ConsecutiveEdges(points))
    ensures LeafVertices(ConsecutiveEdges(points)) == points
  {
    var es := ConsecutiveEdges(points);
    assert LeafVertices(es) == FirstPoints(es) + [points[|points| - 1]];
    assert FirstPoints(es) == points[..|points| - 1];
  }

  /** `points_to_edges`: one edge per pair of neighbouring points. The
      source slices `points[1..]`, which panics on an empty polygon. */
  method PointsToEdges(points: seq<Point>) returns (edges: seq<Edge>)
    requires |points| >= 1
    ensures edges == ConsecutiveEdges(points)
  {
    edges := [];
    for i := 0 to |points| - 1
      invariant edges == ConsecutiveEdges(points)[..i]
    {
      edges := edges + [Edge(points[i], points[i + 1])];
    }
  }

  /** `create_polygon` of the older Rust variant: the points offset by
      (x_offset, y_offset) and numbered from `start_index`, joined by
      consecutive edges; `num_points - 1` underflows when `num_points` is 0. */
  method CreatePolygon(numPoints: nat, xs: seq<real>, xOffset: real, ys: seq<real>, yOffset: real, startIndex: nat)
    returns (edges: seq<Edge>)
    requires 1 <= numPoints <= |xs| && numPoints <= |ys|
    ensures |edges| == numPoints - 1
    ensures forall i :: 0 <= i < |edges| ==>
              edges[i] == Edge(Point(xs[i] + xOffset, ys[i] + yOffset, 0.0, startIndex + i),
                               Point(xs[i + 1] + xOffset, ys[i + 1] + yOffset, 0.0, startIndex + i + 1))
  {
    edges := [];
    for i := 0 to numPoints - 1
      invariant |edges| == i
      invariant forall j :: 0 <= j < i ==>
                  edges[j] == Edge(Point(xs[j] + xOffset, ys[j] + yOffset, 0.0, startIndex + j),
                                   Point(xs[j + 1] + xOffset, ys[j + 1] + yOffset, 0.0, startIndex + j + 1))
    {
      var p1 := Point(xs[i] + xOffset, ys[i] + yOffset, 0.0, startIndex + i);
      var p2 := Point(xs[i + 1] + xOffset, ys[i + 1] + yOffset, 0.0, startIndex + i + 1);
      edges := edges + [Edge(p1, p2)];
    }
  }

  /** Neighbouring edges of `create_polygon` share an endpoint: the second
      point of edge i is the first point of edge i + 1. */
  lemma CreatePolygonChained(edges: seq<Edge>, xs: seq<real>, xOffset: real, ys: seq<real>, yOffset: real, startIndex: nat)
    requires |edges| + 1 <= |xs| && |edges| + 1 <= |ys|
    requires forall i :: 0 <= i < |edges| ==>
               edges[i] == Edge(Point(xs[i] + xOffset, ys[i] + yOffset, 0.0, startIndex + i),
                                Point(xs[i + 1] + xOffset, ys[i + 1] + yOffset, 0.0, startIndex + i + 1))
    ensures Chained(edges)
  {
    forall i, j | 0 <= i < |edges| && j == i + 1 < |edges|
      ensures edges[i].p2 == edges[j].p1
    {
      assert edges[j] == Edge(Point(xs[j] + xOffset, ys[j] + yOffset, 0.0, startIndex + j),
                              Point(xs[j + 1] + xOffset, ys[j + 1] + yOffset, 0.0, startIndex + j + 1));
    }
  }

  // ----- leaves -----

  /** The box a leaf gets from `adjust_bounds` / `add_child_edge` on the
      first and then the second endpoint of each edge in turn. */
  function LeafBox(es: seq<Edge>): Box
  {
    if |es| == 0 then Empty
    else
      var e := es[|es| - 1];
      Union(Union(LeafBox(es[..|es| - 1]), PointBox(e.p1.x, e.p1.y)), PointBox(e.p2.x, e.p2.y))
  }

  /** The `hmin` a leaf gets from the same calls of `adjust_bounds`. */
  function LeafHmin(es: seq<Edge>): real
  {
    if |es| == 0 then 0.0
    else
      var pre, e := es[..|es| - 1], es[|es| - 1];
      var b1, h1 := PointBox(e.p1.x, e.p1.y), e.p1.coeff;
      var h := LowerHeight(LeafBox(pre), LeafHmin(pre), b1, h1);
      LowerHeight(Union(LeafBox(pre), b1), h, PointBox(e.p2.x, e.p2.y), e.p2.coeff)
  }

  /** The leaf holding a run of edges. `heights` tells whether the variant
      keeps `hmin` (current Rust) or not (older Rust, C++: it stays 0). */
  function Leaf(es: seq<Edge>, heights: bool): Node
  {
    Node(LeafBox(es), if heights then LeafHmin(es) else 0.0, [], es)
  }

  /** The leaf box holds both endpoints of every edge, is the least box that
      does, and is the sentinel exactly when there are no edges. */
  lemma {:induction false} LeafBounds(es: seq<Edge>)
    ensures forall i :: 0 <= i < |es| ==> EdgeInBox(es[i], LeafBox(es))
    ensures LeafBox(es).Empty? <==> |es| == 0
    ensures WellFormed(LeafBox(es))
    ensures forall c: Box :: (forall i :: 0 <= i < |es| ==> EdgeInBox(es[i], c)) ==> SubBox(LeafBox(es), c)
  {
    if |es| > 0 {
      var pre, e := es[..|es| - 1], es[|es| - 1];
      LeafBounds(pre);
      var b0 := LeafBox(pre);
      var b1 := PointBox(e.p1.x, e.p1.y);
      var b2 := PointBox(e.p2.x, e.p2.y);
      UnionIsLeastUpperBound(b0, b1, Empty);
      UnionIsLeastUpperBound(Union(b0, b1), b2, Empty);
      UnionEmpty(b0, b1);
      UnionEmpty(Union(b0, b1), b2);
      forall i | 0 <= i < |es|
        ensures EdgeInBox(es[i], LeafBox(es))
      {
        if i < |es| - 1 {
          assert es[i] == pre[i];
          SubBoxTransitive(b0, Union(b0, b1), LeafBox(es));
          SubBoxContains(b0, LeafBox(es), es[i].p1.x, es[i].p1.y);
          SubBoxContains(b0, LeafBox(es), es[i].p2.x, es[i].p2.y);
        } else {
          SubBoxTransitive(b1, Union(b0, b1), LeafBox(es));
          SubBoxContains(b1, LeafBox(es), e.p1.x, e.p1.y);
          SubBoxContains(b2, LeafBox(es), e.p2.x, e.p2.y);
        }
      }
      forall c: Box | forall i :: 0 <= i < |es| ==> EdgeInBox(es[i], c)
        ensures SubBox(LeafBox(es), c)
      {
        assert forall i :: 0 <= i < |pre| ==> EdgeInBox(pre[i], c) by {
          forall i | 0 <= i < |pre| ensures EdgeInBox(pre[i], c) {
            assert pre[i] == es[i];
          }
        }
        assert EdgeInBox(es[|es| - 1], c);
        UnionIsLeastUpperBound(b0, b1, c);
        UnionIsLeastUpperBound(Union(b0, b1), b2, c);
      }
    }
  }

  /** `hmin` of a leaf is the least endpoint `coeff` of its edges. */
  lemma {:induction false} LeafHminBounds(es: seq<Edge>)
    ensures forall i :: 0 <= i < |es| ==> LeafHmin(es) <= es[i].p1.coeff && LeafHmin(es) <= es[i].p2.coeff
    ensures |es| > 0 ==> exists i :: 0 <= i < |es| && (LeafHmin(es) == es[i].p1.coeff || LeafHmin(es) == es[i].p2.coeff)
  {
    if |es| > 0 {
      var pre, e := es[..|es| - 1], es[|es| - 1];
      LeafHminBounds(pre);
      LeafBounds(pre);
      UnionEmpty(LeafBox(pre), PointBox(e.p1.x, e.p1.y));
      forall i | 0 <= i < |es|
        ensures LeafHmin(es) <= es[i].p1.coeff && LeafHmin(es) <= es[i].p2.coeff
      {
        if i < |es| - 1 {
          assert es[i] == pre[i];
        }
      }
      if |pre| == 0 {
        assert LeafHmin(es) == e.p1.coeff || LeafHmin(es) == e.p2.coeff;
      } else {
        var j :| 0 <= j < |pre| && (LeafHmin(pre) == pre[j].p1.coeff || LeafHmin(pre) == pre[j].p2.coeff);
        assert pre[j] == es[j];
      }
    }
  }

  /** A leaf is sound, and in the current Rust variant also height-sound;
      the queries reach exactly its edges. */
  lemma LeafIsSound(es: seq<Edge>, heights: bool)
    ensures Sound(Leaf(es, heights)) && Edges(Leaf(es, heights)) == es
    ensures heights ==> HeightSound(Leaf(es, heights))
  {
    LeafBounds(es);
    LeafHminBounds(es);
  }

  // ----- parents -----

  /** The box a parent gets from one `adjust_bounds` / `add_child_node` per
      child. */
  function ParentBox(ns: seq<Node>): Box
  {
    if |ns| == 0 then Empty else Union(ParentBox(ns[..|ns| - 1]), ns[|ns| - 1].box)
  }

  /** The `hmin` a parent gets from the same calls. */
  function ParentHmin(ns: seq<Node>): real
  {
    if |ns| == 0 then 0.0
    else
      var pre := ns[..|ns| - 1];
      LowerHeight(ParentBox(pre), ParentHmin(pre), ns[|ns| - 1].box, ns[|ns| - 1].hmin)
  }

  function Parent(ns: seq<Node>, heights: bool): Node
  {
    Node(ParentBox(ns), if heights then ParentHmin(ns) else 0.0, ns, [])
  }

  /** The parent box holds every child's box and is the least box that
      does; `hmin` is the least `hmin` of the children with a box. */
  lemma {:induction false} ParentBounds(ns: seq<Node>)
    ensures forall i :: 0 <= i < |ns| ==> SubBox(ns[i].box, ParentBox(ns))
    ensures forall c: Box :: (forall i :: 0 <= i < |ns| ==> SubBox(ns[i].box, c)) ==> SubBox(ParentBox(ns), c)
    ensures (forall i :: 0 <= i < |ns| ==> WellFormed(ns[i].box)) ==> WellFormed(ParentBox(ns))
    ensures forall i :: 0 <= i < |ns| && ns[i].box.Rect? ==> ParentHmin(ns) <= ns[i].hmin
    ensures (exists i :: 0 <= i < |ns| && ns[i].box.Rect?) ==>
              exists i :: 0 <= i < |ns| && ns[i].box.Rect? && ParentHmin(ns) == ns[i].hmin
    ensures ParentBox(ns).Empty? <==> forall i :: 0 <= i < |ns| ==> ns[i].box.Empty?
  {
    if |ns| > 0 {
      var pre, last := ns[..|ns| - 1], ns[|ns| - 1];
      ParentBounds(pre);
      UnionIsLeastUpperBound(ParentBox(pre), last.box, Empty);
      UnionEmpty(ParentBox(pre), last.box);
      forall i | 0 <= i < |ns|
        ensures SubBox(ns[i].box, ParentBox(ns))
        ensures ns[i].box.Rect? ==> ParentHmin(ns) <= ns[i].hmin
      {
        if i < |ns| - 1 {
          assert ns[i] == pre[i];
          SubBoxTransitive(ns[i].box, ParentBox(pre), ParentBox(ns));
          if ns[i].box.Rect? {
            assert ParentBox(pre).Rect?;
          }
        }
      }
      forall c: Box | forall i :: 0 <= i < |ns| ==> SubBox(ns[i].box, c)
        ensures SubBox(ParentBox(ns), c)
      {
        assert forall i :: 0 <= i < |pre| ==> SubBox(pre[i].box, c) by {
          forall i | 0 <= i < |pre| ensures SubBox(pre[i].box, c) {
            assert pre[i] == ns[i];
          }
        }
        UnionIsLeastUpperBound(ParentBox(pre), last.box, c);
      }
      if forall i :: 0 <= i < |ns| ==> WellFormed(ns[i].box) {
        assert forall i :: 0 <= i < |pre| ==> WellFormed(pre[i].box) by {
          forall i | 0 <= i < |pre| ensures WellFormed(pre[i].box) {
            assert pre[i] == ns[i];
          }
        }
      }
      if forall i :: 0 <= i < |ns| ==> ns[i].box.Empty? {
        assert forall i :: 0 <= i < |pre| ==> pre[i].box.Empty? by {
          forall i | 0 <= i < |pre| ensures pre[i].box.Empty? {
            assert pre[i] == ns[i];
          }
        }
      }
      ParentHminAttained(ns);
    }
  }

  /** The step of `ParentBounds` that finds the child whose `hmin` the
      parent took. */
  lemma ParentHminAttained(ns: seq<Node>)
    requires |ns| > 0
    requires var pre := ns[..|ns| - 1];
             (ParentBox(pre).Empty? <==> forall i :: 0 <= i < |pre| ==> pre[i].box.Empty?) &&
             ((exists i :: 0 <= i < |pre| && pre[i].box.Rect?) ==>
                exists i :: 0 <= i < |pre| && pre[i].box.Rect? && ParentHmin(pre) == pre[i].hmin)
    ensures (exists i :: 0 <= i < |ns| && ns[i].box.Rect?) ==>
              exists i :: 0 <= i < |ns| && ns[i].box.Rect? && ParentHmin(ns) == ns[i].hmin
  {
    var pre, last := ns[..|ns| - 1], ns[|ns| - 1];
    if exists i :: 0 <= i < |ns| && ns[i].box.Rect? {
      if last.box.Empty? {
        var i :| 0 <= i < |ns| && ns[i].box.Rect?;
        assert i < |pre| && pre[i] == ns[i];
        var j :| 0 <= j < |pre| && pre[j].box.Rect? && ParentHmin(pre) == pre[j].hmin;
        assert ns[j] == pre[j];
      } else if ParentBox(pre).Empty? {
        assert ParentHmin(ns) == last.hmin;
      } else {
        var j :| 0 <= j < |pre| && pre[j].box.Rect? && ParentHmin(pre) == pre[j].hmin;
        assert ns[j] == pre[j];
        if ParentHmin(ns) != ParentHmin(pre) {
          assert ParentHmin(ns) == last.hmin;
        }
      }
    }
  }

  /** The edges below a sequence of nodes, in order. */
  function AllEdges(ns: seq<Node>): seq<Edge>
  {
    if |ns| == 0 then [] else AllEdges(ns[..|ns| - 1]) + Edges(ns[|ns| - 1])
  }

  /** The vertices below a sequence of nodes, in order. */
  function AllVertices(ns: seq<Node>): seq<Point>
  {
    if |ns| == 0 then [] else AllVertices(ns[..|ns| - 1]) + Vertices(ns[|ns| - 1])
  }

  lemma AllEdgesAppend(a: seq<Node>, b: seq<Node>)
    ensures AllEdges(a + b) == AllEdges(a) + AllEdges(b)
    ensures AllVertices(a + b) == AllVertices(a) + AllVertices(b)
  {
    EdgesOfAppend(a, b);
    VerticesOfAppend(a, b);
  }

  lemma {:induction false} EdgesOfAppend(a: seq<Node>, b: seq<Node>)
    ensures AllEdges(a + b) == AllEdges(a) + AllEdges(b)
    decreases |b|
  {
    if |b| > 0 {
      var b' := b[..|b| - 1];
      assert (a + b)[..|a + b| - 1] == a + b';
      assert (a + b)[|a + b| - 1] == b[|b| - 1];
      EdgesOfAppend(a, b');
    } else {
      assert a + b == a;
    }
  }

  lemma {:induction false} VerticesOfAppend(a: seq<Node>, b: seq<Node>)
    ensures AllVertices(a + b) == AllVertices(a) + AllVertices(b)
    decreases |b|
  {
    if |b| > 0 {
      var b' := b[..|b| - 1];
      assert (a + b)[..|a + b| - 1] == a + b';
      assert (a + b)[|a + b| - 1] == b[|b| - 1];
      VerticesOfAppend(a, b');
    } else {
      assert a + b == a;
    }
  }

  lemma {:induction false} ChildEdgesAreAllEdges(n: Node, k: nat)
    requires k <= |n.children|
    ensures ChildEdges(n, k) == AllEdges(n.children[..k])
    ensures ChildVertices(n, k) == AllVertices(n.children[..k])
  {
    if k > 0 {
      ChildEdgesAreAllEdges(n, k - 1);
      assert n.children[..k][..k - 1] == n.children[..k - 1];
    }
  }

  /** The queries reach through a parent exactly its children's edges and
      vertices, in order. */
  lemma ParentEdges(ns: seq<Node>, heights: bool)
    requires |ns| > 0
    ensures Edges(Parent(ns, heights)) == AllEdges(ns)
    ensures Vertices(Parent(ns, heights)) == AllVertices(ns)
  {
    ChildEdgesAreAllEdges(Parent(ns, heights), |ns|);
    assert ns[..|ns|] == ns;
  }

  /** A parent is sound when its children are, and height-sound when it
      keeps heights and its children are height-sound. */
  lemma ParentIsSound(ns: seq<Node>, heights: bool)
    requires |ns| > 0
    requires forall i :: 0 <= i < |ns| ==> Sound(ns[i])
    ensures Sound(Parent(ns, heights))
    ensures heights && (forall i :: 0 <= i < |ns| ==> HeightSound(ns[i])) ==> HeightSound(Parent(ns, heights))
  {
    ParentBounds(ns);
  }

  /** The leaves over runs of edges, in order. */
  function Leaves(cs: seq<seq<Edge>>, heights: bool): (r: seq<Node>)
    ensures |r| == |cs|
  {
    if |cs| == 0 then [] else [Leaf(cs[0], heights)] + Leaves(cs[1..], heights)
  }

  /** The parents over runs of nodes, in order. */
  function Parents(cs: seq<seq<Node>>, heights: bool): (r: seq<Node>)
    ensures |r| == |cs|
  {
    if |cs| == 0 then [] else [Parent(cs[0], heights)] + Parents(cs[1..], heights)
  }

  lemma {:induction false} LeavesEdges(cs: seq<seq<Edge>>, heights: bool)
    ensures AllEdges(Leaves(cs, heights)) == Flatten(cs)
  {
    if |cs| > 0 {
      var leaf := Leaf(cs[0], heights);
      LeavesEdges(cs[1..], heights);
      AllEdgesAppend([leaf], Leaves(cs[1..], heights));
      SingleNode(leaf);
    }
  }

  lemma {:induction false} LeavesAt(cs: seq<seq<Edge>>, heights: bool)
    ensures forall j :: 0 <= j < |cs| ==> Leaves(cs, heights)[j] == Leaf(cs[j], heights)
  {
    if |cs| > 0 {
      LeavesAt(cs[1..], heights);
      forall j | 0 < j < |cs|
        ensures Leaves(cs, heights)[j] == Leaf(cs[j], heights)
      {
        assert Leaves(cs, heights)[j] == Leaves(cs[1..], heights)[j - 1];
        assert cs[j] == cs[1..][j - 1];
      }
    }
  }

  lemma {:induction false} ParentsEdges(cs: seq<seq<Node>>, heights: bool)
    requires forall j :: 0 <= j < |cs| ==> |cs[j]| > 0
    ensures AllEdges(Parents(cs, heights)) == AllEdges(Flatten(cs))
    ensures AllVertices(Parents(cs, heights)) == AllVertices(Flatten(cs))
  {
    if |cs| > 0 {
      assert forall j :: 0 <= j < |cs[1..]| ==> |cs[1..][j]| > 0 by {
        forall j | 0 <= j < |cs[1..]| ensures |cs[1..][j]| > 0 {
          assert cs[1..][j] == cs[j + 1];
        }
      }
      ParentsEdges(cs[1..], heights);
      ParentEdges(cs[0], heights);
      var p, rest := Parent(cs[0], heights), Parents(cs[1..], heights);
      assert Parents(cs, heights) == [p] + rest;
      assert Flatten(cs) == cs[0] + Flatten(cs[1..]);
      AllEdgesAppend([p], rest);
      AllEdgesAppend(cs[0], Flatten(cs[1..]));
      SingleNode(p);
    }
  }

  lemma SingleNode(p: Node)
    ensures AllEdges([p]) == Edges(p) && AllVertices([p]) == Vertices(p)
  {
    assert [p][..0] == [];
  }

  lemma {:induction false} ParentsAt(cs: seq<seq<Node>>, heights: bool)
    ensures forall j :: 0 <= j < |cs| ==> Parents(cs, heights)[j] == Parent(cs[j], heights)
  {
    if |cs| > 0 {
      ParentsAt(cs[1..], heights);
      forall j | 0 < j < |cs|
        ensures Parents(cs, heights)[j] == Parent(cs[j], heights)
      {
        assert Parents(cs, heights)[j] == Parents(cs[1..], heights)[j - 1];
        assert cs[j] == cs[1..][j - 1];
      }
    }
  }

  /** `group_edges` on its specification: the leaves over the runs of k
      edges. Every edge lies in exactly one leaf, in input order, each leaf
      holds 1..k edges and satisfies the box (and height) invariant, and
      there are ceil(n / k) leaves. */
  lemma GroupedEdges(input: seq<Edge>, k: nat, heights: bool)
    requires k >= 1
    ensures |Leaves(Chunks(input, k), heights)| == NumParents(|input|, k)
    ensures AllEdges(Leaves(Chunks(input, k), heights)) == input
    ensures forall j :: 0 <= j < |Chunks(input, k)| ==>
              var leaf := Leaves(Chunks(input, k), heights)[j];
              1 <= |leaf.edges| <= k && leaf.children == [] && Populated(leaf) && Sound(leaf) && (heights ==> HeightSound(leaf))
  {
    ChunksProperties(input, k);
    LeavesEdges(Chunks(input, k), heights);
    LeavesAt(Chunks(input, k), heights);
    forall j | 0 <= j < |Chunks(input, k)|
      ensures var leaf := Leaves(Chunks(input, k), heights)[j];
              1 <= |leaf.edges| <= k && leaf.children == [] && Populated(leaf) && Sound(leaf) && (heights ==> HeightSound(leaf))
    {
      LeafIsSound(Chunks(input, k)[j], heights);
    }
  }

  /** `group_nodes` on its specification: the parents over the runs of k
      nodes. Each parent holds 1..k children, their concatenation is the
      input in order, the queries reach the same edges and vertices in the
      same order, and soundness carries over from the children. */
  lemma GroupedNodes(input: seq<Node>, k: nat, heights: bool)
    requires k >= 1
    requires forall i :: 0 <= i < |input| ==> Sound(input[i]) && (heights ==> HeightSound(input[i]))
    ensures |Parents(Chunks(input, k), heights)| == NumParents(|input|, k)
    ensures Flatten(Chunks(input, k)) == input
    ensures AllEdges(Parents(Chunks(input, k), heights)) == AllEdges(input)
    ensures AllVertices(Parents(Chunks(input, k), heights)) == AllVertices(input)
    ensures forall j :: 0 <= j < |Chunks(input, k)| ==>
              var parent := Parents(Chunks(input, k), heights)[j];
              1 <= |parent.children| <= k && Sound(parent) && (heights ==> HeightSound(parent))
    ensures (forall i :: 0 <= i < |input| ==> Populated(input[i])) ==>
              forall j :: 0 <= j < |Chunks(input, k)| ==> Populated(Parents(Chunks(input, k), heights)[j])
  {
    var cs := Chunks(input, k);
    ChunksProperties(input, k);
    ChunkMembers(input, k, heights);
    ParentsEdges(cs, heights);
    ParentsAt(cs, heights);
    forall j | 0 <= j < |cs|
      ensures var parent := Parents(cs, heights)[j];
              1 <= |parent.children| <= k && Sound(parent) && (heights ==> HeightSound(parent))
    {
      ParentIsSound(cs[j], heights);
    }
  }

  /** What holds of every input node holds of every member of every run. */
  lemma ChunkMembers(input: seq<Node>, k: nat, heights: bool)
    requires k >= 1
    requires forall i :: 0 <= i < |input| ==> Sound(input[i]) && (heights ==> HeightSound(input[i]))
    ensures forall j, i :: 0 <= j < |Chunks(input, k)| && 0 <= i < |Chunks(input, k)[j]| ==>
              Sound(Chunks(input, k)[j][i]) && (heights ==> HeightSound(Chunks(input, k)[j][i]))
    ensures (forall i :: 0 <= i < |input| ==> Populated(input[i])) ==>
              forall j, i :: 0 <= j < |Chunks(input, k)| && 0 <= i < |Chunks(input, k)[j]| ==> Populated(Chunks(input, k)[j][i])
  {
    var cs := Chunks(input, k);
    ChunksProperties(input, k);
    FlattenMembers(cs);
  }

  lemma {:induction false} FlattenMembers<T>(ss: seq<seq<T>>)
    ensures forall j, i :: 0 <= j < |ss| && 0 <= i < |ss[j]| ==> ss[j][i] in Flatten(ss)
  {
    if |ss| > 0 {
      FlattenMembers(ss[1..]);
      forall j, i | 0 <= j < |ss| && 0 <= i < |ss[j]|
        ensures ss[j][i] in Flatten(ss)
      {
        if j > 0 {
          assert ss[j] == ss[1..][j - 1];
        }
      }
    }
  }

  // ----- the builders -----

  /** One more edge in a leaf: both endpoints widen the box, then `hmin`. */
  lemma LeafSnoc(es: seq<Edge>, e: Edge)
    ensures LeafBox(es + [e]) == Union(Union(LeafBox(es), PointBox(e.p1.x, e.p1.y)), PointBox(e.p2.x, e.p2.y))
    ensures LeafHmin(es + [e]) ==
              LowerHeight(Union(LeafBox(es), PointBox(e.p1.x, e.p1.y)),
                          LowerHeight(LeafBox(es), LeafHmin(es), PointBox(e.p1.x, e.p1.y), e.p1.coeff),
                          PointBox(e.p2.x, e.p2.y), e.p2.coeff)
  {
    assert (es + [e])[..|es|] == es;
  }

  /** One more child in a parent. */
  lemma ParentSnoc(ns: seq<Node>, n: Node)
    ensures ParentBox(ns + [n]) == Union(ParentBox(ns), n.box)
    ensures ParentHmin(ns + [n]) == LowerHeight(ParentBox(ns), ParentHmin(ns), n.box, n.hmin)
  {
    assert (ns + [n])[..|ns|] == ns;
  }

  /** The leaves over a run followed by more runs. */
  lemma LeavesCons(c: seq<Edge>, cs: seq<seq<Edge>>, heights: bool)
    ensures Leaves([c] + cs, heights) == [Leaf(c, heights)] + Leaves(cs, heights)
  {
    assert ([c] + cs)[1..] == cs;
  }

  /** The parents over a run followed by more runs. */
  lemma ParentsCons(c: seq<Node>, cs: seq<seq<Node>>, heights: bool)
    ensures Parents([c] + cs, heights) == [Parent(c, heights)] + Parents(cs, heights)
  {
    assert ([c] + cs)[1..] == cs;
  }

  /** Each outer iteration finds input left over while parents remain to be
      made, and nothing is left once they are all made. */
  lemma RunsLeft<T>(input: seq<T>, i: nat, k: nat)
    requires k >= 1 && i <= |input|
    ensures |Chunks(input[i..], k)| > 0 <==> i < |input|
  {
    if i < |input| {
      ChunksHead(input[i..], k);
    }
  }

  /** `LeafSnoc` for a run of the input grown by its next edge. */
  lemma LeafRunSnoc(input: seq<Edge>, start: nat, i: nat)
    requires start <= i < |input|
    ensures input[start..i + 1] == input[start..i] + [input[i]]
    ensures LeafBox(input[start..i + 1]) ==
              Union(Union(LeafBox(input[start..i]), PointBox(input[i].p1.x, input[i].p1.y)), PointBox(input[i].p2.x, input[i].p2.y))
    ensures LeafHmin(input[start..i + 1]) ==
              LowerHeight(Union(LeafBox(input[start..i]), PointBox(input[i].p1.x, input[i].p1.y)),
                          LowerHeight(LeafBox(input[start..i]), LeafHmin(input[start..i]), PointBox(input[i].p1.x, input[i].p1.y), input[i].p1.coeff),
                          PointBox(input[i].p2.x, input[i].p2.y), input[i].p2.coeff)
  {
    assert input[start..i + 1] == input[start..i] + [input[i]];
    LeafSnoc(input[start..i], input[i]);
  }

  /** The inner loop of `group_edges` (current Rust variant): up to k more
      edges into a fresh node, each widening its box and `hmin`. */
  method FillLeaf(newParent: ParentNode, input: seq<Edge>, start: nat, k: nat) returns (i: nat)
    requires start <= |input|
    requires newParent.box == Empty && newParent.hmin == 0.0
    requires newParent.children == [] && newParent.edges == []
    modifies newParent
    ensures start <= i <= |input| && i - start == if k <= |input| - start then k else |input| - start
    ensures newParent.Value() == Leaf(input[start..i], true)
  {
    i := start;
    for l := 0 to k
      invariant start <= i <= |input|
      invariant i - start == if l <= |input| - start then l else |input| - start
      invariant newParent.box == LeafBox(input[start..i]) && newParent.hmin == LeafHmin(input[start..i])
      invariant newParent.children == [] && newParent.edges == input[start..i]
    {
      if i < |input| {
        var e := input[i];
        LeafRunSnoc(input, start, i);
        newParent.AdjustBounds(PointBox(e.p1.x, e.p1.y), e.p1.coeff);
        newParent.AdjustBounds(PointBox(e.p2.x, e.p2.y), e.p2.coeff);
        newParent.InsertEdge(e);
        i := i + 1;
      }
    }
  }

  /** `group_edges` of the current Rust variant: the leaves, with heights,
      over the runs of `num_edges_children` edges. */
  method GroupEdges(numEdgesChildren: nat, input: seq<Edge>) returns (parents: seq<Node>)
    requires numEdgesChildren >= 1
    ensures parents == Leaves(Chunks(input, numEdgesChildren), true)
  {
    var k := numEdgesChildren;
    var numInput := |input|;
    var n := numInput / k;
    var numParents := if numInput % k == 0 then n else n + 1;
    ChunksProperties(input, k);
    parents := [];
    var i := 0;
    for j := 0 to numParents
      invariant 0 <= i <= |input|
      invariant parents + Leaves(Chunks(input[i..], k), true) == Leaves(Chunks(input, k), true)
      invariant j + |Chunks(input[i..], k)| == numParents
    {
      RunsLeft(input, i, k);
      var newParent := new ParentNode();
      var start := i;
      i := FillLeaf(newParent, input, start, k);
      LeavesStep(input, start, i, k, true, parents);
      parents := parents + [newParent.Value()];
    }
    RunsLeft(input, i, k);
  }

  /** The inner loop of `group_edges` (older Rust variant): the box only. */
  method StuffFillLeaf(newParent: ParentNode, input: seq<Edge>, start: nat, k: nat) returns (i: nat)
    requires start <= |input|
    requires newParent.box == Empty && newParent.hmin == 0.0
    requires newParent.children == [] && newParent.edges == []
    modifies newParent
    ensures start <= i <= |input| && i - start == if k <= |input| - start then k else |input| - start
    ensures newParent.Value() == Leaf(input[start..i], false)
  {
    i := start;
    for l := 0 to k
      invariant start <= i <= |input|
      invariant i - start == if l <= |input| - start then l else |input| - start
      invariant newParent.box == LeafBox(input[start..i]) && newParent.hmin == 0.0
      invariant newParent.children == [] && newParent.edges == input[start..i]
    {
      if i < |input| {
        var e := input[i];
        LeafRunSnoc(input, start, i);
        newParent.AdjustBox(PointBox(e.p1.x, e.p1.y));
        newParent.AdjustBox(PointBox(e.p2.x, e.p2.y));
        newParent.InsertEdge(e);
        i := i + 1;
      }
    }
  }

  /** The inner loop of `group_nodes` (current Rust variant): up to k more
      children, each widening the box and `hmin`. */
  method FillParent(newParent: ParentNode, input: seq<Node>, start: nat, k: nat) returns (i: nat)
    requires start <= |input|
    requires newParent.box == Empty && newParent.hmin == 0.0
    requires newParent.children == [] && newParent.edges == []
    modifies newParent
    ensures start <= i <= |input| && i - start == if k <= |input| - start then k else |input| - start
    ensures newParent.Value() == Parent(input[start..i], true)
  {
    i := start;
    for l := 0 to k
      invariant start <= i <= |input|
      invariant i - start == if l <= |input| - start then l else |input| - start
      invariant newParent.box == ParentBox(input[start..i]) && newParent.hmin == ParentHmin(input[start..i])
      invariant newParent.children == input[start..i] && newParent.edges == []
    {
      if i < |input| {
        var c := input[i];
        assert input[start..i + 1] == input[start..i] + [c];
        ParentSnoc(input[start..i], c);
        newParent.AdjustBounds(c.box, c.hmin);
        newParent.InsertNode(c);
        i := i + 1;
      }
    }
  }

  /** The inner loop of `group_nodes` (older Rust variant): the box only. */
  method StuffFillParent(newParent: ParentNode, input: seq<Node>, start: nat, k: nat) returns (i: nat)
    requires start <= |input|
    requires newParent.box == Empty && newParent.hmin == 0.0
    requires newParent.children == [] && newParent.edges == []
    modifies newParent
    ensures start <= i <= |input| && i - start == if k <= |input| - start then k else |input| - start
    ensures newParent.Value() == Parent(input[start..i], false)
  {
    i := start;
    for l := 0 to k
      invariant start <= i <= |input|
      invariant i - start == if l <= |input| - start then l else |input| - start
      invariant newParent.box == ParentBox(input[start..i]) && newParent.hmin == 0.0
      invariant newParent.children == input[start..i] && newParent.edges == []
    {
      if i < |input| {
        var c := input[i];
        assert input[start..i + 1] == input[start..i] + [c];
        ParentSnoc(input[start..i], c);
        newParent.AdjustBox(c.box);
        newParent.InsertNode(c);
        i := i + 1;
      }
    }
  }

  /** The inner loop of the C++ `build_nodes`: `add_child_node` per child. */
  method AddChildNodes(newParent: ParentNode, input: seq<Node>, start: nat, k: nat) returns (i: nat)
    requires start <= |input|
    requires newParent.box == Empty && newParent.hmin == 0.0
    requires newParent.children == [] && newParent.edges == []
    modifies newParent
    ensures start <= i <= |input| && i - start == if k <= |input| - start then k else |input| - start
    ensures newParent.Value() == Parent(input[start..i], false)
  {
    i := start;
    for l := 0 to k
      invariant start <= i <= |input|
      invariant i - start == if l <= |input| - start then l else |input| - start
      invariant newParent.box == ParentBox(input[start..i]) && newParent.hmin == 0.0
      invariant newParent.children == input[start..i] && newParent.edges == []
    {
      if i < |input| {
        var c := input[i];
        assert input[start..i + 1] == input[start..i] + [c];
        ParentSnoc(input[start..i], c);
        newParent.AddChildNode(c);
        i := i + 1;
      }
    }
  }

  /** `group_edges` of the older Rust variant, whose nodes have no `hmin`. */
  method StuffGroupEdges(numPerNode: nat, input: seq<Edge>) returns (parents: seq<Node>)
    requires numPerNode >= 1
    ensures parents == Leaves(Chunks(input, numPerNode), false)
  {
    var k := numPerNode;
    var numInput := |input|;
    var n := numInput / k;
    var numParents := if numInput % k == 0 then n else n + 1;
    ChunksProperties(input, k);
    parents := [];
    var i := 0;
    for j := 0 to numParents
      invariant 0 <= i <= |input|
      invariant parents + Leaves(Chunks(input[i..], k), false) == Leaves(Chunks(input, k), false)
      invariant j + |Chunks(input[i..], k)| == numParents
    {
      RunsLeft(input, i, k);
      var newParent := new ParentNode();
      var start := i;
      i := StuffFillLeaf(newParent, input, start, k);
      LeavesStep(input, start, i, k, false, parents);
      parents := parents + [newParent.Value()];
    }
    RunsLeft(input, i, k);
  }

  /** `group_nodes` of the current Rust variant: the parents, with heights,
      over the runs of `num_nodes_children` nodes. */
  method GroupNodes(numNodesChildren: nat, input: seq<Node>) returns (parents: seq<Node>)
    requires numNodesChildren >= 1
    ensures parents == Parents(Chunks(input, numNodesChildren), true)
  {
    var k := numNodesChildren;
    var numInput := |input|;
    var n := numInput / k;
    var numParents := if numInput % k == 0 then n else n + 1;
    ChunksProperties(input, k);
    parents := [];
    var i := 0;
    for j := 0 to numParents
      invariant 0 <= i <= |input|
      invariant parents + Parents(Chunks(input[i..], k), true) == Parents(Chunks(input, k), true)
      invariant j + |Chunks(input[i..], k)| == numParents
    {
      RunsLeft(input, i, k);
      var newParent := new ParentNode();
      var start := i;
      i := FillParent(newParent, input, start, k);
      ParentsStep(input, start, i, k, true, parents);
      parents := parents + [newParent.Value()];
    }
    RunsLeft(input, i, k);
  }

  /** `group_nodes` of the older Rust variant. */
  method StuffGroupNodes(numPerNode: nat, input: seq<Node>) returns (parents: seq<Node>)
    requires numPerNode >= 1
    ensures parents == Parents(Chunks(input, numPerNode), false)
  {
    var k := numPerNode;
    var numInput := |input|;
    var n := numInput / k;
    var numParents := if numInput % k == 0 then n else n + 1;
    ChunksProperties(input, k);
    parents := [];
    var i := 0;
    for j := 0 to numParents
      invariant 0 <= i <= |input|
      invariant parents + Parents(Chunks(input[i..], k), false) == Parents(Chunks(input, k), false)
      invariant j + |Chunks(input[i..], k)| == numParents
    {
      RunsLeft(input, i, k);
      var newParent := new ParentNode();
      var start := i;
      i := StuffFillParent(newParent, input, start, k);
      ParentsStep(input, start, i, k, false, parents);
      parents := parents + [newParent.Value()];
    }
    RunsLeft(input, i, k);
  }

  /** `build_nodes` of the C++ variant: `add_child_node` per child. */
  method BuildNodes(n: nat, children: seq<Node>) returns (newNodes: seq<Node>)
    requires n >= 1
    ensures newNodes == Parents(Chunks(children, n), false)
  {
    var numNewNodes := |children| / n;
    if |children| % n > 0 {
      numNewNodes := numNewNodes + 1;
    }
    ChunksProperties(children, n);
    newNodes := [];
    var i := 0;
    for k := 0 to numNewNodes
      invariant 0 <= i <= |children|
      invariant newNodes + Parents(Chunks(children[i..], n), false) == Parents(Chunks(children, n), false)
      invariant k + |Chunks(children[i..], n)| == numNewNodes
    {
      RunsLeft(children, i, n);
      var newNode := new ParentNode();
      var start := i;
      i := AddChildNodes(newNode, children, start, n);
      ParentsStep(children, start, i, n, false, newNodes);
      newNodes := newNodes + [newNode.Value()];
    }
    RunsLeft(children, i, n);
  }

  /** One outer iteration of `group_edges`: the leaf just filled is the next
      leaf of the specification, and one run fewer is left. */
  lemma LeavesStep(input: seq<Edge>, start: nat, i: nat, k: nat, heights: bool, parents: seq<Node>)
    requires k >= 1 && start < |input| && start <= i <= |input|
    requires i - start == if k <= |input| - start then k else |input| - start
    requires parents + Leaves(Chunks(input[start..], k), heights) == Leaves(Chunks(input, k), heights)
    ensures (parents + [Leaf(input[start..i], heights)]) + Leaves(Chunks(input[i..], k), heights) == Leaves(Chunks(input, k), heights)
    ensures |Chunks(input[start..], k)| == |Chunks(input[i..], k)| + 1
  {
    RunTaken(input, start, i, k);
    LeavesCons(input[start..i], Chunks(input[i..], k), heights);
  }

  /** One outer iteration of `group_nodes` / `build_nodes`. */
  lemma ParentsStep(input: seq<Node>, start: nat, i: nat, k: nat, heights: bool, parents: seq<Node>)
    requires k >= 1 && start < |input| && start <= i <= |input|
    requires i - start == if k <= |input| - start then k else |input| - start
    requires parents + Parents(Chunks(input[start..], k), heights) == Parents(Chunks(input, k), heights)
    ensures (parents + [Parent(input[start..i], heights)]) + Parents(Chunks(input[i..], k), heights) == Parents(Chunks(input, k), heights)
    ensures |Chunks(input[start..], k)| == |Chunks(input[i..], k)| + 1
  {
    RunTaken(input, start, i, k);
    ParentsCons(input[start..i], Chunks(input[i..], k), heights);
  }

  /** After the inner loop, the run just taken is the first run of the rest,
      and the runs after it are those of the input after it. */
  lemma RunTaken<T>(input: seq<T>, start: nat, i: nat, k: nat)
    requires k >= 1 && start < |input| && start <= i <= |input|
    requires i - start == if k <= |input| - start then k else |input| - start
    ensures Chunks(input[start..], k) == [input[start..i]] + Chunks(input[i..], k)
  {
    ChunksHead(input[start..], k);
    if |input| - start > k {
      assert input[start..][..k] == input[start..i];
      assert input[start..][k..] == input[i..];
    } else {
      assert input[start..] == input[start..i];
      assert input[i..] == [];
    }
  }

  // ----- the whole tree -----

  /** The edges of every polygon, polygon by polygon, in order. */
  function PolygonEdges(polygons: seq<seq<Point>>): seq<Edge>
    requires forall j :: 0 <= j < |polygons| ==> |polygons[j]| >= 1
  {
    if |polygons| == 0 then []
    else PolygonEdges(polygons[..|polygons| - 1]) + ConsecutiveEdges(polygons[|polygons| - 1])
  }

  /** The points of every polygon that has at least one edge; a polygon of
      one point gives no edge and so no vertex to the tree. */
  function PolygonPoints(polygons: seq<seq<Point>>): seq<Point>
  {
    if |polygons| == 0 then []
    else
      var last := polygons[|polygons| - 1];
      PolygonPoints(polygons[..|polygons| - 1]) + (if |last| >= 2 then last else [])
  }

  /** Whether some polygon has an edge. */
  predicate SomeEdge(polygons: seq<seq<Point>>)
  {
    exists j :: 0 <= j < |polygons| && |polygons[j]| >= 2
  }

  /** The members of a sequence. */
  ghost function Elements<T>(s: seq<T>): set<T>
  {
    if |s| == 0 then {} else Elements(s[..|s| - 1]) + {s[|s| - 1]}
  }

  lemma {:induction false} ElementsMeaning<T>(s: seq<T>)
    ensures forall v :: v in Elements(s) <==> v in s
  {
    if |s| > 0 {
      ElementsMeaning(s[..|s| - 1]);
      assert s == s[..|s| - 1] + [s[|s| - 1]];
    }
  }

  lemma {:induction false} ElementsAppend<T>(a: seq<T>, b: seq<T>)
    ensures Elements(a + b) == Elements(a) + Elements(b)
    decreases |b|
  {
    if |b| == 0 {
      assert a + b == a;
    } else {
      ElementsAppend(a, b[..|b| - 1]);
      assert (a + b)[..|a + b| - 1] == a + b[..|b| - 1];
    }
  }

  /** The leaves over a chain of edges visit, taken together, exactly the
      points the whole chain visits: every first endpoint and the last
      second endpoint. The last vertex of one leaf is the first vertex of the
      next, so it is visited twice, and nothing else is visited. */
  lemma {:induction false} LeavesVisitChain(es: seq<Edge>, k: nat, heights: bool)
    requires k >= 1
    requires Chained(es)
    ensures Elements(AllVertices(Leaves(Chunks(es, k), heights))) == Elements(LeafVertices(es))
    decreases |es|
  {
    if |es| <= k {
      ShortChainVisits(es, k, heights);
    } else {
      ChainedSuffix(es, k);
      LeavesVisitChain(es[k..], k, heights);
      ChainStep(es, k, heights);
    }
  }

  /** A chain of at most k edges is one leaf, or none when it is empty. */
  lemma ShortChainVisits(es: seq<Edge>, k: nat, heights: bool)
    requires 1 <= k && |es| <= k
    ensures AllVertices(Leaves(Chunks(es, k), heights)) == LeafVertices(es)
    ensures Elements(AllVertices(Leaves(Chunks(es, k), heights))) == Elements(LeafVertices(es))
  {
    if |es| == 0 {
      assert Leaves(Chunks(es, k), heights) == [];
    } else {
      SingleNode(Leaf(es, heights));
      assert Leaves(Chunks(es, k), heights) == [Leaf(es, heights)];
    }
  }

  lemma ChainedSuffix(es: seq<Edge>, k: nat)
    requires Chained(es) && k <= |es|
    ensures Chained(es[k..])
  {
    var rest := es[k..];
    forall i, j | 0 <= i < |rest| && j == i + 1 < |rest|
      ensures rest[i].p2 == rest[j].p1
    {
      assert rest[i] == es[k + i] && rest[j] == es[k + j];
    }
  }

  /** The step of `LeavesVisitChain`: the first leaf adds its run's first
      endpoints and the point the rest starts from. */
  lemma ChainStep(es: seq<Edge>, k: nat, heights: bool)
    requires 1 <= k < |es| && Chained(es)
    requires Elements(AllVertices(Leaves(Chunks(es[k..], k), heights))) == Elements(LeafVertices(es[k..]))
    ensures Elements(AllVertices(Leaves(Chunks(es, k), heights))) == Elements(LeafVertices(es))
  {
    var c, rest := es[..k], es[k..];
    assert es[k - 1].p2 == es[k].p1;
    ChunksHead(es, k);
    LeavesConsVertices(c, Chunks(rest, k), heights);
    ChainVertices(es, k);
    SameElements(AllVertices(Leaves(Chunks(es, k), heights)), LeafVertices(es),
                 FirstPoints(c), c[k - 1].p2, AllVertices(Leaves(Chunks(rest, k), heights)), LeafVertices(rest));
  }

  /** a + [x] + r and a + b have the same members when b starts with x and
      r and b have the same members. */
  lemma SameElements<T>(visited: seq<T>, chain: seq<T>, a: seq<T>, x: T, r: seq<T>, b: seq<T>)
    requires visited == (a + [x]) + r && chain == a + b
    requires |b| > 0 && b[0] == x && Elements(r) == Elements(b)
    ensures Elements(visited) == Elements(chain)
  {
    var ea, eb := Elements(a), Elements(b);
    ElementsAppend(a + [x], r);
    ElementsAppend(a, [x]);
    ElementsAppend(a, b);
    SingletonElements(x);
    HeadElement(b);
    SetAbsorb(ea, x, eb);
  }

  lemma HeadElement<T>(b: seq<T>)
    requires |b| > 0
    ensures b[0] in Elements(b)
  {
    ElementsMeaning(b);
  }

  lemma SingletonElements<T>(x: T)
    ensures Elements([x]) == {x}
  {
    assert [x][..0] == [];
  }

  lemma SetAbsorb<T>(a: set<T>, x: T, l: set<T>)
    requires x in l
    ensures (a + {x}) + l == a + l
  {
  }

  /** The vertices the leaves over a run and then more runs visit. */
  lemma LeavesConsVertices(c: seq<Edge>, cs: seq<seq<Edge>>, heights: bool)
    requires |c| > 0
    ensures AllVertices(Leaves([c] + cs, heights)) ==
              (FirstPoints(c) + [c[|c| - 1].p2]) + AllVertices(Leaves(cs, heights))
  {
    var leaf, others := Leaf(c, heights), Leaves(cs, heights);
    LeavesCons(c, cs, heights);
    AllEdgesAppend([leaf], others);
    SingleNode(leaf);
    LeafVisits(c, heights);
  }

  /** A leaf visits the vertices of its run of edges. */
  lemma LeafVisits(es: seq<Edge>, heights: bool)
    requires |es| > 0
    ensures Vertices(Leaf(es, heights)) == FirstPoints(es) + [es[|es| - 1].p2]
  {
  }

  /** The vertices of a chain split after its first k edges, where the
      k-th edge ends at the point the rest starts from. */
  lemma ChainVertices(es: seq<Edge>, k: nat)
    requires 1 <= k < |es|
    requires es[k - 1].p2 == es[k].p1
    ensures LeafVertices(es) == FirstPoints(es[..k]) + LeafVertices(es[k..])
    ensures LeafVertices(es[k..])[0] == es[..k][k - 1].p2
  {
    FirstPointsAppend(es[..k], es[k..]);
    assert es == es[..k] + es[k..];
  }

  lemma FirstPointsAppend(a: seq<Edge>, b: seq<Edge>)
    ensures FirstPoints(a + b) == FirstPoints(a) + FirstPoints(b)
  {
  }

  /** The leaves of one polygon visit exactly its points. */
  lemma PolygonLeavesVisitPoints(points: seq<Point>, k: nat, heights: bool)
    requires k >= 1 && |points| >= 1
    ensures Elements(AllVertices(Leaves(Chunks(ConsecutiveEdges(points), k), heights))) ==
              if |points| >= 2 then Elements(points) else {}
  {
    var es := ConsecutiveEdges(points);
    if |points| >= 2 {
      ConsecutiveEdgesCoverPoints(points);
      LeavesVisitChain(es, k, heights);
    } else {
      assert Chunks(es, k) == [];
    }
  }

  /** With one node per parent the packing never shrinks: `build_tree` loops
      forever with `num_nodes_children == 1` and two or more nodes. */
  lemma GroupingByOneKeepsLength<T>(s: seq<T>)
    ensures |Chunks(s, 1)| == |s|
  {
    ChunksProperties(s, 1);
  }

  /** The tree invariant `build_tree` maintains over its nodes. */
  predicate Forest(nodes: seq<Node>)
  {
    forall i :: 0 <= i < |nodes| ==> Sound(nodes[i]) && HeightSound(nodes[i]) && Populated(nodes[i])
  }

  /** `build_tree`: the leaves of every polygon in turn, then packing until
      at most one node is left. The root reaches every edge of every polygon
      in order, and visits exactly the points of the polygons that have an
      edge; it exists exactly when some polygon has an edge; it satisfies the
      box and height invariants. */
  method BuildTree(polygons: seq<seq<Point>>, numEdgesChildren: nat, numNodesChildren: nat)
    returns (nodes: seq<Node>)
    requires forall j :: 0 <= j < |polygons| ==> |polygons[j]| >= 1
    requires numEdgesChildren >= 1 && numNodesChildren >= 2
    ensures |nodes| <= 1
    ensures |nodes| == 1 <==> SomeEdge(polygons)
    ensures AllEdges(nodes) == PolygonEdges(polygons)
    ensures Elements(AllVertices(nodes)) == Elements(PolygonPoints(polygons))
    ensures Forest(nodes)
  {
    nodes := [];
    for ip := 0 to |polygons|
      invariant AllEdges(nodes) == PolygonEdges(polygons[..ip])
      invariant Elements(AllVertices(nodes)) == Elements(PolygonPoints(polygons[..ip]))
      invariant |nodes| > 0 <==> SomeEdge(polygons[..ip])
      invariant Forest(nodes)
    {
      var edges := PointsToEdges(polygons[ip]);
      var leaves := GroupEdges(numEdgesChildren, edges);
      AddPolygonLeaves(polygons, ip, numEdgesChildren, nodes);
      nodes := nodes + leaves;
    }
    assert polygons[..|polygons|] == polygons;
    while |nodes| > 1
      invariant AllEdges(nodes) == PolygonEdges(polygons)
      invariant Elements(AllVertices(nodes)) == Elements(PolygonPoints(polygons))
      invariant |nodes| > 0 <==> SomeEdge(polygons)
      invariant Forest(nodes)
      decreases |nodes|
    {
      GroupedNodes(nodes, numNodesChildren, true);
      ChunksShrink(nodes, numNodesChildren);
      nodes := GroupNodes(numNodesChildren, nodes);
    }
  }

  /** One iteration of the polygon loop of `build_tree`. */
  lemma AddPolygonLeaves(polygons: seq<seq<Point>>, ip: nat, k: nat, nodes: seq<Node>)
    requires forall j :: 0 <= j < |polygons| ==> |polygons[j]| >= 1
    requires k >= 1 && ip < |polygons|
    requires AllEdges(nodes) == PolygonEdges(polygons[..ip])
    requires Elements(AllVertices(nodes)) == Elements(PolygonPoints(polygons[..ip]))
    requires |nodes| > 0 <==> SomeEdge(polygons[..ip])
    requires Forest(nodes)
    ensures var leaves := Leaves(Chunks(ConsecutiveEdges(polygons[ip]), k), true);
            && AllEdges(nodes + leaves) == PolygonEdges(polygons[..ip + 1])
            && Elements(AllVertices(nodes + leaves)) == Elements(PolygonPoints(polygons[..ip + 1]))
            && (|nodes + leaves| > 0 <==> SomeEdge(polygons[..ip + 1]))
            && Forest(nodes + leaves)
  {
    var points := polygons[ip];
    var es := ConsecutiveEdges(points);
    var pre := polygons[..ip + 1];
    assert polygons[..ip] + [points] == pre;
    PolygonStepEdges(polygons[..ip], points, k, nodes);
    PolygonStepVertices(polygons[..ip], points, k, nodes);
    LeavesExist(es, k, points);
    SomeEdgeStep(polygons, ip);
    PolygonStepForest(points, k, nodes);
  }

  lemma PolygonStepEdges(polygons: seq<seq<Point>>, points: seq<Point>, k: nat, nodes: seq<Node>)
    requires forall j :: 0 <= j < |polygons| ==> |polygons[j]| >= 1
    requires k >= 1 && |points| >= 1
    requires AllEdges(nodes) == PolygonEdges(polygons)
    ensures var leaves := Leaves(Chunks(ConsecutiveEdges(points), k), true);
            AllEdges(nodes + leaves) == PolygonEdges(polygons + [points])
  {
    var es := ConsecutiveEdges(points);
    var leaves := Leaves(Chunks(es, k), true);
    assert (polygons + [points])[..|polygons|] == polygons;
    ChunksProperties(es, k);
    LeavesEdges(Chunks(es, k), true);
    AllEdgesAppend(nodes, leaves);
  }

  lemma PolygonStepForest(points: seq<Point>, k: nat, nodes: seq<Node>)
    requires k >= 1 && |points| >= 1 && Forest(nodes)
    ensures Forest(nodes + Leaves(Chunks(ConsecutiveEdges(points), k), true))
  {
    var es := ConsecutiveEdges(points);
    GroupedEdges(es, k, true);
    ForestAppend(nodes, Leaves(Chunks(es, k), true));
  }

  lemma PolygonStepVertices(polygons: seq<seq<Point>>, points: seq<Point>, k: nat, nodes: seq<Node>)
    requires k >= 1 && |points| >= 1
    requires Elements(AllVertices(nodes)) == Elements(PolygonPoints(polygons))
    ensures var leaves := Leaves(Chunks(ConsecutiveEdges(points), k), true);
            Elements(AllVertices(nodes + leaves)) == Elements(PolygonPoints(polygons + [points]))
  {
    var leaves := Leaves(Chunks(ConsecutiveEdges(points), k), true);
    var extra := if |points| >= 2 then points else [];
    assert (polygons + [points])[..|polygons|] == polygons;
    assert PolygonPoints(polygons + [points]) == PolygonPoints(polygons) + extra;
    PolygonLeavesVisitPoints(points, k, true);
    AllEdgesAppend(nodes, leaves);
    ElementsAppend(AllVertices(nodes), AllVertices(leaves));
    ElementsAppend(PolygonPoints(polygons), extra);
    if |points| < 2 {
      assert Elements(extra) == {};
    }
  }

  lemma ForestAppend(a: seq<Node>, b: seq<Node>)
    requires Forest(a) && Forest(b)
    ensures Forest(a + b)
  {
    forall i | 0 <= i < |a + b|
      ensures Sound((a + b)[i]) && HeightSound((a + b)[i]) && Populated((a + b)[i])
    {
      if i >= |a| {
        assert (a + b)[i] == b[i - |a|];
      }
    }
  }

  lemma LeavesExist(es: seq<Edge>, k: nat, points: seq<Point>)
    requires k >= 1 && |points| >= 1 && es == ConsecutiveEdges(points)
    ensures |Chunks(es, k)| > 0 <==> |points| >= 2
  {
    if |es| > 0 {
      ChunksHead(es, k);
    }
  }

  lemma SomeEdgeStep(polygons: seq<seq<Point>>, ip: nat)
    requires ip < |polygons|
    ensures SomeEdge(polygons[..ip + 1]) <==> SomeEdge(polygons[..ip]) || |polygons[ip]| >= 2
  {
    var pre := polygons[..ip + 1];
    if SomeEdge(pre) {
      var j :| 0 <= j < |pre| && |pre[j]| >= 2;
      if j < ip {
        assert polygons[..ip][j] == pre[j];
      }
    }
    if SomeEdge(polygons[..ip]) {
      var j :| 0 <= j < ip && |polygons[..ip][j]| >= 2;
      assert pre[j] == polygons[..ip][j];
    }
    if |polygons[ip]| >= 2 {
      assert pre[ip] == polygons[ip];
    }
  }
}
