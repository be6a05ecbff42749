/**
 * The tree-based C++ context of polygons/polygons.cpp. It stores the edges
 * of every polygon added so far and, after each `add_polygon`, throws the
 * tree away and rebuilds it from all stored polygons: the leaves of each
 * polygon in turn (four edges per leaf), then packing four nodes per parent
 * with `build_nodes` until at most one node is left.
 *
 * The C++ node has no `hmin`; its nodes are the `Node` values of this model
 * with `hmin` left at 0, as in the older Rust variant.
 */
module PolygonsContext {
  import opened Geometry
  import opened Boxes
  import opened Nodes
  import opened Grouping

  /** NUM_EDGES_PER_NODE and NUM_NODE_CHILDREN. */
  const EdgesPerNode: nat := 4
  const NodeChildren: nat := 4

  /** The edges `add_polygon` creates: one edge joining each point to the
      next, num_points - 1 of them, and no closing edge. Each point carries
      its weight w[i] as its `coeff`; no edge is created from fewer than two
      points. */
  function PolygonEdgesOf(x: seq<real>, y: seq<real>, w: seq<real>, n: nat): (es: seq<Edge>)
    requires n <= |x| && n <= |y| && n <= |w|
    ensures |es| == if n == 0 then 0 else n - 1
    ensures forall i :: 0 <= i < |es| ==>
              es[i].p1 == Point(x[i], y[i], w[i], 0) && es[i].p2 == Point(x[i + 1], y[i + 1], w[i + 1], 0)
  {
    if n == 0 then []
    else seq(n - 1, i requires 0 <= i < n - 1 => Edge(Point(x[i], y[i], w[i], 0), Point(x[i + 1], y[i + 1], w[i + 1], 0)))
  }

  /** Consecutive edges share their joining point. */
  lemma PolygonEdgesChained(x: seq<real>, y: seq<real>, w: seq<real>, n: nat)
    requires n <= |x| && n <= |y| && n <= |w|
    ensures Chained(PolygonEdgesOf(x, y, w, n))
  {
  }

  /** The leaves of the stored polygons: for each polygon in turn, its edges
      in runs of four. A leaf never mixes edges of two polygons. */
  function PolygonLeaves(polygons: seq<seq<Edge>>): (r: seq<Node>)
  {
    if |polygons| == 0 then []
    else PolygonLeaves(polygons[..|polygons| - 1]) + Leaves(Chunks(polygons[|polygons| - 1], EdgesPerNode), false)
  }

  /** The `while (nodes.size() > 1)` loop on its specification: pack k
      nodes per parent until at most one node is left. */
  function Pack(nodes: seq<Node>, k: nat): seq<Node>
    requires k >= 2
    decreases |nodes|
  {
    if |nodes| <= 1 then nodes
    else
      ChunksShrink(nodes, k);
      Pack(Parents(Chunks(nodes, k), false), k)
  }

  /** The nodes a tree query may start from: sound boxes and no empty node. */
  predicate SoundNodes(nodes: seq<Node>)
  {
    forall i :: 0 <= i < |nodes| ==> Sound(nodes[i]) && Populated(nodes[i])
  }

  /** The leaves hold every stored edge, polygon by polygon and in order;
      each leaf holds one to four edges, no children, and a box around its
      edges; there is a leaf exactly when some polygon has an edge. */
  lemma {:induction false} PolygonLeavesProperties(polygons: seq<seq<Edge>>)
    ensures AllEdges(PolygonLeaves(polygons)) == Flatten(polygons)
    ensures |PolygonLeaves(polygons)| > 0 <==> |Flatten(polygons)| > 0
    ensures SoundNodes(PolygonLeaves(polygons))
    ensures forall i :: 0 <= i < |PolygonLeaves(polygons)| ==>
              PolygonLeaves(polygons)[i].children == [] && 1 <= |PolygonLeaves(polygons)[i].edges| <= EdgesPerNode
  {
    if |polygons| > 0 {
      var pre, es := polygons[..|polygons| - 1], polygons[|polygons| - 1];
      PolygonLeavesProperties(pre);
      assert pre + [es] == polygons;
      PolygonLeavesStep(pre, es);
    }
  }

  /** The step of `PolygonLeavesProperties`: one more polygon's leaves. */
  lemma PolygonLeavesStep(pre: seq<seq<Edge>>, es: seq<Edge>)
    requires AllEdges(PolygonLeaves(pre)) == Flatten(pre)
    requires |PolygonLeaves(pre)| > 0 <==> |Flatten(pre)| > 0
    requires SoundNodes(PolygonLeaves(pre))
    requires forall i :: 0 <= i < |PolygonLeaves(pre)| ==>
               PolygonLeaves(pre)[i].children == [] && 1 <= |PolygonLeaves(pre)[i].edges| <= EdgesPerNode
    ensures AllEdges(PolygonLeaves(pre + [es])) == Flatten(pre + [es])
    ensures |PolygonLeaves(pre + [es])| > 0 <==> |Flatten(pre + [es])| > 0
    ensures SoundNodes(PolygonLeaves(pre + [es]))
    ensures forall i :: 0 <= i < |PolygonLeaves(pre + [es])| ==>
              PolygonLeaves(pre + [es])[i].children == [] && 1 <= |PolygonLeaves(pre + [es])[i].edges| <= EdgesPerNode
  {
    var a, b := PolygonLeaves(pre), Leaves(Chunks(es, EdgesPerNode), false);
    assert (pre + [es])[..|pre|] == pre;
    assert PolygonLeaves(pre + [es]) == a + b;
    LeavesEdgesStep(a, pre, es);
    LeavesShapeStep(a, es);
  }

  /** The edges part of the step. */
  lemma LeavesEdgesStep(a: seq<Node>, pre: seq<seq<Edge>>, es: seq<Edge>)
    requires AllEdges(a) == Flatten(pre)
    requires |a| > 0 <==> |Flatten(pre)| > 0
    ensures AllEdges(a + Leaves(Chunks(es, EdgesPerNode), false)) == Flatten(pre + [es])
    ensures |a + Leaves(Chunks(es, EdgesPerNode), false)| > 0 <==> |Flatten(pre + [es])| > 0
  {
    var b := Leaves(Chunks(es, EdgesPerNode), false);
    ChunksProperties(es, EdgesPerNode);
    LeavesEdges(Chunks(es, EdgesPerNode), false);
    AllEdgesAppend(a, b);
    FlattenSnoc(pre, es);
    LeavesExistIffEdges(es);
  }

  /** The shape part of the step: every leaf is sound, non-empty, childless
      and holds at most four edges. */
  lemma LeavesShapeStep(a: seq<Node>, es: seq<Edge>)
    requires SoundNodes(a)
    requires forall i :: 0 <= i < |a| ==> a[i].children == [] && 1 <= |a[i].edges| <= EdgesPerNode
    ensures SoundNodes(a + Leaves(Chunks(es, EdgesPerNode), false))
    ensures forall i :: 0 <= i < |a + Leaves(Chunks(es, EdgesPerNode), false)| ==>
              (a + Leaves(Chunks(es, EdgesPerNode), false))[i].children == [] &&
              1 <= |(a + Leaves(Chunks(es, EdgesPerNode), false))[i].edges| <= EdgesPerNode
  {
    var b := Leaves(Chunks(es, EdgesPerNode), false);
    GroupedEdges(es, EdgesPerNode, false);
    assert forall i :: 0 <= i < |b| ==> Sound(b[i]) && Populated(b[i]) && b[i].children == [] && 1 <= |b[i].edges| <= EdgesPerNode;
    forall i | 0 <= i < |a + b|
      ensures Sound((a + b)[i]) && Populated((a + b)[i])
      ensures (a + b)[i].children == [] && 1 <= |(a + b)[i].edges| <= EdgesPerNode
    {
      if i >= |a| {
        assert (a + b)[i] == b[i - |a|];
      }
    }
  }

  /** A polygon gives a leaf exactly when it has an edge. */
  lemma LeavesExistIffEdges(es: seq<Edge>)
    ensures |Leaves(Chunks(es, EdgesPerNode), false)| > 0 <==> |es| > 0
  {
    ChunksProperties(es, EdgesPerNode);
    if |Chunks(es, EdgesPerNode)| == 0 {
      assert Flatten(Chunks(es, EdgesPerNode)) == Flatten([]);
    }
  }

  /** Packing ends with at most one node, which exists exactly when there
      was a node to pack; the queries reach the same edges in the same
      order, and every node stays sound and non-empty. */
  lemma {:induction false} PackProperties(nodes: seq<Node>, k: nat)
    requires k >= 2
    requires SoundNodes(nodes)
    ensures |Pack(nodes, k)| <= 1
    ensures |Pack(nodes, k)| == 1 <==> |nodes| > 0
    ensures AllEdges(Pack(nodes, k)) == AllEdges(nodes)
    ensures SoundNodes(Pack(nodes, k))
    decreases |nodes|
  {
    if |nodes| > 1 {
      var up := Parents(Chunks(nodes, k), false);
      GroupedNodes(nodes, k, false);
      ChunksShrink(nodes, k);
      PackProperties(up, k);
    }
  }

  /** The inner loop of `add_polygon`'s leaf building: up to k more edges,
      each added with `add_child_edge`. */
  method AddChildEdges(newNode: ParentNode, input: seq<Edge>, start: nat, k: nat) returns (i: nat)
    requires start <= |input|
    requires newNode.box == Empty && newNode.hmin == 0.0
    requires newNode.children == [] && newNode.edges == []
    modifies newNode
    ensures start <= i <= |input| && i - start == if k <= |input| - start then k else |input| - start
    ensures newNode.Value() == Leaf(input[start..i], false)
  {
    i := start;
    for l := 0 to k
      invariant start <= i <= |input|
      invariant i - start == if l <= |input| - start then l else |input| - start
      invariant newNode.box == LeafBox(input[start..i]) && newNode.hmin == 0.0
      invariant newNode.children == [] && newNode.edges == input[start..i]
    {
      if i < |input| {
        LeafRunSnoc(input, start, i);
        newNode.AddChildEdge(input[i]);
        i := i + 1;
      }
    }
  }

  /** The context object: the stored polygons and the current tree. */
  class PolygonsContext {
    var polygons: seq<seq<Edge>>
    var nodes: seq<Node>

    /** A fresh context holds no polygon and no node. */
    constructor()
      ensures polygons == [] && nodes == []
    {
      polygons := [];
      nodes := [];
    }

    /** `add_polygon`: stores the polygon's edges, then rebuilds the tree
        from every stored polygon. */
    method AddPolygon(numPoints: nat, x: seq<real>, y: seq<real>, w: seq<real>)
      requires numPoints <= |x| && numPoints <= |y| && numPoints <= |w|
      modifies this
      ensures polygons == old(polygons) + [PolygonEdgesOf(x, y, w, numPoints)]
      ensures nodes == Pack(PolygonLeaves(polygons), NodeChildren)
    {
      ghost var edges := PolygonEdgesOf(x, y, w, numPoints);
      var temp: seq<Edge> := [];
      var i := 0;
      while i + 1 < numPoints
        invariant i <= numPoints && (numPoints > 0 ==> i < numPoints)
        invariant temp == edges[..i]
      {
        var p1 := Point(x[i], y[i], w[i], 0);
        var p2 := Point(x[i + 1], y[i + 1], w[i + 1], 0);
        assert edges[..i + 1] == edges[..i] + [Edge(p1, p2)];
        temp := temp + [Edge(p1, p2)];
        i := i + 1;
      }
      assert temp == edges;
      polygons := polygons + [temp];

      nodes := [];
      for ip := 0 to |polygons|
        invariant polygons == old(polygons) + [edges]
        invariant nodes == PolygonLeaves(polygons[..ip])
      {
        nodes := AddLeaves(nodes, polygons[ip]);
        assert polygons[..ip + 1][..ip] == polygons[..ip];
      }
      assert polygons[..|polygons|] == polygons;

      while |nodes| > 1
        invariant polygons == old(polygons) + [edges]
        invariant Pack(nodes, NodeChildren) == Pack(PolygonLeaves(polygons), NodeChildren)
        decreases |nodes|
      {
        ChunksShrink(nodes, NodeChildren);
        nodes := BuildNodes(NodeChildren, nodes);
      }
    }

    /** `contains_points`: clears the first numPoints answers, then sets each
        to the parity of the crossing count the root reports for the point.
        The node's `num_intersections` is not part of this model; it is the
        parameter `numIntersections`, applied to the root, the initial count
        0 and the point (without weight). */
    method ContainsPoints(numPoints: nat, x: seq<real>, y: seq<real>, contains: array<bool>,
                          numIntersections: (Node, int, Point) -> int)
      requires numPoints <= |x| && numPoints <= |y| && numPoints <= contains.Length
      requires numPoints > 0 ==> |nodes| > 0
      modifies contains
      ensures forall i :: 0 <= i < numPoints ==>
                contains[i] == (numIntersections(nodes[0], 0, Point(x[i], y[i], 0.0, 0)) % 2 != 0)
      ensures forall i :: numPoints <= i < contains.Length ==> contains[i] == old(contains[i])
    {
      for i := 0 to numPoints
        invariant forall j :: 0 <= j < i ==> !contains[j]
        invariant forall j :: numPoints <= j < contains.Length ==> contains[j] == old(contains[j])
      {
        contains[i] := false;
      }
      for i := 0 to numPoints
        invariant forall j :: 0 <= j < i ==>
                    contains[j] == (numIntersections(nodes[0], 0, Point(x[j], y[j], 0.0, 0)) % 2 != 0)
        invariant forall j :: numPoints <= j < contains.Length ==> contains[j] == old(contains[j])
      {
        var p := Point(x[i], y[i], 0.0, 0);
        var n := 0;
        contains[i] := numIntersections(nodes[0], n, p) % 2 != 0;
      }
    }
  }

  /** One pass of the polygon loop of `add_polygon`: the polygon's leaves,
      in runs of four edges, pushed after the nodes so far. */
  method AddLeaves(nodes: seq<Node>, es: seq<Edge>) returns (r: seq<Node>)
    ensures r == nodes + Leaves(Chunks(es, EdgesPerNode), false)
  {
    var numEdges := |es|;
    var numNodes := numEdges / EdgesPerNode;
    if numEdges % EdgesPerNode > 0 {
      numNodes := numNodes + 1;
    }
    ChunksProperties(es, EdgesPerNode);
    r := nodes;
    ghost var done: seq<Node> := [];
    var i := 0;
    for k := 0 to numNodes
      invariant 0 <= i <= numEdges
      invariant r == nodes + done
      invariant done + Leaves(Chunks(es[i..], EdgesPerNode), false) == Leaves(Chunks(es, EdgesPerNode), false)
      invariant k + |Chunks(es[i..], EdgesPerNode)| == numNodes
    {
      RunsLeft(es, i, EdgesPerNode);
      var newNode := new ParentNode();
      var start := i;
      i := AddChildEdges(newNode, es, start, EdgesPerNode);
      LeavesStep(es, start, i, EdgesPerNode, false, done);
      var leaf := newNode.Value();
      assert (nodes + done) + [leaf] == nodes + (done + [leaf]);
      done := done + [leaf];
      r := r + [leaf];
    }
    RunsLeft(es, i, EdgesPerNode);
  }

  /** What `add_polygon` leaves behind: at most one node, present exactly
      when some stored polygon has an edge; the root reaches every stored
      edge, polygon by polygon and in order; every node is sound and
      non-empty. */
  lemma RebuiltTree(polygons: seq<seq<Edge>>)
    ensures |Pack(PolygonLeaves(polygons), NodeChildren)| <= 1
    ensures |Pack(PolygonLeaves(polygons), NodeChildren)| == 1 <==> |Flatten(polygons)| > 0
    ensures AllEdges(Pack(PolygonLeaves(polygons), NodeChildren)) == Flatten(polygons)
    ensures SoundNodes(Pack(PolygonLeaves(polygons), NodeChildren))
  {
    PolygonLeavesProperties(polygons);
    PackProperties(PolygonLeaves(polygons), NodeChildren);
  }
}
