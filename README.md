# polygons: a verified model of the spatial index

`polygons` answers three questions about a set of polygons in the plane, for many query
points at once:

- whether a point is inside some polygon;
- how far the point is from the nearest polygon edge;
- how far it is from the nearest polygon vertex. Each vertex may carry an additive
  height `coeff`, and the older variant also reports the vertex index.

Each polygon is a ring of points and is turned into the edges between consecutive points.
The edges are packed, a few at a time, into leaf boxes. The boxes are packed, a few at a
time, into parent boxes until one root remains. Each query walks that tree
branch-and-bound:

- a box that cannot hold anything better than the current answer is skipped;
- for containment, a box the horizontal ray from the point cannot meet is skipped.

The repository holds the same core four times:

- the current Rust library (`src/tree.rs`);
- the older Rust library (`src/node.rs`, `src/stuff.rs`, `src/structures.rs`,
  `src/distance.rs`, `src/intersection.rs`, `src/intersections.rs`);
- two C++ libraries: the tree of `polygons/` and the brute-force context of `polygon/`,
  which keeps one bounding box per polygon and applies the winding-number test;
- the Python prototype `benchmark.py`.

This project models all four in Dafny and proves the main theorem: **for any group sizes,
the tree traversal returns exactly what the brute-force scan over all edges or vertices
returns.** The proof rests on three facts:

- construction makes every box hold everything below it;
- the box distance is a lower bound on the distance to anything in the box;
- every pruning test is sound.

Modules, one file each:

| module | file | what it holds |
|---|---|---|
| `Geometry` | geometry.dfy | points, edges, `distance_squared`, `dsegment`, and the proof that `dsegment` is the squared distance to the segment |
| `Crossing` | crossing.dfy | `a_z` / `is_left` and the ray-crossing test `crosses` |
| `Boxes` | boxes.dfy | boxes, their union, `box_distance`, and the four pruning tests (Rust distance, Rust crossing, C++ `skip_box_distance`, Python `skip_box`) |
| `Nodes` | nodes.dfy | the tree node as a value, the box invariants, and the node under construction as the class `ParentNode` with `adjust_bounds`, `insert_*` and `add_child_*` |
| `Grouping` | grouping.dfy | `points_to_edges`, `create_polygon`, `group_edges`, `group_nodes`, `build_nodes`, `build_tree` |
| `Queries` | queries.dfy | the three tree queries, each proved equal to a fold over the node's edges or vertices |
| `Batch` | batch.dfy | the batch wrappers of `src/tree.rs` and `src/stuff.rs`, and the tree-equals-brute-force theorem |
| `Winding` | winding.dfy | the C++ `winding_number` |
| `PolygonContext` | polygon_context.dfy | the C++ `polygon_context` (per-polygon boxes, winding test) |
| `PolygonsContext` | polygons_context.dfy | the C++ `polygons_context` (tree rebuilt on every `add_polygon`) |
| `BruteForce` | brute_force.dfy | the C++ brute-force `vdsegment` |
| `Benchmark` | benchmark.dfy | the Python tree and its `vdsegment` check |

Coordinates are exact reals and every distance is squared. An inverted sentinel box
(`xmin = MAX`, `xmax = -MAX`) is the box value `Empty`. Each `f64::MAX` start value of a
query is the explicit bound `Batch.LargeNumber`.

## Model

| member | source | states |
|---|---|---|
| Geometry.DistanceSquared | src/distance.rs:2-4 | the squared norm is never negative |
| Geometry.DistanceSquaredProperties | polygons/distance.h:8-13 | the squared norm is even in each argument and 0 at the origin |
| Geometry.DistanceSquaredZero | polygons/distance.h:8-13 | the squared norm is 0 exactly when both components are 0 |
| Geometry.DistanceSquaredMonotone | src/node.rs:7-25 | componentwise larger magnitudes never give a smaller squared norm (the fact behind the box lower bound) |
| Geometry.SquaresPreserveOrder | polygons/distance.h:10-12 | for non-negative values, comparing squares agrees with comparing the values, both strictly and for equality, so taking the square root only at the end never changes which candidate wins |
| Geometry.SquaredLength | polygon/distance.cpp:35 | `c2` of `dsegment`, the squared length of p2 - p1, is never negative |
| Geometry.DSegment | src/distance.rs:8-25 | the point-to-segment result is never negative |
| Geometry.Clamp | src/distance.rs:14-24 | the projection parameter the three branches select always lies in [0, 1] |
| Geometry.ClampBranches | src/distance.rs:14-24 | c1 <= 0 selects p1 (t = 0); c1 > 0 and c1 >= c2 selects p2 (t = 1); otherwise t = c1 / c2 |
| Geometry.ClampedParameter | polygons/distance.cpp:17-33 | the parameter derived from c1 and c2 lies in [0, 1] |
| Geometry.DSegmentAtClampedParameter | src/distance.rs:8-25 | `dsegment` equals the squared distance to the segment point p1 + t (p2 - p1) at the clamped parameter t |
| Geometry.DSegmentInside | src/distance.rs:20-24 | with 0 < c1 < c2, the result is the squared distance to the foot of the perpendicular, t = c1 / c2 |
| Geometry.DSegmentAtStart | src/distance.rs:14-16 | with c1 <= 0, the parameter is 0 and the result is the squared distance to p1 |
| Geometry.DSegmentAtEnd | src/distance.rs:20-21 | with c1 > 0 and c1 >= c2, the parameter is 1 and the result is the squared distance to p2 |
| Geometry.DSegmentIsMinimum | src/distance.rs:8-25 | the result is at most the squared distance to every point of the segment, so it is the minimum over t in [0, 1] |
| Geometry.DSegmentBelowEndpoints | polygons/distance.cpp:7-35 | the result is at most the squared distance to either endpoint, and 0 when the point is an endpoint |
| Geometry.DSegmentBranches | polygon/distance.cpp:25-45 | c1 <= 0 gives the squared distance to p1; c1 > 0 and c1 >= c2 gives the squared distance to p2; a zero-length segment has c1 = c2 = 0 and so never reaches the division; the Rust, C++ and Python copies share these branches |
| Crossing.IsLeftIsAZ | polygons/intersection.cpp:19-27 | the C++ `is_left` is the Rust `a_z` with the same argument order |
| Crossing.IsLeftAntisymmetric | polygons/intersection.cpp:19-27 | swapping p0 and p1 negates `is_left`, which is 0 when p2 is p0 or p1 |
| Crossing.AZZeroOnLine | src/intersections.rs:48-56 | `a_z` is 0 at either endpoint and at every point of the supporting line |
| Crossing.ReverseNegatesAZ | src/intersection.rs:17-23 | reversing the edge negates `a_z` |
| Crossing.HorizontalNeverCrosses | src/intersection.rs:38-44 | a horizontal edge never crosses |
| Crossing.OnLineNeverCrosses | src/intersection.rs:38-44 | a point on the edge's supporting line never crosses, because both comparisons are strict |
| Crossing.CrossesIgnoresDirection | src/tree.rs:396-416 | `crosses` does not depend on the edge's direction |
| Crossing.CrossesMeaning | src/tree.rs:396-416 | `crosses` holds exactly when the edge is not horizontal, the point's height lies in the edge's closed y-range, and at that height the edge lies strictly on the +x side of the point |
| Crossing.CrossesLeftOfEdge | src/intersection.rs:28-44 | a crossed edge has the point's height within its y-range and an endpoint strictly on the +x side of the point |
| Crossing.CrossesAtEndpointHeight | src/intersection.rs:28-44 | the y-range test is closed: a point level with an endpoint of a non-horizontal edge and strictly left of that endpoint crosses |
| Boxes.PointBox | benchmark.py:64-69 | the box of one point holds exactly that point |
| Boxes.UnionIsLeastUpperBound | src/structures.rs:30-35 | the widened box holds the old box and the argument box, and is inside every box that holds both |
| Boxes.UnionEmpty | polygons/node.cpp:71-78 | widening the inverted sentinel by a box gives exactly that box; widening keeps boxes well formed |
| Boxes.UnionAlgebra | src/structures.rs:30-35 | widening is idempotent, commutative and associative, so repeated calls and the order of calls do not matter |
| Boxes.UnionContains | src/tree.rs:34-40 | a point in either box is in the widened box |
| Boxes.EdgeBox | benchmark.py:72-78 | the box built from an edge's two points holds the edge |
| Boxes.OffsetBounds | src/tree.rs:50-65 | each per-axis offset is 0 exactly when the coordinate is within the range, and is never larger in magnitude than the distance to any coordinate in the range |
| Boxes.BoxDistance | src/node.rs:7-25 | the squared box distance is never negative |
| Boxes.BoxDistanceZero | src/node.rs:7-25 | the squared box distance is 0 exactly when the point is in the closed box |
| Boxes.BoxDistanceLowerBound | src/tree.rs:50-68 | the box distance is at most the distance from the point to any point of the box |
| Boxes.SegmentPointAtLeastBoxDistance | src/tree.rs:50-68 | every point of a segment whose endpoints are in the box is at least the box distance away |
| Boxes.EdgeAtLeastBoxDistance | src/tree.rs:50-68 | `dsegment` to an edge inside the box is at least the box distance |
| Boxes.PruneByDistanceSound | src/tree.rs:71-73 | when the box distance exceeds d, every edge in the box is farther than d |
| Boxes.SkipBoxIntersectionSound | src/intersections.rs:30-42 | when the point is right of xmax, above ymax or below ymin, no edge in the box crosses, so `p.x > xmax` is the right test for the +x ray |
| Boxes.MirroredSkipWouldBeUnsound | src/node.rs:80-91 | the mirrored test `p.x < xmin` would be unsound: a vertical edge with the point left of its box is crossed |
| Boxes.SkipBoxDistanceMeaning | polygons/node.cpp:19-64 | never prunes when the point is in or on the box; otherwise prunes exactly when the squared box distance exceeds d; pruning for d implies pruning for every smaller d |
| Boxes.SkipNodeBoxSound | polygons/node.cpp:19-64 | a box that `skip_box_distance` discards holds no edge within d |
| Boxes.PySkipBoxAgrees | benchmark.py:89-134 | the nine-region `skip_box` returns exactly the C++ `skip_box_distance` answer for every well-formed box |
| Nodes.LeafVertices | src/node.rs:112-126 | a leaf visits p1 of every edge, then p2 of the last edge only |
| Nodes.FirstPoints | src/tree.rs:156-160 | a leaf visits the first point of each edge in order |
| Nodes.SoundEdgesInBox | src/tree.rs:21-29 | under the box invariant, every edge below a node lies in its box |
| Nodes.SoundChildEdgesInBox | src/tree.rs:77-83 | every edge below the first k children lies in the parent's box |
| Nodes.SoundVerticesInBox | src/tree.rs:136-171 | every vertex a query visits below a node is in its box, and its `coeff` is at least the node's `hmin` |
| Nodes.SoundChildVerticesInBox | src/tree.rs:147-153 | the same for the vertices below the first k children |
| Nodes.LowerHeight | src/tree.rs:39 | the new `hmin` is the minimum of the old and the child's, except that the sentinel box takes the child's `hmin` and an empty child changes nothing |
| Nodes.ParentNode.constructor | polygons/node.cpp:71-78 | a new node has the inverted sentinel box, `hmin` 0 and no children or edges |
| Nodes.ParentNode.Value | src/tree.rs:21-29 | the finished node has exactly the builder's box, `hmin`, children and edges |
| Nodes.ParentNode.AdjustBounds | src/tree.rs:34-40 | the box becomes the union of the old box and the argument, and `hmin` is lowered; the lists are unchanged |
| Nodes.ParentNode.AdjustBox | src/structures.rs:30-35 | the box becomes the union of the old box and the argument; nothing else changes |
| Nodes.ParentNode.InsertNode | src/tree.rs:41-44 | exactly one child is appended at the end; the box, `hmin` and edges are unchanged (as in the older `src/structures.rs`) |
| Nodes.ParentNode.InsertEdge | src/tree.rs:45-47 | exactly one edge is appended at the end; the box, `hmin` and children are unchanged (as in the older `src/structures.rs`) |
| Nodes.ParentNode.AddChildNode | polygons/node.cpp:120-128 | appends the child and makes the box the union of the old box and the child's box |
| Nodes.ParentNode.AddChildEdge | polygons/node.cpp:130-143 | appends the edge and widens the box by both endpoints |
| Nodes.AddChildBox | polygons/node.cpp:120-128 | the first child widens the sentinel to exactly its own box; afterwards the box holds the old box and the child's box |
| Grouping.ChunksProperties | src/tree.rs:248-337 | grouping n items k at a time gives ceil(n / k) runs, each of 1 to k items, whose concatenation is the input in order |
| Grouping.ChunksHead | src/stuff.rs:107-145 | the first run is the whole input when it has at most k items, and otherwise its first k items |
| Grouping.ChunksShrink | src/tree.rs:368-370 | with k >= 2, grouping more than one node gives strictly fewer nodes, so the `while` loop terminates |
| Grouping.GroupingByOneKeepsLength | src/tree.rs:368-370 | with k = 1, grouping keeps the length, so the loop would never end on two or more nodes |
| Grouping.NumParentsStep | src/tree.rs:249-254 | the count of parents drops by one when k items are taken off a longer input |
| Grouping.FlattenSnoc | src/tree.rs:359-365 | appending a polygon's runs appends its items |
| Grouping.ConsecutiveEdges | src/tree.rs:339-350 | one edge per pair of consecutive points, edge i joins points i and i+1, and no closing edge is added |
| Grouping.ConsecutiveEdgesCoverPoints | src/tree.rs:339-350 | the edges are chained, and a leaf's vertex walk over them gives back the points |
| Grouping.PointsToEdges | src/tree.rs:339-350 | the loop builds exactly the consecutive edges of a non-empty point list |
| Grouping.CreatePolygon | src/stuff.rs:81-105 | `num_points - 1` edges; edge i joins the shifted points i and i+1 with indices `start_index + i` and `start_index + i + 1` |
| Grouping.CreatePolygonChained | src/stuff.rs:90-103 | consecutive edges share their joining point |
| Grouping.LeafBounds | src/tree.rs:313-332 | a leaf's box holds both endpoints of every edge, is the smallest such box, and is the sentinel exactly when the leaf is empty |
| Grouping.LeafHminBounds | src/tree.rs:304-328 | a leaf's `hmin` is at most every endpoint `coeff` and equals one of them |
| Grouping.LeafIsSound | src/tree.rs:290-337 | a leaf satisfies the box and height invariants and holds exactly its run of edges |
| Grouping.ParentBounds | src/tree.rs:262-283 | a parent's box is the union of its children's boxes (each child's box inside it, and the least such box), and its `hmin` is the least `hmin` of the children with a box: at most each of them and equal to one of them |
| Grouping.ParentEdges | src/tree.rs:248-288 | a parent reaches exactly its children's edges and vertices, in order |
| Grouping.ParentIsSound | src/tree.rs:248-288 | a parent of sound children is sound, and height-sound when built with heights |
| Grouping.LeavesEdges | src/tree.rs:290-337 | the leaves hold the runs' edges in order |
| Grouping.LeavesAt | src/tree.rs:290-337 | leaf j is the leaf of run j |
| Grouping.ParentsEdges | src/tree.rs:248-288 | the parents reach the runs' edges and vertices in order |
| Grouping.ParentsAt | src/tree.rs:248-288 | parent j is the parent of run j |
| Grouping.GroupedEdges | src/tree.rs:290-337 | `group_edges` gives ceil(n / k) sound leaves of 1 to k edges each, which hold the input edges in order |
| Grouping.GroupedNodes | src/tree.rs:248-288 | `group_nodes` gives ceil(n / k) sound parents of 1 to k children each, which reach the input's edges and vertices in order; non-empty children give non-empty parents |
| Grouping.ChunkMembers | src/stuff.rs:107-145 | every node placed in a run comes from the input, so it keeps the input's invariants |
| Grouping.AllEdgesAppend | src/tree.rs:359-365 | the edges and vertices below a list of nodes split over concatenation |
| Grouping.LeafSnoc | src/tree.rs:315-328 | adding an edge to a leaf widens its box by both endpoints and lowers its `hmin` |
| Grouping.ParentSnoc | src/tree.rs:273-280 | adding a child widens the parent's box by the child's box and lowers its `hmin` |
| Grouping.LeafRunSnoc | src/tree.rs:314-330 | one more edge taken from the input extends the run by that edge and updates the leaf's box and `hmin` accordingly |
| Grouping.FillLeaf | src/tree.rs:313-332 | the inner loop takes the next min(k, remaining) edges and leaves behind exactly their leaf |
| Grouping.GroupEdges | src/tree.rs:290-337 | `group_edges` returns the leaves of the k-runs of the input, with heights |
| Grouping.StuffFillLeaf | src/stuff.rs:169-186 | the older inner loop takes the next min(k, remaining) edges and leaves behind exactly their leaf, without heights |
| Grouping.StuffGroupEdges | src/stuff.rs:147-191 | the older `group_edges` returns the leaves of the k-runs of the input |
| Grouping.FillParent | src/tree.rs:271-283 | the inner loop takes the next min(k, remaining) nodes and leaves behind exactly their parent |
| Grouping.GroupNodes | src/tree.rs:248-288 | `group_nodes` returns the parents of the k-runs of the input, with heights |
| Grouping.StuffFillParent | src/stuff.rs:129-140 | the older inner loop takes the next min(k, remaining) nodes and leaves behind their parent |
| Grouping.StuffGroupNodes | src/stuff.rs:107-145 | the older `group_nodes` returns the parents of the k-runs of the input |
| Grouping.AddChildNodes | polygons/polygons.cpp:60-72 | the inner loop of `build_nodes` adds the next min(n, remaining) children, leaving their parent |
| Grouping.BuildNodes | polygons/polygons.cpp:51-75 | `build_nodes` returns the parents of the n-runs of the children: ceil(size / n) nodes in input order |
| Grouping.RunTaken | src/tree.rs:260-285 | the run the inner loop takes is the first run of what is left |
| Grouping.LeavesStep | src/tree.rs:302-334 | the leaves built so far plus the leaves of the rest are the leaves of the whole input |
| Grouping.ParentsStep | src/tree.rs:260-285 | the parents built so far plus the parents of the rest are the parents of the whole input |
| Grouping.LeavesVisitChain | src/node.rs:112-126 | over chained edges, the leaves of any grouping visit exactly the chain's points |
| Grouping.PolygonLeavesVisitPoints | src/node.rs:112-126 | the leaves of a polygon's edges visit exactly its points when it has an edge |
| Grouping.BuildTree | src/tree.rs:352-373 | at most one root, present exactly when some polygon has two points; it reaches every edge of every polygon in input order and visits exactly the polygons' points; every node satisfies the box, height and non-emptiness invariants |
| Queries.MinFromIsMinimum | src/tree.rs:80-90 | the running minimum is at most d and at most every value, and it is d or one of the values |
| Queries.MinFromAppend | src/tree.rs:78-81 | folding a concatenation is folding the second part from the first part's result |
| Queries.MinFromAboveBound | src/tree.rs:71-73 | when every value exceeds d, the fold returns d |
| Queries.MinFromSameValues | src/tree.rs:70-95 | the fold depends only on the set of values, not on their order or grouping |
| Queries.NearestEdgeIsMinimum | src/tree.rs:70-95 | the nearest-edge value is at most d and at most `dsegment` to every edge, and it is d or the distance to one of them |
| Queries.NearestEdgeSameEdges | example/example.py:22-23 | the nearest-edge value depends only on the set of edges, so it is independent of the group sizes |
| Queries.PrunedNodeKeepsDistance | src/tree.rs:71-73 | a node that the Rust prune discards cannot improve the answer |
| Queries.SkippedNodeKeepsDistance | polygons/node.cpp:88-91 | a node that the C++ prune discards cannot improve the answer |
| Queries.GetDistanceEdge | src/tree.rs:70-95 | on a node satisfying the box invariant, the result is min(d, `dsegment` over every edge below the node); the older `src/node.rs` copy computes the same value |
| Queries.GetDistance | polygons/node.cpp:86-118 | on a non-empty node satisfying the box invariant, the result is min(d, `dsegment` over every edge below the node) |
| Queries.CrossingCountCountsPositions | src/tree.rs:111-117 | the count is the number of edges that `crosses` accepts |
| Queries.CrossingCountBounds | src/tree.rs:111-117 | the count is at most the number of edges, and 0 when no edge crosses |
| Queries.CrossingCountAppend | src/tree.rs:104-108 | counts over a concatenation add up |
| Queries.PrunedNodeHasNoCrossing | src/tree.rs:98-100 | a node that `skip_box_intersection` discards contains no crossing edge |
| Queries.NumIntersections | src/tree.rs:97-121 | the result is n plus the number of crossing edges below the node, so never less than n; the older `src/node.rs` and `src/intersections.rs` copies return the same count |
| Queries.NearestVertexValueIsMinimum | src/tree.rs:136-171 | the value is at most d and at most g(distance) + `coeff` of every vertex, and it is d or the value of one vertex |
| Queries.NearestVertexValueSamePoints | src/tree.rs:136-171 | the value depends only on the set of vertices visited |
| Queries.PrunedNodeKeepsValue | src/tree.rs:137-143 | with a non-decreasing g, a node whose g(box distance) + `hmin` exceeds d offers no better vertex |
| Queries.GetDistanceVertex | src/tree.rs:136-171 | under the box and height invariants and a non-decreasing g, the result is min(d, g(distance) + `coeff` over every vertex below the node) |
| Queries.NearestVertexIsFirstMinimum | src/node.rs:101-127 | the distance is min(d, all vertex distances); if it equals d the incoming index is kept; otherwise the index is that of the first vertex in visiting order at that distance, since the comparisons are strict |
| Queries.NearestVertexAppend | src/node.rs:101-110 | the scan over a concatenation continues from the first part's (index, distance) |
| Queries.NearestVertexAboveBound | src/node.rs:94-96 | when every vertex is farther than d, (index, d) comes back unchanged |
| Queries.PrunedNodeKeepsVertex | src/node.rs:94-96 | a pruned node returns the incoming (index, d), and so does its full scan |
| Queries.NearestLeafVertex | src/node.rs:112-127 | a leaf's loop over the first points, then the last second point, yields the scan over the leaf's vertices |
| Queries.GetDistanceVertexIndexed | src/node.rs:93-131 | on a node satisfying the box invariant, the (index, distance) pair is the first-minimum scan over every vertex below the node |
| Batch.PointsAreInside | src/tree.rs:199-207 | entry i is the parity of the root's crossing count for point i |
| Batch.DistancesNearestEdges | src/tree.rs:209-216 | entry i is the nearest-edge value of point i below the root, starting from `f64::MAX` |
| Batch.DistancesNearestVerticesCustom | src/tree.rs:233-246 | entry i is the nearest g-vertex value of point i below the root |
| Batch.DistancesNearestVertices | src/tree.rs:218-231 | given the square root (the `sqrt` of `distance`, followed by the identity `g`), entry i is the minimum of true distance + `coeff` over the root's vertices, starting from `f64::MAX` |
| Batch.RootValue | src/tree.rs:173-175 | with the square root as transform, a vertex offers r + `coeff` where r >= 0 and r * r is the squared distance: its true distance plus its height |
| Batch.RootIsMonotone | src/tree.rs:173-175 | the square root never reverses the order of non-negative values, so taking it before `g` keeps a monotone `g` monotone |
| Batch.ContainsPoints | src/stuff.rs:4-20 | every entry of the array is cleared, then entry i < `num_points` is the parity of the crossing count; entries at or beyond `num_points` end false |
| Batch.GetDistancesEdge | src/stuff.rs:22-39 | entry i < `num_points` is the nearest-edge value of (x[i], y[i]); no other entry changes |
| Batch.GetDistancesVertex | src/stuff.rs:41-59 | entry i < `num_points` is the nearest vertex distance of (x[i], y[i]); no other entry changes |
| Batch.GetClosestVertices | src/stuff.rs:61-79 | entry i < `num_points` is the index of the first nearest vertex of (x[i], y[i]); no other entry changes |
| Batch.RootReachesPolygons | src/tree.rs:352-373 | the single root reaches exactly the polygons' edges in order and visits exactly their points |
| Batch.BuiltTreeAnswersAreBruteForce | src/tree.rs:199-246 | every query on the built root equals the same query over all polygon edges or points: nearest edge, crossing count, nearest vertex value and nearest vertex distance |
| Winding.EdgeWindingCases | polygons/intersection.cpp:43-67 | an edge adds +1 exactly for a half-open upward crossing with the point on the left, -1 exactly for a half-open downward crossing with the point on the right, 0 otherwise; horizontal edges add 0 |
| Winding.WindingNumber | polygons/intersection.cpp:33-72 | the loop returns the sum of the per-edge contributions over the consecutive vertex pairs |
| Winding.WindingBound | polygons/intersection.cpp:40-69 | after n edges the winding number lies in [-n, n] |
| Winding.WindingNumberBound | polygons/intersection.cpp:40-69 | the winding number's magnitude is at most the vertex count minus one |
| Winding.WindingZeroAboveOrBelow | polygons/intersection.cpp:43-67 | a point strictly above or strictly below every vertex has winding number 0 |
| Winding.UpwardSide | polygons/intersection.cpp:19-27 | on an upward edge, `is_left` is negative right of both endpoints and positive left of both |
| Winding.EdgeSide | polygons/intersection.cpp:19-27 | the same sign facts for any non-horizontal edge whose y-range holds the point |
| Winding.WindingZeroRightOfAll | polygons/intersection.cpp:40-69 | a point strictly right of every vertex has winding number 0 |
| Winding.WindingLeftOfAll | polygons/intersection.cpp:40-69 | for a point strictly left of every vertex, the winding number after n edges depends only on the first and the n-th vertex |
| Winding.WindingZeroLeftOfClosedRing | polygons/intersection.cpp:29-32 | on a closed ring (last vertex equals the first), a point strictly left of every vertex has winding number 0 |
| Winding.OpenRingLeftOfAllWinds | polygons/intersection.cpp:29-32 | on an open ring a point left of every vertex can have a non-zero winding number |
| PolygonContext.PointsBoxIsSmallest | polygon/polygon.cpp:72-90 | the polygon's box holds every vertex, is the smallest such box, and stays the sentinel exactly when the polygon has no vertex |
| PolygonContext.RingPoints | polygon/polygon.cpp:77-92 | the stored vertex list is the first `num_points` coordinate pairs in order |
| PolygonContext.HitIsWinding | polygon/polygon.cpp:121-132 | for a closed ring, passing the box tests and having a non-zero winding number is the same as having a non-zero winding number, so skipping on the box loses nothing |
| PolygonContext.PolygonContext.constructor | polygon/polygon.cpp:27-31 | a new context holds no polygon |
| PolygonContext.PolygonContext.AddPolygon | polygon/polygon.cpp:63-94 | the polygon count grows by one; the vertex list and its box are appended; the lists stay aligned |
| PolygonContext.PolygonContext.PointInSome | polygon/polygon.cpp:116-133 | the per-point loop over the polygons, stopping at the first hit, decides whether some polygon passes the box tests and has a non-zero winding number |
| PolygonContext.PolygonContext.ContainsPoints | polygon/polygon.cpp:105-136 | entry i < `num_points` is true exactly when some polygon passes the box tests at (x[i], y[i]) with a non-zero winding number; entries beyond are untouched |
| PolygonsContext.PolygonEdgesOf | polygons/polygons.cpp:93-101 | `num_points - 1` edges, edge i joining points i and i+1 with their weights; no closing edge |
| PolygonsContext.PolygonEdgesChained | polygons/polygons.cpp:93-101 | consecutive edges share their joining point |
| PolygonsContext.PolygonLeavesProperties | polygons/polygons.cpp:112-134 | the leaves hold all stored edges, polygon by polygon and in order; each leaf is sound and non-empty, holds 1 to 4 edges and no children; there is a leaf exactly when some edge is stored |
| PolygonsContext.LeavesExistIffEdges | polygons/polygons.cpp:114-117 | a polygon gives a leaf exactly when it has an edge |
| PolygonsContext.PackProperties | polygons/polygons.cpp:137-140 | repeated packing ends with at most one node, present exactly when there were nodes; it keeps every edge in order and keeps the nodes sound and non-empty |
| PolygonsContext.AddChildEdges | polygons/polygons.cpp:121-133 | the inner loop adds the next min(4, remaining) edges and leaves exactly their leaf |
| PolygonsContext.AddLeaves | polygons/polygons.cpp:112-134 | one pass of the polygon loop appends exactly the leaves of that polygon's 4-edge runs |
| PolygonsContext.PolygonsContext.constructor | polygons/polygons.cpp:29 | a new context holds no polygon and no node |
| PolygonsContext.PolygonsContext.AddPolygon | polygons/polygons.cpp:86-141 | appends the polygon's edges; the nodes become the packing of the leaves of all stored polygons |
| PolygonsContext.RebuiltTree | polygons/polygons.cpp:102-140 | after `add_polygon` there is at most one node; it exists exactly when some edge is stored; it reaches every stored edge in order and is sound and non-empty |
| PolygonsContext.PolygonsContext.ContainsPoints | polygons/polygons.cpp:228-243 | entry i < `num_points` is the parity of `num_intersections(nodes[0], 0, p)` at p = (x[i], y[i]) for the supplied `num_intersections`; entries beyond are untouched |
| BruteForce.SegmentDistances | polygon/distance.cpp:62-66 | one `dsegment` value per consecutive vertex pair, for the first `num_vertices` vertices |
| BruteForce.BruteDistanceIsMinimum | polygon/distance.cpp:57-67 | the result is at most `huge` (the f32 maximum) and at most every segment's value, and it is `huge` or one of them; with at most one vertex it is `huge` |
| BruteForce.BruteDistanceIsNearestEdge | polygon/distance.cpp:57-67 | the brute-force value is the nearest-edge fold over the ring's consecutive edges |
| BruteForce.NearestSegment | polygon/distance.cpp:61-66 | the inner loop computes the brute-force minimum for one point |
| BruteForce.VDSegment | polygon/distance.cpp:49-69 | entry ip < `num_points` is that point's brute-force minimum (before the square root); no other entry changes |
| Benchmark.AdjustBounds | benchmark.py:64-69 | the new bounds hold the point and the old bounds, are the least such, and leave the input untouched |
| Benchmark.EdgeBounds | benchmark.py:72-78 | an edge's bounds hold both of its points |
| Benchmark.AddChildBounds | benchmark.py:136-139 | the bounds after `add_child` hold the old bounds and the child's bounds |
| Benchmark.AddChildIsUnion | benchmark.py:136-139 | for a child with proper bounds, the two corner updates give exactly the union of the old bounds and the child's |
| Benchmark.PyNode.constructor | benchmark.py:85-87 | a new node has no children and the sentinel bounds |
| Benchmark.PyNode.AddChild | benchmark.py:136-139 | appends the child and widens the bounds by its two corners |
| Benchmark.FillNode | benchmark.py:168-175 | n draws from the iterator add the next min(n, remaining) children, and `done` is set exactly when the iterator ran out |
| Benchmark.BuildNodesPy | benchmark.py:162-178 | the result is the nodes of the n-runs of the children: no empty node, input order kept |
| Benchmark.BuildNodesPyProperties | benchmark.py:162-178 | ceil(len / n) nodes, each of 1 to n children, reaching the children's edges in order, and sound when the children are |
| Benchmark.PySoundEdgesInBox | benchmark.py:136-139 | every edge below a sound node lies in its bounds |
| Benchmark.ChildrenBoundsHold | benchmark.py:136-139 | the bounds after adding the children hold each child's bounds |
| Benchmark.PySkippedNodeKeepsDistance | benchmark.py:155-156 | a node that `skip_box` discards holds no edge within `distance` |
| Benchmark.PyGetDistance | benchmark.py:141-159 | an edge returns its `dsegment`; a sound node returns min(distance, `dsegment` over every edge below it) |
| Benchmark.PolygonDistance | benchmark.py:40-42 | the innermost loop folds the running minimum over one polygon's edges |
| Benchmark.NaiveDistance | benchmark.py:37-43 | for one point, the result is the minimum of `huge` and every edge of every polygon |
| Benchmark.VDSegmentPy | benchmark.py:34-44 | one entry per point: the minimum over every edge of every polygon, starting from `huge` |
| Benchmark.TreeSearchIsNaive | benchmark.py:223-232 | when the root reaches exactly the polygons' edges, the tree search from `huge` equals the brute-force `vdsegment` value |

## Left out

- Floating point is not modelled. Coordinates are exact reals, so rounding, NaN and overflow near the `f64::MAX` / `numeric_limits::max` sentinels are out of scope.
- The square root is not modelled. The model works with squared distances throughout. This covers `distance` in src/tree.rs:173-175, the `sqrt` in the `stuff.rs` and `polygons.cpp` wrappers, and the final `sqrt` of `vdsegment`. `Geometry.SquaresPreserveOrder` shows that deferring the root never changes which candidate is nearest. The one place where the root changes the answer, `distances_nearest_vertices`, takes it as a parameter (`Batch.DistancesNearestVertices`).
- Queries.GetDistanceVertex: `g` is applied to the squared distance, where src/tree.rs:136-175 applies it to the square-rooted distance. A source `g` is the model's `g` composed with the square root, monotone when the source's is (`Batch.RootIsMonotone`). `Batch.DistancesNearestVertices` passes the square root itself, so its values are the source's true distances plus heights.
- The inverted sentinel boxes of `init_bounds`, `node::node` and `add_polygon` are `Box.Empty`. The Python `skip_box` on an empty node prunes (`PySkipBox` returns true). The Python code gets the same answer only through overflow to infinity.
- The `i32` counter of `num_intersections` is an unbounded integer. Overflow needs more than 2^31 crossings.
- Rayon `par_iter` and the OpenMP pragmas are modelled as sequential, order-preserving loops.
- Python bindings, the cffi wrapper, the `extern "C"` entry points and their context casts are not part of this model.
- The context lifecycle is not part of this model: `new_context`, `free_context`, and `check_that_context_is_initialized` with its `exit(-1)`.
- I/O and parsing are not part of this model: `src/io.rs`, `FromStr`, the test harnesses, and the module-level script of `benchmark.py`, including shapely and its random points.
- The C++ `node` methods `get_distance_edge`, `get_distance_vertex`, `get_distance_vertex_weighted` and `num_intersections` are called from `polygons/polygons.cpp` but have no body in the sources. For that reason:
  - `polygons_context::get_distances_edge`, `get_distances_vertex` and `get_distances_vertex_weighted` are not modelled.
  - `PolygonsContext.PolygonsContext.ContainsPoints` takes `num_intersections` as a parameter.
- Queries.GetDistance: requires a non-empty node, because `node::get_distance` falls off its end without returning on a node with neither children nor edges.
- BruteForce.VDSegment: the missing `return` of the C++ `vdsegment` is not modelled. The model only describes the array it fills.
- Grouping.BuildTree: requires `num_nodes_children >= 2`. With 1 the `while` loop never ends on two or more nodes, as `Grouping.GroupingByOneKeepsLength` shows.
- Grouping.GroupEdges, Grouping.GroupNodes, Grouping.BuildNodes and Benchmark.BuildNodesPy require a group size of at least 1. A size of 0 divides by zero in Rust and C++, and loops forever in Python.
- Grouping.PointsToEdges and Grouping.CreatePolygon require at least one point. That matches the panic on `points[1..]` of an empty slice and the `usize` underflow of `num_points - 1`.
- Winding.WindingNumber: requires at least one vertex. `v.size() - 1` underflows on an empty vector.
- Batch.PointsAreInside, Batch.DistancesNearestEdges, Batch.DistancesNearestVerticesCustom, Batch.DistancesNearestVertices, Batch.ContainsPoints, Batch.GetDistancesEdge, Batch.GetDistancesVertex, Batch.GetClosestVertices and PolygonsContext.PolygonsContext.ContainsPoints require a root whenever there is a query point. With no root the source fails: `build_tree` returns an empty vector when no polygon has two points, and `tree[0]` then panics (src/tree.rs:199-246, src/stuff.rs:18-76); `nodes[0]` on an empty vector is undefined behaviour in polygons/polygons.cpp:241. That error path is not modelled.
- A polygon with no vertex is never examined by `polygon_context::contains_points`: its box stays the sentinel. `PolygonContext.Hit` includes that conjunct.
- PolygonContext.PolygonContext.InsideSome is defined with the bounding-box tests, as the code runs them. It equals "some winding number is non-zero" only for closed rings (`PolygonContext.HitIsWinding`); `Winding.OpenRingLeftOfAllWinds` shows an open ring where the two differ.
- Geometric containment is not claimed. Odd crossing counts and non-zero winding numbers are related to the brute-force counts over all edges, not to the Jordan-curve interior.
- A point built from query coordinates carries `coeff` 0 and index 0.
- `IndexPoint` and `Point` are one datatype with `x`, `y`, `coeff` and `index`. The variants that lack a field leave it at 0.
- A C++ `polygons_context` node has no `hmin`; its nodes keep `hmin` 0.
- A new Rust node starts with `hmin = f64::MAX`; here it starts at 0 with the sentinel box, and the first child or endpoint replaces it (`Nodes.LowerHeight`). No node is ever built empty, so the start value is never observed.
- A one-point polygon has no edge, so it contributes no vertex to the tree either. The tree's vertex set is the points of the polygons that have at least one edge.
