/**
 * The quadtree of `src/Classes/Quadtree/index.js`.
 *
 * Nodes live in an arena: `nodes[0]` is the root and a node's `children` are either
 * empty (`null` in the source) or the indexes of its four quadrants, in the order
 * nw, ne, sw, se. A point is an object id with a position. `capacity` and `resolution`
 * are parameters: the source's nodes always get the default capacity 4, and the
 * resolution it reads is never defined, which `None` models (see `RefusesToDivide`).
 */
module Quadtree {
  import opened Wrappers
  import opened Boundary

  type ObjId = nat

  /** A `QuadTreePoint`: the id of its object and its position. */
  datatype Point = Point(id: ObjId, pos: Pos)

  /** A `QuadTreeNode`: its boundary, the points stored in it and its children. */
  datatype Node = Node(boundary: Box, points: seq<Point>, children: seq<nat>)

  // ---------------------------------------------------------------------------
  // Quadrants

  /** Quadrant `k` of `b` (0 nw, 1 ne, 2 sw, 3 se): half the width and half the height,
      without padding, as `subdivide` builds them. */
  function Quadrant(b: Box, k: nat): (q: Box)
    requires k < 4
    ensures q.width == b.width / 2.0 && q.height == b.height / 2.0 && q.padding == 0.0
  {
    var hw, hh := b.width / 2.0, b.height / 2.0;
    if k == 0 then Box(b.x, b.y, hw, hh, 0.0)
    else if k == 1 then Box(b.x + hw, b.y, hw, hh, 0.0)
    else if k == 2 then Box(b.x, b.y + hh, hw, hh, 0.0)
    else Box(b.x + hw, b.y + hh, hw, hh, 0.0)
  }

  /** Each quadrant lies inside its parent box. */
  lemma QuadrantInside(b: Box, k: nat)
    requires k < 4 && b.width >= 0.0 && b.height >= 0.0
    ensures Inside(Quadrant(b, k), b)
  {
  }

  /** The four closed quadrants cover the unpadded parent box: a point the parent contains
      is contained by one of them. */
  lemma QuadrantsCover(b: Box, p: Pos)
    requires b.padding == 0.0 && Contains(b, p)
    ensures exists k :: 0 <= k < 4 && Contains(Quadrant(b, k), p)
  {
    var hw, hh := b.width / 2.0, b.height / 2.0;
    var k := (if p.x <= b.x + hw then 0 else 1) + (if p.y <= b.y + hh then 0 else 2);
    assert Contains(Quadrant(b, k), p);
  }

  /** A point in the open interior of one quadrant is in no other: they overlap only on
      shared edges. */
  lemma QuadrantInteriorsDisjoint(b: Box, p: Pos, j: nat, k: nat)
    requires j < 4 && k < 4 && j != k && b.width > 0.0 && b.height > 0.0
    requires var q := Quadrant(b, j); q.x < p.x < q.x + q.width && q.y < p.y < q.y + q.height
    ensures !Contains(Quadrant(b, k), p) || p.x == b.x + b.width / 2.0 || p.y == b.y + b.height / 2.0
  {
  }

  /** The first quadrant, in nw, ne, sw, se order, whose closed box contains `p`. */
  function FirstQuadrant(b: Box, p: Pos): (k: nat)
    requires b.padding == 0.0 && Contains(b, p)
    ensures k < 4 && Contains(Quadrant(b, k), p)
    ensures forall j :: 0 <= j < k ==> !Contains(Quadrant(b, j), p)
  {
    QuadrantsCover(b, p);
    if Contains(Quadrant(b, 0), p) then 0
    else if Contains(Quadrant(b, 1), p) then 1
    else if Contains(Quadrant(b, 2), p) then 2
    else 3
  }

  /** A point of an unpadded box lies in every unpadded box around it. */
  lemma ContainsInside(inner: Box, outer: Box, p: Pos)
    requires inner.padding == 0.0 && outer.padding == 0.0
    requires Inside(inner, outer) && Contains(inner, p)
    ensures Contains(outer, p)
  {
  }

  // ---------------------------------------------------------------------------
  // The arena and its invariant

  /** Every child index points forward, into the arena. */
  predicate ChildrenIndexed(nodes: seq<Node>)
  {
    forall n, k :: 0 <= n < |nodes| && 0 <= k < |nodes[n].children| ==> n < nodes[n].children[k] < |nodes|
  }

  /** Node `n` has no children or exactly its four quadrants. */
  predicate ChildrenOk(nodes: seq<Node>, n: nat)
    requires n < |nodes|
  {
    var ch := nodes[n].children;
    ch == [] || (|ch| == 4 && forall k :: 0 <= k < 4 ==> n < ch[k] < |nodes| && nodes[ch[k]].boundary == Quadrant(nodes[n].boundary, k))
  }

  /** What a node keeps true by itself: an unpadded box of positive size, holding only
      points it contains; divided only above the resolution; over capacity only when it
      could not divide. */
  predicate NodeOk(node: Node, capacity: nat, resolution: Option<real>)
  {
    && node.boundary.padding == 0.0 && node.boundary.width > 0.0 && node.boundary.height > 0.0
    && (forall q :: q in node.points ==> Contains(node.boundary, q.pos))
    && (node.children != [] ==> !RefusesToDivide(node.boundary.width, resolution))
    && (|node.points| > capacity ==> node.children == [] && RefusesToDivide(node.boundary.width, resolution))
  }

  /** `p` is a path down the tree: each step goes to a child. */
  predicate Path(nodes: seq<Node>, p: seq<nat>)
  {
    && |p| >= 1
    && (forall i :: 0 <= i < |p| ==> p[i] < |nodes|)
    && (forall i :: 0 <= i < |p| - 1 ==> p[i + 1] in nodes[p[i]].children)
  }

  /** Node `m` lies in the subtree of node `n`. */
  ghost predicate Reaches(nodes: seq<Node>, n: nat, m: nat)
  {
    exists p :: Path(nodes, p) && p[0] == n && p[|p| - 1] == m
  }

  ghost predicate WellFormed(nodes: seq<Node>, capacity: nat, resolution: Option<real>)
  {
    && |nodes| >= 1
    && ChildrenIndexed(nodes)
    && (forall n :: 0 <= n < |nodes| ==> ChildrenOk(nodes, n) && NodeOk(nodes[n], capacity, resolution))
    && (forall m :: 0 <= m < |nodes| ==> Reaches(nodes, 0, m))
  }

  // ---------------------------------------------------------------------------
  // Queries

  /** The points of `ps` inside `range`, in order. */
  function InRange(ps: seq<Point>, range: Box): (r: seq<Point>)
    ensures forall q :: q in r <==> q in ps && Contains(range, q.pos)
    ensures |r| <= |ps|
  {
    if ps == [] then []
    else (if Contains(range, ps[0].pos) then [ps[0]] else []) + InRange(ps[1..], range)
  }

  /** The points of `ps` outside `range`, in order. */
  function OutOfRange(ps: seq<Point>, range: Box): (r: seq<Point>)
    ensures forall q :: q in r <==> q in ps && !Contains(range, q.pos)
  {
    if ps == [] then []
    else (if Contains(range, ps[0].pos) then [] else [ps[0]]) + OutOfRange(ps[1..], range)
  }

  /** `InRange` and `OutOfRange` split a list of points between them. */
  lemma {:induction false} RangeSplit(ps: seq<Point>, range: Box)
    ensures multiset(InRange(ps, range)) + multiset(OutOfRange(ps, range)) == multiset(ps)
  {
    if ps != [] {
      var rest := ps[1..];
      RangeSplit(rest, range);
      assert ps == [ps[0]] + rest;
      if Contains(range, ps[0].pos) {
        assert InRange(ps, range) == [ps[0]] + InRange(rest, range);
        assert OutOfRange(ps, range) == OutOfRange(rest, range);
      } else {
        assert InRange(ps, range) == InRange(rest, range);
        assert OutOfRange(ps, range) == [ps[0]] + OutOfRange(rest, range);
      }
    }
  }

  /** Every point stored in the subtree of `n`, node first, then the children in order. */
  function SubtreePoints(nodes: seq<Node>, n: nat): seq<Point>
    requires n < |nodes| && ChildrenIndexed(nodes)
    decreases |nodes| - n, 1
  {
    nodes[n].points + SubtreeChildren(nodes, n, 0)
  }

  function SubtreeChildren(nodes: seq<Node>, n: nat, k: nat): seq<Point>
    requires n < |nodes| && ChildrenIndexed(nodes) && k <= |nodes[n].children|
    decreases |nodes| - n, 0, |nodes[n].children| - k
  {
    if k == |nodes[n].children| then []
    else SubtreePoints(nodes, nodes[n].children[k]) + SubtreeChildren(nodes, n, k + 1)
  }

  /** `queryRange` as written: skip a node whose box does not strictly intersect the
      range, otherwise keep its points inside the range and ask every child. */
  function QueryRange(nodes: seq<Node>, n: nat, range: Box): seq<Point>
    requires n < |nodes| && ChildrenIndexed(nodes)
    decreases |nodes| - n, 1
  {
    if !Intersects(nodes[n].boundary, range) then []
    else InRange(nodes[n].points, range) + QueryChildren(nodes, n, range, 0)
  }

  function QueryChildren(nodes: seq<Node>, n: nat, range: Box, k: nat): seq<Point>
    requires n < |nodes| && ChildrenIndexed(nodes) && k <= |nodes[n].children|
    decreases |nodes| - n, 0, |nodes[n].children| - k
  {
    if k == |nodes[n].children| then []
    else QueryRange(nodes, nodes[n].children[k], range) + QueryChildren(nodes, n, range, k + 1)
  }

  /** The points `executeOutsideRange` calls its function on: all points of a node whose box
      does not strictly intersect the range, otherwise its points outside the range; then
      every child. */
  function OutsideRange(nodes: seq<Node>, n: nat, range: Box): seq<Point>
    requires n < |nodes| && ChildrenIndexed(nodes)
    decreases |nodes| - n, 1
  {
    (if !Intersects(nodes[n].boundary, range) then nodes[n].points
     else OutOfRange(nodes[n].points, range)) + OutsideChildren(nodes, n, range, 0)
  }

  function OutsideChildren(nodes: seq<Node>, n: nat, range: Box, k: nat): seq<Point>
    requires n < |nodes| && ChildrenIndexed(nodes) && k <= |nodes[n].children|
    decreases |nodes| - n, 0, |nodes[n].children| - k
  {
    if k == |nodes[n].children| then []
    else OutsideRange(nodes, nodes[n].children[k], range) + OutsideChildren(nodes, n, range, k + 1)
  }

  /** Every child's box lies inside its parent's. */
  predicate Nested(nodes: seq<Node>)
  {
    && ChildrenIndexed(nodes)
    && forall n, k :: 0 <= n < |nodes| && 0 <= k < |nodes[n].children| ==>
         Inside(nodes[nodes[n].children[k]].boundary, nodes[n].boundary)
  }

  /** Below a node that misses the range, `queryRange` finds nothing either. */
  lemma {:induction false} MissedNodeChildrenEmpty(nodes: seq<Node>, n: nat, range: Box, k: nat)
    requires n < |nodes| && Nested(nodes) && k <= |nodes[n].children|
    requires !Intersects(nodes[n].boundary, range)
    ensures QueryChildren(nodes, n, range, k) == []
    decreases |nodes[n].children| - k
  {
    if k < |nodes[n].children| {
      var c := nodes[n].children[k];
      assert Inside(nodes[c].boundary, nodes[n].boundary);
      assert !Intersects(nodes[c].boundary, range);
      MissedNodeChildrenEmpty(nodes, n, range, k + 1);
    }
  }

  /** `queryRange` and `executeOutsideRange` see every point of a subtree exactly once
      between them. */
  lemma {:induction false} QueryAndOutsidePartition(nodes: seq<Node>, n: nat, range: Box)
    requires n < |nodes| && Nested(nodes)
    ensures multiset(QueryRange(nodes, n, range)) + multiset(OutsideRange(nodes, n, range))
         == multiset(SubtreePoints(nodes, n))
    decreases |nodes| - n, 1
  {
    var here := nodes[n].points;
    var qc, oc, sc := QueryChildren(nodes, n, range, 0), OutsideChildren(nodes, n, range, 0), SubtreeChildren(nodes, n, 0);
    ChildrenPartition(nodes, n, range, 0);
    assert SubtreePoints(nodes, n) == here + sc;
    if Intersects(nodes[n].boundary, range) {
      var qi, oo := InRange(here, range), OutOfRange(here, range);
      RangeSplit(here, range);
      assert QueryRange(nodes, n, range) == qi + qc;
      assert OutsideRange(nodes, n, range) == oo + oc;
      calc {
        multiset(qi + qc) + multiset(oo + oc);
        multiset(qi) + multiset(oo) + (multiset(qc) + multiset(oc));
        multiset(here) + multiset(sc);
      }
    } else {
      MissedNodeChildrenEmpty(nodes, n, range, 0);
      assert QueryRange(nodes, n, range) == [];
      assert OutsideRange(nodes, n, range) == here + oc;
    }
  }

  lemma SumRegroup(q: seq<Point>, qs: seq<Point>, o: seq<Point>, os: seq<Point>)
    ensures multiset(q + qs) + multiset(o + os) == (multiset(q) + multiset(o)) + (multiset(qs) + multiset(os))
  {
  }

  lemma {:induction false} ChildrenPartition(nodes: seq<Node>, n: nat, range: Box, k: nat)
    requires n < |nodes| && Nested(nodes) && k <= |nodes[n].children|
    ensures multiset(QueryChildren(nodes, n, range, k)) + multiset(OutsideChildren(nodes, n, range, k))
         == multiset(SubtreeChildren(nodes, n, k))
    decreases |nodes| - n, 0, |nodes[n].children| - k
  {
    if k < |nodes[n].children| {
      var c := nodes[n].children[k];
      QueryAndOutsidePartition(nodes, c, range);
      ChildrenPartition(nodes, n, range, k + 1);
      SumRegroup(QueryRange(nodes, c, range), QueryChildren(nodes, n, range, k + 1),
                 OutsideRange(nodes, c, range), OutsideChildren(nodes, n, range, k + 1));
    }
  }

  /** `queryRange` returns only points of the subtree that lie inside the range. */
  lemma {:induction false} QueryRangeSound(nodes: seq<Node>, n: nat, range: Box, q: Point)
    requires n < |nodes| && ChildrenIndexed(nodes)
    requires q in QueryRange(nodes, n, range)
    ensures q in SubtreePoints(nodes, n) && Contains(range, q.pos)
    decreases |nodes| - n, 1
  {
    if q !in InRange(nodes[n].points, range) {
      QueryChildrenSound(nodes, n, range, 0, q);
    }
  }

  lemma {:induction false} QueryChildrenSound(nodes: seq<Node>, n: nat, range: Box, k: nat, q: Point)
    requires n < |nodes| && ChildrenIndexed(nodes) && k <= |nodes[n].children|
    requires q in QueryChildren(nodes, n, range, k)
    ensures q in SubtreeChildren(nodes, n, k) && Contains(range, q.pos)
    decreases |nodes| - n, 0, |nodes[n].children| - k
  {
    var c := nodes[n].children[k];
    if q in QueryRange(nodes, c, range) {
      QueryRangeSound(nodes, c, range, q);
    } else {
      QueryChildrenSound(nodes, n, range, k + 1, q);
    }
  }

  /** A box around one that intersects the range intersects it too. */
  lemma IntersectsGrows(inner: Box, outer: Box, range: Box)
    requires Inside(inner, outer) && Intersects(inner, range)
    ensures Intersects(outer, range)
  {
  }

  lemma {:induction false} QueryFound(nodes: seq<Node>, n: nat, range: Box, q: Point) returns (path: seq<nat>)
    requires n < |nodes| && ChildrenIndexed(nodes)
    requires q in QueryRange(nodes, n, range)
    ensures Path(nodes, path) && path[0] == n && Contains(range, q.pos)
    ensures q in nodes[path[|path| - 1]].points && Intersects(nodes[path[|path| - 1]].boundary, range)
    decreases |nodes| - n, 1
  {
    if q in InRange(nodes[n].points, range) {
      path := [n];
    } else {
      path := QueryChildrenFound(nodes, n, range, 0, q);
    }
  }

  lemma {:induction false} QueryChildrenFound(nodes: seq<Node>, n: nat, range: Box, k: nat, q: Point) returns (path: seq<nat>)
    requires n < |nodes| && ChildrenIndexed(nodes) && k <= |nodes[n].children|
    requires q in QueryChildren(nodes, n, range, k)
    ensures Path(nodes, path) && path[0] == n && Contains(range, q.pos)
    ensures q in nodes[path[|path| - 1]].points && Intersects(nodes[path[|path| - 1]].boundary, range)
    decreases |nodes| - n, 0, |nodes[n].children| - k
  {
    var c := nodes[n].children[k];
    if q in QueryRange(nodes, c, range) {
      var below := QueryFound(nodes, c, range, q);
      path := [n] + below;
      assert forall i :: 0 < i < |path| ==> path[i] == below[i - 1];
    } else {
      path := QueryChildrenFound(nodes, n, range, k + 1, q);
    }
  }

  lemma {:induction false} QueryComplete(nodes: seq<Node>, p: seq<nat>, range: Box, q: Point)
    requires Nested(nodes) && Path(nodes, p)
    requires q in nodes[p[|p| - 1]].points && Contains(range, q.pos) && Intersects(nodes[p[|p| - 1]].boundary, range)
    ensures q in QueryRange(nodes, p[0], range)
    decreases |p|
  {
    var n, m := p[0], p[|p| - 1];
    PathInside(nodes, p);
    IntersectsGrows(nodes[m].boundary, nodes[n].boundary, range);
    if |p| > 1 {
      var rest := p[1..];
      assert Path(nodes, rest);
      QueryComplete(nodes, rest, range, q);
      var k :| 0 <= k < |nodes[n].children| && nodes[n].children[k] == p[1];
      ChildQueryIncludedStrict(nodes, n, range, 0, k, q);
    }
  }

  lemma {:induction false} ChildQueryIncludedStrict(nodes: seq<Node>, n: nat, range: Box, j: nat, k: nat, q: Point)
    requires n < |nodes| && ChildrenIndexed(nodes) && j <= k < |nodes[n].children|
    requires q in QueryRange(nodes, nodes[n].children[k], range)
    ensures q in QueryChildren(nodes, n, range, j)
    decreases k - j
  {
    if j < k {
      ChildQueryIncludedStrict(nodes, n, range, j + 1, k, q);
    }
  }

  /** `queryRange` from the root returns exactly the stored points that the range contains
      and whose node's box strictly intersects the range. */
  lemma QueryRangeExact(nodes: seq<Node>, capacity: nat, resolution: Option<real>, range: Box, q: Point)
    requires WellFormed(nodes, capacity, resolution)
    ensures q in QueryRange(nodes, 0, range) <==>
            (exists m :: 0 <= m < |nodes| && q in nodes[m].points && Intersects(nodes[m].boundary, range)) && Contains(range, q.pos)
  {
    WellFormedNested(nodes, capacity, resolution);
    if q in QueryRange(nodes, 0, range) {
      var path := QueryFound(nodes, 0, range, q);
      var m := path[|path| - 1];
      assert 0 <= m < |nodes| && q in nodes[m].points && Intersects(nodes[m].boundary, range);
    }
    if m :| 0 <= m < |nodes| && q in nodes[m].points && Intersects(nodes[m].boundary, range) {
      if Contains(range, q.pos) {
        assert Reaches(nodes, 0, m);
        var p :| Path(nodes, p) && p[0] == 0 && p[|p| - 1] == m;
        QueryComplete(nodes, p, range, q);
      }
    }
  }

  /** The strict intersection test misses a point on the range's edge: a lone root node
      from (0, 0) to (8, 8) holding (0, 4), queried with the range from (-2, 0) to (0, 8),
      returns nothing although the range contains the point. */
  lemma QueryRangeMissesEdgePoint()
    ensures var root := Node(Box(0.0, 0.0, 8.0, 8.0, 0.0), [Point(1, Pos(0.0, 4.0))], []);
            var range := Box(-2.0, 0.0, 2.0, 8.0, 0.0);
            Contains(range, Pos(0.0, 4.0)) && QueryRange([root], 0, range) == []
  {
  }

  /** The intended test: the closed boxes touch or overlap (padding of the range only, as
      in `intersects`). */
  predicate Overlaps(node: Box, range: Box)
  {
    && node.x <= range.x + range.width + range.padding
    && node.x + node.width >= range.x - range.padding
    && node.y <= range.y + range.height + range.padding
    && node.y + node.height >= range.y - range.padding
  }

  /** A box holding a point of the range overlaps the range. */
  lemma SharedPointOverlaps(node: Box, range: Box, p: Pos)
    requires node.padding == 0.0 && Contains(node, p) && Contains(range, p)
    ensures Overlaps(node, range)
  {
  }

  /** `queryRange` with the closed overlap test. */
  function QueryRangeClosed(nodes: seq<Node>, n: nat, range: Box): seq<Point>
    requires n < |nodes| && ChildrenIndexed(nodes)
    decreases |nodes| - n, 1
  {
    if !Overlaps(nodes[n].boundary, range) then []
    else InRange(nodes[n].points, range) + QueryChildrenClosed(nodes, n, range, 0)
  }

  function QueryChildrenClosed(nodes: seq<Node>, n: nat, range: Box, k: nat): seq<Point>
    requires n < |nodes| && ChildrenIndexed(nodes) && k <= |nodes[n].children|
    decreases |nodes| - n, 0, |nodes[n].children| - k
  {
    if k == |nodes[n].children| then []
    else QueryRangeClosed(nodes, nodes[n].children[k], range) + QueryChildrenClosed(nodes, n, range, k + 1)
  }

  /** Every box is unpadded and holds only points it contains. */
  predicate Stores(nodes: seq<Node>)
  {
    forall n :: 0 <= n < |nodes| ==>
      nodes[n].boundary.padding == 0.0 && forall q :: q in nodes[n].points ==> Contains(nodes[n].boundary, q.pos)
  }

  /** The last box of a path lies inside the first. */
  lemma {:induction false} PathInside(nodes: seq<Node>, p: seq<nat>)
    requires Nested(nodes) && Path(nodes, p)
    ensures Inside(nodes[p[|p| - 1]].boundary, nodes[p[0]].boundary)
    decreases |p|
  {
    if |p| > 1 {
      var rest := p[1..];
      assert Path(nodes, rest);
      PathInside(nodes, rest);
      var k :| 0 <= k < |nodes[p[0]].children| && nodes[p[0]].children[k] == p[1];
      InsideTransitive(nodes[p[|p| - 1]].boundary, nodes[p[1]].boundary, nodes[p[0]].boundary);
    }
  }

  /** Whatever the closed query returns lies in the range and in a node below `n`. */
  lemma {:induction false} QueryClosedFound(nodes: seq<Node>, n: nat, range: Box, q: Point) returns (path: seq<nat>)
    requires n < |nodes| && ChildrenIndexed(nodes)
    requires q in QueryRangeClosed(nodes, n, range)
    ensures Path(nodes, path) && path[0] == n && q in nodes[path[|path| - 1]].points && Contains(range, q.pos)
    decreases |nodes| - n, 1
  {
    if q in InRange(nodes[n].points, range) {
      path := [n];
    } else {
      path := QueryChildrenClosedFound(nodes, n, range, 0, q);
    }
  }

  lemma {:induction false} QueryChildrenClosedFound(nodes: seq<Node>, n: nat, range: Box, k: nat, q: Point) returns (path: seq<nat>)
    requires n < |nodes| && ChildrenIndexed(nodes) && k <= |nodes[n].children|
    requires q in QueryChildrenClosed(nodes, n, range, k)
    ensures Path(nodes, path) && path[0] == n && q in nodes[path[|path| - 1]].points && Contains(range, q.pos)
    decreases |nodes| - n, 0, |nodes[n].children| - k
  {
    var c := nodes[n].children[k];
    if q in QueryRangeClosed(nodes, c, range) {
      var below := QueryClosedFound(nodes, c, range, q);
      path := [n] + below;
      assert forall i :: 0 < i < |path| ==> path[i] == below[i - 1];
    } else {
      path := QueryChildrenClosedFound(nodes, n, range, k + 1, q);
    }
  }

  /** The closed query returns every point stored below `n` that the range contains. */
  lemma {:induction false} QueryClosedComplete(nodes: seq<Node>, p: seq<nat>, range: Box, q: Point)
    requires Nested(nodes) && Stores(nodes) && Path(nodes, p)
    requires q in nodes[p[|p| - 1]].points && Contains(range, q.pos)
    ensures q in QueryRangeClosed(nodes, p[0], range)
    decreases |p|
  {
    var n, m := p[0], p[|p| - 1];
    PathInside(nodes, p);
    ContainsInside(nodes[m].boundary, nodes[n].boundary, q.pos);
    SharedPointOverlaps(nodes[n].boundary, range, q.pos);
    if |p| > 1 {
      var rest := p[1..];
      assert Path(nodes, rest);
      QueryClosedComplete(nodes, rest, range, q);
      var k :| 0 <= k < |nodes[n].children| && nodes[n].children[k] == p[1];
      ChildQueryIncluded(nodes, n, range, 0, k, q);
    }
  }

  lemma {:induction false} ChildQueryIncluded(nodes: seq<Node>, n: nat, range: Box, j: nat, k: nat, q: Point)
    requires n < |nodes| && ChildrenIndexed(nodes) && j <= k < |nodes[n].children|
    requires q in QueryRangeClosed(nodes, nodes[n].children[k], range)
    ensures q in QueryChildrenClosed(nodes, n, range, j)
    decreases k - j
  {
    if j < k {
      ChildQueryIncluded(nodes, n, range, j + 1, k, q);
    }
  }

  /** The corrected query from the root finds exactly the stored points inside the range. */
  lemma QueryRangeClosedExact(nodes: seq<Node>, capacity: nat, resolution: Option<real>, range: Box, q: Point)
    requires WellFormed(nodes, capacity, resolution)
    ensures q in QueryRangeClosed(nodes, 0, range) <==>
            (exists m :: 0 <= m < |nodes| && q in nodes[m].points) && Contains(range, q.pos)
  {
    WellFormedNested(nodes, capacity, resolution);
    if q in QueryRangeClosed(nodes, 0, range) {
      var path := QueryClosedFound(nodes, 0, range, q);
      var m := path[|path| - 1];
      assert 0 <= m < |nodes| && q in nodes[m].points;
    }
    if m :| 0 <= m < |nodes| && q in nodes[m].points {
      if Contains(range, q.pos) {
        assert Reaches(nodes, 0, m);
        var p :| Path(nodes, p) && p[0] == 0 && p[|p| - 1] == m;
        QueryClosedComplete(nodes, p, range, q);
      }
    }
  }

  /** A well-formed arena is nested and stores points only inside their nodes. */
  lemma WellFormedNested(nodes: seq<Node>, capacity: nat, resolution: Option<real>)
    requires WellFormed(nodes, capacity, resolution)
    ensures Nested(nodes) && Stores(nodes)
  {
    forall n, k | 0 <= n < |nodes| && 0 <= k < |nodes[n].children|
      ensures Inside(nodes[nodes[n].children[k]].boundary, nodes[n].boundary)
    {
      assert ChildrenOk(nodes, n) && NodeOk(nodes[n], capacity, resolution);
      QuadrantInside(nodes[n].boundary, k);
    }
  }

  // ---------------------------------------------------------------------------
  // Stored points and the growth of the arena

  /** Every point stored anywhere in the arena. */
  function Stored(nodes: seq<Node>): multiset<Point>
  {
    if nodes == [] then multiset{} else Stored(nodes[..|nodes| - 1]) + multiset(nodes[|nodes| - 1].points)
  }

  /** Adding the same multiset to both sides keeps an equation of multisets. */
  lemma AddToBoth<T>(a: multiset<T>, b: multiset<T>, x: multiset<T>, y: multiset<T>, l: multiset<T>)
    requires b + x == a + y
    ensures b + l + x == a + l + y
  {
    forall e
      ensures (b + l + x)[e] == (a + l + y)[e]
    {
      assert (b + x)[e] == (a + y)[e];
    }
  }

  /** Multiset union is associative. */
  lemma UnionAssoc<T>(a: multiset<T>, b: multiset<T>, c: multiset<T>)
    ensures a + b + c == a + (b + c)
  {
    forall e
      ensures (a + b + c)[e] == (a + (b + c))[e]
    {
    }
  }

  /** Replacing one node's points replaces exactly those points in `Stored`. */
  lemma {:induction false} StoredUpdate(nodes: seq<Node>, n: nat, node: Node)
    requires n < |nodes|
    ensures Stored(nodes[n := node]) + multiset(nodes[n].points) == Stored(nodes) + multiset(node.points)
    decreases |nodes|
  {
    var last := |nodes| - 1;
    var after := nodes[n := node];
    if n < last {
      assert after[..last] == nodes[..last][n := node] && after[last] == nodes[last];
      assert nodes[..last][n] == nodes[n];
      StoredUpdate(nodes[..last], n, node);
      AddToBoth(Stored(nodes[..last]), Stored(after[..last]), multiset(nodes[n].points), multiset(node.points),
                multiset(nodes[last].points));
    } else {
      assert after[..last] == nodes[..last] && after[last] == node;
    }
  }

  /** Appending nodes without points stores nothing new. */
  lemma {:induction false} StoredAppendEmpty(nodes: seq<Node>, extra: seq<Node>)
    requires forall i :: 0 <= i < |extra| ==> extra[i].points == []
    ensures Stored(nodes + extra) == Stored(nodes)
    decreases |extra|
  {
    if extra != [] {
      var shorter := extra[..|extra| - 1];
      var all := nodes + extra;
      assert all[..|all| - 1] == nodes + shorter;
      assert all[|all| - 1] == extra[|extra| - 1];
      assert multiset(all[|all| - 1].points) == multiset{};
      StoredAppendEmpty(nodes, shorter);
    } else {
      assert nodes + extra == nodes;
    }
  }

  /** A path survives in an arena where every node keeps its children, except nodes that
      had none. */
  lemma PathSurvives(a: seq<Node>, b: seq<Node>, p: seq<nat>)
    requires |a| <= |b| && Path(a, p)
    requires forall i :: 0 <= i < |a| ==> a[i].children == [] || b[i].children == a[i].children
    ensures Path(b, p)
  {
    forall i | 0 <= i < |p| - 1
      ensures p[i + 1] in b[p[i]].children
    {
      assert p[i + 1] in a[p[i]].children;
    }
  }

  lemma ReachesSurvives(a: seq<Node>, b: seq<Node>, m: nat)
    requires |a| <= |b| && Reaches(a, 0, m)
    requires forall i :: 0 <= i < |a| ==> a[i].children == [] || b[i].children == a[i].children
    ensures Reaches(b, 0, m)
  {
    var p :| Path(a, p) && p[0] == 0 && p[|p| - 1] == m;
    PathSurvives(a, b, p);
  }

  // ---------------------------------------------------------------------------
  // How far an insertion can go down

  /** The levels an insertion into node `n` may still descend: a leaf with room keeps the
      point (0), a full leaf divides and hands it to a new empty child (1), and a divided
      node is one level above its highest child. */
  function Height(nodes: seq<Node>, n: nat, capacity: nat): nat
    requires ChildrenIndexed(nodes) && n < |nodes|
    decreases |nodes| - n, 1
  {
    if nodes[n].children == [] then (if |nodes[n].points| >= capacity then 1 else 0)
    else 1 + ChildrenHeight(nodes, n, 0, capacity)
  }

  /** The highest of the children `k`, `k + 1`, ... of node `n`. */
  function ChildrenHeight(nodes: seq<Node>, n: nat, k: nat, capacity: nat): nat
    requires ChildrenIndexed(nodes) && n < |nodes| && k <= |nodes[n].children|
    decreases |nodes| - n, 0, |nodes[n].children| - k
  {
    if k == |nodes[n].children| then 0
    else
      var here, rest := Height(nodes, nodes[n].children[k], capacity), ChildrenHeight(nodes, n, k + 1, capacity);
      if here >= rest then here else rest
  }

  /** A child from `k` on is no higher than the highest of the children from `k` on. */
  lemma {:induction false} ChildWithin(nodes: seq<Node>, n: nat, k: nat, j: nat, capacity: nat)
    requires ChildrenIndexed(nodes) && n < |nodes| && k <= j < |nodes[n].children|
    ensures Height(nodes, nodes[n].children[j], capacity) <= ChildrenHeight(nodes, n, k, capacity)
    decreases j - k
  {
    if k < j {
      ChildWithin(nodes, n, k + 1, j, capacity);
    }
  }

  /** Every child sits lower than its parent. */
  lemma ChildLower(nodes: seq<Node>, n: nat, j: nat, capacity: nat)
    requires ChildrenIndexed(nodes) && n < |nodes| && j < |nodes[n].children|
    ensures Height(nodes, nodes[n].children[j], capacity) < Height(nodes, n, capacity)
  {
    ChildWithin(nodes, n, 0, j, capacity);
  }

  /** Dividing a full leaf leaves it one level high: its new children are empty leaves,
      which keep any point while the capacity is positive. */
  lemma SubdividedHeight(nodes: seq<Node>, n: nat, after: seq<Node>, capacity: nat)
    requires n < |nodes| && Divided(nodes, n, after) && ChildrenIndexed(after) && capacity > 0
    ensures Height(after, n, capacity) == 1
  {
    var l := |nodes|;
    assert after[l] == Node(Quadrant(nodes[n].boundary, 0), [], []);
    assert after[l + 1] == Node(Quadrant(nodes[n].boundary, 1), [], []);
    assert after[l + 2] == Node(Quadrant(nodes[n].boundary, 2), [], []);
    assert after[l + 3] == Node(Quadrant(nodes[n].boundary, 3), [], []);
    assert ChildrenHeight(after, n, 4, capacity) == 0;
    assert ChildrenHeight(after, n, 3, capacity) == 0;
    assert ChildrenHeight(after, n, 2, capacity) == 0;
    assert ChildrenHeight(after, n, 1, capacity) == 0;
    assert ChildrenHeight(after, n, 0, capacity) == 0;
  }

  // ---------------------------------------------------------------------------
  // Insertion

  /** Adding a contained point to a node with room, or to a leaf that may not divide,
      keeps the arena well formed. */
  lemma AppendPointWellFormed(nodes: seq<Node>, n: nat, p: Point, capacity: nat, resolution: Option<real>)
    requires WellFormed(nodes, capacity, resolution) && n < |nodes|
    requires Contains(nodes[n].boundary, p.pos)
    requires |nodes[n].points| < capacity || (nodes[n].children == [] && RefusesToDivide(nodes[n].boundary.width, resolution))
    ensures WellFormed(nodes[n := nodes[n].(points := nodes[n].points + [p])], capacity, resolution)
  {
    var after := nodes[n := nodes[n].(points := nodes[n].points + [p])];
    assert NodeOk(after[n], capacity, resolution);
    SameShapeWellFormed(nodes, after, capacity, resolution);
  }

  /** Changing only the points of nodes, each of which stays well formed by itself, keeps
      the arena well formed. */
  lemma SameShapeWellFormed(a: seq<Node>, b: seq<Node>, capacity: nat, resolution: Option<real>)
    requires WellFormed(a, capacity, resolution) && |b| == |a|
    requires forall i :: 0 <= i < |a| ==> b[i].boundary == a[i].boundary && b[i].children == a[i].children
    requires forall i :: 0 <= i < |b| ==> NodeOk(b[i], capacity, resolution)
    ensures WellFormed(b, capacity, resolution)
  {
    forall m | 0 <= m < |b|
      ensures ChildrenOk(b, m) && Reaches(b, 0, m)
    {
      assert ChildrenOk(a, m);
      ReachesSurvives(a, b, m);
    }
  }

  /** `subdivide`: below the resolution it refuses; otherwise the node gets four new empty
      children, its quadrants, appended to the arena. */
  method Subdivide(nodes: seq<Node>, n: nat, resolution: Option<real>) returns (after: seq<Node>, divided: bool)
    requires n < |nodes|
    ensures divided <==> !RefusesToDivide(nodes[n].boundary.width, resolution)
    ensures !divided ==> after == nodes
    ensures divided ==> Divided(nodes, n, after)
  {
    var b := nodes[n].boundary;
    if RefusesToDivide(b.width, resolution) {
      return nodes, false;
    }
    var l := |nodes|;
    var quads := [Node(Quadrant(b, 0), [], []), Node(Quadrant(b, 1), [], []), Node(Quadrant(b, 2), [], []), Node(Quadrant(b, 3), [], [])];
    after := nodes[n := nodes[n].(children := [l, l + 1, l + 2, l + 3])] + quads;
    divided := true;
  }

  /** What `Subdivide` leaves behind when it divides node `n`. */
  ghost predicate Divided(nodes: seq<Node>, n: nat, after: seq<Node>)
    requires n < |nodes|
  {
    && |after| == |nodes| + 4
    && after[n].children == [|nodes|, |nodes| + 1, |nodes| + 2, |nodes| + 3]
    && (forall i :: 0 <= i < |nodes| ==> after[i] == if i == n then nodes[n].(children := after[n].children) else nodes[i])
    && (forall k :: 0 <= k < 4 ==> after[|nodes| + k] == Node(Quadrant(nodes[n].boundary, k), [], []))
  }

  /** Subdividing a full leaf above the resolution keeps the arena well formed and stores
      the same points. */
  lemma SubdivideWellFormed(nodes: seq<Node>, n: nat, after: seq<Node>, capacity: nat, resolution: Option<real>)
    requires WellFormed(nodes, capacity, resolution) && n < |nodes|
    requires nodes[n].children == [] && !RefusesToDivide(nodes[n].boundary.width, resolution)
    requires Divided(nodes, n, after)
    ensures WellFormed(after, capacity, resolution)
    ensures Stored(after) == Stored(nodes)
  {
    var l := |nodes|;
    forall m | 0 <= m < l
      ensures ChildrenOk(after, m) && NodeOk(after[m], capacity, resolution) && Reaches(after, 0, m)
    {
      SubdivideKeepsOldNode(nodes, n, after, capacity, resolution, m);
    }
    forall j | l <= j < l + 4
      ensures ChildrenOk(after, j) && NodeOk(after[j], capacity, resolution) && Reaches(after, 0, j)
    {
      SubdivideNewNode(nodes, n, after, capacity, resolution, j);
    }
    SubdivideStored(nodes, n, after);
  }

  lemma SubdivideKeepsOldNode(nodes: seq<Node>, n: nat, after: seq<Node>, capacity: nat, resolution: Option<real>, m: nat)
    requires WellFormed(nodes, capacity, resolution) && n < |nodes| && m < |nodes|
    requires nodes[n].children == [] && !RefusesToDivide(nodes[n].boundary.width, resolution)
    requires Divided(nodes, n, after)
    ensures ChildrenOk(after, m) && NodeOk(after[m], capacity, resolution) && Reaches(after, 0, m)
  {
    assert ChildrenOk(nodes, m) && NodeOk(nodes[m], capacity, resolution);
    ReachesSurvives(nodes, after, m);
    if m == n {
      forall k | 0 <= k < 4
        ensures after[after[n].children[k]].boundary == Quadrant(after[n].boundary, k)
      {
        assert after[|nodes| + k] == Node(Quadrant(nodes[n].boundary, k), [], []);
      }
    } else {
      assert after[m] == nodes[m];
      if nodes[m].children != [] {
        forall k | 0 <= k < 4
          ensures after[after[m].children[k]].boundary == nodes[nodes[m].children[k]].boundary
        {
          assert nodes[m].children[k] < |nodes|;
        }
      }
    }
  }

  lemma SubdivideNewNode(nodes: seq<Node>, n: nat, after: seq<Node>, capacity: nat, resolution: Option<real>, j: nat)
    requires WellFormed(nodes, capacity, resolution) && n < |nodes| && |nodes| <= j < |nodes| + 4
    requires nodes[n].children == [] && !RefusesToDivide(nodes[n].boundary.width, resolution)
    requires Divided(nodes, n, after)
    ensures ChildrenOk(after, j) && NodeOk(after[j], capacity, resolution) && Reaches(after, 0, j)
  {
    assert NodeOk(nodes[n], capacity, resolution);
    assert after[j] == Node(Quadrant(nodes[n].boundary, j - |nodes|), [], []);
    ReachesSurvives(nodes, after, n);
    var pn :| Path(after, pn) && pn[0] == 0 && pn[|pn| - 1] == n;
    var pj := pn + [j];
    assert after[n].children[j - |nodes|] == j;
    assert Path(after, pj);
  }

  lemma SubdivideStored(nodes: seq<Node>, n: nat, after: seq<Node>)
    requires n < |nodes| && Divided(nodes, n, after)
    ensures Stored(after) == Stored(nodes)
  {
    var l := |nodes|;
    var head := nodes[n := after[n]];
    var tail := after[l..];
    assert after == head + tail;
    forall j | 0 <= j < |tail| ensures tail[j].points == [] {
      assert tail[j] == after[l + j] == Node(Quadrant(nodes[n].boundary, j), [], []);
    }
    assert after[n].points == nodes[n].points;
    StoredUpdate(nodes, n, after[n]);
    var here := multiset(nodes[n].points);
    forall x ensures Stored(head)[x] == Stored(nodes)[x] {
      assert (Stored(head) + here)[x] == (Stored(nodes) + here)[x];
    }
    assert Stored(head) == Stored(nodes);
    StoredAppendEmpty(head, tail);
  }

  /** Appending a point to one node stores exactly that point more. */
  lemma StoredAppendPoint(nodes: seq<Node>, n: nat, p: Point)
    requires n < |nodes|
    ensures Stored(nodes[n := nodes[n].(points := nodes[n].points + [p])]) == Stored(nodes) + multiset{p}
  {
    var node := nodes[n].(points := nodes[n].points + [p]);
    StoredUpdate(nodes, n, node);
    var here := multiset(nodes[n].points);
    assert multiset(node.points) == here + multiset{p};
    forall x ensures Stored(nodes[n := node])[x] == (Stored(nodes) + multiset{p})[x] {
      assert (Stored(nodes[n := node]) + here)[x] == (Stored(nodes) + here + multiset{p})[x];
    }
  }

  /** `insert` on node `n`. A point outside the node's box is refused and nothing changes.
      A node with room stores it. A full leaf that may not divide stores it beyond its
      capacity. Otherwise the node divides if it has no children yet (keeping its own
      points) and hands the point to the first child, in nw, ne, sw, se order, whose box
      contains it, returning that child. Either way exactly one node, `holder`, receives
      the point. */
  method InsertAt(nodes: seq<Node>, n: nat, p: Point, capacity: nat, resolution: Option<real>)
    returns (after: seq<Node>, r: Option<nat>, holder: nat)
    requires WellFormed(nodes, capacity, resolution) && n < |nodes| && capacity > 0
    ensures WellFormed(after, capacity, resolution)
    ensures |after| >= |nodes| && forall i :: 0 <= i < |nodes| ==> after[i].boundary == nodes[i].boundary
    ensures forall i :: 0 <= i < n ==> after[i] == nodes[i]
    ensures r.None? <==> !Contains(nodes[n].boundary, p.pos)
    ensures r.None? ==> after == nodes
    ensures r.Some? ==> n <= holder < |after| && p in after[holder].points && Stored(after) == Stored(nodes) + multiset{p}
    ensures r.Some? && (|nodes[n].points| < capacity || (nodes[n].children == [] && RefusesToDivide(nodes[n].boundary.width, resolution))) ==>
      r == Some(n) && holder == n && after == nodes[n := nodes[n].(points := nodes[n].points + [p])]
    ensures r.Some? && |nodes[n].points| >= capacity && (nodes[n].children != [] || !RefusesToDivide(nodes[n].boundary.width, resolution)) ==>
      |after[n].children| == 4 && r == Some(after[n].children[FirstQuadrant(nodes[n].boundary, p.pos)]) && holder > n
    decreases Height(nodes, n, capacity), 2
  {
    var b := nodes[n].boundary;
    assert NodeOk(nodes[n], capacity, resolution) && ChildrenOk(nodes, n);
    if !Contains(b, p.pos) {
      return nodes, None, 0;
    }
    if |nodes[n].points| < capacity || (nodes[n].children == [] && RefusesToDivide(b.width, resolution)) {
      // room left, or a leaf that `subdivide` refuses to divide: the point stays here
      after, r, holder := nodes[n := nodes[n].(points := nodes[n].points + [p])], Some(n), n;
      AppendHere(nodes, n, p, capacity, resolution);
      return;
    }
    after, r, holder := Descend(nodes, n, p, capacity, resolution);
  }

  /** The rest of `insert` at a full node `n` that contains `p`: a leaf is subdivided
      first, then the point goes to the first child that takes it. */
  method Descend(nodes: seq<Node>, n: nat, p: Point, capacity: nat, resolution: Option<real>)
    returns (after: seq<Node>, r: Option<nat>, holder: nat)
    requires WellFormed(nodes, capacity, resolution) && n < |nodes| && capacity > 0
    requires Contains(nodes[n].boundary, p.pos) && |nodes[n].points| >= capacity
    requires nodes[n].children != [] || !RefusesToDivide(nodes[n].boundary.width, resolution)
    ensures WellFormed(after, capacity, resolution)
    ensures |after| >= |nodes| && forall i :: 0 <= i < |nodes| ==> after[i].boundary == nodes[i].boundary
    ensures forall i :: 0 <= i < n ==> after[i] == nodes[i]
    ensures n < holder < |after| && p in after[holder].points && Stored(after) == Stored(nodes) + multiset{p}
    ensures |after[n].children| == 4 && r == Some(after[n].children[FirstQuadrant(nodes[n].boundary, p.pos)])
    decreases Height(nodes, n, capacity), 1
  {
    var cur := nodes;
    if nodes[n].children == [] {
      var divided;
      cur, divided := Subdivide(nodes, n, resolution);
      SubdivideWellFormed(nodes, n, cur, capacity, resolution);
      SubdividedHeight(nodes, n, cur, capacity);
    }
    after, r, holder := InsertIntoChildren(cur, n, p, capacity, resolution);
  }

  /** What keeping `p` at node `n` does to the arena. */
  lemma AppendHere(nodes: seq<Node>, n: nat, p: Point, capacity: nat, resolution: Option<real>)
    requires WellFormed(nodes, capacity, resolution) && n < |nodes| && Contains(nodes[n].boundary, p.pos)
    requires |nodes[n].points| < capacity || (nodes[n].children == [] && RefusesToDivide(nodes[n].boundary.width, resolution))
    ensures var after := nodes[n := nodes[n].(points := nodes[n].points + [p])];
      && WellFormed(after, capacity, resolution)
      && |after| == |nodes| && (forall i :: 0 <= i < |nodes| ==> after[i].boundary == nodes[i].boundary)
      && p in after[n].points && Stored(after) == Stored(nodes) + multiset{p}
  {
    AppendPointWellFormed(nodes, n, p, capacity, resolution);
    StoredAppendPoint(nodes, n, p);
  }

  /** The loop of `insert` over the children of a divided node `n` that contains `p`:
      offer the point to each child in turn and stop at the first that takes it. */
  method InsertIntoChildren(nodes: seq<Node>, n: nat, p: Point, capacity: nat, resolution: Option<real>)
    returns (after: seq<Node>, r: Option<nat>, holder: nat)
    requires WellFormed(nodes, capacity, resolution) && n < |nodes| && capacity > 0
    requires nodes[n].children != [] && Contains(nodes[n].boundary, p.pos)
    ensures WellFormed(after, capacity, resolution)
    ensures |after| >= |nodes| && forall i :: 0 <= i < |nodes| ==> after[i].boundary == nodes[i].boundary
    ensures forall i :: 0 <= i <= n ==> after[i] == nodes[i]
    ensures n < holder < |after| && p in after[holder].points && Stored(after) == Stored(nodes) + multiset{p}
    ensures |nodes[n].children| == 4 && r == Some(nodes[n].children[FirstQuadrant(nodes[n].boundary, p.pos)])
    decreases Height(nodes, n, capacity), 0
  {
    var b := nodes[n].boundary;
    assert ChildrenOk(nodes, n) && NodeOk(nodes[n], capacity, resolution);
    ghost var first := FirstQuadrant(b, p.pos);
    var k := 0;
    while k < 4
      invariant 0 <= k <= first
      invariant forall j :: 0 <= j < k ==> !Contains(Quadrant(b, j), p.pos)
    {
      var c := nodes[n].children[k];
      assert nodes[c].boundary == Quadrant(b, k);
      ChildLower(nodes, n, k, capacity);
      var nn, rr, hh := InsertAt(nodes, c, p, capacity, resolution);
      if rr.Some? {
        assert k == first by {
          assert Contains(Quadrant(b, k), p.pos);
        }
        assert n < c;
        return nn, Some(c), hh;
      }
      assert !Contains(Quadrant(b, k), p.pos);
      k := k + 1;
    }
    assert false;
  }

  // ---------------------------------------------------------------------------
  // The subdivision guard

  /** `Math.floor(width) <= resolution`, where an unset resolution is `undefined`: a
      comparison with `undefined` is false in JavaScript. */
  predicate RefusesToDivide(width: real, resolution: Option<real>)
  {
    resolution.Some? && width.Floor as real <= resolution.value
  }

  /** As written, the manager never sets a resolution, so `subdivide` never refuses and
      no node of the tree ever holds more than `capacity` points, however small it gets. */
  lemma UnsetResolutionKeepsCapacity(nodes: seq<Node>, capacity: nat, m: nat)
    requires WellFormed(nodes, capacity, None) && m < |nodes|
    ensures |nodes[m].points| <= capacity
  {
    assert NodeOk(nodes[m], capacity, None);
  }

  /** With a resolution of at least zero, a node with children is at least one unit wide
      and wider than the resolution, and every other node is more than half the
      resolution wide: division stops. */
  lemma DividedNodesAboveResolution(nodes: seq<Node>, capacity: nat, resolution: real, m: nat)
    requires WellFormed(nodes, capacity, Some(resolution)) && resolution >= 0.0 && m < |nodes|
    ensures nodes[m].children != [] ==> nodes[m].boundary.width >= 1.0 && nodes[m].boundary.width > resolution
    ensures m > 0 ==> nodes[m].boundary.width > resolution / 2.0
  {
    assert NodeOk(nodes[m], capacity, Some(resolution));
    var wm := nodes[m].boundary.width;
    assert wm.Floor as real <= wm;
    if m > 0 {
      assert Reaches(nodes, 0, m);
      var p :| Path(nodes, p) && p[0] == 0 && p[|p| - 1] == m;
      var parent := p[|p| - 2];
      assert m in nodes[parent].children;
      var k :| 0 <= k < |nodes[parent].children| && nodes[parent].children[k] == m;
      assert ChildrenOk(nodes, parent) && NodeOk(nodes[parent], capacity, Some(resolution));
      assert nodes[m].boundary == Quadrant(nodes[parent].boundary, k);
      var w := nodes[parent].boundary.width;
      assert w.Floor as real <= w;
    }
  }

  // ---------------------------------------------------------------------------
  // Removal and registration helpers

  /** `removePoint`: the node's points without those carrying `id`. */
  function RemoveId(ps: seq<Point>, id: ObjId): (r: seq<Point>)
    ensures forall q :: multiset(r)[q] == if q.id == id then 0 else multiset(ps)[q]
    ensures |r| <= |ps|
  {
    if ps == [] then []
    else
      assert ps == [ps[0]] + ps[1..];
      (if ps[0].id == id then [] else [ps[0]]) + RemoveId(ps[1..], id)
  }

  /** `allPoints.delete(id)` on the map's keys in insertion order. */
  function DeleteKey(keys: seq<ObjId>, id: ObjId): (r: seq<ObjId>)
    ensures forall k :: k in r <==> k in keys && k != id
  {
    if keys == [] then []
    else (if keys[0] == id then [] else [keys[0]]) + DeleteKey(keys[1..], id)
  }

  /** Deleting a key keeps the keys distinct. */
  lemma {:induction false} DeleteKeyDistinct(keys: seq<ObjId>, id: ObjId)
    requires Distinct(keys)
    ensures Distinct(DeleteKey(keys, id))
    decreases |keys|
  {
    if keys != [] {
      assert Distinct(keys[1..]);
      DeleteKeyDistinct(keys[1..], id);
      assert keys[0] !in keys[1..];
    }
  }

  /** `allPoints.set(id, ...)`: a new key goes last, an existing key keeps its place. */
  function SetKey(keys: seq<ObjId>, id: ObjId): (r: seq<ObjId>)
    ensures id in keys ==> r == keys
    ensures id !in keys ==> r == keys + [id]
    ensures Distinct(keys) ==> Distinct(r)
  {
    if id in keys then keys else keys + [id]
  }

  /** The keys after setting the ids of `ps` in order. */
  function Register(keys: seq<ObjId>, ps: seq<Point>): (r: seq<ObjId>)
    ensures forall k :: k in r <==> k in keys || exists q :: q in ps && q.id == k
    ensures Distinct(keys) ==> Distinct(r)
    ensures keys <= r
    decreases |ps|
  {
    if ps == [] then keys else Register(SetKey(keys, ps[0].id), ps[1..])
  }

  predicate Distinct(keys: seq<ObjId>)
  {
    forall i, j :: 0 <= i < j < |keys| ==> keys[i] != keys[j]
  }

  lemma {:induction false} RegisterAppend(keys: seq<ObjId>, ps: seq<Point>, q: Point)
    ensures Register(keys, ps + [q]) == SetKey(Register(keys, ps), q.id)
    decreases |ps|
  {
    if ps == [] {
      assert [] + [q] == [q];
    } else {
      assert (ps + [q])[1..] == ps[1..] + [q];
      RegisterAppend(SetKey(keys, ps[0].id), ps[1..], q);
    }
  }

  lemma {:induction false} InRangeAppend(a: seq<Point>, b: seq<Point>, range: Box)
    ensures InRange(a + b, range) == InRange(a, range) + InRange(b, range)
    decreases |a|
  {
    if a == [] {
      assert [] + b == b;
    } else {
      assert (a + b)[1..] == a[1..] + b;
      InRangeAppend(a[1..], b, range);
    }
  }

  /** The points of `ps` that a root over `root` accepts, counted with repetition. */
  function Accepted(ps: seq<Point>, root: Box): multiset<Point>
  {
    if ps == [] then multiset{}
    else Accepted(ps[..|ps| - 1], root) + if Contains(root, ps[|ps| - 1].pos) then multiset{ps[|ps| - 1]} else multiset{}
  }

  /** `Accepted` counts the points `InRange` keeps. */
  lemma {:induction false} AcceptedIsInRange(ps: seq<Point>, root: Box)
    ensures Accepted(ps, root) == multiset(InRange(ps, root))
    decreases |ps|
  {
    if ps != [] {
      var init, last := ps[..|ps| - 1], ps[|ps| - 1];
      assert ps == init + [last];
      AcceptedIsInRange(init, root);
      InRangeAppend(init, [last], root);
    }
  }

  /** The points `redistributeNodes` inserts: each key with its object's position. */
  function PointsOf(keys: seq<ObjId>, positions: map<ObjId, Pos>): (ps: seq<Point>)
    requires forall k :: k in keys ==> k in positions
    ensures |ps| == |keys| && forall i :: 0 <= i < |keys| ==> ps[i] == Point(keys[i], positions[keys[i]])
  {
    if keys == [] then [] else PointsOf(keys[..|keys| - 1], positions) + [Point(keys[|keys| - 1], positions[keys[|keys| - 1]])]
  }

  /** Removing points from a node keeps the arena well formed. */
  lemma RemoveIdWellFormed(nodes: seq<Node>, n: nat, id: ObjId, capacity: nat, resolution: Option<real>)
    requires WellFormed(nodes, capacity, resolution) && n < |nodes|
    ensures WellFormed(nodes[n := nodes[n].(points := RemoveId(nodes[n].points, id))], capacity, resolution)
  {
    var ps := RemoveId(nodes[n].points, id);
    var after := nodes[n := nodes[n].(points := ps)];
    assert NodeOk(nodes[n], capacity, resolution);
    assert forall q :: q in ps ==> q in nodes[n].points by {
      forall q | q in ps ensures q in nodes[n].points {
        assert multiset(ps)[q] > 0;
      }
    }
    assert NodeOk(after[n], capacity, resolution);
    SameShapeWellFormed(nodes, after, capacity, resolution);
  }

  // ---------------------------------------------------------------------------
  // The id counter

  /** `Id`: a cursor handing out 0, 1, 2, ... until cleared. */
  class IdCounter {
    var cursor: nat

    constructor()
      ensures cursor == 0
    {
      cursor := 0;
    }

    /** `generate`: the current cursor, then one more. */
    method Generate() returns (id: nat)
      modifies this
      ensures id == old(cursor) && cursor == old(cursor) + 1
    {
      id := cursor;
      cursor := cursor + 1;
    }

    /** `clear`: start again from 0. */
    method Clear()
      modifies this
      ensures cursor == 0
    {
      cursor := 0;
    }
  }

  // ---------------------------------------------------------------------------
  // The tree

  /** A well-formed arena and a `quadNode` record whose nodes exist in it. */
  ghost predicate Placed(nodes: seq<Node>, quadNode: map<ObjId, nat>, capacity: nat, resolution: Option<real>)
  {
    && WellFormed(nodes, capacity, resolution)
    && forall k :: k in quadNode ==> quadNode[k] < |nodes|
  }

  ghost predicate StateOk(capacity: nat, resolution: Option<real>, rootBoundary: Box, nodes: seq<Node>, quadNode: map<ObjId, nat>, allPoints: seq<ObjId>)
  {
    && capacity > 0
    && rootBoundary.padding == 0.0 && rootBoundary.width > 0.0 && rootBoundary.height > 0.0
    && Placed(nodes, quadNode, capacity, resolution)
    && Distinct(allPoints)
  }

  /** `root.insert(point)`, seen from the tree: the node that received the point, if the
      root's box contains it. */
  method InsertRoot(nodes: seq<Node>, p: Point, capacity: nat, resolution: Option<real>) returns (after: seq<Node>, holder: Option<nat>)
    requires WellFormed(nodes, capacity, resolution) && capacity > 0
    ensures WellFormed(after, capacity, resolution)
    ensures |after| >= |nodes| && after[0].boundary == nodes[0].boundary
    ensures holder.Some? <==> Contains(nodes[0].boundary, p.pos)
    ensures holder.Some? ==> holder.value < |after| && p in after[holder.value].points
    ensures Stored(after) == Stored(nodes) + if Contains(nodes[0].boundary, p.pos) then multiset{p} else multiset{}
  {
    var r, h;
    after, r, h := InsertAt(nodes, 0, p, capacity, resolution);
    holder := if r.Some? then Some(h) else None;
  }

  /** What `_addPoint` does when a root exists: the object's key is set; the root's box
      is unchanged and the tree stores the new point if that box contains it, nothing
      else; the object's new point has a `quadNode`, the node that holds it, and its
      `_tree` set exactly when it was stored. */
  ghost predicate PointAdded(nodes: seq<Node>, keys: seq<ObjId>, quadNode: map<ObjId, nat>, inTree: set<ObjId>,
                             pos: Pos, id: ObjId,
                             nodes': seq<Node>, keys': seq<ObjId>, quadNode': map<ObjId, nat>, inTree': set<ObjId>)
    requires |nodes| >= 1
  {
    && |nodes'| >= |nodes| && nodes'[0].boundary == nodes[0].boundary
    && keys' == SetKey(keys, id)
    && Stored(nodes') == Stored(nodes) + (if Contains(nodes[0].boundary, pos) then multiset{Point(id, pos)} else multiset{})
    && (id in quadNode' <==> Contains(nodes[0].boundary, pos))
    && (id in quadNode' ==> quadNode'[id] < |nodes'| && Point(id, pos) in nodes'[quadNode'[id]].points)
    && (forall k :: k != id ==> (k in quadNode' <==> k in quadNode) && (k in quadNode ==> quadNode'[k] == quadNode[k]))
    && inTree' == (if id in quadNode' then inTree + {id} else inTree - {id})
  }

  /** The effect of `_addPoint` on the arena, the registered keys, each object's
      `quadNode` and the objects whose point has its `_tree` set, when a root exists. */
  method AddPointAt(nodes: seq<Node>, keys: seq<ObjId>, quadNode: map<ObjId, nat>, inTree: set<ObjId>,
                    pos: Pos, id: ObjId, capacity: nat, resolution: Option<real>)
    returns (nodes': seq<Node>, keys': seq<ObjId>, quadNode': map<ObjId, nat>, inTree': set<ObjId>)
    requires Placed(nodes, quadNode, capacity, resolution) && capacity > 0
    ensures Placed(nodes', quadNode', capacity, resolution)
    ensures PointAdded(nodes, keys, quadNode, inTree, pos, id, nodes', keys', quadNode', inTree')
  {
    keys' := SetKey(keys, id);
    var holder;
    nodes', holder := InsertRoot(nodes, Point(id, pos), capacity, resolution);
    if holder.Some? {
      quadNode', inTree' := quadNode[id := holder.value], inTree + {id};
    } else {
      quadNode', inTree' := quadNode - {id}, inTree - {id};
    }
  }

  /** The effect of adding the queue `q`: every point is registered in order, the tree
      stores in addition exactly those inside the root's box, and the root keeps its box. */
  ghost predicate QueueAdded(nodes: seq<Node>, keys: seq<ObjId>, q: seq<Point>, nodes': seq<Node>, keys': seq<ObjId>)
    requires |nodes| >= 1
  {
    && |nodes'| >= 1 && nodes'[0].boundary == nodes[0].boundary
    && keys' == Register(keys, q)
    && Stored(nodes') == Stored(nodes) + Accepted(q, nodes[0].boundary)
  }

  /** `Accepted` grows by the last point when the root's box contains it. */
  lemma AcceptedSnoc(ps: seq<Point>, p: Point, root: Box)
    ensures Accepted(ps + [p], root) == Accepted(ps, root) + if Contains(root, p.pos) then multiset{p} else multiset{}
  {
    assert (ps + [p])[..|ps|] == ps;
  }

  /** Registering and accepting one more point of `q`. */
  lemma PrefixStep(keys: seq<ObjId>, q: seq<Point>, i: nat, root: Box)
    requires i < |q|
    ensures Register(keys, q[..i + 1]) == SetKey(Register(keys, q[..i]), q[i].id)
    ensures Accepted(q[..i + 1], root) == Accepted(q[..i], root) + if Contains(root, q[i].pos) then multiset{q[i]} else multiset{}
  {
    assert q[..i + 1] == q[..i] + [q[i]];
    RegisterAppend(keys, q[..i], q[i]);
    AcceptedSnoc(q[..i], q[i], root);
  }

  /** Adding the next queued point extends the effect of adding the queue so far. */
  lemma QueueAddedStep(nodes: seq<Node>, keys: seq<ObjId>, q: seq<Point>, i: nat,
                       nodes1: seq<Node>, keys1: seq<ObjId>, quadNode1: map<ObjId, nat>, inTree1: set<ObjId>,
                       nodes2: seq<Node>, keys2: seq<ObjId>, quadNode2: map<ObjId, nat>, inTree2: set<ObjId>)
    requires i < |q| && |nodes| >= 1 && QueueAdded(nodes, keys, q[..i], nodes1, keys1)
    requires PointAdded(nodes1, keys1, quadNode1, inTree1, q[i].pos, q[i].id, nodes2, keys2, quadNode2, inTree2)
    ensures QueueAdded(nodes, keys, q[..i + 1], nodes2, keys2)
  {
    var p := q[i];
    PrefixStep(keys, q, i, nodes[0].boundary);
    var x := if Contains(nodes[0].boundary, p.pos) then multiset{p} else multiset{};
    UnionAssoc(Stored(nodes), Accepted(q[..i], nodes[0].boundary), x);
  }

  /** The position of the last point of `q` with id `k`, if any: an object queued twice
      ends up with the point of its last `addItem`. */
  function LastQueued(q: seq<Point>, k: ObjId): (r: Option<Pos>)
    ensures r.Some? <==> exists p :: p in q && p.id == k
    ensures r.Some? ==> Point(k, r.value) in q
  {
    if q == [] then None
    else if q[|q| - 1].id == k then Some(q[|q| - 1].pos)
    else
      var r := LastQueued(q[..|q| - 1], k);
      assert forall p :: p in q[..|q| - 1] ==> p in q;
      assert forall p :: p in q && p.id == k ==> p in q[..|q| - 1] by {
        forall p | p in q && p.id == k ensures p in q[..|q| - 1] {
          var j :| 0 <= j < |q| && q[j] == p;
          assert j < |q| - 1;
          assert q[..|q| - 1][j] == p;
        }
      }
      r
  }

  /** Each object's `quadNode` and `_tree` flag after adding the queue `q` below a root
      over `root`: an object of the queue is placed exactly when the root's box contains
      its last queued position, and has its flag set exactly then; any other object keeps
      its node and its flag. */
  ghost predicate QueuePlaced(q: seq<Point>, root: Box, quadNode: map<ObjId, nat>, inTree: set<ObjId>,
                              quadNode': map<ObjId, nat>, inTree': set<ObjId>)
  {
    && (forall k :: LastQueued(q, k).Some? ==>
          (k in quadNode' <==> Contains(root, LastQueued(q, k).value)) && (k in inTree' <==> k in quadNode'))
    && (forall k :: LastQueued(q, k).None? ==>
          && (k in quadNode' <==> k in quadNode) && (k in quadNode ==> quadNode'[k] == quadNode[k])
          && (k in inTree' <==> k in inTree))
  }

  /** Adding the next queued point extends the placement of the queue so far. */
  lemma QueuePlacedStep(q: seq<Point>, i: nat, nodes1: seq<Node>, root: Box, quadNode: map<ObjId, nat>, inTree: set<ObjId>,
                        keys1: seq<ObjId>, quadNode1: map<ObjId, nat>, inTree1: set<ObjId>,
                        nodes2: seq<Node>, keys2: seq<ObjId>, quadNode2: map<ObjId, nat>, inTree2: set<ObjId>)
    requires i < |q| && |nodes1| >= 1 && nodes1[0].boundary == root
    requires QueuePlaced(q[..i], root, quadNode, inTree, quadNode1, inTree1)
    requires PointAdded(nodes1, keys1, quadNode1, inTree1, q[i].pos, q[i].id, nodes2, keys2, quadNode2, inTree2)
    ensures QueuePlaced(q[..i + 1], root, quadNode, inTree, quadNode2, inTree2)
  {
    assert q[..i + 1][..i] == q[..i];
    forall k
      ensures LastQueued(q[..i + 1], k) == if k == q[i].id then Some(q[i].pos) else LastQueued(q[..i], k)
    {
    }
  }

  /** The loop of `addQueuedPoints`: the queued points are added one after another. */
  method AddAllAt(nodes: seq<Node>, keys: seq<ObjId>, quadNode: map<ObjId, nat>, inTree: set<ObjId>,
                  q: seq<Point>, capacity: nat, resolution: Option<real>)
    returns (nodes': seq<Node>, keys': seq<ObjId>, quadNode': map<ObjId, nat>, inTree': set<ObjId>)
    requires Placed(nodes, quadNode, capacity, resolution) && capacity > 0
    ensures Placed(nodes', quadNode', capacity, resolution)
    ensures QueueAdded(nodes, keys, q, nodes', keys')
    ensures QueuePlaced(q, nodes[0].boundary, quadNode, inTree, quadNode', inTree')
  {
    nodes', keys', quadNode', inTree' := nodes, keys, quadNode, inTree;
    var i := 0;
    assert q[..0] == [];
    while i < |q|
      invariant 0 <= i <= |q|
      invariant Placed(nodes', quadNode', capacity, resolution)
      invariant QueueAdded(nodes, keys, q[..i], nodes', keys')
      invariant QueuePlaced(q[..i], nodes[0].boundary, quadNode, inTree, quadNode', inTree')
    {
      var n1, k1, qn1, it1 := nodes', keys', quadNode', inTree';
      nodes', keys', quadNode', inTree' := AddPointAt(n1, k1, qn1, it1, q[i].pos, q[i].id, capacity, resolution);
      QueueAddedStep(nodes, keys, q, i, n1, k1, qn1, it1, nodes', keys', quadNode', inTree');
      QueuePlacedStep(q, i, n1, nodes[0].boundary, quadNode, inTree, k1, qn1, it1, nodes', keys', quadNode', inTree');
      i := i + 1;
    }
    assert q[..i] == q;
  }

  /** `AddAllAt` on a well-formed tree state keeps it well formed. */
  method AddAllKept(rootBoundary: Box, nodes: seq<Node>, keys: seq<ObjId>, quadNode: map<ObjId, nat>, inTree: set<ObjId>,
                    q: seq<Point>, capacity: nat, resolution: Option<real>)
    returns (nodes': seq<Node>, keys': seq<ObjId>, quadNode': map<ObjId, nat>, inTree': set<ObjId>)
    requires StateOk(capacity, resolution, rootBoundary, nodes, quadNode, keys)
    ensures StateOk(capacity, resolution, rootBoundary, nodes', quadNode', keys')
    ensures QueueAdded(nodes, keys, q, nodes', keys')
    ensures QueuePlaced(q, nodes[0].boundary, quadNode, inTree, quadNode', inTree')
  {
    nodes', keys', quadNode', inTree' := AddAllAt(nodes, keys, quadNode, inTree, q, capacity, resolution);
  }

  /** The effect of adding every key of `keys` again below a fresh root over `root`: the
      tree stores exactly the keys' points inside the box, those keys are the placed ones,
      and their `_tree` flag follows; the flag of any other object is left as it was. */
  ghost predicate Redistributed(keys: seq<ObjId>, positions: map<ObjId, Pos>, root: Box, inTree: set<ObjId>,
                                nodes': seq<Node>, quadNode': map<ObjId, nat>, inTree': set<ObjId>)
    requires forall k :: k in keys ==> k in positions
  {
    && |nodes'| >= 1 && nodes'[0].boundary == root
    && Stored(nodes') == Accepted(PointsOf(keys, positions), root)
    && (forall k :: k in quadNode' <==> k in keys && Contains(root, positions[k]))
    && (forall k :: k in inTree' <==> if k in keys then k in quadNode' else k in inTree)
  }

  /** `Accepted` over the points of one more key. */
  lemma AcceptedPointsOfStep(keys: seq<ObjId>, i: nat, positions: map<ObjId, Pos>, root: Box)
    requires i < |keys| && forall x :: x in keys ==> x in positions
    ensures var p := Point(keys[i], positions[keys[i]]);
            Accepted(PointsOf(keys[..i + 1], positions), root)
            == Accepted(PointsOf(keys[..i], positions), root) + if Contains(root, p.pos) then multiset{p} else multiset{}
  {
    assert keys[..i + 1][..i] == keys[..i];
    var ps := PointsOf(keys[..i], positions);
    assert PointsOf(keys[..i + 1], positions) == ps + [Point(keys[i], positions[keys[i]])];
    AcceptedSnoc(ps, Point(keys[i], positions[keys[i]]), root);
  }

  /** Which keys are placed, and the `_tree` flags, after adding the next key. */
  lemma PlacedStep(keys: seq<ObjId>, i: nat, positions: map<ObjId, Pos>, root: Box, inTree: set<ObjId>,
                   quadNode1: map<ObjId, nat>, inTree1: set<ObjId>, quadNode2: map<ObjId, nat>, inTree2: set<ObjId>)
    requires i < |keys| && Distinct(keys) && forall x :: x in keys ==> x in positions
    requires forall x :: x in quadNode1 <==> x in keys[..i] && Contains(root, positions[x])
    requires forall x :: x in inTree1 <==> if x in keys[..i] then x in quadNode1 else x in inTree
    requires keys[i] in quadNode2 <==> Contains(root, positions[keys[i]])
    requires forall x :: x != keys[i] ==> (x in quadNode2 <==> x in quadNode1)
    requires inTree2 == if keys[i] in quadNode2 then inTree1 + {keys[i]} else inTree1 - {keys[i]}
    ensures forall x :: x in quadNode2 <==> x in keys[..i + 1] && Contains(root, positions[x])
    ensures forall x :: x in inTree2 <==> if x in keys[..i + 1] then x in quadNode2 else x in inTree
  {
    var k := keys[i];
    assert k !in keys[..i];
    assert keys[..i + 1] == keys[..i] + [k];
  }

  /** Adding the next key, not added before, extends the effect of redistributing the
      keys so far. */
  lemma RedistributedStep(keys: seq<ObjId>, i: nat, positions: map<ObjId, Pos>, root: Box, inTree: set<ObjId>,
                          nodes1: seq<Node>, keys1: seq<ObjId>, quadNode1: map<ObjId, nat>, inTree1: set<ObjId>,
                          nodes2: seq<Node>, keys2: seq<ObjId>, quadNode2: map<ObjId, nat>, inTree2: set<ObjId>)
    requires i < |keys| && Distinct(keys) && forall x :: x in keys ==> x in positions
    requires Redistributed(keys[..i], positions, root, inTree, nodes1, quadNode1, inTree1)
    requires PointAdded(nodes1, keys1, quadNode1, inTree1, positions[keys[i]], keys[i], nodes2, keys2, quadNode2, inTree2)
    ensures Redistributed(keys[..i + 1], positions, root, inTree, nodes2, quadNode2, inTree2)
  {
    assert Stored(nodes2) == Accepted(PointsOf(keys[..i + 1], positions), root) by {
      AcceptedPointsOfStep(keys, i, positions, root);
    }
    PlacedStep(keys, i, positions, root, inTree, quadNode1, inTree1, quadNode2, inTree2);
  }

  /** The loop of `redistributeNodes`: every key is added again at its position. */
  method ReAddAllAt(nodes: seq<Node>, quadNode: map<ObjId, nat>, inTree: set<ObjId>,
                    keys: seq<ObjId>, positions: map<ObjId, Pos>, capacity: nat, resolution: Option<real>)
    returns (nodes': seq<Node>, quadNode': map<ObjId, nat>, inTree': set<ObjId>)
    requires WellFormed(nodes, capacity, resolution) && capacity > 0
    requires Distinct(keys) && forall k :: k in keys ==> k in positions
    requires Stored(nodes) == multiset{} && quadNode == map[]
    ensures Placed(nodes', quadNode', capacity, resolution)
    ensures Redistributed(keys, positions, nodes[0].boundary, inTree, nodes', quadNode', inTree')
  {
    ghost var root := nodes[0].boundary;
    nodes', quadNode', inTree' := nodes, quadNode, inTree;
    var ks := keys;
    var i := 0;
    while i < |keys|
      invariant 0 <= i <= |keys|
      invariant Placed(nodes', quadNode', capacity, resolution)
      invariant Redistributed(keys[..i], positions, root, inTree, nodes', quadNode', inTree')
    {
      var n1, k1, qn1, it1 := nodes', ks, quadNode', inTree';
      nodes', ks, quadNode', inTree' := AddPointAt(n1, k1, qn1, it1, positions[keys[i]], keys[i], capacity, resolution);
      RedistributedStep(keys, i, positions, root, inTree, n1, k1, qn1, it1, nodes', ks, quadNode', inTree');
      i := i + 1;
    }
    assert keys[..i] == keys;
  }

  /** `QuadTree`. `allPoints` holds the keys of the source's `allPoints` map in insertion
      order; the objects' positions are read through a `positions` argument whenever the
      source calls `getPosition`. `quadNode` and `inTree` record, for each object's current
      point, its `quadNode` (a node of the current arena) and whether its `_tree` is set.
      `hasRoot` is false after `delete`. */
  class QuadTree {
    const capacity: nat
    const resolution: Option<real>
    const staleTime: Option<int>
    var rootBoundary: Box
    var clientPosition: Pos
    var nodes: seq<Node>
    var hasRoot: bool
    var allPoints: seq<ObjId>
    var queued: seq<Point>
    var quadNode: map<ObjId, nat>
    var inTree: set<ObjId>
    var stale: bool
    var lastExecuteTime: int

    ghost predicate Valid()
      reads this
    {
      StateOk(capacity, resolution, rootBoundary, nodes, quadNode, allPoints)
    }

    /** `new QuadTree(config)`: an empty root over the given boundary (the source uses a
        1e30-wide square centred on the origin); `None` for `staleTime` is `Infinity`. */
    constructor(capacity: nat, resolution: Option<real>, root: Box, staleTime: Option<int>, initial: Pos, now: int)
      requires capacity > 0 && root.padding == 0.0 && root.width > 0.0 && root.height > 0.0
      ensures Valid()
      ensures this.capacity == capacity && this.resolution == resolution && this.staleTime == staleTime
      ensures rootBoundary == root && clientPosition == initial && lastExecuteTime == now
      ensures nodes == [Node(root, [], [])] && hasRoot
      ensures allPoints == [] && queued == [] && quadNode == map[] && inTree == {} && !stale
    {
      this.capacity := capacity;
      this.resolution := resolution;
      this.staleTime := staleTime;
      rootBoundary := root;
      clientPosition := initial;
      nodes := [Node(root, [], [])];
      hasRoot := true;
      allPoints := [];
      queued := [];
      quadNode := map[];
      inTree := {};
      stale := false;
      lastExecuteTime := now;
      new;
      assert Path(nodes, [0]);
    }

    /** `clear`: a fresh empty root over the current `rootBoundary`. The old points keep
        their `quadNode`, but removing them from a detached node has no effect, which is
        what an empty `quadNode` records. */
    method Clear()
      requires Valid()
      modifies this
      ensures Valid()
      ensures nodes == [Node(rootBoundary, [], [])] && hasRoot && quadNode == map[]
      ensures rootBoundary == old(rootBoundary) && allPoints == old(allPoints) && queued == old(queued)
      ensures inTree == old(inTree) && stale == old(stale) && lastExecuteTime == old(lastExecuteTime)
      ensures clientPosition == old(clientPosition)
    {
      nodes := [Node(rootBoundary, [], [])];
      hasRoot := true;
      quadNode := map[];
      assert Path(nodes, [0]);
    }

    /** `delete`: forget every object and drop the root. */
    method Delete()
      requires Valid()
      modifies this
      ensures Valid()
      ensures allPoints == [] && !hasRoot
      ensures nodes == old(nodes) && rootBoundary == old(rootBoundary) && queued == old(queued)
      ensures quadNode == old(quadNode) && inTree == old(inTree) && stale == old(stale)
      ensures lastExecuteTime == old(lastExecuteTime) && clientPosition == old(clientPosition)
    {
      allPoints := [];
      hasRoot := false;
    }

    /** `_addPoint`: the object gets a new point and is set in `allPoints` (before the
        insertion, so even a point the root refuses is registered); the point goes into
        the root. Without a root the insertion throws: `thrown`. */
    method AddPoint(pos: Pos, id: ObjId) returns (thrown: bool)
      requires Valid()
      modifies this
      ensures Valid()
      ensures thrown <==> !old(hasRoot)
      ensures !thrown ==> PointAdded(old(nodes), old(allPoints), old(quadNode), old(inTree), pos, id, nodes, allPoints, quadNode, inTree)
      ensures thrown ==> nodes == old(nodes) && allPoints == SetKey(old(allPoints), id)
                         && quadNode == old(quadNode) - {id} && inTree == old(inTree) - {id}
      ensures hasRoot == old(hasRoot) && rootBoundary == old(rootBoundary) && queued == old(queued)
      ensures stale == old(stale) && lastExecuteTime == old(lastExecuteTime) && clientPosition == old(clientPosition)
    {
      if !hasRoot {
        allPoints, quadNode, inTree := SetKey(allPoints, id), quadNode - {id}, inTree - {id};
        return true;
      }
      thrown := false;
      AddPointToRoot(pos, id);
    }

    /** `_addPoint` below an existing root. */
    method AddPointToRoot(pos: Pos, id: ObjId)
      requires Valid() && hasRoot
      modifies this
      ensures Valid()
      ensures PointAdded(old(nodes), old(allPoints), old(quadNode), old(inTree), pos, id, nodes, allPoints, quadNode, inTree)
      ensures hasRoot && rootBoundary == old(rootBoundary) && queued == old(queued)
      ensures stale == old(stale) && lastExecuteTime == old(lastExecuteTime) && clientPosition == old(clientPosition)
    {
      var ns, ks, qn, it := AddPointAt(nodes, allPoints, quadNode, inTree, pos, id, capacity, resolution);
      assert StateOk(capacity, resolution, rootBoundary, ns, qn, ks);
      nodes, allPoints, quadNode, inTree := ns, ks, qn, it;
    }

    /** `addItem` (through `_queueNewPoint`): the object waits in the queue. */
    method AddItem(pos: Pos, id: ObjId)
      requires Valid()
      modifies this
      ensures Valid()
      ensures queued == old(queued) + [Point(id, pos)]
      ensures nodes == old(nodes) && allPoints == old(allPoints) && quadNode == old(quadNode) && inTree == old(inTree)
      ensures hasRoot == old(hasRoot) && rootBoundary == old(rootBoundary)
      ensures stale == old(stale) && lastExecuteTime == old(lastExecuteTime) && clientPosition == old(clientPosition)
    {
      queued := queued + [Point(id, pos)];
    }

    /** `removePoint`: the object leaves `allPoints`; its point stays where it is. */
    method RemovePoint(id: ObjId)
      requires Valid()
      modifies this
      ensures Valid()
      ensures allPoints == DeleteKey(old(allPoints), id)
      ensures nodes == old(nodes) && queued == old(queued) && quadNode == old(quadNode) && inTree == old(inTree)
      ensures hasRoot == old(hasRoot) && rootBoundary == old(rootBoundary)
      ensures stale == old(stale) && lastExecuteTime == old(lastExecuteTime) && clientPosition == old(clientPosition)
    {
      DeleteKeyDistinct(allPoints, id);
      allPoints := DeleteKey(allPoints, id);
    }

    /** `QuadTreePoint.destroy` on an object's current point: it leaves the node that holds
        it, and the object leaves `allPoints` only if the insertion succeeded; an object
        whose point fell outside the root stays registered. */
    method DestroyPoint(id: ObjId)
      requires Valid()
      modifies this
      ensures Valid()
      ensures id in old(quadNode) ==> nodes == old(nodes[quadNode[id] := nodes[quadNode[id]].(points := RemoveId(nodes[quadNode[id]].points, id))])
      ensures id !in old(quadNode) ==> nodes == old(nodes)
      ensures allPoints == if id in old(inTree) then DeleteKey(old(allPoints), id) else old(allPoints)
      ensures queued == old(queued) && quadNode == old(quadNode) && inTree == old(inTree)
      ensures hasRoot == old(hasRoot) && rootBoundary == old(rootBoundary)
      ensures stale == old(stale) && lastExecuteTime == old(lastExecuteTime) && clientPosition == old(clientPosition)
    {
      if id in quadNode {
        var n := quadNode[id];
        RemoveIdWellFormed(nodes, n, id, capacity, resolution);
        nodes := nodes[n := nodes[n].(points := RemoveId(nodes[n].points, id))];
      }
      if id in inTree {
        RemovePoint(id);
      }
    }

    /** `addQueuedPoints`: every queued object is added in order and the queue empties.
        Without a root the first `_addPoint` throws after registering its object, and the
        queue stays as it was. */
    method AddQueuedPoints() returns (thrown: bool)
      requires Valid()
      modifies this
      ensures Valid()
      ensures thrown <==> !old(hasRoot) && old(queued) != []
      ensures !thrown ==> queued == [] && QueueAdded(old(nodes), old(allPoints), old(queued), nodes, allPoints)
      ensures !thrown ==> QueuePlaced(old(queued), old(nodes)[0].boundary, old(quadNode), old(inTree), quadNode, inTree)
      ensures thrown ==> queued == old(queued) && nodes == old(nodes) && allPoints == SetKey(old(allPoints), old(queued)[0].id)
      ensures thrown ==> quadNode == old(quadNode) - {old(queued)[0].id} && inTree == old(inTree) - {old(queued)[0].id}
      ensures hasRoot == old(hasRoot) && rootBoundary == old(rootBoundary)
      ensures stale == old(stale) && lastExecuteTime == old(lastExecuteTime) && clientPosition == old(clientPosition)
    {
      var q := queued;
      if q == [] {
        return false;
      }
      if !hasRoot {
        thrown := AddPoint(q[0].pos, q[0].id);
        return;
      }
      AddQueuedToRoot();
      thrown := false;
    }

    /** `addQueuedPoints` below an existing root. */
    method AddQueuedToRoot()
      requires Valid() && hasRoot
      modifies this
      ensures Valid()
      ensures queued == [] && QueueAdded(old(nodes), old(allPoints), old(queued), nodes, allPoints)
      ensures QueuePlaced(old(queued), old(nodes)[0].boundary, old(quadNode), old(inTree), quadNode, inTree)
      ensures hasRoot && rootBoundary == old(rootBoundary)
      ensures stale == old(stale) && lastExecuteTime == old(lastExecuteTime) && clientPosition == old(clientPosition)
    {
      var ns, ks, qn, it := AddAllKept(rootBoundary, nodes, allPoints, quadNode, inTree, queued, capacity, resolution);
      nodes, allPoints, quadNode, inTree, queued := ns, ks, qn, it, [];
    }

    /** `redistributeNodes`: a fresh root over the current `rootBoundary`, then every
        registered object is added again at its current position, in registration order.
        The registered keys do not change; the tree then stores exactly the objects whose
        position lies in the root's box. */
    method RedistributeNodes(positions: map<ObjId, Pos>, now: int)
      requires Valid() && forall k :: k in allPoints ==> k in positions
      modifies this
      ensures Valid()
      ensures hasRoot && allPoints == old(allPoints) && lastExecuteTime == now
      ensures Redistributed(allPoints, positions, rootBoundary, old(inTree), nodes, quadNode, inTree)
      ensures queued == old(queued) && rootBoundary == old(rootBoundary)
      ensures stale == old(stale) && clientPosition == old(clientPosition)
    {
      Clear();
      lastExecuteTime := now;
      var ns, qn, it := ReAddAllAt(nodes, quadNode, inTree, allPoints, positions, capacity, resolution);
      assert StateOk(capacity, resolution, rootBoundary, ns, qn, allPoints);
      nodes, quadNode, inTree := ns, qn, it;
    }

    /** `refresh`: add the queued objects, then redistribute. */
    method Refresh(positions: map<ObjId, Pos>, now: int) returns (thrown: bool)
      requires Valid()
      requires forall k :: k in allPoints ==> k in positions
      requires forall q :: q in queued ==> q.id in positions
      modifies this
      ensures Valid()
      ensures thrown <==> !old(hasRoot) && old(queued) != []
      ensures !thrown ==> queued == [] && hasRoot && allPoints == Register(old(allPoints), old(queued))
      ensures !thrown ==> Stored(nodes) == Accepted(PointsOf(allPoints, positions), rootBoundary)
      ensures !thrown ==> lastExecuteTime == now && stale == old(stale)
      ensures !thrown ==> forall k :: k in quadNode <==> k in allPoints && Contains(rootBoundary, positions[k])
      ensures !thrown ==> forall k :: k in allPoints ==> (k in inTree <==> k in quadNode)
      ensures !thrown ==> forall k :: k !in allPoints ==> (k in inTree <==> k in old(inTree))
      ensures thrown ==> queued == old(queued) && nodes == old(nodes) && allPoints == SetKey(old(allPoints), old(queued)[0].id)
      ensures thrown ==> quadNode == old(quadNode) - {old(queued)[0].id} && inTree == old(inTree) - {old(queued)[0].id}
      ensures thrown ==> stale == old(stale) && lastExecuteTime == old(lastExecuteTime)
      ensures rootBoundary == old(rootBoundary) && clientPosition == old(clientPosition)
    {
      thrown := AddQueuedPoints();
      if thrown {
        return;
      }
      ghost var added := inTree;
      RedistributeNodes(positions, now);
      forall k | k !in allPoints
        ensures k in inTree <==> k in old(inTree)
      {
        assert k in inTree <==> k in added;
        assert LastQueued(old(queued), k).None?;
      }
    }

    /** `update`: the root boundary is recentred on the client. When `staleTime` has
        elapsed since the last rebuild (never, for `Infinity`) the tree turns stale, and a
        stale tree is redistributed at once. The per-point position refresh that precedes
        it always throws and is swallowed, so it changes nothing. */
    method Update(cx: real, cy: real, now: int, positions: map<ObjId, Pos>)
      requires Valid() && forall k :: k in allPoints ==> k in positions
      modifies this
      ensures Valid()
      ensures clientPosition == Pos(cx, cy)
      ensures rootBoundary == Box(cx - old(rootBoundary).width / 2.0, cy - old(rootBoundary).height / 2.0,
                                  old(rootBoundary).width, old(rootBoundary).height, 0.0)
      ensures allPoints == old(allPoints) && queued == old(queued)
      ensures var due := staleTime.Some? && now - old(lastExecuteTime) >= staleTime.value;
              if due || old(stale) then
                && !stale && hasRoot && lastExecuteTime == now
                && Redistributed(allPoints, positions, rootBoundary, old(inTree), nodes, quadNode, inTree)
              else
                && nodes == old(nodes) && !stale && lastExecuteTime == old(lastExecuteTime) && hasRoot == old(hasRoot)
                && quadNode == old(quadNode) && inTree == old(inTree)
    {
      clientPosition := Pos(cx, cy);
      rootBoundary := Box(cx - rootBoundary.width / 2.0, cy - rootBoundary.height / 2.0, rootBoundary.width, rootBoundary.height, 0.0);
      if staleTime.Some? && now - lastExecuteTime >= staleTime.value {
        stale := true;
        lastExecuteTime := now;
      }
      if stale {
        RedistributeNodes(positions, now);
        stale := false;
      }
    }
  }
}
