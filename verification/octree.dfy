/** The octree visualiser: the boxes of the nodes worth drawing, collected
    depth-first from the root down to an optional maximum level, and the
    vertex lists a box is drawn with (12 edges as line pairs, 6 faces as
    two triangles each). The octree itself is a recursive datatype: a node
    has a centre, a half size, the number of data items it holds, a leaf
    flag and its children, where `Nil` stands for `nullptr`. */
module Octree {
  import opened Geometry

  datatype Tree =
    | Nil
    | Node(center: Vec3, halfSize: real, dataSize: nat, leaf: bool, children: seq<Tree>)

  /** `BoundingBox`: centre, half size per axis, whether the node itself
      holds data, and its depth. */
  datatype BoundingBox = BoundingBox(center: Vec3, halfSize: Vec3, hasData: bool, level: nat)

  // ---------------------------------------------------------------------
  // `extractBoundingBoxes`
  // ---------------------------------------------------------------------

  /** A non-null node that holds data or is internal: what makes a child
      count for its parent's box. */
  predicate Occupied(t: Tree) {
    t.Node? && (t.dataSize > 0 || !t.leaf)
  }

  /** `hasChildrenWithData`: some child is occupied. */
  predicate SomeOccupied(cs: seq<Tree>) {
    exists k :: 0 <= k < |cs| && Occupied(cs[k])
  }

  /** A node gets a box when it holds data or, being internal, has an
      occupied child; only one level below is looked at. */
  predicate Emits(t: Tree) {
    t.Node? && (t.dataSize > 0 || (!t.leaf && SomeOccupied(t.children)))
  }

  /** The box a node is drawn with at depth `level`. */
  function BoxOf(t: Tree, level: nat): BoundingBox
    requires t.Node?
  {
    BoundingBox(t.center, Splat(t.halfSize), t.dataSize > 0, level)
  }

  /** A depth beyond the limit; a negative limit means no limit. */
  predicate Beyond(level: int, maxLevel: int) {
    maxLevel >= 0 && level > maxLevel
  }

  /** `extractBoxesRecursive` from a node at depth `level`: the node's box
      first, then its children's boxes in child order. */
  function Extract(t: Tree, level: nat, maxLevel: int): (bs: seq<BoundingBox>)
    ensures forall k :: 0 <= k < |bs| ==> bs[k].level >= level
    ensures forall k :: 0 <= k < |bs| ==> !Beyond(bs[k].level, maxLevel)
    decreases t
  {
    match t
    case Nil => []
    case Node(_, _, _, leaf, children) =>
      if Beyond(level, maxLevel) then []
      else
        (if Emits(t) then [BoxOf(t, level)] else [])
        + (if leaf then [] else ExtractAll(children, level + 1, maxLevel))
  }

  /** The children's boxes, one child after the other. */
  function ExtractAll(cs: seq<Tree>, level: nat, maxLevel: int): (bs: seq<BoundingBox>)
    ensures forall k :: 0 <= k < |bs| ==> bs[k].level >= level
    ensures forall k :: 0 <= k < |bs| ==> !Beyond(bs[k].level, maxLevel)
    decreases cs
  {
    if |cs| == 0 then [] else Extract(cs[0], level, maxLevel) + ExtractAll(cs[1..], level, maxLevel)
  }

  /** `extractBoundingBoxes`: a null tree or root (`Nil`) has no boxes;
      otherwise the traversal starts at depth 0, and a limit of 0 draws
      the root alone. */
  function ExtractBoundingBoxes(root: Tree, maxLevel: int): (bs: seq<BoundingBox>)
    ensures root.Nil? ==> bs == []
    ensures root.Node? && Emits(root) && !Beyond(0, maxLevel) ==> |bs| > 0 && bs[0] == BoxOf(root, 0)
    ensures root.Node? && maxLevel == 0 ==> bs == (if Emits(root) then [BoxOf(root, 0)] else [])
    ensures forall k :: 0 <= k < |bs| ==> !Beyond(bs[k].level, maxLevel)
  {
    if root.Node? && maxLevel == 0 then
      ExtractAllBeyond(root.children, 1, maxLevel);
      Extract(root, 0, maxLevel)
    else
      Extract(root, 0, maxLevel)
  }

  /** Children below the depth limit draw nothing. */
  lemma {:induction false} ExtractAllBeyond(cs: seq<Tree>, level: nat, maxLevel: int)
    requires Beyond(level, maxLevel)
    ensures ExtractAll(cs, level, maxLevel) == []
    decreases |cs|
  {
    if |cs| > 0 {
      ExtractAllBeyond(cs[1..], level, maxLevel);
    }
  }

  // ---------------------------------------------------------------------
  // What the traversal visits
  // ---------------------------------------------------------------------

  /** The nodes the traversal reaches from `t` at depth `level`, each with
      its depth, ignoring the level limit: every non-null node, and below
      it the children of internal nodes. */
  function Visited(t: Tree, level: nat): set<(Tree, nat)>
    decreases t
  {
    match t
    case Nil => {}
    case Node(_, _, _, leaf, children) =>
      {(t, level)} + (if leaf then {} else VisitedAll(children, level + 1))
  }

  function VisitedAll(cs: seq<Tree>, level: nat): set<(Tree, nat)>
    decreases cs
  {
    if |cs| == 0 then {} else Visited(cs[0], level) + VisitedAll(cs[1..], level)
  }

  lemma {:induction false} VisitedDeeper(t: Tree, level: nat, p: (Tree, nat))
    requires p in Visited(t, level)
    ensures p.1 >= level && p.0.Node?
    decreases t
  {
    match t
    case Node(_, _, _, leaf, children) =>
      if p != (t, level) {
        VisitedAllDeeper(children, level + 1, p);
      }
  }

  lemma {:induction false} VisitedAllDeeper(cs: seq<Tree>, level: nat, p: (Tree, nat))
    requires p in VisitedAll(cs, level)
    ensures p.1 >= level && p.0.Node?
    decreases cs
  {
    if p in Visited(cs[0], level) {
      VisitedDeeper(cs[0], level, p);
    } else {
      VisitedAllDeeper(cs[1..], level, p);
    }
  }

  /** A box is extracted exactly when some node the traversal reaches,
      within the level limit, emits it: nothing is invented and nothing
      reachable and occupied is missed. */
  lemma {:induction false} ExtractIsVisitedEmitters(t: Tree, level: nat, maxLevel: int, b: BoundingBox)
    ensures b in Extract(t, level, maxLevel) <==>
      exists p :: p in Visited(t, level) && Emits(p.0) && !Beyond(p.1, maxLevel) && b == BoxOf(p.0, p.1)
    decreases t
  {
    match t
    case Nil =>
    case Node(_, _, _, leaf, children) =>
      var below := if leaf then {} else VisitedAll(children, level + 1);
      assert Visited(t, level) == {(t, level)} + below;
      if Beyond(level, maxLevel) {
        // Everything reached lies at `level` or deeper, hence beyond.
        if exists p :: p in Visited(t, level) && Emits(p.0) && !Beyond(p.1, maxLevel) && b == BoxOf(p.0, p.1) {
          var p :| p in Visited(t, level) && Emits(p.0) && !Beyond(p.1, maxLevel) && b == BoxOf(p.0, p.1);
          VisitedDeeper(t, level, p);
        }
      } else if !leaf {
        ExtractAllIsVisitedEmitters(children, level + 1, maxLevel, b);
      }
  }

  lemma {:induction false} ExtractAllIsVisitedEmitters(cs: seq<Tree>, level: nat, maxLevel: int, b: BoundingBox)
    ensures b in ExtractAll(cs, level, maxLevel) <==>
      exists p :: p in VisitedAll(cs, level) && Emits(p.0) && !Beyond(p.1, maxLevel) && b == BoxOf(p.0, p.1)
    decreases cs
  {
    if |cs| > 0 {
      ExtractIsVisitedEmitters(cs[0], level, maxLevel, b);
      ExtractAllIsVisitedEmitters(cs[1..], level, maxLevel, b);
    }
  }

  // ---------------------------------------------------------------------
  // The level limit is a filter
  // ---------------------------------------------------------------------

  /** The boxes at depth `maxLevel` or above, in order. */
  function UpTo(bs: seq<BoundingBox>, maxLevel: nat): (r: seq<BoundingBox>)
    ensures forall k :: 0 <= k < |r| ==> r[k].level <= maxLevel
  {
    if |bs| == 0 then []
    else (if bs[0].level <= maxLevel then [bs[0]] else []) + UpTo(bs[1..], maxLevel)
  }

  lemma {:induction false} UpToAppend(a: seq<BoundingBox>, b: seq<BoundingBox>, m: nat)
    ensures UpTo(a + b, m) == UpTo(a, m) + UpTo(b, m)
    decreases |a|
  {
    if |a| > 0 {
      assert (a + b)[1..] == a[1..] + b;
      UpToAppend(a[1..], b, m);
    } else {
      assert a + b == b;
    }
  }

  lemma {:induction false} UpToNone(bs: seq<BoundingBox>, m: nat)
    requires forall k :: 0 <= k < |bs| ==> bs[k].level > m
    ensures UpTo(bs, m) == []
    decreases |bs|
  {
    if |bs| > 0 {
      UpToNone(bs[1..], m);
    }
  }

  /** Stopping at `maxLevel` yields the same boxes, in the same order, as
      the unlimited traversal with the deeper boxes removed. */
  lemma {:induction false} LimitIsFilter(t: Tree, level: nat, maxLevel: nat)
    ensures Extract(t, level, maxLevel) == UpTo(Extract(t, level, -1), maxLevel)
    decreases t
  {
    match t
    case Nil =>
    case Node(_, _, _, leaf, children) =>
      var whole := Extract(t, level, -1);
      if level > maxLevel {
        assert Extract(t, level, maxLevel) == [];
        UpToNone(whole, maxLevel);
      } else {
        var head := if Emits(t) then [BoxOf(t, level)] else [];
        var rest := if leaf then [] else ExtractAll(children, level + 1, -1);
        var limited := if leaf then [] else ExtractAll(children, level + 1, maxLevel);
        assert whole == head + rest;
        assert Extract(t, level, maxLevel) == head + limited;
        UpToAppend(head, rest, maxLevel);
        assert UpTo(head, maxLevel) == head;
        if !leaf {
          LimitAllIsFilter(children, level + 1, maxLevel);
        } else {
          assert UpTo(rest, maxLevel) == [];
        }
      }
  }

  lemma {:induction false} LimitAllIsFilter(cs: seq<Tree>, level: nat, maxLevel: nat)
    ensures ExtractAll(cs, level, maxLevel) == UpTo(ExtractAll(cs, level, -1), maxLevel)
    decreases cs
  {
    if |cs| > 0 {
      LimitIsFilter(cs[0], level, maxLevel);
      LimitAllIsFilter(cs[1..], level, maxLevel);
      UpToAppend(Extract(cs[0], level, -1), ExtractAll(cs[1..], level, -1), maxLevel);
    }
  }

  // ---------------------------------------------------------------------
  // `getWireframeVertices`
  // ---------------------------------------------------------------------

  function MinCorner(b: BoundingBox): Vec3 {
    Sub(b.center, b.halfSize)
  }

  function MaxCorner(b: BoundingBox): Vec3 {
    Add(b.center, b.halfSize)
  }

  /** The corner on the high side of each axis whose flag is set. */
  function Corner(b: BoundingBox, hx: bool, hy: bool, hz: bool): Vec3 {
    var lo := MinCorner(b);
    var hi := MaxCorner(b);
    Vec3(if hx then hi.x else lo.x, if hy then hi.y else lo.y, if hz then hi.z else lo.z)
  }

  /** The eight corners in the visualiser's numbering: 0-3 go round the
      low-z face, 4-7 round the high-z face. */
  function Corners(b: BoundingBox): (cs: seq<Vec3>)
    ensures |cs| == 8
  {
    var lo := MinCorner(b);
    var hi := MaxCorner(b);
    [Vec3(lo.x, lo.y, lo.z), Vec3(hi.x, lo.y, lo.z), Vec3(hi.x, hi.y, lo.z), Vec3(lo.x, hi.y, lo.z),
     Vec3(lo.x, lo.y, hi.z), Vec3(hi.x, lo.y, hi.z), Vec3(hi.x, hi.y, hi.z), Vec3(lo.x, hi.y, hi.z)]
  }

  /** The twelve edges as pairs of corner numbers. */
  const Edges: seq<(nat, nat)> :=
    [(0, 1), (1, 2), (2, 3), (3, 0),
     (4, 5), (5, 6), (6, 7), (7, 4),
     (0, 4), (1, 5), (2, 6), (3, 7)]

  predicate EdgesInRange(edges: seq<(nat, nat)>) {
    forall e :: 0 <= e < |edges| ==> edges[e].0 < 8 && edges[e].1 < 8
  }

  /** The loop pushing both ends of every edge in turn. */
  function EdgeVertices(corners: seq<Vec3>, edges: seq<(nat, nat)>): (vs: seq<Vec3>)
    requires |corners| == 8 && EdgesInRange(edges)
    ensures |vs| == 2 * |edges|
    ensures forall e :: 0 <= e < |edges| ==>
      vs[2 * e] == corners[edges[e].0] && vs[2 * e + 1] == corners[edges[e].1]
  {
    if |edges| == 0 then []
    else [corners[edges[0].0], corners[edges[0].1]] + EdgeVertices(corners, edges[1..])
  }

  /** `getWireframeVertices`: 24 vertices, two per edge. */
  function Wireframe(b: BoundingBox): (vs: seq<Vec3>)
    ensures |vs| == 24
  {
    EdgeVertices(Corners(b), Edges)
  }

  /** The number of axes on which two points differ. */
  function AxesApart(p: Vec3, q: Vec3): nat {
    (if p.x != q.x then 1 else 0) + (if p.y != q.y then 1 else 0) + (if p.z != q.z then 1 else 0)
  }

  /** Each coordinate is the box's low or high bound on that axis. */
  predicate IsCorner(b: BoundingBox, v: Vec3) {
    var lo := MinCorner(b);
    var hi := MaxCorner(b);
    (v.x == lo.x || v.x == hi.x) && (v.y == lo.y || v.y == hi.y) && (v.z == lo.z || v.z == hi.z)
  }

  /** Corner number `k` is the one whose high-side flags are read off its
      place on the two faces. */
  lemma CornersNumbered(b: BoundingBox)
    ensures var cs := Corners(b);
      && cs[0] == Corner(b, false, false, false) && cs[1] == Corner(b, true, false, false)
      && cs[2] == Corner(b, true, true, false) && cs[3] == Corner(b, false, true, false)
      && cs[4] == Corner(b, false, false, true) && cs[5] == Corner(b, true, false, true)
      && cs[6] == Corner(b, true, true, true) && cs[7] == Corner(b, false, true, true)
  {
  }

  /** Every wireframe vertex is a corner of the box. */
  lemma WireframeCorners(b: BoundingBox)
    ensures var vs := Wireframe(b);
      forall k :: 0 <= k < 24 ==> IsCorner(b, vs[k])
  {
    var vs := Wireframe(b);
    var cs := Corners(b);
    forall k | 0 <= k < 24
      ensures IsCorner(b, vs[k])
    {
      var e := k / 2;
      assert vs[2 * e] == cs[Edges[e].0] && vs[2 * e + 1] == cs[Edges[e].1];
      assert k == 2 * e || k == 2 * e + 1;
    }
  }

  /** Every one of the eight corners is drawn: the first eight edges
      start at corners 0 to 7. */
  lemma WireframeCoversCorners(b: BoundingBox)
    ensures var vs := Wireframe(b);
      forall hx: bool, hy: bool, hz: bool :: Corner(b, hx, hy, hz) in vs
  {
    var vs := Wireframe(b);
    var cs := Corners(b);
    CornersNumbered(b);
    assert Edges[4] == (4, 5) && Edges[5] == (5, 6) && Edges[6] == (6, 7) && Edges[7] == (7, 4);
    assert vs[0] == cs[0] && vs[2] == cs[1] && vs[4] == cs[2] && vs[6] == cs[3];
    assert vs[8] == cs[4] && vs[10] == cs[5] && vs[12] == cs[6] && vs[14] == cs[7];
    forall hx: bool, hy: bool, hz: bool
      ensures Corner(b, hx, hy, hz) in vs
    {
      var k := (if hz then 4 else 0) + (if hx == hy then (if hx then 2 else 0) else (if hx then 1 else 3));
      assert cs[k] == Corner(b, hx, hy, hz);
      assert vs[2 * k] == cs[k];
    }
  }

  /** On a box of positive size, two corners differ on exactly the axes
      whose high-side flags differ. */
  lemma CornersApart(b: BoundingBox, hx: bool, hy: bool, hz: bool, gx: bool, gy: bool, gz: bool)
    requires Less(Splat(0.0), b.halfSize)
    ensures AxesApart(Corner(b, hx, hy, hz), Corner(b, gx, gy, gz))
      == (if hx != gx then 1 else 0) + (if hy != gy then 1 else 0) + (if hz != gz then 1 else 0)
  {
    assert Less(MinCorner(b), MaxCorner(b));
  }

  /** For a box of positive size the two ends of each wireframe pair
      differ on exactly one axis: the pairs are the box's edges, not face
      or space diagonals. */
  lemma WireframeEdgesAxisAligned(b: BoundingBox)
    requires Less(Splat(0.0), b.halfSize)
    ensures var vs := Wireframe(b);
      forall e :: 0 <= e < 12 ==> AxesApart(vs[2 * e], vs[2 * e + 1]) == 1
  {
    var vs := Wireframe(b);
    var cs := Corners(b);
    CornersNumbered(b);
    forall e | 0 <= e < 12
      ensures AxesApart(vs[2 * e], vs[2 * e + 1]) == 1
    {
      assert vs[2 * e] == cs[Edges[e].0] && vs[2 * e + 1] == cs[Edges[e].1];
      if e < 4 {
        CornersApart(b, false, false, false, true, false, false);
        CornersApart(b, true, false, false, true, true, false);
        CornersApart(b, true, true, false, false, true, false);
        CornersApart(b, false, true, false, false, false, false);
      } else if e < 8 {
        CornersApart(b, false, false, true, true, false, true);
        CornersApart(b, true, false, true, true, true, true);
        CornersApart(b, true, true, true, false, true, true);
        CornersApart(b, false, true, true, false, false, true);
      } else {
        CornersApart(b, false, false, false, false, false, true);
        CornersApart(b, true, false, false, true, false, true);
        CornersApart(b, true, true, false, true, true, true);
        CornersApart(b, false, true, false, false, true, true);
      }
    }
  }

  // ---------------------------------------------------------------------
  // `getSolidBoxVertices`
  // ---------------------------------------------------------------------

  /** Face `f` in drawing order (front, back, left, right, top, bottom)
      as two triangles. */
  function Face(b: BoundingBox, f: nat): (vs: seq<Vec3>)
    requires f < 6
    ensures |vs| == 6
  {
    var lo := MinCorner(b);
    var hi := MaxCorner(b);
    match f
    case 0 => [Vec3(lo.x, lo.y, hi.z), Vec3(hi.x, lo.y, hi.z), Vec3(hi.x, hi.y, hi.z),
               Vec3(lo.x, lo.y, hi.z), Vec3(hi.x, hi.y, hi.z), Vec3(lo.x, hi.y, hi.z)]
    case 1 => [Vec3(hi.x, lo.y, lo.z), Vec3(lo.x, lo.y, lo.z), Vec3(lo.x, hi.y, lo.z),
               Vec3(hi.x, lo.y, lo.z), Vec3(lo.x, hi.y, lo.z), Vec3(hi.x, hi.y, lo.z)]
    case 2 => [Vec3(lo.x, lo.y, lo.z), Vec3(lo.x, lo.y, hi.z), Vec3(lo.x, hi.y, hi.z),
               Vec3(lo.x, lo.y, lo.z), Vec3(lo.x, hi.y, hi.z), Vec3(lo.x, hi.y, lo.z)]
    case 3 => [Vec3(hi.x, lo.y, hi.z), Vec3(hi.x, lo.y, lo.z), Vec3(hi.x, hi.y, lo.z),
               Vec3(hi.x, lo.y, hi.z), Vec3(hi.x, hi.y, lo.z), Vec3(hi.x, hi.y, hi.z)]
    case 4 => [Vec3(lo.x, hi.y, hi.z), Vec3(hi.x, hi.y, hi.z), Vec3(hi.x, hi.y, lo.z),
               Vec3(lo.x, hi.y, hi.z), Vec3(hi.x, hi.y, lo.z), Vec3(lo.x, hi.y, lo.z)]
    case 5 => [Vec3(lo.x, lo.y, lo.z), Vec3(hi.x, lo.y, lo.z), Vec3(hi.x, lo.y, hi.z),
               Vec3(lo.x, lo.y, lo.z), Vec3(hi.x, lo.y, hi.z), Vec3(lo.x, lo.y, hi.z)]
  }

  /** The first `n` faces one after the other. */
  function Faces(b: BoundingBox, n: nat): (vs: seq<Vec3>)
    requires n <= 6
    ensures |vs| == 6 * n
    ensures forall f, j :: 0 <= f < n && 0 <= j < 6 ==> vs[6 * f + j] == Face(b, f)[j]
  {
    if n == 0 then [] else Faces(b, n - 1) + Face(b, n - 1)
  }

  /** `getSolidBoxVertices`: 36 vertices, six per face. */
  function Solid(b: BoundingBox): (vs: seq<Vec3>)
    ensures |vs| == 36
  {
    Faces(b, 6)
  }

  /** The axis each face is perpendicular to, in drawing order: front and
      back (z), left and right (x), top and bottom (y). */
  function FaceAxis(f: nat): nat
    requires f < 6
  {
    if f < 2 then 2 else if f < 4 then 0 else 1
  }

  /** Whether face `f` lies on the high side of its axis. */
  predicate FaceHigh(f: nat)
    requires f < 6
  {
    f == 0 || f == 3 || f == 4
  }

  /** Each face's six vertices are corners on the face's plane, making
      two triangles that share a diagonal (vertices 0 and 3, and 2 and 4,
      coincide). */
  lemma FaceOnPlane(b: BoundingBox, f: nat)
    requires f < 6
    ensures var vs := Face(b, f);
      forall j :: 0 <= j < 6 ==>
        (IsCorner(b, vs[j])
         && Coord(vs[j], FaceAxis(f)) == Coord(if FaceHigh(f) then MaxCorner(b) else MinCorner(b), FaceAxis(f)))
    ensures var vs := Face(b, f);
      vs[0] == vs[3] && vs[2] == vs[4]
  {
  }

  /** Every solid vertex is a corner, each run of six lies on its face's
      plane, and each run is two triangles sharing a diagonal. */
  lemma SolidFaces(b: BoundingBox)
    ensures var vs := Solid(b);
      forall k :: 0 <= k < 36 ==> IsCorner(b, vs[k])
    ensures var vs := Solid(b);
      forall k :: 0 <= k < 36 ==>
        Coord(vs[k], FaceAxis(k / 6))
        == Coord(if FaceHigh(k / 6) then MaxCorner(b) else MinCorner(b), FaceAxis(k / 6))
    ensures var vs := Solid(b);
      forall f :: 0 <= f < 6 ==> vs[6 * f] == vs[6 * f + 3] && vs[6 * f + 2] == vs[6 * f + 4]
  {
    var vs := Solid(b);
    forall k | 0 <= k < 36
      ensures IsCorner(b, vs[k])
      ensures Coord(vs[k], FaceAxis(k / 6))
        == Coord(if FaceHigh(k / 6) then MaxCorner(b) else MinCorner(b), FaceAxis(k / 6))
    {
      var f, j := k / 6, k % 6;
      assert k == 6 * f + j;
      assert vs[k] == Face(b, f)[j];
      FaceOnPlane(b, f);
    }
    forall f | 0 <= f < 6
      ensures vs[6 * f] == vs[6 * f + 3] && vs[6 * f + 2] == vs[6 * f + 4]
    {
      assert vs[6 * f + 0] == Face(b, f)[0];
      FaceOnPlane(b, f);
    }
  }
}
