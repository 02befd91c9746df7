/** Points in space and their axis-aligned bounding box, shared by the
    density utilities (`aabb_of_points`) and the mesh model
    (`calculateBounds`): both take the per-axis minimum and maximum. */
module Geometry {
  import opened Py

  datatype Vec3 = Vec3(x: real, y: real, z: real)

  /** Component `axis` (0, 1, 2 for x, y, z). */
  function Coord(v: Vec3, axis: nat): real
    requires axis < 3
  {
    if axis == 0 then v.x else if axis == 1 then v.y else v.z
  }

  /** `a <= b` on every axis. */
  predicate LessEq(a: Vec3, b: Vec3) {
    a.x <= b.x && a.y <= b.y && a.z <= b.z
  }

  /** `a < b` on every axis. */
  predicate Less(a: Vec3, b: Vec3) {
    a.x < b.x && a.y < b.y && a.z < b.z
  }

  /** Componentwise minimum (`glm::min`). */
  function MinVec(a: Vec3, b: Vec3): (r: Vec3)
    ensures LessEq(r, a) && LessEq(r, b)
    ensures forall axis :: 0 <= axis < 3 ==> Coord(r, axis) == Coord(a, axis) || Coord(r, axis) == Coord(b, axis)
  {
    Vec3(Min(a.x, b.x), Min(a.y, b.y), Min(a.z, b.z))
  }

  /** Componentwise maximum (`glm::max`). */
  function MaxVec(a: Vec3, b: Vec3): (r: Vec3)
    ensures LessEq(a, r) && LessEq(b, r)
    ensures forall axis :: 0 <= axis < 3 ==> Coord(r, axis) == Coord(a, axis) || Coord(r, axis) == Coord(b, axis)
  {
    Vec3(Max(a.x, b.x), Max(a.y, b.y), Max(a.z, b.z))
  }

  function Add(a: Vec3, b: Vec3): Vec3 {
    Vec3(a.x + b.x, a.y + b.y, a.z + b.z)
  }

  function Sub(a: Vec3, b: Vec3): Vec3 {
    Vec3(a.x - b.x, a.y - b.y, a.z - b.z)
  }

  function Scale(a: Vec3, c: real): Vec3 {
    Vec3(a.x * c, a.y * c, a.z * c)
  }

  /** The vector with `c` in every component (`glm::vec3(c)`). */
  function Splat(c: real): Vec3 {
    Vec3(c, c, c)
  }

  // ---------------------------------------------------------------------
  // Per-axis extremes of a non-empty point list
  // ---------------------------------------------------------------------

  /** The running componentwise minimum over the list, in order. */
  function Lowest(ps: seq<Vec3>): (r: Vec3)
    requires |ps| > 0
    ensures forall k :: 0 <= k < |ps| ==> LessEq(r, ps[k])
    decreases |ps|
  {
    if |ps| == 1 then ps[0] else MinVec(Lowest(ps[..|ps| - 1]), ps[|ps| - 1])
  }

  /** The running componentwise maximum over the list, in order. */
  function Highest(ps: seq<Vec3>): (r: Vec3)
    requires |ps| > 0
    ensures forall k :: 0 <= k < |ps| ==> LessEq(ps[k], r)
    decreases |ps|
  {
    if |ps| == 1 then ps[0] else MaxVec(Highest(ps[..|ps| - 1]), ps[|ps| - 1])
  }

  /** Every component of the minimum is some point's component: the bound
      is tight. */
  lemma {:induction false} LowestAttained(ps: seq<Vec3>, axis: nat)
    requires |ps| > 0 && axis < 3
    ensures exists k :: 0 <= k < |ps| && Coord(ps[k], axis) == Coord(Lowest(ps), axis)
    decreases |ps|
  {
    var n := |ps|;
    if n > 1 {
      var init := ps[..n - 1];
      LowestAttained(init, axis);
      var k :| 0 <= k < |init| && Coord(init[k], axis) == Coord(Lowest(init), axis);
      if Coord(Lowest(ps), axis) == Coord(Lowest(init), axis) {
        assert Coord(ps[k], axis) == Coord(Lowest(ps), axis);
      } else {
        assert Coord(ps[n - 1], axis) == Coord(Lowest(ps), axis);
      }
    } else {
      assert Coord(ps[0], axis) == Coord(Lowest(ps), axis);
    }
  }

  lemma {:induction false} HighestAttained(ps: seq<Vec3>, axis: nat)
    requires |ps| > 0 && axis < 3
    ensures exists k :: 0 <= k < |ps| && Coord(ps[k], axis) == Coord(Highest(ps), axis)
    decreases |ps|
  {
    var n := |ps|;
    if n > 1 {
      var init := ps[..n - 1];
      HighestAttained(init, axis);
      var k :| 0 <= k < |init| && Coord(init[k], axis) == Coord(Highest(init), axis);
      if Coord(Highest(ps), axis) == Coord(Highest(init), axis) {
        assert Coord(ps[k], axis) == Coord(Highest(ps), axis);
      } else {
        assert Coord(ps[n - 1], axis) == Coord(Highest(ps), axis);
      }
    } else {
      assert Coord(ps[0], axis) == Coord(Highest(ps), axis);
    }
  }

  /** The tightest box: any `lo` below every point is below the minimum. */
  lemma LowestIsGreatestLowerBound(ps: seq<Vec3>, lo: Vec3)
    requires |ps| > 0
    requires forall k :: 0 <= k < |ps| ==> LessEq(lo, ps[k])
    ensures LessEq(lo, Lowest(ps))
  {
    LowestAttained(ps, 0);
    LowestAttained(ps, 1);
    LowestAttained(ps, 2);
  }

  lemma HighestIsLeastUpperBound(ps: seq<Vec3>, hi: Vec3)
    requires |ps| > 0
    requires forall k :: 0 <= k < |ps| ==> LessEq(ps[k], hi)
    ensures LessEq(Highest(ps), hi)
  {
    HighestAttained(ps, 0);
    HighestAttained(ps, 1);
    HighestAttained(ps, 2);
  }

  // ---------------------------------------------------------------------
  // `aabb_of_points`
  // ---------------------------------------------------------------------

  datatype Box = Box(lo: Vec3, hi: Vec3)

  /** `aabb_of_points`: the per-axis minimum and maximum; `np.min` of an
      empty array is a `ValueError`. */
  function Aabb(ps: seq<Vec3>): (r: Result<Box>)
    ensures r.Err? <==> |ps| == 0
    ensures r.Err? ==> r.error == ValueError
    ensures r.Ok? ==> r.value.lo == Lowest(ps) && r.value.hi == Highest(ps)
    ensures r.Ok? ==> forall k :: 0 <= k < |ps| ==> LessEq(r.value.lo, ps[k]) && LessEq(ps[k], r.value.hi)
  {
    if |ps| == 0 then Err(ValueError) else Ok(Box(Lowest(ps), Highest(ps)))
  }
}
