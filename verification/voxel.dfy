/** The voxel grid of the density utilities: `voxel_index` maps a point to
    the integer cell containing it, `voxel_center_from_index` maps a cell to
    its centre. A grid is fixed by an origin and a cell size per axis; the
    index is defined for any non-zero size, and a negative size numbers
    the cells in the reflected direction. */
module Voxel {
  import opened Geometry

  /** An integer cell position `(i, j, k)`. */
  datatype Ijk = Ijk(i: int, j: int, k: int)

  predicate Positive(size: Vec3) {
    size.x > 0.0 && size.y > 0.0 && size.z > 0.0
  }

  /** What `floor((p - o) / s)` needs: no division by zero. */
  predicate NonZero(size: Vec3) {
    size.x != 0.0 && size.y != 0.0 && size.z != 0.0
  }

  // ---------------------------------------------------------------------
  // One axis
  // ---------------------------------------------------------------------

  /** `floor((p - o) / s)`. */
  function AxisIndex(p: real, o: real, s: real): int
    requires s != 0.0
  {
    ((p - o) / s).Floor
  }

  /** `o + (i + 0.5) s`. */
  function AxisCenter(i: int, o: real, s: real): real {
    o + (i as real + 0.5) * s
  }

  /** The cell of `p` is the half-open interval `[o + i s, o + (i + 1) s)`
      that contains it ... */
  lemma AxisIndexBounds(p: real, o: real, s: real)
    requires s > 0.0
    ensures AxisIndex(p, o, s) as real * s <= p - o
    ensures p - o < AxisIndex(p, o, s) as real * s + s
  {
    FloorTimes(p - o, s);
  }

  /** ... and only that one: the index is determined by the interval. */
  lemma AxisIndexUnique(p: real, o: real, s: real, i: int)
    requires s > 0.0
    requires i as real * s <= p - o < i as real * s + s
    ensures AxisIndex(p, o, s) == i
  {
    FloorUnique(p - o, s, i);
  }

  /** `i s <= d < i s + s` pins `floor(d / s)` to `i`. */
  lemma FloorUnique(d: real, s: real, i: int)
    requires s > 0.0
    requires i as real * s <= d < i as real * s + s
    ensures (d / s).Floor == i
  {
    var q := d / s;
    assert q * s == d;
    assert i as real <= q by {
      if q < i as real {
        MulLess(q, i as real, s);
      }
    }
    assert q < i as real + 1.0 by {
      if q >= i as real + 1.0 {
        assert (i as real + 1.0) * s == i as real * s + s;
        MulLeq(i as real + 1.0, q, s);
      }
    }
  }

  /** `floor(d / s) s <= d < floor(d / s) s + s` for a positive `s`. */
  lemma FloorTimes(d: real, s: real)
    requires s > 0.0
    ensures (d / s).Floor as real * s <= d
    ensures d < (d / s).Floor as real * s + s
  {
    var q := d / s;
    var f := q.Floor as real;
    assert q * s == d;
    MulLeq(f, q, s);
    MulLess(q, f + 1.0, s);
    assert q * s < (f + 1.0) * s;
    assert (f + 1.0) * s == f * s + s;
    assert d < f * s + s;
  }

  lemma MulLeq(a: real, b: real, s: real)
    requires a <= b && s > 0.0
    ensures a * s <= b * s
  {
  }

  lemma MulLess(a: real, b: real, s: real)
    requires a < b && s > 0.0
    ensures a * s < b * s
  {
  }

  /** Indexing a cell's centre gives the cell back. */
  lemma AxisIndexOfCenter(i: int, o: real, s: real)
    requires s > 0.0
    ensures AxisIndex(AxisCenter(i, o, s), o, s) == i
  {
    var c := AxisCenter(i, o, s);
    assert c - o == i as real * s + 0.5 * s;
    AxisIndexUnique(c, o, s, i);
  }

  /** A point is at most half a cell from its cell's centre. */
  lemma AxisNearCenter(p: real, o: real, s: real)
    requires s > 0.0
    ensures var c := AxisCenter(AxisIndex(p, o, s), o, s);
      -s / 2.0 <= p - c < s / 2.0
  {
    var i := AxisIndex(p, o, s);
    AxisIndexBounds(p, o, s);
    assert (i as real + 0.5) * s == i as real * s + 0.5 * s;
  }

  /** Points at or above the origin have non-negative indices. */
  lemma AxisIndexNonNegative(p: real, o: real, s: real)
    requires s > 0.0 && o <= p
    ensures AxisIndex(p, o, s) >= 0
  {
    assert (p - o) / s >= 0.0;
  }

  /** A negative size numbers the cells the other way: index `i` is the
      interval `(o + (i + 1) s, o + i s]`, the mirror image of the
      positive case. */
  lemma AxisIndexReflected(p: real, o: real, s: real, i: int)
    requires s < 0.0
    ensures AxisIndex(p, o, s) == i <==> i as real * s + s < p - o <= i as real * s
  {
    assert (p - o) / s == (-p - -o) / -s;
    assert AxisIndex(p, o, s) == AxisIndex(-p, -o, -s);
    AxisIndexBounds(-p, -o, -s);
    if i as real * s + s < p - o <= i as real * s {
      AxisIndexUnique(-p, -o, -s, i);
    }
  }

  /** The running condition of a sum of `n` coordinates that all index to
      cell `i`: `(sum - n o) / s` lies in `[i n, (i + 1) n)`, and is 0 for
      no coordinates. It does not depend on the sign of `s`. */
  predicate AxisSum(sum: real, n: nat, o: real, s: real, i: int)
    requires s != 0.0
  {
    InBand(Shifted(sum, n, o, s), i as real, n)
  }

  /** `(sum - n o) / s`: a sum of `n` coordinates measured in cells from
      the origin. */
  function Shifted(sum: real, n: nat, o: real, s: real): real
    requires s != 0.0
  {
    (sum - (n as real) * o) / s
  }

  /** `t` lies in `[c n, (c + 1) n)`, and is 0 when `n` is 0. */
  predicate InBand(t: real, c: real, n: nat)
  {
    && c * (n as real) <= t
    && (n == 0 ==> t == 0.0)
    && (n > 0 ==> t < (c + 1.0) * (n as real))
  }

  /** Adding one more coordinate of cell `i` keeps the running condition. */
  lemma AxisSumStep(x: real, rest: real, m: nat, o: real, s: real, i: int)
    requires s != 0.0 && AxisIndex(x, o, s) == i && AxisSum(rest, m, o, s, i)
    ensures AxisSum(x + rest, m + 1, o, s, i)
  {
    ShiftedStep(x, rest, m, o, s);
    FloorBounds((x - o) / s);
    BandStep((x - o) / s, Shifted(rest, m, o, s), i as real, m);
  }

  /** Shifting is additive in the coordinates. */
  lemma ShiftedStep(x: real, rest: real, m: nat, o: real, s: real)
    requires s != 0.0
    ensures Shifted(x + rest, m + 1, o, s) == (x - o) / s + Shifted(rest, m, o, s)
  {
    var k := m as real;
    assert (m + 1) as real == k + 1.0;
    assert x + rest - (k + 1.0) * o == (x - o) + (rest - k * o);
    DivAdd(x - o, rest - k * o, s);
  }

  lemma FloorBounds(d: real)
    ensures d.Floor as real <= d < d.Floor as real + 1.0
  {
  }

  /** One term in `[c, c + 1)` added to a sum of `m` such terms. */
  lemma BandStep(a: real, b: real, c: real, m: nat)
    requires c <= a < c + 1.0 && InBand(b, c, m)
    ensures InBand(a + b, c, m + 1)
  {
    var k := m as real;
    assert (m + 1) as real == k + 1.0;
    assert c * (k + 1.0) == c * k + c;
    assert (c + 1.0) * (k + 1.0) == (c + 1.0) * k + c + 1.0;
  }

  lemma DivAdd(a: real, b: real, s: real)
    requires s != 0.0
    ensures (a + b) / s == a / s + b / s
  {
  }

  /** The mean of coordinates of cell `i` is in cell `i`, for a cell size
      of either sign. */
  lemma AxisOfMean(sum: real, n: nat, o: real, s: real, i: int)
    requires s != 0.0 && n > 0 && AxisSum(sum, n, o, s, i)
    ensures AxisIndex(sum / n as real, o, s) == i
  {
    var k := n as real;
    var t := Shifted(sum, n, o, s);
    assert InBand(t, i as real, n);
    MeanShift(sum, k, o, s);
    assert (sum / k - o) / s == t / k;
    DivBounds(t, k, i as real);
    FloorUnique(t / k, 1.0, i);
  }

  lemma MeanShift(sum: real, k: real, o: real, s: real)
    requires s != 0.0 && k > 0.0
    ensures (sum / k - o) / s == ((sum - k * o) / s) / k
  {
    assert sum / k - o == (sum - k * o) / k;
  }

  lemma DivBounds(t: real, k: real, a: real)
    requires k > 0.0 && a * k <= t < (a + 1.0) * k
    ensures a <= t / k < a + 1.0
  {
    var q := t / k;
    assert q * k == t;
    if q < a {
      MulLess(q, a, k);
    }
    if q >= a + 1.0 {
      MulLeq(a + 1.0, q, k);
    }
  }

  // ---------------------------------------------------------------------
  // Three axes
  // ---------------------------------------------------------------------

  /** `voxel_index` of one point. */
  function VoxelIndex(p: Vec3, origin: Vec3, size: Vec3): Ijk
    requires NonZero(size)
  {
    Ijk(AxisIndex(p.x, origin.x, size.x), AxisIndex(p.y, origin.y, size.y), AxisIndex(p.z, origin.z, size.z))
  }

  /** `voxel_center_from_index` of one cell. */
  function VoxelCenter(c: Ijk, origin: Vec3, size: Vec3): Vec3 {
    Vec3(AxisCenter(c.i, origin.x, size.x), AxisCenter(c.j, origin.y, size.y), AxisCenter(c.k, origin.z, size.z))
  }

  /** The cell's lower corner `origin + ijk * size`. */
  function CellLow(c: Ijk, origin: Vec3, size: Vec3): Vec3 {
    Vec3(origin.x + c.i as real * size.x, origin.y + c.j as real * size.y, origin.z + c.k as real * size.z)
  }

  /** The cell's upper corner `origin + (ijk + 1) * size`. */
  function CellHigh(c: Ijk, origin: Vec3, size: Vec3): Vec3 {
    Vec3(origin.x + c.i as real * size.x + size.x, origin.y + c.j as real * size.y + size.y, origin.z + c.k as real * size.z + size.z)
  }

  /** Lies in the half-open cell `[low, high)`. */
  predicate InCell(p: Vec3, c: Ijk, origin: Vec3, size: Vec3) {
    LessEq(CellLow(c, origin, size), p) && Less(p, CellHigh(c, origin, size))
  }

  /** For a positive size, the index names the half-open cell the point
      lies in. */
  lemma VoxelIndexInCell(p: Vec3, origin: Vec3, size: Vec3)
    requires NonZero(size)
    ensures Positive(size) ==> InCell(p, VoxelIndex(p, origin, size), origin, size)
  {
    if Positive(size) {
      VoxelIndexIffInCell(p, origin, size, VoxelIndex(p, origin, size));
    }
  }

  /** A point's index names exactly the cell it lies in. */
  lemma VoxelIndexIffInCell(p: Vec3, origin: Vec3, size: Vec3, c: Ijk)
    requires Positive(size)
    ensures VoxelIndex(p, origin, size) == c <==> InCell(p, c, origin, size)
  {
    AxisIndexBounds(p.x, origin.x, size.x);
    AxisIndexBounds(p.y, origin.y, size.y);
    AxisIndexBounds(p.z, origin.z, size.z);
    if InCell(p, c, origin, size) {
      assert LessEq(CellLow(c, origin, size), p) && Less(p, CellHigh(c, origin, size));
      AxisIndexUnique(p.x, origin.x, size.x, c.i);
      AxisIndexUnique(p.y, origin.y, size.y, c.j);
      AxisIndexUnique(p.z, origin.z, size.z, c.k);
    }
  }

  /** Round trip: the index of a cell's centre is the cell. */
  lemma VoxelIndexOfCenter(c: Ijk, origin: Vec3, size: Vec3)
    requires Positive(size)
    ensures VoxelIndex(VoxelCenter(c, origin, size), origin, size) == c
  {
    AxisIndexOfCenter(c.i, origin.x, size.x);
    AxisIndexOfCenter(c.j, origin.y, size.y);
    AxisIndexOfCenter(c.k, origin.z, size.z);
  }

  /** Every point is within half a cell of its cell's centre on each axis. */
  lemma PointNearCenter(p: Vec3, origin: Vec3, size: Vec3)
    requires Positive(size)
    ensures var c := VoxelCenter(VoxelIndex(p, origin, size), origin, size);
      Py.Abs(p.x - c.x) <= size.x / 2.0 && Py.Abs(p.y - c.y) <= size.y / 2.0 && Py.Abs(p.z - c.z) <= size.z / 2.0
  {
    AxisNearCenter(p.x, origin.x, size.x);
    AxisNearCenter(p.y, origin.y, size.y);
    AxisNearCenter(p.z, origin.z, size.z);
  }

  /** With the origin at the minimum corner of the points, as the density
      calculator chooses by default, every index component is >= 0. */
  lemma IndicesFromMinimumNonNegative(ps: seq<Vec3>, size: Vec3, n: nat)
    requires Positive(size) && |ps| > 0 && n < |ps|
    ensures var c := VoxelIndex(ps[n], Lowest(ps), size);
      c.i >= 0 && c.j >= 0 && c.k >= 0
  {
    var lo := Lowest(ps);
    assert LessEq(lo, ps[n]);
    AxisIndexNonNegative(ps[n].x, lo.x, size.x);
    AxisIndexNonNegative(ps[n].y, lo.y, size.y);
    AxisIndexNonNegative(ps[n].z, lo.z, size.z);
  }
}
