/** The kernel density estimator of the density utilities: the points are
    reduced to one centroid per occupied voxel, a `U x U x U` grid is laid
    over the region of interest (padded by half the search radius), and at
    each grid point the Gaussian kernels of the centroids within the radius
    are averaged. The kernel (`exp(-d^2 / 2 sigma^2) / (2 pi)^1.5`) is a
    parameter of the model: it is a function of the squared distance. */
module Kde {
  import opened Py
  import opened Geometry
  import opened Voxel
  import opened Density

  // ---------------------------------------------------------------------
  // `PDVKDEDensityCalculator.__init__`
  // ---------------------------------------------------------------------

  datatype KdeCalculator = KdeCalculator(voxelSize: Vec3, gridU: nat, radius: real, sigma: real)

  /** What the constructor guarantees of every calculator it returns. */
  predicate Valid(calculator: KdeCalculator) {
    calculator.gridU > 0 && calculator.radius > 0.0 && calculator.sigma > 0.0
  }

  /** The constructor: a grid resolution that is not positive, or a radius
      or bandwidth that is not positive, is a `ValueError`; the voxel size
      is not checked. */
  function NewKde(voxelSize: Vec3, gridU: int, radius: real, sigma: real): (r: Result<KdeCalculator>)
    ensures r.Ok? <==> gridU > 0 && radius > 0.0 && sigma > 0.0
    ensures r.Err? ==> r.error == ValueError
    ensures r.Ok? ==> Valid(r.value)
    ensures r.Ok? ==> r.value.voxelSize == voxelSize && r.value.gridU as int == gridU
    ensures r.Ok? ==> r.value.radius == radius && r.value.sigma == sigma
  {
    if gridU <= 0 then Err(ValueError)
    else if radius <= 0.0 || sigma <= 0.0 then Err(ValueError)
    else Ok(KdeCalculator(voxelSize, gridU, radius, sigma))
  }

  // ---------------------------------------------------------------------
  // `compute_voxel_centroids`
  // ---------------------------------------------------------------------

  /** The points whose voxel is `c`, in input order. */
  function Members(points: seq<Vec3>, origin: Vec3, size: Vec3, c: Ijk): (ms: seq<Vec3>)
    requires NonZero(size)
    ensures |ms| <= |points|
    ensures forall k :: 0 <= k < |ms| ==> VoxelIndex(ms[k], origin, size) == c
    ensures Positive(size) ==> forall k :: 0 <= k < |ms| ==> InCell(ms[k], c, origin, size)
  {
    if |points| == 0 then []
    else
      VoxelIndexInCell(points[0], origin, size);
      (if VoxelIndex(points[0], origin, size) == c then [points[0]] else [])
      + Members(points[1..], origin, size, c)
  }

  function SumVec(vs: seq<Vec3>): Vec3 {
    if |vs| == 0 then Vec3(0.0, 0.0, 0.0) else Add(vs[0], SumVec(vs[1..]))
  }

  /** `sums / cnt` with an empty voxel's count replaced by 1. */
  function Mean(vs: seq<Vec3>): Vec3 {
    var n := if |vs| == 0 then 1.0 else |vs| as real;
    var s := SumVec(vs);
    Vec3(s.x / n, s.y / n, s.z / n)
  }

  datatype Centroids = Centroids(centroids: seq<Vec3>, cells: seq<Ijk>, origin: Vec3)

  /** `compute_voxel_centroids`: the origin is the minimum corner of the
      points (none for an empty cloud: `ValueError`); one centroid per
      occupied voxel, the voxels in the order `np.unique` lists them. */
  function ComputeCentroids(calculator: KdeCalculator, points: seq<Vec3>): (r: Result<Centroids>)
    requires NonZero(calculator.voxelSize)
    ensures r.Err? <==> |points| == 0
    ensures r.Err? ==> r.error == ValueError
    ensures r.Ok? ==> r.value.origin == Lowest(points) && |r.value.centroids| == |r.value.cells|
  {
    if |points| == 0 then Err(ValueError)
    else
      var o := Lowest(points);
      var size := calculator.voxelSize;
      var t := Tally(CellsOfPoints(points, o, size));
      Ok(Centroids(
        seq(|t|, m requires 0 <= m < |t| => Mean(Members(points, o, size, t[m].cell))),
        seq(|t|, m requires 0 <= m < |t| => t[m].cell),
        o))
  }

  /** The number of members of a voxel is the number of points indexed to
      it (`np.bincount(inv)`). */
  lemma {:induction false} MembersCount(points: seq<Vec3>, origin: Vec3, size: Vec3, c: Ijk)
    requires NonZero(size)
    ensures |Members(points, origin, size, c)| == multiset(CellsOfPoints(points, origin, size))[c]
    decreases |points|
  {
    if |points| > 0 {
      var cells := CellsOfPoints(points, origin, size);
      MembersCount(points[1..], origin, size, c);
      assert cells == [cells[0]] + CellsOfPoints(points[1..], origin, size);
    }
  }

  /** Sum of points inside a box, bounded by the box corners times the
      number of points. */
  lemma {:induction false} SumVecBounds(vs: seq<Vec3>, lo: Vec3, hi: Vec3)
    requires forall k :: 0 <= k < |vs| ==> LessEq(lo, vs[k]) && Less(vs[k], hi)
    ensures LessEq(Scale(lo, |vs| as real), SumVec(vs))
    ensures |vs| > 0 ==> Less(SumVec(vs), Scale(hi, |vs| as real))
    ensures LessEq(SumVec(vs), Scale(hi, |vs| as real))
    decreases |vs|
  {
    if |vs| > 0 {
      var rest := vs[1..];
      var m := |rest| as real;
      SumVecBounds(rest, lo, hi);
      assert SumVec(vs) == Add(vs[0], SumVec(rest));
      SumVecStep(vs[0], SumVec(rest), lo, hi, m, |vs| as real);
    }
  }

  /** One more point inside the box keeps the sum within the corners times
      the count. */
  lemma SumVecStep(v: Vec3, s: Vec3, lo: Vec3, hi: Vec3, m: real, n: real)
    requires n == m + 1.0
    requires LessEq(lo, v) && Less(v, hi)
    requires LessEq(Scale(lo, m), s) && LessEq(s, Scale(hi, m))
    ensures LessEq(Scale(lo, n), Add(v, s)) && Less(Add(v, s), Scale(hi, n))
  {
    AxisStep(lo.x, hi.x, v.x, s.x, m, n);
    AxisStep(lo.y, hi.y, v.y, s.y, m, n);
    AxisStep(lo.z, hi.z, v.z, s.z, m, n);
  }

  /** One more point inside `[l, h)` on an axis keeps the sum within
      `l` and `h` times the count. */
  lemma AxisStep(l: real, h: real, x: real, rest: real, m: real, n: real)
    requires n == m + 1.0
    requires l <= x < h && l * m <= rest <= h * m
    ensures l * n <= x + rest < h * n
  {
    assert l * n == l * m + l;
    assert h * n == h * m + h;
  }

  lemma DivAtLeast(a: real, n: real, lo: real)
    requires n > 0.0 && lo * n <= a
    ensures lo <= a / n
  {
    var q := a / n;
    assert q * n == a;
    if q < lo {
      MulLess(q, lo, n);
    }
  }

  lemma DivBelow(a: real, n: real, hi: real)
    requires n > 0.0 && a < hi * n
    ensures a / n < hi
  {
    var q := a / n;
    assert q * n == a;
    if q >= hi {
      MulLeq(hi, q, n);
    }
  }

  /** The mean of points that all lie in a voxel lies in that voxel. */
  lemma MeanInCell(vs: seq<Vec3>, c: Ijk, origin: Vec3, size: Vec3)
    requires |vs| > 0
    requires forall k :: 0 <= k < |vs| ==> InCell(vs[k], c, origin, size)
    ensures InCell(Mean(vs), c, origin, size)
  {
    var lo := CellLow(c, origin, size);
    var hi := CellHigh(c, origin, size);
    var n := |vs| as real;
    var s := SumVec(vs);
    SumVecBounds(vs, lo, hi);
    DivAtLeast(s.x, n, lo.x);
    DivAtLeast(s.y, n, lo.y);
    DivAtLeast(s.z, n, lo.z);
    DivBelow(s.x, n, hi.x);
    DivBelow(s.y, n, hi.y);
    DivBelow(s.z, n, hi.z);
  }

  /** Each listed voxel is occupied (the fallback divisor 1 is never used),
      its centroid times the number of its points is their sum, and the
      centroid indexes to the voxel; for a positive size it lies in the
      voxel's half-open box. A negative size component numbers the cells in
      the reflected direction, and the centroid is still the mean of its
      voxel's points. */
  lemma CentroidsAreMeans(calculator: KdeCalculator, points: seq<Vec3>, m: nat)
    requires NonZero(calculator.voxelSize) && |points| > 0
    requires m < |ComputeCentroids(calculator, points).value.cells|
    ensures var r := ComputeCentroids(calculator, points).value;
      var ms := Members(points, r.origin, calculator.voxelSize, r.cells[m]);
      && |ms| >= 1
      && Scale(r.centroids[m], |ms| as real) == SumVec(ms)
      && VoxelIndex(r.centroids[m], r.origin, calculator.voxelSize) == r.cells[m]
      && (Positive(calculator.voxelSize) ==> InCell(r.centroids[m], r.cells[m], r.origin, calculator.voxelSize))
  {
    var r := ComputeCentroids(calculator, points).value;
    var size := calculator.voxelSize;
    var o := Lowest(points);
    var cells := CellsOfPoints(points, o, size);
    var t := Tally(cells);
    var ms := Members(points, o, size, t[m].cell);
    TallyBinCounts(cells, m);
    MembersCount(points, o, size, t[m].cell);
    assert r.centroids[m] == Mean(ms) && r.cells[m] == t[m].cell;
    MeanTimesCount(ms);
    MeanIndexed(ms, t[m].cell, o, size);
    if Positive(size) {
      MeanInCell(ms, t[m].cell, o, size);
    }
  }

  /** The mean of points that all index to `c` indexes to `c`, whatever
      the signs of the size components. */
  lemma MeanIndexed(vs: seq<Vec3>, c: Ijk, origin: Vec3, size: Vec3)
    requires NonZero(size) && |vs| > 0
    requires forall k :: 0 <= k < |vs| ==> VoxelIndex(vs[k], origin, size) == c
    ensures VoxelIndex(Mean(vs), origin, size) == c
  {
    SumVecIndexed(vs, c, origin, size);
    var s := SumVec(vs);
    AxisOfMean(s.x, |vs|, origin.x, size.x, c.i);
    AxisOfMean(s.y, |vs|, origin.y, size.y, c.j);
    AxisOfMean(s.z, |vs|, origin.z, size.z, c.k);
  }

  lemma {:induction false} SumVecIndexed(vs: seq<Vec3>, c: Ijk, origin: Vec3, size: Vec3)
    requires NonZero(size)
    requires forall k :: 0 <= k < |vs| ==> VoxelIndex(vs[k], origin, size) == c
    ensures var s := SumVec(vs);
      && AxisSum(s.x, |vs|, origin.x, size.x, c.i)
      && AxisSum(s.y, |vs|, origin.y, size.y, c.j)
      && AxisSum(s.z, |vs|, origin.z, size.z, c.k)
  {
    if |vs| > 0 {
      var rest := SumVec(vs[1..]);
      SumVecIndexed(vs[1..], c, origin, size);
      assert VoxelIndex(vs[0], origin, size) == c;
      AxisSumStep(vs[0].x, rest.x, |vs| - 1, origin.x, size.x, c.i);
      AxisSumStep(vs[0].y, rest.y, |vs| - 1, origin.y, size.y, c.j);
      AxisSumStep(vs[0].z, rest.z, |vs| - 1, origin.z, size.z, c.k);
    }
  }

  lemma MeanTimesCount(vs: seq<Vec3>)
    requires |vs| > 0
    ensures Scale(Mean(vs), |vs| as real) == SumVec(vs)
  {
    var s := SumVec(vs);
    var n := |vs| as real;
    DivThenTimes(s.x, n);
    DivThenTimes(s.y, n);
    DivThenTimes(s.z, n);
  }

  /** The centroid voxels are those of the points, each once, in the
      lexicographic order of `np.unique`. */
  lemma CentroidsCells(calculator: KdeCalculator, points: seq<Vec3>)
    requires NonZero(calculator.voxelSize) && |points| > 0
    ensures var r := ComputeCentroids(calculator, points).value;
      && (forall a, b :: 0 <= a < b < |r.cells| ==> Before(r.cells[a], r.cells[b]))
      && (forall n :: 0 <= n < |points| ==> VoxelIndex(points[n], r.origin, calculator.voxelSize) in r.cells)
      && (forall m :: 0 <= m < |r.cells| ==>
            exists n :: 0 <= n < |points| && VoxelIndex(points[n], r.origin, calculator.voxelSize) == r.cells[m])
  {
    var r := ComputeCentroids(calculator, points).value;
    var size := calculator.voxelSize;
    var o := Lowest(points);
    var cells := CellsOfPoints(points, o, size);
    var t := Tally(cells);
    TallyOrdered(cells);
    TallyCells(cells);
    forall n | 0 <= n < |points|
      ensures VoxelIndex(points[n], r.origin, size) in r.cells
    {
      assert cells[n] in cells;
      assert cells[n] in CellsOf(t);
      var m :| 0 <= m < |t| && t[m].cell == cells[n];
      assert r.cells[m] == cells[n];
    }
    forall m | 0 <= m < |r.cells|
      ensures exists n :: 0 <= n < |points| && VoxelIndex(points[n], r.origin, size) == r.cells[m]
    {
      assert t[m].cell in CellsOf(t);
      var n :| 0 <= n < |cells| && cells[n] == t[m].cell;
      assert VoxelIndex(points[n], r.origin, size) == r.cells[m];
    }
  }

  // ---------------------------------------------------------------------
  // `generate_grid`
  // ---------------------------------------------------------------------

  /** Coordinate `i` of `u` along one axis: the middle of the `i`-th of `u`
      equal steps from `lo` to `hi`. */
  function GridAxis(lo: real, hi: real, u: nat, i: nat): real
    requires u > 0
  {
    lo + (i as real + 0.5) * ((hi - lo) / u as real)
  }

  /** Row `n` of the `ij`-indexed meshgrid flattened in C order: the first
      index varies slowest. */
  function GridCell(u: nat, n: nat): (nat, nat, nat)
    requires u > 0
  {
    ((n / u) / u, (n / u) % u, n % u)
  }

  /** The row that holds grid cell `(i, j, k)`. */
  function GridRow(u: nat, i: nat, j: nat, k: nat): nat {
    (i * u + j) * u + k
  }

  function GridPointAt(u: nat, lo: Vec3, hi: Vec3, n: nat): Vec3
    requires u > 0
  {
    var c := GridCell(u, n);
    Vec3(GridAxis(lo.x, hi.x, u, c.0), GridAxis(lo.y, hi.y, u, c.1), GridAxis(lo.z, hi.z, u, c.2))
  }

  /** `generate_grid`: the `u^3` cell middles of the box. */
  function GenerateGrid(u: nat, lo: Vec3, hi: Vec3): (g: seq<Vec3>)
    requires u > 0
    ensures |g| == u * u * u
  {
    seq(u * u * u, n requires 0 <= n < u * u * u => GridPointAt(u, lo, hi, n))
  }

  /** `q d + r` with `0 <= r < d` has quotient `q` and remainder `r`. */
  lemma DivModUnique(n: int, d: int, q: int, r: int)
    requires d > 0 && 0 <= r < d && n == q * d + r
    ensures n / d == q && n % d == r
  {
    var q0 := n / d;
    var r0 := n % d;
    assert n == q0 * d + r0;
    if q0 > q {
      MulAtLeast(q0 - q, d);
    } else if q0 < q {
      MulAtLeast(q - q0, d);
    }
  }

  lemma MulAtLeast(a: int, d: int)
    requires a >= 1 && d > 0
    ensures a * d >= d
  {
  }

  /** Row and cell correspond one to one. */
  lemma GridCellOfRow(u: nat, i: nat, j: nat, k: nat)
    requires 0 < u && i < u && j < u && k < u
    ensures GridRow(u, i, j, k) < u * u * u
    ensures GridCell(u, GridRow(u, i, j, k)) == (i, j, k)
  {
    var n := GridRow(u, i, j, k);
    DivModUnique(n, u, i * u + j, k);
    DivModUnique(i * u + j, u, i, j);
    GridRowBound(u, i, j, k);
  }

  lemma GridRowBound(u: nat, i: nat, j: nat, k: nat)
    requires 0 < u && i < u && j < u && k < u
    ensures GridRow(u, i, j, k) < u * u * u
  {
    var w := u * u;
    MulAtMost(i, u - 1, u);
    assert (u - 1) * u == w - u;
    assert i * u + j <= w - 1;
    MulAtMost(i * u + j, w - 1, u);
    assert (w - 1) * u == w * u - u;
  }

  lemma MulAtMost(a: int, b: int, d: int)
    requires a <= b && d > 0
    ensures a * d <= b * d
  {
  }

  lemma GridRowOfCell(u: nat, n: nat)
    requires 0 < u && n < u * u * u
    ensures var c := GridCell(u, n);
      c.0 < u && c.1 < u && c.2 < u && GridRow(u, c.0, c.1, c.2) == n
  {
    var m := n / u;
    assert n == m * u + n % u;
    assert m == (m / u) * u + m % u;
    if m / u >= u {
      MulAtMost(u, m / u, u);
      MulAtMost(u * u, m, u);
    }
  }

  /** The meshgrid order: row `(i u + j) u + k` holds x step `i`, y step
      `j` and z step `k`, and every row is one such cell. */
  lemma GridOrder(u: nat, lo: Vec3, hi: Vec3, i: nat, j: nat, k: nat)
    requires 0 < u && i < u && j < u && k < u
    ensures GridRow(u, i, j, k) < |GenerateGrid(u, lo, hi)|
    ensures GenerateGrid(u, lo, hi)[GridRow(u, i, j, k)]
      == Vec3(GridAxis(lo.x, hi.x, u, i), GridAxis(lo.y, hi.y, u, j), GridAxis(lo.z, hi.z, u, k))
  {
    GridCellOfRow(u, i, j, k);
  }

  /** Every cell middle lies strictly between the bounds. */
  lemma GridAxisInside(lo: real, hi: real, u: nat, i: nat)
    requires 0 < u && i < u && lo < hi
    ensures lo < GridAxis(lo, hi, u, i) < hi
  {
    var step := (hi - lo) / u as real;
    assert step * u as real == hi - lo;
    assert step > 0.0;
    MulLess(0.0, i as real + 0.5, step);
    assert (i as real + 0.5) <= u as real - 0.5;
    MulLess(i as real + 0.5, u as real, step);
    assert (i as real + 0.5) * step < u as real * step;
  }

  /** For a box that is non-degenerate on every axis, every grid point lies
      strictly inside it. */
  lemma GridInside(u: nat, lo: Vec3, hi: Vec3, n: nat)
    requires 0 < u && Less(lo, hi) && n < |GenerateGrid(u, lo, hi)|
    ensures Less(lo, GenerateGrid(u, lo, hi)[n]) && Less(GenerateGrid(u, lo, hi)[n], hi)
  {
    GridRowOfCell(u, n);
    var c := GridCell(u, n);
    GridAxisInside(lo.x, hi.x, u, c.0);
    GridAxisInside(lo.y, hi.y, u, c.1);
    GridAxisInside(lo.z, hi.z, u, c.2);
  }

  // ---------------------------------------------------------------------
  // `kde_on_grid`
  // ---------------------------------------------------------------------

  function Dist2(a: Vec3, b: Vec3): real {
    (a.x - b.x) * (a.x - b.x) + (a.y - b.y) * (a.y - b.y) + (a.z - b.z) * (a.z - b.z)
  }

  /** The positions from `m` on of the centroids strictly within radius `r`
      of `g`, in increasing order (the radius search). */
  function NeighborsFrom(cs: seq<Vec3>, g: Vec3, r: real, m: nat): (idx: seq<nat>)
    requires m <= |cs|
    ensures forall a, b :: 0 <= a < b < |idx| ==> idx[a] < idx[b]
    ensures forall q :: 0 <= q < |idx| ==> m <= idx[q] < |cs|
    ensures forall p :: m <= p < |cs| ==> (p in idx <==> Dist2(cs[p], g) < r * r)
    decreases |cs| - m
  {
    if m == |cs| then []
    else (if Dist2(cs[m], g) < r * r then [m] else []) + NeighborsFrom(cs, g, r, m + 1)
  }

  function SumReal(s: seq<real>): real {
    if |s| == 0 then 0.0 else s[0] + SumReal(s[1..])
  }

  /** The estimate at one grid point and its neighbour count:
      `sum(kernel) / (count sigma^3)`, and 0 with no neighbours. */
  function KdeAt(cs: seq<Vec3>, g: Vec3, r: real, sigma: real, kernel: real -> real): (res: (real, nat))
    requires sigma > 0.0
    ensures res.1 == 0 ==> res.0 == 0.0
    ensures res.1 == 0 <==> forall p :: 0 <= p < |cs| ==> Dist2(cs[p], g) >= r * r
  {
    var idx := NeighborsFrom(cs, g, r, 0);
    var count := |idx|;
    assert count == 0 <==> forall p :: 0 <= p < |cs| ==> Dist2(cs[p], g) >= r * r by {
      if count > 0 {
        assert idx[0] in idx;
      }
    }
    if count == 0 then (0.0, 0)
    else
      var kern := seq(count, q requires 0 <= q < count => kernel(Dist2(cs[idx[q]], g)));
      (SumReal(kern) / (count as real * (sigma * sigma * sigma)), count)
  }

  lemma {:induction false} SumRealNonNegative(s: seq<real>)
    requires forall q :: 0 <= q < |s| ==> s[q] >= 0.0
    ensures SumReal(s) >= 0.0
    decreases |s|
  {
    if |s| > 0 {
      SumRealNonNegative(s[1..]);
    }
  }

  /** A non-negative kernel (the Gaussian is one) gives a non-negative
      estimate. */
  lemma KdeAtNonNegative(cs: seq<Vec3>, g: Vec3, r: real, sigma: real, kernel: real -> real)
    requires sigma > 0.0
    requires forall d :: kernel(d) >= 0.0
    ensures KdeAt(cs, g, r, sigma, kernel).0 >= 0.0
  {
    var idx := NeighborsFrom(cs, g, r, 0);
    var count := |idx|;
    if count > 0 {
      var kern := seq(count, q requires 0 <= q < count => kernel(Dist2(cs[idx[q]], g)));
      SumRealNonNegative(kern);
      var s3 := sigma * sigma * sigma;
      assert sigma * sigma > 0.0;
      assert s3 > 0.0;
      assert count as real * s3 > 0.0;
    }
  }

  datatype GridValues = GridValues(kde: seq<real>, neighborCounts: seq<nat>)

  /** `kde_on_grid`: the estimate and neighbour count at every grid point. */
  function KdeOnGrid(cs: seq<Vec3>, grid: seq<Vec3>, r: real, sigma: real, kernel: real -> real): (v: GridValues)
    requires sigma > 0.0
    ensures |v.kde| == |grid| && |v.neighborCounts| == |grid|
    ensures forall i :: 0 <= i < |grid| ==> (v.neighborCounts[i] == 0 ==> v.kde[i] == 0.0)
    ensures forall i :: 0 <= i < |grid| ==>
      (v.neighborCounts[i] == 0 <==> forall p :: 0 <= p < |cs| ==> Dist2(cs[p], grid[i]) >= r * r)
  {
    GridValues(
      seq(|grid|, i requires 0 <= i < |grid| => KdeAt(cs, grid[i], r, sigma, kernel).0),
      seq(|grid|, i requires 0 <= i < |grid| => KdeAt(cs, grid[i], r, sigma, kernel).1))
  }

  // ---------------------------------------------------------------------
  // `compute`
  // ---------------------------------------------------------------------

  datatype KdeGridResult = KdeGridResult(
    gridPoints: seq<Vec3>,
    kdeValues: seq<real>,
    neighborCounts: seq<nat>,
    radius: real,
    sigma: real,
    gridU: nat,
    roiMin: Vec3,
    roiMax: Vec3)

  /** The region gridded before padding: the given one, or the points'
      bounding box. */
  function BaseRoi(points: seq<Vec3>, roi: Option<Box>): Box
    requires |points| > 0
  {
    if roi.Some? then roi.value else Box(Lowest(points), Highest(points))
  }

  /** At every grid point: no neighbours exactly when every centroid is
      at least the radius away, and then a zero estimate. */
  predicate NoNeighborsExactlyFar(cs: seq<Vec3>, v: KdeGridResult, radius: real) {
    && |v.kdeValues| == |v.gridPoints| && |v.neighborCounts| == |v.gridPoints|
    && forall n :: 0 <= n < |v.gridPoints| ==>
      && (v.neighborCounts[n] == 0 <==> forall p :: 0 <= p < |cs| ==> Dist2(cs[p], v.gridPoints[n]) >= radius * radius)
      && (v.neighborCounts[n] == 0 ==> v.kdeValues[n] == 0.0)
  }

  /** `compute`: an empty cloud has no centroids (`ValueError`); otherwise
      the region is widened by half the radius on every side, gridded, and
      the estimate taken at every grid point. A grid point has no
      neighbours, and then a zero estimate, exactly when no voxel centroid
      lies strictly within the radius of it. */
  function KdeCompute(calculator: KdeCalculator, points: seq<Vec3>, roi: Option<Box>, kernel: real -> real): (r: Result<KdeGridResult>)
    requires Valid(calculator) && NonZero(calculator.voxelSize)
    ensures r.Err? <==> |points| == 0
    ensures r.Err? ==> r.error == ValueError
    ensures r.Ok? ==> var v := r.value; var u := calculator.gridU;
      && |v.gridPoints| == u * u * u
      && |v.kdeValues| == |v.gridPoints| && |v.neighborCounts| == |v.gridPoints|
      && v.radius == calculator.radius && v.sigma == calculator.sigma && v.gridU == u
    ensures r.Ok? ==> var base := BaseRoi(points, roi); var h := calculator.radius * 0.5;
      r.value.roiMin == Sub(base.lo, Splat(h)) && r.value.roiMax == Add(base.hi, Splat(h))
    ensures r.Ok? ==> NoNeighborsExactlyFar(ComputeCentroids(calculator, points).value.centroids, r.value, calculator.radius)
  {
    var cr := ComputeCentroids(calculator, points);
    if cr.Err? then Err(cr.error)
    else
      var base := BaseRoi(points, roi);
      var h := calculator.radius * 0.5;
      var lo := Sub(base.lo, Splat(h));
      var hi := Add(base.hi, Splat(h));
      var grid := GenerateGrid(calculator.gridU, lo, hi);
      var cs := cr.value.centroids;
      var v := KdeOnGrid(cs, grid, calculator.radius, calculator.sigma, kernel);
      Ok(KdeGridResult(grid, v.kde, v.neighborCounts, calculator.radius, calculator.sigma, calculator.gridU, lo, hi))
  }

  /** The padding makes any region with `lo <= hi` (every bounding box)
      strictly non-degenerate, so every grid point lies strictly inside
      the padded region, and every input point is at least half a radius
      inside the padded bounding box. */
  lemma KdeGridInside(calculator: KdeCalculator, points: seq<Vec3>, roi: Option<Box>, kernel: real -> real)
    requires Valid(calculator) && NonZero(calculator.voxelSize) && |points| > 0
    requires LessEq(BaseRoi(points, roi).lo, BaseRoi(points, roi).hi)
    ensures var v := KdeCompute(calculator, points, roi, kernel).value;
      && Less(v.roiMin, v.roiMax)
      && (forall n :: 0 <= n < |v.gridPoints| ==> Less(v.roiMin, v.gridPoints[n]) && Less(v.gridPoints[n], v.roiMax))
    ensures roi.None? ==> var v := KdeCompute(calculator, points, roi, kernel).value;
      forall n :: 0 <= n < |points| ==>
        LessEq(Add(v.roiMin, Splat(calculator.radius * 0.5)), points[n])
        && LessEq(points[n], Sub(v.roiMax, Splat(calculator.radius * 0.5)))
  {
    var v := KdeCompute(calculator, points, roi, kernel).value;
    var u := calculator.gridU;
    assert v.gridPoints == GenerateGrid(u, v.roiMin, v.roiMax);
    forall n | 0 <= n < |v.gridPoints|
      ensures Less(v.roiMin, v.gridPoints[n]) && Less(v.gridPoints[n], v.roiMax)
    {
      GridInside(u, v.roiMin, v.roiMax, n);
    }
  }

  /** With a non-negative kernel, such as the Gaussian, every estimate on
      the grid is non-negative. */
  lemma KdeComputeNonNegative(calculator: KdeCalculator, points: seq<Vec3>, roi: Option<Box>, kernel: real -> real)
    requires Valid(calculator) && NonZero(calculator.voxelSize)
    requires forall d :: kernel(d) >= 0.0
    ensures var r := KdeCompute(calculator, points, roi, kernel);
      r.Ok? ==> forall n :: 0 <= n < |r.value.kdeValues| ==> r.value.kdeValues[n] >= 0.0
  {
    var r := KdeCompute(calculator, points, roi, kernel);
    if r.Ok? {
      var cs := ComputeCentroids(calculator, points).value.centroids;
      forall n | 0 <= n < |r.value.kdeValues|
        ensures r.value.kdeValues[n] >= 0.0
      {
        assert r.value.kdeValues[n] == KdeAt(cs, r.value.gridPoints[n], calculator.radius, calculator.sigma, kernel).0;
        KdeAtNonNegative(cs, r.value.gridPoints[n], calculator.radius, calculator.sigma, kernel);
      }
    }
  }

  /** The auto region is the bounding box, so it always satisfies
      `lo <= hi`. */
  lemma AutoRoiOrdered(points: seq<Vec3>)
    requires |points| > 0
    ensures LessEq(BaseRoi(points, None).lo, BaseRoi(points, None).hi)
  {
    assert LessEq(Lowest(points), points[0]) && LessEq(points[0], Highest(points));
  }
}
