/** The voxel density calculator: every point is mapped to its cell, the
    occupied cells are listed once each in lexicographic order with the
    number of points they hold (`np.unique(..., axis=0,
    return_counts=True)`), and each count is divided by the cell volume. */
module Density {
  import opened Py
  import opened Geometry
  import opened Voxel

  // ---------------------------------------------------------------------
  // Counting cells the way `np.unique(axis=0)` does
  // ---------------------------------------------------------------------

  /** Row order of `np.unique(axis=0)`: lexicographic on `(i, j, k)`. */
  predicate Before(a: Ijk, b: Ijk) {
    a.i < b.i || (a.i == b.i && (a.j < b.j || (a.j == b.j && a.k < b.k)))
  }

  /** One occupied cell and the number of points in it. */
  datatype Bin = Bin(cell: Ijk, count: nat)

  /** Cells strictly increasing, hence listed once each. */
  predicate Strict(t: seq<Bin>) {
    forall a, b :: 0 <= a < b < |t| ==> Before(t[a].cell, t[b].cell)
  }

  predicate Occupied(t: seq<Bin>) {
    forall m :: 0 <= m < |t| ==> t[m].count >= 1
  }

  function CellsOf(t: seq<Bin>): set<Ijk> {
    set m | 0 <= m < |t| :: t[m].cell
  }

  /** The points recorded for cell `c`, over all bins. */
  function CountOf(t: seq<Bin>, c: Ijk): nat {
    if |t| == 0 then 0 else (if t[0].cell == c then t[0].count else 0) + CountOf(t[1..], c)
  }

  function Total(t: seq<Bin>): nat {
    if |t| == 0 then 0 else t[0].count + Total(t[1..])
  }

  /** One more point in cell `c`: its bin is incremented, or a new bin is
      placed where the order puts it. */
  function Insert(t: seq<Bin>, c: Ijk): seq<Bin> {
    if |t| == 0 then [Bin(c, 1)]
    else if t[0].cell == c then [Bin(c, t[0].count + 1)] + t[1..]
    else if Before(c, t[0].cell) then [Bin(c, 1)] + t
    else [t[0]] + Insert(t[1..], c)
  }

  /** The bins of a list of cells, built one cell at a time. */
  function Tally(cells: seq<Ijk>): seq<Bin> {
    if |cells| == 0 then [] else Insert(Tally(cells[..|cells| - 1]), cells[|cells| - 1])
  }

  lemma {:induction false} InsertCells(t: seq<Bin>, c: Ijk)
    ensures CellsOf(Insert(t, c)) == CellsOf(t) + {c}
    decreases |t|
  {
    var r := Insert(t, c);
    if |t| > 0 && t[0].cell != c && !Before(c, t[0].cell) {
      InsertCells(t[1..], c);
      var rest := Insert(t[1..], c);
      assert r == [t[0]] + rest;
      forall d | d in CellsOf(r)
        ensures d in CellsOf(t) + {c}
      {
        var m :| 0 <= m < |r| && r[m].cell == d;
        if m > 0 {
          assert rest[m - 1].cell == d;
          assert d in CellsOf(rest);
          if d != c {
            var n :| 0 <= n < |t[1..]| && t[1..][n].cell == d;
            assert t[n + 1].cell == d;
          }
        } else {
          assert t[0].cell == d;
        }
      }
      forall d | d in CellsOf(t) + {c}
        ensures d in CellsOf(r)
      {
        if d == c {
          assert c in CellsOf(rest);
          var m :| 0 <= m < |rest| && rest[m].cell == c;
          assert r[m + 1].cell == c;
        } else {
          var n :| 0 <= n < |t| && t[n].cell == d;
          if n == 0 {
            assert r[0].cell == d;
          } else {
            assert t[1..][n - 1].cell == d;
            assert d in CellsOf(t[1..]);
            assert d in CellsOf(rest);
            var m :| 0 <= m < |rest| && rest[m].cell == d;
            assert r[m + 1].cell == d;
          }
        }
      }
    } else if |t| > 0 && t[0].cell == c {
      assert r[0].cell == c;
      forall d | d in CellsOf(r)
        ensures d in CellsOf(t)
      {
        var m :| 0 <= m < |r| && r[m].cell == d;
        assert t[m].cell == d;
      }
      forall d | d in CellsOf(t)
        ensures d in CellsOf(r)
      {
        var m :| 0 <= m < |t| && t[m].cell == d;
        assert r[m].cell == d;
      }
    } else if |t| > 0 {
      assert r[0].cell == c;
      forall d | d in CellsOf(r) && d != c
        ensures d in CellsOf(t)
      {
        var m :| 0 <= m < |r| && r[m].cell == d;
        assert t[m - 1].cell == d;
      }
      forall d | d in CellsOf(t)
        ensures d in CellsOf(r)
      {
        var m :| 0 <= m < |t| && t[m].cell == d;
        assert r[m + 1].cell == d;
      }
    } else {
      assert r[0].cell == c;
    }
  }

  /** `Before` is a strict total order. */
  lemma BeforeTotal(a: Ijk, b: Ijk)
    ensures a == b || Before(a, b) || Before(b, a)
    ensures !(Before(a, b) && Before(b, a))
  {
  }

  lemma {:induction false} InsertStrict(t: seq<Bin>, c: Ijk)
    requires Strict(t)
    ensures Strict(Insert(t, c))
    decreases |t|
  {
    var r := Insert(t, c);
    if |t| > 0 && t[0].cell != c && !Before(c, t[0].cell) {
      var rest := Insert(t[1..], c);
      InsertStrict(t[1..], c);
      InsertCells(t[1..], c);
      BeforeTotal(c, t[0].cell);
      forall b | 0 < b < |r|
        ensures Before(r[0].cell, r[b].cell)
      {
        assert r[b] == rest[b - 1];
        assert rest[b - 1].cell in CellsOf(rest);
        if rest[b - 1].cell != c {
          var n :| 0 <= n < |t[1..]| && t[1..][n].cell == rest[b - 1].cell;
          assert t[n + 1].cell == rest[b - 1].cell;
        }
      }
      forall a, b | 0 <= a < b < |r|
        ensures Before(r[a].cell, r[b].cell)
      {
        if a > 0 {
          assert r[a] == rest[a - 1] && r[b] == rest[b - 1];
        }
      }
    } else if |t| > 0 && t[0].cell == c {
      forall a, b | 0 <= a < b < |r|
        ensures Before(r[a].cell, r[b].cell)
      {
        assert r[a].cell == t[a].cell && r[b].cell == t[b].cell;
      }
    } else if |t| > 0 {
      forall a, b | 0 <= a < b < |r|
        ensures Before(r[a].cell, r[b].cell)
      {
        if a == 0 {
          assert Before(c, t[0].cell);
          if b > 1 {
            assert Before(t[0].cell, t[b - 1].cell);
          }
        } else {
          assert r[a] == t[a - 1] && r[b] == t[b - 1];
        }
      }
    }
  }

  lemma {:induction false} InsertCounts(t: seq<Bin>, c: Ijk, d: Ijk)
    ensures CountOf(Insert(t, c), d) == CountOf(t, d) + (if d == c then 1 else 0)
    ensures Total(Insert(t, c)) == Total(t) + 1
    decreases |t|
  {
    var r := Insert(t, c);
    if |t| > 0 && t[0].cell != c && !Before(c, t[0].cell) {
      InsertCounts(t[1..], c, d);
      assert r[1..] == Insert(t[1..], c);
    } else if |t| > 0 && t[0].cell == c {
      assert r[1..] == t[1..];
    } else if |t| > 0 {
      assert r[1..] == t;
    } else {
      assert r[1..] == [];
    }
  }

  lemma {:induction false} InsertOccupied(t: seq<Bin>, c: Ijk)
    requires Occupied(t)
    ensures Occupied(Insert(t, c))
    decreases |t|
  {
    var r := Insert(t, c);
    if |t| > 0 && t[0].cell != c && !Before(c, t[0].cell) {
      InsertOccupied(t[1..], c);
      assert forall m :: 0 < m < |r| ==> r[m] == Insert(t[1..], c)[m - 1];
    } else if |t| > 0 && t[0].cell != c {
      assert forall m :: 0 < m < |r| ==> r[m] == t[m - 1];
    }
  }

  /** In a strictly ordered list a cell's count is its own bin's count. */
  lemma {:induction false} CountOfOwnBin(t: seq<Bin>, m: nat)
    requires Strict(t) && m < |t|
    ensures CountOf(t, t[m].cell) == t[m].count
    decreases |t|
  {
    if m > 0 {
      assert Before(t[0].cell, t[m].cell);
      assert t[1..][m - 1] == t[m];
      CountOfOwnBin(t[1..], m - 1);
    } else {
      CountOfAbsent(t[1..], t[0].cell);
    }
  }

  lemma {:induction false} CountOfAbsent(t: seq<Bin>, c: Ijk)
    requires Strict(t) && c !in CellsOf(t)
    ensures CountOf(t, c) == 0
    decreases |t|
  {
    if |t| > 0 {
      assert t[0].cell in CellsOf(t);
      assert CellsOf(t[1..]) <= CellsOf(t) by {
        forall d | d in CellsOf(t[1..])
          ensures d in CellsOf(t)
        {
          var n :| 0 <= n < |t[1..]| && t[1..][n].cell == d;
          assert t[n + 1].cell == d;
        }
      }
      CountOfAbsent(t[1..], c);
    }
  }

  /** What `np.unique(axis=0, return_counts=True)` promises: the cells in
      increasing order, each occupied cell exactly once, each count the
      number of occurrences, the counts adding up to the input length. */
  lemma TallyCounts(cells: seq<Ijk>)
    ensures Strict(Tally(cells)) && Occupied(Tally(cells))
    ensures CellsOf(Tally(cells)) == set d | d in cells
    ensures forall d :: CountOf(Tally(cells), d) == multiset(cells)[d]
    ensures Total(Tally(cells)) == |cells|
  {
    TallyOrdered(cells);
    TallyCells(cells);
    TallyOccurrences(cells);
  }

  lemma {:induction false} TallyOrdered(cells: seq<Ijk>)
    ensures Strict(Tally(cells)) && Occupied(Tally(cells))
    decreases |cells|
  {
    if |cells| > 0 {
      var init := cells[..|cells| - 1];
      TallyOrdered(init);
      InsertStrict(Tally(init), cells[|cells| - 1]);
      InsertOccupied(Tally(init), cells[|cells| - 1]);
    }
  }

  lemma {:induction false} TallyCells(cells: seq<Ijk>)
    ensures CellsOf(Tally(cells)) == set d | d in cells
    decreases |cells|
  {
    if |cells| > 0 {
      var init := cells[..|cells| - 1];
      var c := cells[|cells| - 1];
      TallyCells(init);
      InsertCells(Tally(init), c);
      assert cells == init + [c];
      assert (set d | d in cells) == (set d | d in init) + {c};
    }
  }

  lemma {:induction false} TallyOccurrences(cells: seq<Ijk>)
    ensures forall d :: CountOf(Tally(cells), d) == multiset(cells)[d]
    ensures Total(Tally(cells)) == |cells|
    decreases |cells|
  {
    if |cells| > 0 {
      var init := cells[..|cells| - 1];
      var c := cells[|cells| - 1];
      TallyOccurrences(init);
      assert cells == init + [c];
      forall d
        ensures CountOf(Tally(cells), d) == multiset(cells)[d]
      {
        InsertCounts(Tally(init), c, d);
      }
      InsertCounts(Tally(init), c, c);
    }
  }

  /** Each bin's count is the number of input cells equal to its cell. */
  lemma TallyBinCounts(cells: seq<Ijk>, m: nat)
    requires m < |Tally(cells)|
    ensures Tally(cells)[m].count == multiset(cells)[Tally(cells)[m].cell] >= 1
  {
    TallyCounts(cells);
    CountOfOwnBin(Tally(cells), m);
  }

  // ---------------------------------------------------------------------
  // `VoxelDensityCalculator`
  // ---------------------------------------------------------------------

  datatype Calculator = Calculator(voxelSize: Vec3)

  /** The constructor refuses a cell size that is not positive on every
      axis. */
  function NewCalculator(voxelSize: Vec3): (r: Result<Calculator>)
    ensures r.Ok? <==> Positive(voxelSize)
    ensures r.Ok? ==> r.value.voxelSize == voxelSize
    ensures r.Err? ==> r.error == ValueError
  {
    if voxelSize.x <= 0.0 || voxelSize.y <= 0.0 || voxelSize.z <= 0.0 then Err(ValueError)
    else Ok(Calculator(voxelSize))
  }

  datatype DensityResult = DensityResult(
    centers: seq<Vec3>,
    counts: seq<nat>,
    density: seq<real>,
    indices: seq<Ijk>,
    voxelSize: Vec3,
    origin: Vec3)

  /** The four per-voxel columns have one row per occupied voxel. */
  predicate Aligned(res: DensityResult) {
    |res.centers| == |res.counts| == |res.density| == |res.indices|
  }

  function Volume(size: Vec3): real {
    size.x * size.y * size.z
  }

  lemma VolumePositive(size: Vec3)
    requires Positive(size)
    ensures Volume(size) > 0.0
  {
    assert size.x * size.y > 0.0;
  }

  /** `voxel_index` applied to every point: for a positive size, each
      point lies in its cell. */
  function CellsOfPoints(points: seq<Vec3>, origin: Vec3, size: Vec3): (cells: seq<Ijk>)
    requires NonZero(size)
    ensures |cells| == |points|
    ensures forall n :: 0 <= n < |points| ==> cells[n] == VoxelIndex(points[n], origin, size)
    ensures Positive(size) ==> forall n :: 0 <= n < |points| ==> InCell(points[n], cells[n], origin, size)
  {
    var cells := seq(|points|, n requires 0 <= n < |points| => VoxelIndex(points[n], origin, size));
    forall n | 0 <= n < |points|
      ensures Positive(size) ==> InCell(points[n], cells[n], origin, size)
    {
      VoxelIndexInCell(points[n], origin, size);
    }
    cells
  }

  function SumNat(s: seq<nat>): nat {
    if |s| == 0 then 0 else s[0] + SumNat(s[1..])
  }

  lemma {:induction false} SumNatOfCounts(t: seq<Bin>)
    ensures SumNat(seq(|t|, m requires 0 <= m < |t| => t[m].count)) == Total(t)
    decreases |t|
  {
    if |t| > 0 {
      var s := seq(|t|, m requires 0 <= m < |t| => t[m].count);
      SumNatOfCounts(t[1..]);
      assert s[1..] == seq(|t[1..]|, m requires 0 <= m < |t[1..]| => t[1..][m].count);
    }
  }

  /** The result columns for the bins `t`. */
  function Table(t: seq<Bin>, o: Vec3, size: Vec3): (res: DensityResult)
    requires Positive(size)
    ensures Aligned(res) && |res.indices| == |t|
    ensures forall m :: 0 <= m < |t| ==> res.indices[m] == t[m].cell && res.counts[m] == t[m].count
  {
    VolumePositive(size);
    DensityResult(
      seq(|t|, m requires 0 <= m < |t| => VoxelCenter(t[m].cell, o, size)),
      seq(|t|, m requires 0 <= m < |t| => t[m].count),
      seq(|t|, m requires 0 <= m < |t| => t[m].count as real / Volume(size)),
      seq(|t|, m requires 0 <= m < |t| => t[m].cell),
      size,
      o)
  }

  /** The origin `compute` uses. */
  function OriginFor(points: seq<Vec3>, origin: Option<Vec3>): Vec3
    requires origin.Some? || |points| > 0
  {
    if origin.Some? then origin.value else Lowest(points)
  }

  /** `compute`: the origin defaults to the minimum corner of the points
      (an empty cloud has none: `ValueError`); each occupied cell gets its
      centre, its count and count / volume. */
  function Compute(calculator: Calculator, points: seq<Vec3>, origin: Option<Vec3>): (r: Result<DensityResult>)
    requires Positive(calculator.voxelSize)
    ensures r.Err? <==> origin.None? && |points| == 0
    ensures r.Ok? ==> Aligned(r.value)
    ensures r.Ok? ==> r.value.voxelSize == calculator.voxelSize
    ensures r.Ok? && origin.Some? ==> r.value.origin == origin.value
    ensures r.Ok? && origin.None? ==> r.value.origin == Lowest(points)
  {
    if origin.None? && |points| == 0 then Err(ValueError)
    else
      var o := OriginFor(points, origin);
      var size := calculator.voxelSize;
      Ok(Table(Tally(CellsOfPoints(points, o, size)), o, size))
  }

  /** The cells `compute` lists are in increasing order, so each once, and
      each count is the number of points whose cell it is, at least one. */
  lemma ComputeCells(calculator: Calculator, points: seq<Vec3>, origin: Option<Vec3>)
    requires Positive(calculator.voxelSize)
    requires origin.Some? || |points| > 0
    ensures var res := Compute(calculator, points, origin).value;
      var cells := CellsOfPoints(points, res.origin, calculator.voxelSize);
      && (forall a, b :: 0 <= a < b < |res.indices| ==> Before(res.indices[a], res.indices[b]))
      && (forall m :: 0 <= m < |res.counts| ==> res.counts[m] == multiset(cells)[res.indices[m]] >= 1)
  {
    var o := OriginFor(points, origin);
    var cells := CellsOfPoints(points, o, calculator.voxelSize);
    TallyOrdered(cells);
    forall m | 0 <= m < |Tally(cells)|
      ensures Tally(cells)[m].count == multiset(cells)[Tally(cells)[m].cell] >= 1
    {
      TallyBinCounts(cells, m);
    }
  }

  /** Every point lies in one of the listed cells, and the counts add up
      to the number of points. */
  lemma ComputeCovers(calculator: Calculator, points: seq<Vec3>, origin: Option<Vec3>)
    requires Positive(calculator.voxelSize)
    requires origin.Some? || |points| > 0
    ensures var res := Compute(calculator, points, origin).value;
      && (forall n :: 0 <= n < |points| ==>
            exists m :: 0 <= m < |res.indices| && InCell(points[n], res.indices[m], res.origin, res.voxelSize))
      && SumNat(res.counts) == |points|
  {
    var res := Compute(calculator, points, origin).value;
    var o := OriginFor(points, origin);
    var cells := CellsOfPoints(points, o, calculator.voxelSize);
    var t := Tally(cells);
    TallyCells(cells);
    TallyOccurrences(cells);
    forall n | 0 <= n < |points|
      ensures exists m :: 0 <= m < |res.indices| && InCell(points[n], res.indices[m], res.origin, res.voxelSize)
    {
      assert cells[n] in cells;
      assert cells[n] in CellsOf(t);
      var m :| 0 <= m < |t| && t[m].cell == cells[n];
      assert res.indices[m] == cells[n];
    }
    SumNatOfCounts(t);
    assert res.counts == seq(|t|, m requires 0 <= m < |t| => t[m].count);
  }

  /** Density is count over the cell volume, and each centre is the centre
      of the listed cell. */
  lemma ComputeDensity(calculator: Calculator, points: seq<Vec3>, origin: Option<Vec3>)
    requires Positive(calculator.voxelSize)
    requires origin.Some? || |points| > 0
    ensures var res := Compute(calculator, points, origin).value;
      && (forall m :: 0 <= m < |res.density| ==> res.density[m] * Volume(res.voxelSize) == res.counts[m] as real)
      && (forall m :: 0 <= m < |res.centers| ==> res.centers[m] == VoxelCenter(res.indices[m], res.origin, res.voxelSize))
  {
    var o := OriginFor(points, origin);
    var size := calculator.voxelSize;
    var t := Tally(CellsOfPoints(points, o, size));
    var r := Compute(calculator, points, origin);
    assert r.value == Table(t, o, size);
    TableDensity(t, o, size);
  }

  lemma TableDensity(t: seq<Bin>, o: Vec3, size: Vec3)
    requires Positive(size)
    ensures var res := Table(t, o, size);
      && (forall m :: 0 <= m < |res.density| ==> res.density[m] * Volume(size) == res.counts[m] as real)
      && (forall m :: 0 <= m < |res.centers| ==> res.centers[m] == VoxelCenter(res.indices[m], o, size))
  {
    var res := Table(t, o, size);
    VolumePositive(size);
    forall m | 0 <= m < |res.density|
      ensures res.density[m] * Volume(size) == res.counts[m] as real
    {
      DivThenTimes(res.counts[m] as real, Volume(size));
    }
  }

  lemma DivThenTimes(a: real, v: real)
    requires v != 0.0
    ensures (a / v) * v == a
  {
  }
}
