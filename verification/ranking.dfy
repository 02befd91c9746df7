/** The lowest-density export: a stable ascending argsort of the density
    column, its first `k` positions, the rows gathered from those
    positions, ranks from 1, and the `<stem>_lowest<k>.csv` name. */
module Ranking {
  import opened Py
  import opened Geometry
  import opened Voxel
  import opened Density
  import opened Paths

  // ---------------------------------------------------------------------
  // Stable argsort
  // ---------------------------------------------------------------------

  /** The order `np.argsort(kind="stable")` puts positions in: by value,
      and by position among equal values. */
  predicate Precedes(d: seq<real>, a: nat, b: nat)
    requires a < |d| && b < |d|
  {
    d[a] < d[b] || (d[a] == d[b] && a < b)
  }

  predicate InRange(d: seq<real>, o: seq<nat>) {
    forall k :: 0 <= k < |o| ==> o[k] < |d|
  }

  /** Positions listed in strictly increasing `Precedes` order. */
  predicate SortedBy(d: seq<real>, o: seq<nat>)
    requires InRange(d, o)
  {
    forall a, b :: 0 <= a < b < |o| ==> Precedes(d, o[a], o[b])
  }

  /** Position `i` placed after every position that precedes it. */
  function InsertPosition(d: seq<real>, o: seq<nat>, i: nat): (r: seq<nat>)
    requires InRange(d, o) && i < |d|
    ensures |r| == |o| + 1 && InRange(d, r)
    ensures forall j :: j in r <==> j in o || j == i
  {
    if |o| == 0 then [i]
    else if Precedes(d, i, o[0]) then [i] + o
    else [o[0]] + InsertPosition(d, o[1..], i)
  }

  /** The stable argsort of the first `n` values. */
  function ArgsortUpTo(d: seq<real>, n: nat): (o: seq<nat>)
    requires n <= |d|
    ensures |o| == n && InRange(d, o)
    ensures forall j: nat :: j in o <==> j < n
  {
    if n == 0 then [] else InsertPosition(d, ArgsortUpTo(d, n - 1), n - 1)
  }

  /** `np.argsort(density, kind="stable")`. */
  function Argsort(d: seq<real>): (o: seq<nat>)
    ensures |o| == |d| && InRange(d, o)
  {
    ArgsortUpTo(d, |d|)
  }

  lemma {:induction false} InsertPositionSorted(d: seq<real>, o: seq<nat>, i: nat)
    requires InRange(d, o) && i < |d| && i !in o
    requires SortedBy(d, o)
    ensures SortedBy(d, InsertPosition(d, o, i))
    decreases |o|
  {
    var r := InsertPosition(d, o, i);
    if |o| > 0 && !Precedes(d, i, o[0]) {
      var rest := InsertPosition(d, o[1..], i);
      assert i !in o[1..];
      InsertPositionSorted(d, o[1..], i);
      assert Precedes(d, o[0], i);
      forall a, b | 0 <= a < b < |r|
        ensures Precedes(d, r[a], r[b])
      {
        if a == 0 {
          assert r[b] == rest[b - 1];
          assert rest[b - 1] in rest;
          if rest[b - 1] != i {
            assert rest[b - 1] in o[1..];
            var n :| 0 <= n < |o[1..]| && o[1..][n] == rest[b - 1];
            assert o[n + 1] == rest[b - 1];
          }
        } else {
          assert r[a] == rest[a - 1] && r[b] == rest[b - 1];
        }
      }
    } else if |o| > 0 {
      forall a, b | 0 <= a < b < |r|
        ensures Precedes(d, r[a], r[b])
      {
        if a == 0 {
          if b > 1 {
            assert Precedes(d, o[0], o[b - 1]);
          }
        } else {
          assert r[a] == o[a - 1] && r[b] == o[b - 1];
        }
      }
    }
  }

  lemma {:induction false} ArgsortUpToSorted(d: seq<real>, n: nat)
    requires n <= |d|
    ensures SortedBy(d, ArgsortUpTo(d, n))
    decreases n
  {
    if n > 0 {
      ArgsortUpToSorted(d, n - 1);
      InsertPositionSorted(d, ArgsortUpTo(d, n - 1), n - 1);
    }
  }

  /** The argsort is a permutation of the positions (each exactly once)
      in stable ascending order. */
  lemma ArgsortIsStableSort(d: seq<real>)
    ensures var o := Argsort(d);
      && SortedBy(d, o)
      && (forall j: nat :: j in o <==> j < |d|)
      && (forall a, b :: 0 <= a < b < |o| ==> o[a] != o[b])
  {
    ArgsortUpToSorted(d, |d|);
  }

  /** Any other permutation in stable ascending order is the argsort: the
      sort is unique. */
  lemma {:induction false} StableSortUnique(d: seq<real>, o: seq<nat>, p: seq<nat>)
    requires InRange(d, o) && InRange(d, p) && SortedBy(d, o) && SortedBy(d, p)
    requires forall j :: j in o <==> j in p
    ensures o == p
    decreases |o|
  {
    assert |o| > 0 ==> o[0] in p;
    assert |p| > 0 ==> p[0] in o;
    if |o| > 0 && |p| > 0 {
      // Both heads are the least element of the same set.
      HeadPrecedes(d, o, p[0]);
      HeadPrecedes(d, p, o[0]);
      assert o[0] == p[0];
      forall j
        ensures j in o[1..] <==> j in p[1..]
      {
        if j in o[1..] {
          var a :| 1 <= a < |o| && o[a] == j;
          assert Precedes(d, o[0], o[a]);
          assert j in p;
        }
        if j in p[1..] {
          var b :| 1 <= b < |p| && p[b] == j;
          assert Precedes(d, p[0], p[b]);
          assert j in o;
        }
      }
      StableSortUnique(d, o[1..], p[1..]);
      assert o == [o[0]] + o[1..] && p == [p[0]] + p[1..];
    }
  }

  /** The head of a sorted list precedes every other member. */
  lemma HeadPrecedes(d: seq<real>, o: seq<nat>, j: nat)
    requires InRange(d, o) && SortedBy(d, o) && j in o && j < |d|
    ensures o[0] == j || Precedes(d, o[0], j)
  {
    var a :| 0 <= a < |o| && o[a] == j;
    if a > 0 {
      assert Precedes(d, o[0], o[a]);
    }
  }

  // ---------------------------------------------------------------------
  // `[:k]`
  // ---------------------------------------------------------------------

  /** `np.argsort(density, kind="stable")[:k]`. */
  function Selection(d: seq<real>, k: int): (sel: seq<nat>)
    ensures InRange(d, sel)
  {
    var o := Argsort(d);
    Slice(o, 0, k)
  }

  /** The selection is the leading part of the argsort; its length is
      `min(k, n)` for `k >= 0`, and `n - |k|` (at least 0) for negative
      `k`, which drops positions from the end. */
  lemma SelectionPrefix(d: seq<real>, k: int)
    ensures var sel := Selection(d, k);
      && sel == Argsort(d)[..|sel|]
      && (k >= 0 ==> |sel| == if k < |d| then k else |d|)
      && (k < 0 ==> |sel| == if |d| + k < 0 then 0 else |d| + k)
  {
  }

  /** The selected densities are nondecreasing, ties in position order, and
      every position left out has a density at least as large as every one
      selected: the `k` lowest. */
  lemma SelectionLowest(d: seq<real>, k: int)
    ensures var sel := Selection(d, k);
      && SortedBy(d, sel)
      && (forall a, q :: 0 <= a < |sel| && 0 <= q < |d| && q !in sel ==> d[sel[a]] <= d[q])
  {
    var o := Argsort(d);
    var sel := Selection(d, k);
    SelectionPrefix(d, k);
    ArgsortIsStableSort(d);
    forall a, q | 0 <= a < |sel| && 0 <= q < |d| && q !in sel
      ensures d[sel[a]] <= d[q]
    {
      assert q in o;
      var b :| 0 <= b < |o| && o[b] == q;
      assert sel[a] == o[a];
      assert Precedes(d, o[a], o[b]);
    }
  }

  // ---------------------------------------------------------------------
  // `export_lowest_density_voxels`
  // ---------------------------------------------------------------------

  /** One CSV row: rank, `(i, j, k)`, density, count and centre. */
  datatype Row = Row(rank: nat, cell: Ijk, density: real, count: nat, center: Vec3)

  datatype Export = Export(rows: seq<Row>, csv: Path)

  /** The rows gathered from the selected positions, ranked from 1. */
  function Rows(res: DensityResult, sel: seq<nat>): (rows: seq<Row>)
    requires Aligned(res) && InRange(res.density, sel)
    ensures |rows| == |sel|
    ensures forall j :: 0 <= j < |sel| ==> rows[j].rank == j + 1
    ensures forall j :: 0 <= j < |sel| ==>
      var p := sel[j];
      rows[j].cell == res.indices[p] && rows[j].density == res.density[p]
      && rows[j].count == res.counts[p] && rows[j].center == res.centers[p]
  {
    seq(|sel|, j requires 0 <= j < |sel| =>
      var p := sel[j];
      Row(j + 1, res.indices[p], res.density[p], res.counts[p], res.centers[p]))
  }

  /** `export_lowest_density_voxels` without the file writing: the rows
      and the CSV path; a prefix without a name cannot be renamed
      (`ValueError`). */
  function ExportLowest(res: DensityResult, k: int, prefix: Path): (r: Result<Export>)
    requires Aligned(res)
    ensures r.Err? <==> LowestCsvPath(prefix, k).Err?
    ensures r.Ok? ==> r.value.csv == LowestCsvPath(prefix, k).value
  {
    var rows := Rows(res, Selection(res.density, k));
    var path := LowestCsvPath(prefix, k);
    if path.Err? then Err(path.error) else Ok(Export(rows, path.value))
  }

  /** The exported rows are the `min(k, n)` lowest-density voxels in
      ascending order of density, each row read from one voxel, ranked
      1, 2, ...; no voxel left out is less dense than one exported. */
  lemma ExportLowestRows(res: DensityResult, k: int, prefix: Path)
    requires Aligned(res) && k >= 0
    requires ExportLowest(res, k, prefix).Ok?
    ensures var rows := ExportLowest(res, k, prefix).value.rows;
      var n := |res.density|;
      && |rows| == (if k < n then k else n)
      && (forall j :: 0 <= j < |rows| ==> rows[j].rank == j + 1)
      && (forall a, b :: 0 <= a < b < |rows| ==> rows[a].density <= rows[b].density)
      && (forall j :: 0 <= j < |rows| ==> exists p :: (0 <= p < n
            && rows[j].cell == res.indices[p] && rows[j].density == res.density[p]
            && rows[j].count == res.counts[p] && rows[j].center == res.centers[p]))
      && (forall j, q :: 0 <= j < |rows| && 0 <= q < n && q !in Selection(res.density, k) ==>
            rows[j].density <= res.density[q])
  {
    var d := res.density;
    var sel := Selection(d, k);
    var rows := ExportLowest(res, k, prefix).value.rows;
    assert rows == Rows(res, sel);
    SelectionPrefix(d, k);
    SelectionLowest(d, k);
    forall a, b | 0 <= a < b < |rows|
      ensures rows[a].density <= rows[b].density
    {
      assert Precedes(d, sel[a], sel[b]);
    }
  }
}
