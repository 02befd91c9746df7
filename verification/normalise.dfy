/** The grey-scale colouring of the density utilities: the min-max
    normalisation `save_points_with_scalar` applies before writing a
    coloured cloud, and the viewer's clip-to-grey colour map, its box
    normalisation against an upper quantile, and its choice of projection
    plane. */
module Normalise {
  import opened Py
  import opened Geometry

  // ---------------------------------------------------------------------
  // Minimum and maximum of a non-empty column
  // ---------------------------------------------------------------------

  function MinOf(s: seq<real>): (r: real)
    requires |s| > 0
    ensures r in s
    ensures forall k :: 0 <= k < |s| ==> r <= s[k]
  {
    if |s| == 1 then s[0] else Min(s[0], MinOf(s[1..]))
  }

  function MaxOf(s: seq<real>): (r: real)
    requires |s| > 0
    ensures r in s
    ensures forall k :: 0 <= k < |s| ==> s[k] <= r
  {
    if |s| == 1 then s[0] else Max(s[0], MaxOf(s[1..]))
  }

  function Zeros(n: nat): (z: seq<real>)
    ensures |z| == n && forall k :: 0 <= k < n ==> z[k] == 0.0
  {
    seq(n, k => 0.0)
  }

  /** `(s - lo) / (hi - lo)` for every entry, for `hi > lo`. */
  function Rescale(s: seq<real>, lo: real, hi: real): (r: seq<real>)
    requires hi > lo
    ensures |r| == |s|
  {
    seq(|s|, k requires 0 <= k < |s| => (s[k] - lo) / (hi - lo))
  }

  // ---------------------------------------------------------------------
  // `save_points_with_scalar`
  // ---------------------------------------------------------------------

  /** The normalised scalar column: an empty column is first replaced by one
      zero per point, and the minimum of a still empty column is a
      `ValueError`; a spread column is rescaled to `[0, 1]`, a constant one
      becomes zeros. */
  function NormaliseScalars(scalar: seq<real>, pointCount: nat): (r: Result<seq<real>>)
    ensures r.Err? <==> |scalar| == 0 && pointCount == 0
    ensures r.Err? ==> r.error == ValueError
    ensures r.Ok? ==> |r.value| == if |scalar| == 0 then pointCount else |scalar|
    ensures r.Ok? ==> forall k :: 0 <= k < |r.value| ==> 0.0 <= r.value[k] <= 1.0
    ensures r.Ok? && |scalar| == 0 ==> forall k :: 0 <= k < |r.value| ==> r.value[k] == 0.0
  {
    var s := if |scalar| == 0 then Zeros(pointCount) else scalar;
    if |s| == 0 then Err(ValueError)
    else
      var lo := MinOf(s);
      var hi := MaxOf(s);
      if hi > lo then
        RescaleUnit(s, lo, hi);
        Ok(Rescale(s, lo, hi))
      else Ok(Zeros(|s|))
  }

  /** Entries between the bounds are rescaled into `[0, 1]`. */
  lemma RescaleUnit(s: seq<real>, lo: real, hi: real)
    requires hi > lo
    requires forall k :: 0 <= k < |s| ==> lo <= s[k] <= hi
    ensures forall k :: 0 <= k < |s| ==> 0.0 <= Rescale(s, lo, hi)[k] <= 1.0
  {
    forall k | 0 <= k < |s|
      ensures 0.0 <= Rescale(s, lo, hi)[k] <= 1.0
    {
      UnitInterval(s[k], lo, hi);
    }
  }

  lemma UnitInterval(x: real, lo: real, hi: real)
    requires lo <= x <= hi && lo < hi
    ensures 0.0 <= (x - lo) / (hi - lo) <= 1.0
  {
    var w := hi - lo;
    assert (x - lo) / w * w == x - lo;
    if (x - lo) / w > 1.0 {
      MulMore((x - lo) / w, 1.0, w);
    }
  }

  lemma MulMore(a: real, b: real, w: real)
    requires a > b && w > 0.0
    ensures a * w > b * w
  {
  }

  /** The extremes map to the ends of the unit interval and the rescaling
      can be undone: `sn (max - min) + min` is the original entry. A
      constant column maps to all zeros. */
  lemma NormaliseScalarsEnds(scalar: seq<real>, pointCount: nat)
    requires |scalar| > 0
    ensures var sn := NormaliseScalars(scalar, pointCount).value;
      var lo := MinOf(scalar); var hi := MaxOf(scalar);
      && (hi > lo ==> forall k :: 0 <= k < |scalar| ==>
            (scalar[k] == lo ==> sn[k] == 0.0) && (scalar[k] == hi ==> sn[k] == 1.0)
            && Restore(sn[k], lo, hi) == scalar[k])
      && (hi == lo ==> forall k :: 0 <= k < |scalar| ==> sn[k] == 0.0)
  {
    var lo := MinOf(scalar);
    var hi := MaxOf(scalar);
    var r := NormaliseScalars(scalar, pointCount);
    if hi > lo {
      assert r == Ok(Rescale(scalar, lo, hi));
      RescaleEnds(scalar, lo, hi);
    } else {
      assert r == Ok(Zeros(|scalar|));
    }
  }

  /** Normalising keeps the order of the entries, and for a spread column
      it also reflects it: equal normalised order means equal input
      order. */
  lemma NormaliseScalarsOrder(scalar: seq<real>, pointCount: nat)
    requires |scalar| > 0
    ensures var sn := NormaliseScalars(scalar, pointCount).value;
      && (forall a, b :: 0 <= a < |scalar| && 0 <= b < |scalar| && scalar[a] <= scalar[b] ==> sn[a] <= sn[b])
      && (MaxOf(scalar) > MinOf(scalar) ==>
            forall a, b :: 0 <= a < |scalar| && 0 <= b < |scalar| && sn[a] <= sn[b] ==> scalar[a] <= scalar[b])
  {
    var lo := MinOf(scalar);
    var hi := MaxOf(scalar);
    if hi > lo {
      assert NormaliseScalars(scalar, pointCount).value == Rescale(scalar, lo, hi);
      RescaleOrder(scalar, lo, hi);
    } else {
      assert NormaliseScalars(scalar, pointCount).value == Zeros(|scalar|);
    }
  }

  /** Rescaling by a positive width sends the ends to 0 and 1 and can be
      undone. */
  lemma RescaleEnds(s: seq<real>, lo: real, hi: real)
    requires hi > lo
    ensures var r := Rescale(s, lo, hi);
      forall k :: 0 <= k < |s| ==>
        (s[k] == lo ==> r[k] == 0.0) && (s[k] == hi ==> r[k] == 1.0) && Restore(r[k], lo, hi) == s[k]
  {
    var r := Rescale(s, lo, hi);
    var w := hi - lo;
    assert w / w == 1.0;
    forall k | 0 <= k < |s|
      ensures Restore(r[k], lo, hi) == s[k]
    {
      assert (s[k] - lo) / w * w == s[k] - lo;
    }
  }

  /** The inverse of the rescaling: `x (hi - lo) + lo`. */
  function Restore(x: real, lo: real, hi: real): real {
    x * (hi - lo) + lo
  }

  /** Rescaling by a positive width keeps and reflects the order. */
  lemma RescaleOrder(s: seq<real>, lo: real, hi: real)
    requires hi > lo
    ensures var r := Rescale(s, lo, hi);
      forall a, b :: 0 <= a < |s| && 0 <= b < |s| ==> (s[a] <= s[b] <==> r[a] <= r[b])
  {
    var r := Rescale(s, lo, hi);
    var w := hi - lo;
    RescaleEnds(s, lo, hi);
    forall a, b | 0 <= a < |s| && 0 <= b < |s|
      ensures s[a] <= s[b] <==> r[a] <= r[b]
    {
      assert Restore(r[a], lo, hi) == s[a] && Restore(r[b], lo, hi) == s[b];
      AffineOrder(s[a], s[b], r[a], r[b], w, lo);
    }
  }

  /** `x -> x w + lo` with `w > 0` keeps and reflects the order. */
  lemma AffineOrder(sa: real, sb: real, ra: real, rb: real, w: real, lo: real)
    requires w > 0.0
    requires ra * w + lo == sa && rb * w + lo == sb
    ensures sa <= sb <==> ra <= rb
  {
    if ra <= rb {
      MulLeqReal(ra, rb, w);
    }
    if sa <= sb && ra > rb {
      MulMore(ra, rb, w);
    }
  }

  /** Where `p = x w` lies against 0 and `w` tells where `x` lies against
      0 and 1. */
  lemma UnitScale(x: real, w: real, p: real)
    requires w > 0.0 && p == x * w
    ensures p >= 0.0 ==> x >= 0.0
    ensures p <= w ==> x <= 1.0
    ensures p > w ==> x > 1.0
  {
    if x < 0.0 {
      MulMore(0.0, x, w);
    }
    if x > 1.0 {
      MulMore(x, 1.0, w);
    }
    if x <= 1.0 {
      MulLeqReal(x, 1.0, w);
    }
  }

  lemma MulLeqReal(a: real, b: real, w: real)
    requires a <= b && w > 0.0
    ensures a * w <= b * w
  {
  }

  /** `np.stack([sn, sn, sn], axis=1)`: one grey colour per entry. */
  function Grey(sn: seq<real>): (colors: seq<Vec3>)
    ensures |colors| == |sn|
    ensures forall k :: 0 <= k < |sn| ==> colors[k] == Splat(sn[k])
  {
    seq(|sn|, k requires 0 <= k < |sn| => Splat(sn[k]))
  }

  /** The colours written with the points: one grey per scalar (one per
      point when the scalar column is empty), every channel in `[0, 1]`. */
  function ScalarColors(scalar: seq<real>, pointCount: nat): (r: Result<seq<Vec3>>)
    ensures r.Err? <==> |scalar| == 0 && pointCount == 0
    ensures r.Ok? ==> |r.value| == if |scalar| == 0 then pointCount else |scalar|
    ensures r.Ok? ==> forall k :: 0 <= k < |r.value| ==>
      LessEq(Splat(0.0), r.value[k]) && LessEq(r.value[k], Splat(1.0))
      && r.value[k].x == r.value[k].y == r.value[k].z
  {
    var sn := NormaliseScalars(scalar, pointCount);
    if sn.Err? then Err(sn.error) else Ok(Grey(sn.value))
  }

  // ---------------------------------------------------------------------
  // The viewer's colour map and box normalisation
  // ---------------------------------------------------------------------

  /** `np.clip(s, 0.0, 1.0)` of one value. */
  function Clip(x: real): (c: real)
    ensures 0.0 <= c <= 1.0
    ensures 0.0 <= x <= 1.0 ==> c == x
    ensures x < 0.0 ==> c == 0.0
    ensures x > 1.0 ==> c == 1.0
  {
    if x < 0.0 then 0.0 else if x > 1.0 then 1.0 else x
  }

  /** `color_from_scalar_linear`: clipped to `[0, 1]`, three equal
      channels. */
  function ColorFromScalarLinear(s: seq<real>): (colors: seq<Vec3>)
    ensures |colors| == |s|
    ensures forall k :: 0 <= k < |s| ==> colors[k] == Splat(Clip(s[k]))
  {
    Grey(seq(|s|, k requires 0 <= k < |s| => Clip(s[k])))
  }

  /** Clipping keeps the order of values and is idempotent. */
  lemma ClipMonotone(x: real, y: real)
    requires x <= y
    ensures Clip(x) <= Clip(y)
    ensures Clip(Clip(x)) == Clip(x)
  {
  }

  /** The box normalisation: the minimum density (none of an empty column:
      `ValueError`) against an upper bound `dmax`, the `quantile_max`
      quantile computed by `np.quantile`. */
  function BoxNormalise(density: seq<real>, dmax: real): (r: Result<seq<real>>)
    ensures r.Err? <==> |density| == 0
    ensures r.Err? ==> r.error == ValueError
    ensures r.Ok? ==> |r.value| == |density|
  {
    if |density| == 0 then Err(ValueError)
    else
      var dmin := MinOf(density);
      if dmax > dmin then Ok(Rescale(density, dmin, dmax)) else Ok(Zeros(|density|))
  }

  /** Normalised densities are non-negative, at most 1 up to the quantile
      and above 1 beyond it, and ordered as the densities are; the colours
      of the boxes are grey and in `[0, 1]` whatever the quantile. */
  lemma BoxNormaliseRange(density: seq<real>, dmax: real)
    requires |density| > 0
    ensures var dn := BoxNormalise(density, dmax).value;
      && (forall k :: 0 <= k < |dn| ==> dn[k] >= 0.0)
      && (forall k :: 0 <= k < |dn| && density[k] <= dmax ==> dn[k] <= 1.0)
      && (dmax > MinOf(density) ==> forall k :: 0 <= k < |dn| && density[k] > dmax ==> dn[k] > 1.0)
      && (forall a, b :: 0 <= a < |dn| && 0 <= b < |dn| && density[a] <= density[b] ==> dn[a] <= dn[b])
      && (forall k :: 0 <= k < |dn| ==>
            var c := ColorFromScalarLinear(dn)[k]; LessEq(Splat(0.0), c) && LessEq(c, Splat(1.0)))
  {
    var dn := BoxNormalise(density, dmax).value;
    var dmin := MinOf(density);
    if dmax > dmin {
      assert dn == Rescale(density, dmin, dmax);
      RescaledRange(density, dmin, dmax);
      RescaleOrder(density, dmin, dmax);
    } else {
      assert dn == Zeros(|density|);
    }
    ColorsInUnit(dn);
  }

  /** Rescaled entries of values at least `lo` are non-negative, at most 1
      up to `hi` and above 1 beyond it. */
  lemma RescaledRange(s: seq<real>, lo: real, hi: real)
    requires hi > lo && forall k :: 0 <= k < |s| ==> s[k] >= lo
    ensures var r := Rescale(s, lo, hi);
      forall k :: 0 <= k < |s| ==> r[k] >= 0.0 && (s[k] <= hi ==> r[k] <= 1.0) && (s[k] > hi ==> r[k] > 1.0)
  {
    var r := Rescale(s, lo, hi);
    RescaleEnds(s, lo, hi);
    forall k | 0 <= k < |s|
      ensures r[k] >= 0.0 && (s[k] <= hi ==> r[k] <= 1.0) && (s[k] > hi ==> r[k] > 1.0)
    {
      BoxEntry(s[k], lo, hi, r[k]);
    }
  }

  /** The linear colour map gives channels in `[0, 1]`. */
  lemma ColorsInUnit(s: seq<real>)
    ensures forall k :: 0 <= k < |s| ==>
      var c := ColorFromScalarLinear(s)[k]; LessEq(Splat(0.0), c) && LessEq(c, Splat(1.0))
  {
  }

  /** One rescaled entry against 0 and 1. */
  lemma BoxEntry(d: real, dmin: real, dmax: real, x: real)
    requires dmax > dmin && d >= dmin
    requires x * (dmax - dmin) + dmin == d
    ensures x >= 0.0
    ensures d <= dmax ==> x <= 1.0
    ensures d > dmax ==> x > 1.0
  {
    UnitScale(x, dmax - dmin, d - dmin);
  }

  /** With the top quantile (`quantile_max = 1`, the maximum) the box
      normalisation is exactly the min-max normalisation of the cloud
      colouring. */
  lemma BoxNormaliseAtMaximum(density: seq<real>)
    requires |density| > 0
    ensures BoxNormalise(density, MaxOf(density)).Ok?
    ensures BoxNormalise(density, MaxOf(density)).value == NormaliseScalars(density, 0).value
  {
  }

  // ---------------------------------------------------------------------
  // Projection plane
  // ---------------------------------------------------------------------

  predicate IsAxisLetter(c: char) {
    c == 'x' || c == 'y' || c == 'z'
  }

  function AxisOf(c: char): nat
    requires IsAxisLetter(c)
  {
    if c == 'x' then 0 else if c == 'y' then 1 else 2
  }

  /** The axes of the density map: `xy`, `xz` and `yz` name the two
      coordinates kept; anything else is a `ValueError`. */
  function ProjectionAxes(proj: string): (r: Result<(nat, nat)>)
    ensures r.Err? ==> r.error == ValueError
    ensures r.Ok? <==> (|proj| == 2 && IsAxisLetter(proj[0]) && IsAxisLetter(proj[1])
      && AxisOf(proj[0]) < AxisOf(proj[1]))
    ensures r.Ok? ==> r.value == (AxisOf(proj[0]), AxisOf(proj[1])) && r.value.0 < r.value.1 < 3
  {
    if proj == "xy" then Ok((0, 1))
    else if proj == "xz" then Ok((0, 2))
    else if proj == "yz" then Ok((1, 2))
    else Err(ValueError)
  }
}
