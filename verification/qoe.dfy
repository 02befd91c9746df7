/** The per-step quality-of-experience arithmetic of the streaming agent
    (class `QoE`): the pixel area of a region around the gaze point, the
    super-resolution compute time against the latency budget, the
    height-to-quality ladder, rebuffering, the area-weighted average
    quality, the temporal and spatial jitter, and the linear reward.
    Times, qualities and rates are exact reals; pixel geometry is integer. */
module Qoe {
  import opened Py

  /** `now_resolution = (height, width)` in pixels. */
  datatype Frame = Frame(height: int, width: int)

  /** A gaze sample `(y, x)` in the 1080 x 1920 reference frame. */
  datatype Gaze = Gaze(y: real, x: real)

  datatype Pixel = Pixel(y: int, x: int)

  // ---------------------------------------------------------------------
  // Gaze point and region area (`size_via_resolution`)
  // ---------------------------------------------------------------------

  /** `max(0, min(top, v))`. */
  function ClampPixel(v: int, top: int): (r: int)
    ensures top >= 0 ==> 0 <= r <= top
    ensures 0 <= v <= top ==> r == v
    ensures top >= 0 && v < 0 ==> r == 0
    ensures top >= 0 && v > top ==> r == top
  {
    var m := if top < v then top else v;
    if m < 0 then 0 else m
  }

  /** The gaze point rescaled from the reference frame with `int()` and
      clamped into the frame, before any area case is chosen. */
  function GazePixel(g: Gaze, f: Frame): (p: Pixel)
    ensures f.height > 0 ==> 0 <= p.y < f.height
    ensures f.width > 0 ==> 0 <= p.x < f.width
  {
    var y := Trunc(g.y * f.height as real / 1080.0);
    var x := Trunc(g.x * f.width as real / 1920.0);
    Pixel(ClampPixel(y, f.height - 1), ClampPixel(x, f.width - 1))
  }

  lemma ScaleBelow(g: real, n: int, reference: real)
    requires 0.0 <= g < reference && n > 0
    ensures 0.0 <= g * n as real / reference < n as real
  {
    assert g * n as real < reference * n as real;
  }

  /** A gaze sample inside the reference frame needs no clamping: the pixel
      is the floor of the rescaled coordinate. */
  lemma GazeInsideFrame(g: Gaze, f: Frame)
    requires f.height > 0 && f.width > 0
    requires 0.0 <= g.y < 1080.0 && 0.0 <= g.x < 1920.0
    ensures GazePixel(g, f) == Pixel((g.y * f.height as real / 1080.0).Floor, (g.x * f.width as real / 1920.0).Floor)
  {
    ScaleBelow(g.y, f.height, 1080.0);
    ScaleBelow(g.x, f.width, 1920.0);
  }

  /** The 3 x 3 case split on where the square of half-side `r` around
      `(x, y)` meets the frame edges; a zero size has no area. The last
      branch of each chain is reached exactly when the two before fail. */
  function Area(x: int, y: int, r: int, f: Frame): int {
    if r != 0 then
      if x - r <= 0 then
        if y - r <= 0 then (x + r) * (y + r)
        else if y - r > 0 && y + r < f.height then r * (x + r)
        else if y + r >= f.height then (f.height + r - y) * (x + r)
        else assert false; 0
      else if x - r > 0 && x + r < f.width then
        if y - r <= 0 then r * (y + r)
        else if y - r > 0 && y + r < f.height then r * r
        else if y + r >= f.height then (f.height + r - y) * r
        else assert false; 0
      else if x + r >= f.width then
        if y - r <= 0 then (f.width + r - x) * (y + r)
        else if y - r > 0 && y + r < f.height then r * (f.width + r - x)
        else if y + r >= f.height then (f.height + r - y) * (f.width + r - x)
        else assert false; 0
      else assert false; 0
    else 0
  }

  /** The extent one axis contributes: `c + r` when the square clips the
      low edge (checked first), `bound + r - c` when it clips the high
      edge, and `r` (not `2r`) when it fits. */
  function Extent(c: int, r: int, bound: int): int {
    if c - r <= 0 then c + r
    else if c + r < bound then r
    else bound + r - c
  }

  /** The area is the product of the two axis extents. */
  lemma AreaFactors(x: int, y: int, r: int, f: Frame)
    requires r != 0
    ensures Area(x, y, r, f) == Extent(x, r, f.width) * Extent(y, r, f.height)
  {
    var ex, ey := Extent(x, r, f.width), Extent(y, r, f.height);
    if x - r <= 0 {
      assert Area(x, y, r, f) == ex * ey;
    } else if x + r < f.width {
      assert Area(x, y, r, f) == ex * ey;
    } else {
      assert Area(x, y, r, f) == ex * ey;
    }
  }

  /** An axis extent of a point inside the frame lies in `0..2r`. */
  lemma ExtentBounds(c: int, r: int, bound: int)
    requires r >= 0 && 0 <= c < bound
    ensures 0 <= Extent(c, r, bound) <= 2 * r
  {
  }

  lemma MulMono(a: int, b: int, m: int)
    requires 0 <= a <= m && 0 <= b <= m
    ensures 0 <= a * b <= m * m
  {
    assert a * b <= m * b;
    assert m * b <= m * m;
  }

  /** For a point inside the frame and `r >= 0` the area is between 0 and
      `(2r)^2`; a square that fits entirely has area exactly `r^2`. */
  lemma AreaBounds(x: int, y: int, r: int, f: Frame)
    requires r >= 0 && 0 <= x < f.width && 0 <= y < f.height
    ensures 0 <= Area(x, y, r, f) <= (2 * r) * (2 * r)
    ensures r > 0 && r < x && x + r < f.width && r < y && y + r < f.height ==> Area(x, y, r, f) == r * r
  {
    if r != 0 {
      AreaFactors(x, y, r, f);
      ExtentBounds(x, r, f.width);
      ExtentBounds(y, r, f.height);
      MulMono(Extent(x, r, f.width), Extent(y, r, f.height), 2 * r);
    }
  }

  /** `size_via_resolution(gaze_yx, now_resolution, size, ...)`: the pixel
      count of the region of half-side `size` around the gaze point. */
  function RegionArea(g: Gaze, f: Frame, size: int): (a: int)
    ensures f.height > 0 && f.width > 0 && size >= 0 ==> 0 <= a <= (2 * size) * (2 * size)
  {
    var p := GazePixel(g, f);
    if f.height > 0 && f.width > 0 && size >= 0 then
      AreaBounds(p.x, p.y, size, f);
      Area(p.x, p.y, size, f)
    else Area(p.x, p.y, size, f)
  }

  // ---------------------------------------------------------------------
  // Compute time and the latency check
  // ---------------------------------------------------------------------

  /** `resblock_info`: seconds per pixel per residual block, the time of
      the rest of the network, and the quality factor per block. */
  datatype Resblock = Resblock(time: real, other: real, quality: real)

  /** Looked-up super-resolution depths of the three regions. */
  datatype Depths = Depths(fovea: int, blend: int, peri: int)

  datatype Times = Times(fovea: real, blend: real, peri: real)

  /** The fovea runs the blocks beyond the blend depth, the blend ring those
      beyond the periphery depth, and the whole frame the periphery depth. */
  function RegionTimes(foveaArea: int, blendArea: int, f: Frame, d: Depths, rt: real): Times {
    Times((foveaArea * (d.fovea - d.blend)) as real * rt,
          (blendArea * (d.blend - d.peri)) as real * rt,
          (f.height * f.width * d.peri) as real * rt)
  }

  function TotalTime(t: Times): real {
    t.fovea + t.blend + t.peri
  }

  lemma MulNonNegative(a: int, b: int)
    requires a >= 0 && b >= 0
    ensures a * b >= 0
  {
  }

  lemma RealMulNonNegative(a: real, b: real)
    requires a >= 0.0 && b >= 0.0
    ensures a * b >= 0.0
  {
  }

  /** Under the catalog's strictly decreasing depths every region time is
      non-negative, and so is the total. */
  lemma TimesNonNegative(foveaArea: int, blendArea: int, f: Frame, d: Depths, rt: real)
    requires foveaArea >= 0 && blendArea >= 0 && f.height >= 0 && f.width >= 0 && rt >= 0.0
    requires d.fovea > d.blend > d.peri >= 0
    ensures var t := RegionTimes(foveaArea, blendArea, f, d, rt);
      t.fovea >= 0.0 && t.blend >= 0.0 && t.peri >= 0.0 && TotalTime(t) >= 0.0
  {
    MulNonNegative(foveaArea, d.fovea - d.blend);
    MulNonNegative(blendArea, d.blend - d.peri);
    MulNonNegative(f.height, f.width);
    MulNonNegative(f.height * f.width, d.peri);
    RealMulNonNegative((foveaArea * (d.fovea - d.blend)) as real, rt);
    RealMulNonNegative((blendArea * (d.blend - d.peri)) as real, rt);
    RealMulNonNegative((f.height * f.width * d.peri) as real, rt);
  }

  // ---------------------------------------------------------------------
  // The bitrate ladder (`resolution_to_quality`)
  // ---------------------------------------------------------------------

  /** `bitrate_list` and the heights of `resolution_list`, tier by tier. */
  datatype Ladder = Ladder(bitrates: seq<real>, heights: seq<real>)

  /** The server's ladder: 250, 500, 1000 and 2000 kbps at heights 375,
      540, 750 and 1080. */
  const ServerLadder: Ladder := Ladder([250.0, 500.0, 1000.0, 2000.0], [375.0, 540.0, 750.0, 1080.0])

  /** The search loop: from tier `i` on, the first tier strictly taller
      than `h`, or the tier count when there is none. */
  function RateIndex(heights: seq<real>, h: real, i: nat): (k: nat)
    requires i <= |heights|
    ensures i <= k <= |heights|
    ensures forall j :: i <= j < k ==> heights[j] <= h
    ensures k < |heights| ==> h < heights[k]
    decreases |heights| - i
  {
    if i == |heights| then i
    else if h < heights[i] then i
    else RateIndex(heights, h, i + 1)
  }

  /** Quality of a region of height `h`: proportional below the first tier
      and above the last, linear between neighbouring tiers (reaching twice
      the lower tier's bitrate at the upper tier). An empty ladder, a zero
      tier height or a short bitrate list raise as in Python. */
  function ResolutionToQuality(l: Ladder, h: real): Result<real> {
    var n := |l.heights|;
    var k := RateIndex(l.heights, h, 0);
    if k != n then
      if k == 0 then
        if l.heights[0] == 0.0 then Err(ZeroDivisionError)
        else if |l.bitrates| == 0 then Err(IndexError)
        else Ok(l.bitrates[0] * (h / l.heights[0]))
      else
        var ratio := (h - l.heights[k - 1]) / (l.heights[k] - l.heights[k - 1]);
        if |l.bitrates| < k then Err(IndexError)
        else Ok(l.bitrates[k - 1] * (1.0 + ratio))
    else if n == 0 then Err(IndexError)
    else if l.heights[n - 1] == 0.0 then Err(ZeroDivisionError)
    else if |l.bitrates| < n then Err(IndexError)
    else Ok(l.bitrates[n - 1] * (h / l.heights[n - 1]))
  }

  /** Tier heights strictly increasing and positive, one bitrate per tier. */
  ghost predicate WellFormedLadder(l: Ladder) {
    && |l.heights| > 0 && |l.bitrates| >= |l.heights| && l.heights[0] > 0.0
    && forall i, j :: 0 <= i < j < |l.heights| ==> l.heights[i] < l.heights[j]
  }

  /** The search stops at the one tier `j` whose height bracket contains
      `h`: every earlier tier is no taller, tier `j` is taller. */
  lemma RateIndexUnique(l: Ladder, h: real, j: int)
    requires WellFormedLadder(l) && 0 <= j <= |l.heights|
    requires j == 0 || l.heights[j - 1] <= h
    requires j == |l.heights| || h < l.heights[j]
    ensures RateIndex(l.heights, h, 0) == j
  {
  }

  /** On a well-formed ladder the quality below the first tier is
      proportional to the height. */
  lemma LadderBelow(l: Ladder, h: real)
    requires WellFormedLadder(l) && h < l.heights[0]
    ensures var r := ResolutionToQuality(l, h);
      r.Ok? && r.value == l.bitrates[0] * (h / l.heights[0])
  {
    RateIndexUnique(l, h, 0);
  }

  /** Between tiers `k - 1` and `k` it rises linearly from the lower tier's
      bitrate to twice that at tier `k`. */
  lemma LadderBetween(l: Ladder, h: real, k: int)
    requires WellFormedLadder(l) && 0 < k < |l.heights|
    requires l.heights[k - 1] <= h < l.heights[k]
    ensures var r := ResolutionToQuality(l, h);
      r.Ok? && r.value == l.bitrates[k - 1] * (1.0 + (h - l.heights[k - 1]) / (l.heights[k] - l.heights[k - 1]))
  {
    RateIndexUnique(l, h, k);
  }

  /** From the last tier on it is proportional to the height again. */
  lemma LadderAbove(l: Ladder, h: real)
    requires WellFormedLadder(l) && l.heights[|l.heights| - 1] <= h
    ensures var r := ResolutionToQuality(l, h); var n := |l.heights|;
      r.Ok? && r.value == l.bitrates[n - 1] * (h / l.heights[n - 1])
  {
    var n := |l.heights|;
    RateIndexUnique(l, h, n);
    if n > 1 {
      assert l.heights[0] < l.heights[n - 1];
    }
  }

  /** At a tier's own height a well-formed ladder returns that tier's
      bitrate exactly. */
  lemma QualityAtTier(l: Ladder, i: int)
    requires WellFormedLadder(l) && 0 <= i < |l.heights|
    ensures var r := ResolutionToQuality(l, l.heights[i]);
      r.Ok? && r.value == l.bitrates[i]
  {
    var h := l.heights[i];
    if i + 1 < |l.heights| {
      var d := l.heights[i + 1] - h;
      assert d > 0.0;
      LadderBetween(l, h, i + 1);
      RatioAtStart(h, d);
    } else {
      LadderAbove(l, h);
      if i > 0 {
        assert l.heights[0] < h;
      }
      RatioOfItself(h);
    }
  }

  lemma RatioAtStart(h: real, d: real)
    requires d > 0.0
    ensures (h - h) / d == 0.0
  {
  }

  lemma RatioOfItself(h: real)
    requires h > 0.0
    ensures h / h == 1.0
  {
  }

  lemma ServerLadderWellFormed()
    ensures WellFormedLadder(ServerLadder)
  {
  }

  /** The server ladder as five pieces, one per interval of heights. */
  lemma ServerLadderPieces(h: real)
    ensures var r := ResolutionToQuality(ServerLadder, h);
      && r.Ok?
      && (h < 375.0 ==> r.value == 250.0 * (h / 375.0))
      && (375.0 <= h < 540.0 ==> r.value == 250.0 * (1.0 + (h - 375.0) / 165.0))
      && (540.0 <= h < 750.0 ==> r.value == 500.0 * (1.0 + (h - 540.0) / 210.0))
      && (750.0 <= h < 1080.0 ==> r.value == 1000.0 * (1.0 + (h - 750.0) / 330.0))
      && (1080.0 <= h ==> r.value == 2000.0 * (h / 1080.0))
  {
    var l := ServerLadder;
    var hs := l.heights;
    assert hs == [375.0, 540.0, 750.0, 1080.0];
    var k := RateIndex(hs, h, 0);
    if h < 375.0 {
      assert k == 0;
    } else if h < 540.0 {
      assert k == 1;
    } else if h < 750.0 {
      assert k == 2;
    } else if h < 1080.0 {
      assert k == 3;
    } else {
      assert k == 4;
    }
  }

  /** With the doubling ladder the quality never decreases with height
      (the pieces meet at the tiers), and between two tiers it stays
      between their bitrates. */
  lemma ServerLadderMonotone(h1: real, h2: real)
    requires h1 <= h2
    ensures ResolutionToQuality(ServerLadder, h1).Ok? && ResolutionToQuality(ServerLadder, h2).Ok?
    ensures ResolutionToQuality(ServerLadder, h1).value <= ResolutionToQuality(ServerLadder, h2).value
  {
    ServerLadderPieces(h1);
    ServerLadderPieces(h2);
  }

  lemma ServerLadderBetweenTiers(i: int, h: real)
    requires 1 <= i < 4 && ServerLadder.heights[i - 1] <= h <= ServerLadder.heights[i]
    ensures ResolutionToQuality(ServerLadder, h).Ok?
    ensures ServerLadder.bitrates[i - 1] <= ResolutionToQuality(ServerLadder, h).value <= ServerLadder.bitrates[i]
  {
    ServerLadderPieces(h);
  }

  /** `x ** n` for an integer exponent; a negative power of zero raises. */
  function Pow(x: real, n: nat): real {
    if n == 0 then 1.0 else x * Pow(x, n - 1)
  }

  lemma {:induction false} PowZero(x: real, n: nat)
    ensures Pow(x, n) == 0.0 <==> n > 0 && x == 0.0
  {
    if n > 0 {
      PowZero(x, n - 1);
    }
  }

  function IntPow(x: real, n: int): (r: Result<real>)
    ensures r.Err? <==> n < 0 && x == 0.0
  {
    if n >= 0 then Ok(Pow(x, n))
    else
      PowZero(x, -n);
      if Pow(x, -n) == 0.0 then Err(ZeroDivisionError)
    else Ok(1.0 / Pow(x, -n))
  }

  // ---------------------------------------------------------------------
  // Rebuffering (`calculate_rebuffering_penalty`)
  // ---------------------------------------------------------------------

  datatype Rebuffering = Rebuffering(rebuffer: real, buffer: real)

  /** The segment takes `rate * seg_length / transmission` seconds; the
      buffer covers what it can, the rest is a stall, and one segment is
      added back up to the buffer's capacity. */
  function CalculateRebuffering(nowRate: real, segLength: real, transmission: real, buffer: real, maxBuffer: real)
    : (r: Result<Rebuffering>)
    ensures r.Err? <==> transmission == 0.0
    ensures r.Ok? ==>
      var dt := nowRate * segLength / transmission;
      && r.value.rebuffer == Max(0.0, dt - buffer)
      && r.value.buffer == Min(Max(buffer - dt, 0.0) + segLength, maxBuffer)
    ensures r.Ok? ==> r.value.rebuffer >= 0.0 && r.value.buffer <= maxBuffer
    ensures r.Ok? && segLength >= 0.0 && maxBuffer >= 0.0 ==> 0.0 <= r.value.buffer
  {
    if transmission == 0.0 then Err(ZeroDivisionError)
    else
      var downloadTime := nowRate * segLength / transmission;
      var (rebuffer, drained) :=
        if buffer >= downloadTime then (0.0, buffer - downloadTime) else (downloadTime - buffer, 0.0);
      Ok(Rebuffering(rebuffer, Min(drained + segLength, maxBuffer)))
  }

  /** A stall happens exactly when the buffer holds less than the download
      time. */
  lemma StallIffShortBuffer(nowRate: real, segLength: real, transmission: real, buffer: real, maxBuffer: real)
    requires transmission != 0.0
    ensures var r := CalculateRebuffering(nowRate, segLength, transmission, buffer, maxBuffer);
      r.Ok? && (r.value.rebuffer > 0.0 <==> buffer < nowRate * segLength / transmission)
  {
  }

  // ---------------------------------------------------------------------
  // Average quality, jitter and reward
  // ---------------------------------------------------------------------

  /** Weights of the fovea, blend and periphery qualities in the average. */
  datatype Weights = Weights(fovea: real, blend: real, peri: real)

  /** `ratio_fovea = fovea_area / (H W)`, `ratio_blend = (blend_area -
      fovea_area) / (H W)`, weighted as `ratio_fovea`, `ratio_blend -
      ratio_fovea` and `1 - ratio_blend`. */
  function AreaWeights(foveaArea: int, blendArea: int, f: Frame): (r: Result<Weights>)
    ensures r.Err? <==> f.height * f.width == 0
    ensures r.Ok? ==> r.value.fovea + r.value.blend + r.value.peri == 1.0
    ensures r.Ok? ==> r.value.fovea == foveaArea as real / (f.height * f.width) as real
    ensures r.Ok? ==> r.value.blend == (blendArea - 2 * foveaArea) as real / (f.height * f.width) as real
    ensures r.Ok? ==> r.value.peri == 1.0 - (blendArea - foveaArea) as real / (f.height * f.width) as real
  {
    var hw := (f.height * f.width) as real;
    if hw == 0.0 then Err(ZeroDivisionError)
    else
      var ratioFovea := foveaArea as real / hw;
      var ratioBlend := (blendArea - foveaArea) as real / hw;
      Ok(Weights(ratioFovea, ratioBlend - ratioFovea, 1.0 - ratioBlend))
  }

  /** Because `ratio_blend` is already net of the fovea, the blend weight
      is negative whenever the blend square is less than twice the fovea's,
      for instance when both squares are the same size. */
  lemma BlendWeightNegative(foveaArea: int, f: Frame)
    requires foveaArea > 0 && f.height > 0 && f.width > 0
    ensures AreaWeights(foveaArea, foveaArea, f).Ok? && AreaWeights(foveaArea, foveaArea, f).value.blend < 0.0
  {
    MulNonNegative(f.height, f.width);
    assert f.height * f.width != 0;
  }

  datatype Qualities = Qualities(fovea: real, blend: real, peri: real)

  function AverageQuality(q: Qualities, w: Weights): real {
    q.fovea * w.fovea + q.blend * w.blend + q.peri * w.peri
  }

  /** Weights summing to one make the average of a uniform quality that
      quality. */
  lemma AverageOfUniform(c: real, w: Weights)
    requires w.fovea + w.blend + w.peri == 1.0
    ensures AverageQuality(Qualities(c, c, c), w) == c
  {
    assert c * w.fovea + c * w.blend + c * w.peri == c * (w.fovea + w.blend + w.peri);
  }

  /** `jitter_t`: zero at an episode's first step, otherwise the distance
      between this step's and the previous step's average quality (the
      history is indexed Python-style). */
  function TimeJitter(steps: int, ave: real, aveHistory: seq<real>, time: int): (r: Result<real>)
    ensures r.Ok? ==> r.value >= 0.0
    ensures steps == 0 ==> r == Ok(0.0)
    ensures steps != 0 && 0 < time <= |aveHistory| ==> r == Ok(Abs(ave - aveHistory[time - 1]))
  {
    if steps == 0 then Ok(0.0)
    else match Index(aveHistory, time - 1)
      case None => Err(IndexError)
      case Some(prev) => Ok(Abs(ave - prev))
  }

  function Square(x: real): real {
    x * x
  }

  /** `jitter_s`: the weighted squared distance of each region's utility
      from the utility of the average. */
  function SpatialJitter(utility: real -> real, q: Qualities, w: Weights, ave: real): real {
    Square(utility(q.fovea) - utility(ave)) * w.fovea
    + Square(utility(q.blend) - utility(ave)) * w.blend
    + Square(utility(q.peri) - utility(ave)) * w.peri
  }

  /** With non-negative weights the spatial jitter is non-negative; it is
      zero when every region has the utility of the average. */
  lemma SpatialJitterSign(utility: real -> real, q: Qualities, w: Weights, ave: real)
    ensures w.fovea >= 0.0 && w.blend >= 0.0 && w.peri >= 0.0 ==> SpatialJitter(utility, q, w, ave) >= 0.0
    ensures utility(q.fovea) == utility(q.blend) == utility(q.peri) == utility(ave) ==> SpatialJitter(utility, q, w, ave) == 0.0
  {
    if w.fovea >= 0.0 && w.blend >= 0.0 && w.peri >= 0.0 {
      RealMulNonNegative(Square(utility(q.fovea) - utility(ave)), w.fovea);
      RealMulNonNegative(Square(utility(q.blend) - utility(ave)), w.blend);
      RealMulNonNegative(Square(utility(q.peri) - utility(ave)), w.peri);
    }
  }

  /** `alpha`, `beta`, `gamma` and `sigma = 4.3 * 10`. */
  const Alpha: real := 10.0
  const Beta: real := 2.0
  const Gamma: real := 2.0
  const Sigma: real := 43.0

  function Reward(weiQuality: real, jitterT: real, jitterS: real, rebuffer: real): real {
    Alpha * weiQuality - Beta * jitterT - Gamma * jitterS - Sigma * rebuffer
  }

  /** The reward rises with the weighted quality and falls with each
      jitter and with rebuffering; without them it is ten times the
      weighted quality. */
  lemma RewardMonotone(w1: real, w2: real, t1: real, t2: real, s1: real, s2: real, b1: real, b2: real)
    requires w1 <= w2 && t1 >= t2 && s1 >= s2 && b1 >= b2
    ensures Reward(w1, t1, s1, b1) <= Reward(w2, t2, s2, b2)
    ensures Reward(w2, 0.0, 0.0, 0.0) == 10.0 * w2
  {
  }

  // ---------------------------------------------------------------------
  // One evaluation (`qoe_cal`, modes 1 and 2)
  // ---------------------------------------------------------------------

  /** Constructor arguments of `QoE`. */
  datatype Config = Config(ladder: Ladder, segLength: real, latency: real, resblock: Resblock, trainOrTest: int)

  /** What the evaluator is given for one step: the mode (1 FOCAS, 2 the
      proposed method), the counters, frame, gaze, the decoded sizes and
      depths, the network state and the average-quality history. */
  datatype Step = Step(
    mode: int, steps: int, time: int, frame: Frame, gaze: Gaze,
    sizeFovea: int, sizeBlend: int, depths: Depths,
    transmission: real, nowRate: real, buffer: real, maxBuffer: real,
    aveHistory: seq<real>)

  /** The functions the evaluator calls but that are not part of this
      model: `utility = ln(1 + x)` and the gaze weighting
      `calculate_video_quality(gaze, size_fovea, size_blend, u_f, u_b, u_p)`. */
  datatype Oracles = Oracles(utility: real -> real, videoQuality: (Gaze, int, int, real, real, real) -> real)

  /** `qoe_paragraph = [ave_quality, wei_quality, jitter_t, jitter_s, rebuffer]`. */
  datatype Paragraph = Paragraph(aveQuality: real, weiQuality: real, jitterT: real, jitterS: real, rebuffer: real)

  datatype Evaluation = Evaluation(paragraph: Paragraph, reward: real, calTime: real, invalid: bool, buffer: real)

  /** Quality of a region computed at depth `d`: the frame height scaled
      by `quality ** d`, looked up on the ladder. */
  function RegionQuality(l: Ladder, f: Frame, q: real, d: int): Result<real> {
    match RegionHeight(f, q, d)
    case Err(e) => Err(e)
    case Ok(h) => ResolutionToQuality(l, h)
  }

  /** The height of a region computed at depth `d`: the frame height
      times `quality ** d`. */
  function RegionHeight(f: Frame, q: real, d: int): Result<real> {
    match IntPow(q, d)
    case Err(e) => Err(e)
    case Ok(scale) => Ok(f.height as real * scale)
  }

  function RegionQualities(l: Ladder, f: Frame, q: real, d: Depths): Result<Qualities> {
    match RegionQuality(l, f, q, d.fovea)
    case Err(e) => Err(e)
    case Ok(qf) =>
      match RegionQuality(l, f, q, d.blend)
      case Err(e) => Err(e)
      case Ok(qb) =>
        match RegionQuality(l, f, q, d.peri)
        case Err(e) => Err(e)
        case Ok(qp) => Ok(Qualities(qf, qb, qp))
  }

  /** The rebuffering branch: only when the link is slower than the
      bitrate, and never while training the FOCAS baseline. */
  function StepRebuffering(c: Config, s: Step): (r: Result<Rebuffering>)
    ensures r.Ok? ==> r.value.rebuffer >= 0.0
    ensures !(s.transmission < s.nowRate) ==> r == Ok(Rebuffering(0.0, s.buffer))
  {
    if s.transmission < s.nowRate then
      if s.mode == 1 && c.trainOrTest == 0 then Ok(Rebuffering(0.0, s.buffer))
      else CalculateRebuffering(s.nowRate, c.segLength, s.transmission, s.buffer, s.maxBuffer)
    else Ok(Rebuffering(0.0, s.buffer))
  }

  /** The evaluation with the values computed before the closing `reset()`:
      the compute time of the three regions and the latency verdict. */
  function QoeCal(c: Config, o: Oracles, s: Step): (r: Result<Evaluation>)
    requires s.mode == 1 || s.mode == 2
    ensures r.Ok? ==>
      var fa := RegionArea(s.gaze, s.frame, s.sizeFovea);
      var ba := RegionArea(s.gaze, s.frame, s.sizeBlend);
      r.value.calTime == TotalTime(RegionTimes(fa, ba, s.frame, s.depths, c.resblock.time))
    ensures r.Ok? ==> (r.value.invalid <==> r.value.calTime + c.resblock.other > c.latency)
    ensures r.Ok? ==> r.value.paragraph.rebuffer >= 0.0 && r.value.paragraph.jitterT >= 0.0
    ensures r.Ok? && !(s.transmission < s.nowRate) ==> r.value.paragraph.rebuffer == 0.0 && r.value.buffer == s.buffer
    ensures r.Ok? && s.steps == 0 ==> r.value.paragraph.jitterT == 0.0
    ensures r.Ok? ==>
      var p := r.value.paragraph;
      r.value.reward == Reward(p.weiQuality, p.jitterT, p.jitterS, p.rebuffer)
  {
    Evaluate(c, o, s, RegionQualities(c.ladder, s.frame, c.resblock.quality, s.depths))
  }

  /** The evaluation once the three region qualities have been looked up
      (or the lookup has failed). */
  function Evaluate(c: Config, o: Oracles, s: Step, qualities: Result<Qualities>): Result<Evaluation> {
    var fa := RegionArea(s.gaze, s.frame, s.sizeFovea);
    var ba := RegionArea(s.gaze, s.frame, s.sizeBlend);
    var calTime := TotalTime(RegionTimes(fa, ba, s.frame, s.depths, c.resblock.time));
    var invalid := calTime + c.resblock.other > c.latency;
    match qualities
    case Err(e) => Err(e)
    case Ok(q) =>
      match AreaWeights(fa, ba, s.frame)
      case Err(e) => Err(e)
      case Ok(w) =>
        var ave := AverageQuality(q, w);
        var wei := o.videoQuality(s.gaze, s.sizeFovea, s.sizeBlend, o.utility(q.fovea), o.utility(q.blend), o.utility(q.peri));
        match StepRebuffering(c, s)
        case Err(e) => Err(e)
        case Ok(rb) =>
          match TimeJitter(s.steps, ave, s.aveHistory, s.time)
          case Err(e) => Err(e)
          case Ok(jt) =>
            var js := SpatialJitter(o.utility, q, w, ave);
            var p := Paragraph(ave, wei, jt, js, rb.rebuffer);
            Ok(Evaluation(p, Reward(wei, jt, js, rb.rebuffer), calTime, invalid, rb.buffer))
  }

  /** The evaluation fails exactly when a region's quality cannot be
      looked up, the frame has no pixels, the rebuffering division fails,
      or the previous average quality is missing past the first step. */
  lemma QoeCalErrors(c: Config, o: Oracles, s: Step)
    requires s.mode == 1 || s.mode == 2
    ensures QoeCal(c, o, s).Err? <==>
      || RegionQualities(c.ladder, s.frame, c.resblock.quality, s.depths).Err?
      || s.frame.height * s.frame.width == 0
      || StepRebuffering(c, s).Err?
      || (s.steps != 0 && Index(s.aveHistory, s.time - 1).None?)
  {
  }

  /** Equal region qualities make the average that quality and the
      spatial jitter zero, whatever the region sizes. */
  lemma QoeCalUniformQuality(c: Config, o: Oracles, s: Step)
    requires s.mode == 1 || s.mode == 2
    ensures var q := RegionQualities(c.ladder, s.frame, c.resblock.quality, s.depths);
      var r := QoeCal(c, o, s);
      r.Ok? && q.value.fovea == q.value.blend == q.value.peri ==>
        r.value.paragraph.aveQuality == q.value.fovea && r.value.paragraph.jitterS == 0.0
  {
    var q := RegionQualities(c.ladder, s.frame, c.resblock.quality, s.depths);
    var fa := RegionArea(s.gaze, s.frame, s.sizeFovea);
    var ba := RegionArea(s.gaze, s.frame, s.sizeBlend);
    var w := AreaWeights(fa, ba, s.frame);
    if q.Ok? && w.Ok? && q.value.fovea == q.value.blend == q.value.peri {
      AverageOfUniform(q.value.fovea, w.value);
      SpatialJitterSign(o.utility, q.value, w.value, q.value.fovea);
    }
  }

  /** When the blend square holds at least twice the fovea's pixels and the
      blend ring fits in the frame, every region weight is non-negative and
      so is the spatial jitter. */
  lemma QoeCalSpatialJitterNonNegative(c: Config, o: Oracles, s: Step)
    requires s.mode == 1 || s.mode == 2
    ensures var fa := RegionArea(s.gaze, s.frame, s.sizeFovea);
      var ba := RegionArea(s.gaze, s.frame, s.sizeBlend);
      var r := QoeCal(c, o, s);
      (r.Ok? && s.frame.height > 0 && s.frame.width > 0
       && 0 <= 2 * fa <= ba && ba - fa <= s.frame.height * s.frame.width) ==> r.value.paragraph.jitterS >= 0.0
  {
    var fa := RegionArea(s.gaze, s.frame, s.sizeFovea);
    var ba := RegionArea(s.gaze, s.frame, s.sizeBlend);
    var r := QoeCal(c, o, s);
    var hw := s.frame.height * s.frame.width;
    if r.Ok? && s.frame.height > 0 && s.frame.width > 0 && 0 <= 2 * fa <= ba && ba - fa <= hw {
      MulPositive(s.frame.height, s.frame.width);
      var w := AreaWeights(fa, ba, s.frame).value;
      var q := RegionQualities(c.ladder, s.frame, c.resblock.quality, s.depths).value;
      RatioInUnit(fa, hw);
      RatioInUnit(ba - 2 * fa, hw);
      RatioInUnit(ba - fa, hw);
      SpatialJitterSign(o.utility, q, w, AverageQuality(q, w));
    }
  }

  lemma MulPositive(a: int, b: int)
    requires a > 0 && b > 0
    ensures a * b > 0
  {
  }

  /** `a / n` lies in `[0, 1]` for `0 <= a <= n`. */
  lemma RatioInUnit(a: int, n: int)
    requires 0 <= a <= n && n > 0
    ensures 0.0 <= a as real / n as real <= 1.0
  {
  }

  /** With the catalog's strictly decreasing depths, a non-empty frame and
      non-negative sizes and per-pixel time, the compute time is
      non-negative, so a latency budget below the rest of the network's
      time always flags the step. */
  lemma QoeCalTimeNonNegative(c: Config, o: Oracles, s: Step)
    requires s.mode == 1 || s.mode == 2
    ensures var r := QoeCal(c, o, s);
      (r.Ok? && s.frame.height > 0 && s.frame.width > 0 && s.sizeFovea >= 0 && s.sizeBlend >= 0
       && s.depths.fovea > s.depths.blend > s.depths.peri >= 0 && c.resblock.time >= 0.0) ==>
        r.value.calTime >= 0.0 && (c.latency < c.resblock.other ==> r.value.invalid)
  {
    var fa := RegionArea(s.gaze, s.frame, s.sizeFovea);
    var ba := RegionArea(s.gaze, s.frame, s.sizeBlend);
    if s.frame.height > 0 && s.frame.width > 0 && s.sizeFovea >= 0 && s.sizeBlend >= 0
       && s.depths.fovea > s.depths.blend > s.depths.peri >= 0 && c.resblock.time >= 0.0 {
      TimesNonNegative(fa, ba, s.frame, s.depths, c.resblock.time);
    }
  }

  /** A looser latency budget changes nothing but the verdict, and can only
      clear it. */
  lemma QoeCalLatencyMonotone(c: Config, o: Oracles, s: Step, latency: real)
    requires s.mode == 1 || s.mode == 2
    requires c.latency <= latency
    ensures var r1 := QoeCal(c, o, s);
      var r2 := QoeCal(c.(latency := latency), o, s);
      && (r1.Ok? <==> r2.Ok?)
      && (r1.Ok? ==> r2.value == r1.value.(invalid := r2.value.invalid) && (r2.value.invalid ==> r1.value.invalid))
  {
  }

  // ---------------------------------------------------------------------
  // Evaluator state and `reset`
  // ---------------------------------------------------------------------

  datatype QoeState = QoeState(rebuffer: real, allCalTime: real, nowRate: real, preRate: real, invalid: bool)

  const InitialQoe: QoeState := QoeState(0.0, 0.0, -1.0, -1.0, false)

  /** `reset()`: clears the verdict, the stall and the compute time, and
      remembers the current rate as the previous one. */
  function Reset(st: QoeState): (r: QoeState)
    ensures !r.invalid && r.rebuffer == 0.0 && r.allCalTime == 0.0
    ensures r.preRate == st.nowRate && r.nowRate == st.nowRate
  {
    QoeState(0.0, 0.0, st.nowRate, st.nowRate, false)
  }

  /** What `qoe_cal` returns as written: it calls `reset()` before reading
      `all_cal_time` and `action_invalid_judge` for its return value. */
  function QoeCalAsWritten(c: Config, o: Oracles, s: Step): (r: Result<Evaluation>)
    requires s.mode == 1 || s.mode == 2
    ensures r.Ok? ==> r.value.calTime == 0.0 && !r.value.invalid
  {
    match QoeCal(c, o, s)
    case Err(e) => Err(e)
    case Ok(ev) =>
      var st := Reset(QoeState(ev.paragraph.rebuffer, ev.calTime, s.nowRate, s.nowRate, ev.invalid));
      Ok(ev.(calTime := st.allCalTime, invalid := st.invalid))
  }

  /** A one-pixel frame at periphery depth one over a budget of zero, for
      any utility and gaze weighting: the intended evaluation flags the
      step as over the latency budget, the function as written reports it
      as valid with zero compute time. */
  lemma ResetHidesLatencyVerdict(o: Oracles)
    ensures var c := Config(ServerLadder, 1.0, 0.0, Resblock(1.0, 0.0, 1.0), 1);
      var s := Step(2, 0, 0, Frame(1, 1), Gaze(0.0, 0.0), 0, 0, Depths(3, 2, 1), 1.0, 1.0, 0.0, 3.0, []);
      && QoeCal(c, o, s).Ok? && QoeCal(c, o, s).value.invalid && QoeCal(c, o, s).value.calTime == 1.0
      && QoeCalAsWritten(c, o, s).Ok? && !QoeCalAsWritten(c, o, s).value.invalid
  {
    var c := Config(ServerLadder, 1.0, 0.0, Resblock(1.0, 0.0, 1.0), 1);
    var s := Step(2, 0, 0, Frame(1, 1), Gaze(0.0, 0.0), 0, 0, Depths(3, 2, 1), 1.0, 1.0, 0.0, 3.0, []);
    WitnessRegions();
    assert StepRebuffering(c, s) == Ok(Rebuffering(0.0, 0.0));
    var r := QoeCal(c, o, s);
    assert r.Ok?;
    assert r.value.calTime == 1.0;
  }

  /** The pieces of the witness above: empty squares, the periphery alone
      costs one second, and every region's quality is on the ladder. */
  lemma WitnessRegions()
    ensures RegionArea(Gaze(0.0, 0.0), Frame(1, 1), 0) == 0
    ensures TotalTime(RegionTimes(0, 0, Frame(1, 1), Depths(3, 2, 1), 1.0)) == 1.0
    ensures AreaWeights(0, 0, Frame(1, 1)).Ok?
    ensures RegionQualities(ServerLadder, Frame(1, 1), 1.0, Depths(3, 2, 1)).Ok?
  {
    WitnessQualities();
  }

  lemma WitnessQualities()
    ensures RegionQualities(ServerLadder, Frame(1, 1), 1.0, Depths(3, 2, 1)).Ok?
  {
    ServerLadderPieces(1.0);
    assert IntPow(1.0, 3) == Ok(1.0) && IntPow(1.0, 2) == Ok(1.0) && IntPow(1.0, 1) == Ok(1.0);
  }

  // ---------------------------------------------------------------------
  // `resolution_to_quality` as written
  // ---------------------------------------------------------------------

  /** The region lookups as written: the three region heights are still
      computed (so a negative power of zero still raises), but
      `resolution_to_quality` reads `self.now_resolution[0]` instead of its
      argument, so every region gets the quality of the frame's own
      height. */
  function RegionQualitiesAsWritten(l: Ladder, f: Frame, q: real, d: Depths): (r: Result<Qualities>)
    ensures r.Ok? ==> ResolutionToQuality(l, f.height as real).Ok?
    ensures r.Ok? ==> var h := ResolutionToQuality(l, f.height as real).value;
      r.value.fovea == h && r.value.blend == h && r.value.peri == h
    ensures r.Err? <==>
      || RegionHeight(f, q, d.fovea).Err? || RegionHeight(f, q, d.blend).Err? || RegionHeight(f, q, d.peri).Err?
      || ResolutionToQuality(l, f.height as real).Err?
  {
    if RegionHeight(f, q, d.fovea).Err? then Err(RegionHeight(f, q, d.fovea).error)
    else if RegionHeight(f, q, d.blend).Err? then Err(RegionHeight(f, q, d.blend).error)
    else if RegionHeight(f, q, d.peri).Err? then Err(RegionHeight(f, q, d.peri).error)
    else
      match ResolutionToQuality(l, f.height as real)
      case Err(e) => Err(e)
      case Ok(h) => Ok(Qualities(h, h, h))
  }

  /** `qoe_cal` with the lookups as written: the average quality is the
      frame height's quality and the spatial jitter is zero, whatever the
      region sizes and depths. */
  function QoeCalQualitiesAsWritten(c: Config, o: Oracles, s: Step): (r: Result<Evaluation>)
    requires s.mode == 1 || s.mode == 2
    ensures r.Ok? ==> ResolutionToQuality(c.ladder, s.frame.height as real).Ok?
    ensures r.Ok? ==>
      r.value.paragraph.aveQuality == ResolutionToQuality(c.ladder, s.frame.height as real).value
      && r.value.paragraph.jitterS == 0.0
  {
    var qs := RegionQualitiesAsWritten(c.ladder, s.frame, c.resblock.quality, s.depths);
    var fa := RegionArea(s.gaze, s.frame, s.sizeFovea);
    var ba := RegionArea(s.gaze, s.frame, s.sizeBlend);
    var w := AreaWeights(fa, ba, s.frame);
    if qs.Ok? && w.Ok? then
      AverageOfUniform(qs.value.fovea, w.value);
      SpatialJitterSign(o.utility, qs.value, w.value, qs.value.fovea);
      Evaluate(c, o, s, qs)
    else
      Evaluate(c, o, s, qs)
  }

  /** As written, the depths change only the compute time: two steps that
      differ in their depths alone get the same paragraph and reward. */
  lemma QualitiesAsWrittenIgnoreDepths(c: Config, o: Oracles, s: Step, d: Depths)
    requires s.mode == 1 || s.mode == 2
    ensures var r1 := QoeCalQualitiesAsWritten(c, o, s);
      var r2 := QoeCalQualitiesAsWritten(c, o, s.(depths := d));
      r1.Ok? && r2.Ok? ==> r1.value.paragraph == r2.value.paragraph && r1.value.reward == r2.value.reward
  {
    var q1 := RegionQualitiesAsWritten(c.ladder, s.frame, c.resblock.quality, s.depths);
    var q2 := RegionQualitiesAsWritten(c.ladder, s.frame, c.resblock.quality, d);
    if q1.Ok? && q2.Ok? {
      assert q1 == q2;
    }
  }

  /** `x ** n` grows with `n` for `x >= 1`. */
  lemma {:induction false} PowMonotone(x: real, m: nat, n: nat)
    requires x >= 1.0 && m <= n
    ensures 1.0 <= Pow(x, m) <= Pow(x, n)
    decreases n
  {
    if m < n {
      PowMonotone(x, m, n - 1);
      assert Pow(x, n) == x * Pow(x, n - 1);
      MulAtLeastOne(x, Pow(x, n - 1));
    } else if m > 0 {
      PowMonotone(x, m - 1, m - 1);
      MulAtLeastOne(x, Pow(x, m - 1));
    }
  }

  lemma MulAtLeastOne(x: real, y: real)
    requires x >= 1.0 && y >= 1.0
    ensures x * y >= y
  {
  }

  /** The lookup never gives a taller region a lower quality. */
  predicate QualityAtMost(l: Ladder, h1: real, h2: real) {
    var r1 := ResolutionToQuality(l, h1);
    var r2 := ResolutionToQuality(l, h2);
    r1.Ok? && r2.Ok? && r1.value <= r2.value
  }

  ghost predicate MonotoneLadder(l: Ladder) {
    forall h1, h2 :: 0.0 <= h1 <= h2 ==> QualityAtMost(l, h1, h2)
  }

  /** The server ladder is such a ladder. */
  lemma ServerLadderIsMonotone()
    ensures MonotoneLadder(ServerLadder)
  {
    forall h1, h2 | 0.0 <= h1 <= h2
      ensures QualityAtMost(ServerLadder, h1, h2)
    {
      ServerLadderMonotone(h1, h2);
    }
  }

  /** The intended lookup: with a per-layer gain of at least one, as the
      environments configure (`2 ** 0.2`), and a ladder whose quality
      grows with height, such as the server's, a region computed at a
      greater depth never has a lower quality. */
  lemma RegionQualityMonotone(l: Ladder, f: Frame, q: real, d1: int, d2: int)
    requires MonotoneLadder(l) && f.height >= 0 && q >= 1.0 && 0 <= d1 <= d2
    ensures RegionQuality(l, f, q, d1).Ok? && RegionQuality(l, f, q, d2).Ok?
    ensures RegionQuality(l, f, q, d1).value <= RegionQuality(l, f, q, d2).value
  {
    RegionHeightMonotone(f, q, d1, d2);
    assert QualityAtMost(l, RegionHeight(f, q, d1).value, RegionHeight(f, q, d2).value);
  }

  /** Deeper regions are taller. */
  lemma RegionHeightMonotone(f: Frame, q: real, d1: int, d2: int)
    requires f.height >= 0 && q >= 1.0 && 0 <= d1 <= d2
    ensures RegionHeight(f, q, d1).Ok? && RegionHeight(f, q, d2).Ok?
    ensures 0.0 <= RegionHeight(f, q, d1).value <= RegionHeight(f, q, d2).value
  {
    DeeperScale(q, d1, d2);
    ScaleMonotone(f.height as real, IntPow(q, d1).value, IntPow(q, d2).value);
  }

  lemma ScaleMonotone(h: real, a: real, b: real)
    requires h >= 0.0 && 0.0 <= a <= b
    ensures 0.0 <= h * a <= h * b
  {
  }

  lemma DeeperScale(q: real, d1: int, d2: int)
    requires q >= 1.0 && 0 <= d1 <= d2
    ensures IntPow(q, d1).Ok? && IntPow(q, d2).Ok?
    ensures 1.0 <= IntPow(q, d1).value <= IntPow(q, d2).value
  {
    PowMonotone(q, d1, d2);
  }

  /** A 375-pixel-tall frame, gain 2 and depths 3, 2, 1: the intended
      lookup gives the fovea (height 3000) a higher quality than the
      periphery (height 750), while the lookup as written gives every
      region the quality 250 of height 375. */
  lemma ResolutionLookupWitness()
    ensures var intended := RegionQualities(ServerLadder, Frame(375, 1), 2.0, Depths(3, 2, 1));
      var asWritten := RegionQualitiesAsWritten(ServerLadder, Frame(375, 1), 2.0, Depths(3, 2, 1));
      && intended.Ok? && intended.value.peri == 1000.0 && intended.value.fovea > intended.value.peri
      && asWritten == Ok(Qualities(250.0, 250.0, 250.0))
  {
    assert IntPow(2.0, 3) == Ok(8.0) && IntPow(2.0, 2) == Ok(4.0) && IntPow(2.0, 1) == Ok(2.0);
    ServerLadderPieces(3000.0);
    ServerLadderPieces(1500.0);
    ServerLadderPieces(750.0);
    ServerLadderPieces(375.0);
  }
}
