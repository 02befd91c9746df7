/** The bookkeeping of the two training environments around one QoE
    evaluation: how a decoded action becomes region sizes and depths, how
    the latency and stall counters move, what is recorded when an episode
    ends, and what `reset` carries over. The evaluation itself is an input
    here; `Qoe.QoeCal` models it. */
module Episode {
  import opened Py
  import OtherCal
  import ActionCatalog
  import Qoe

  // ---------------------------------------------------------------------
  // From an action index to regions
  // ---------------------------------------------------------------------

  /** One rung of the bitrate ladder: the bitrate and the frame size it is
      encoded at. */
  datatype Tier = Tier(bitrate: real, frame: Qoe.Frame)

  /** The ladder `environment.py` declares: 250, 500, 1000 and 2000 kbps
      at 375, 540, 750 and 1080 lines. */
  const ServerTiers: seq<Tier> := [
    Tier(250.0, Qoe.Frame(375, 666)), Tier(500.0, Qoe.Frame(540, 960)),
    Tier(1000.0, Qoe.Frame(750, 1333)), Tier(2000.0, Qoe.Frame(1080, 1920))]

  /** The tier the comparison method (mode 1) is pinned to. */
  const FocasTier: int := 1

  /** The half-side of a region in pixels: `int(size_list[i] * height)`.
      Only the six listed sizes exist. */
  function RegionSize(i: int, height: int): (r: Result<int>)
    ensures r.Err? <==> !(-6 <= i < 6)
    ensures r.Err? ==> r.error == IndexError
  {
    match Index(ActionCatalog.SizeList, i)
    case None => Err(IndexError)
    case Some(f) => Ok(Trunc(f * height as real))
  }

  lemma TruncMono(x: real, y: real)
    requires 0.0 <= x <= y
    ensures 0 <= Trunc(x) <= Trunc(y)
  {
  }
  /** The six sizes, each a fixed fraction of the height. */
  lemma SizeValues(height: int)
    ensures var h := height as real;
      RegionSize(0, height) == Ok(Trunc(0.0 * h)) && RegionSize(1, height) == Ok(Trunc(1.0 / 12.0 * h))
      && RegionSize(2, height) == Ok(Trunc(2.0 / 12.0 * h)) && RegionSize(3, height) == Ok(Trunc(3.0 / 12.0 * h))
      && RegionSize(4, height) == Ok(Trunc(4.0 / 12.0 * h)) && RegionSize(5, height) == Ok(Trunc(5.0 / 12.0 * h))
  {
  }
  /** Each size is at least the one before it. */
  lemma RegionSizeStep(k: int, height: int)
    requires 0 <= k < 5 && height >= 0
    ensures RegionSize(k, height).Ok? && RegionSize(k + 1, height).Ok?
    ensures 0 <= RegionSize(k, height).value <= RegionSize(k + 1, height).value
  {
    var h := height as real;
    SizeValues(height);
    if k == 0 {
      TruncMono(0.0 * h, 1.0 / 12.0 * h);
    } else if k == 1 {
      TruncMono(1.0 / 12.0 * h, 2.0 / 12.0 * h);
    } else if k == 2 {
      TruncMono(2.0 / 12.0 * h, 3.0 / 12.0 * h);
    } else if k == 3 {
      TruncMono(3.0 / 12.0 * h, 4.0 / 12.0 * h);
    } else {
      TruncMono(4.0 / 12.0 * h, 5.0 / 12.0 * h);
    }
  }
  /** The largest size is at most five twelfths of the height. */
  lemma LargestSize(height: int)
    requires height >= 0
    ensures RegionSize(5, height).Ok? && 12 * RegionSize(5, height).value <= 5 * height
  {
    SizeValues(height);
    var t := Trunc(5.0 / 12.0 * height as real);
    assert (12 * t) as real == 12.0 * t as real;
  }
  /** Sizes grow with their index and never reach past five twelfths of
      the frame height, so the fovea of a valid action is never larger than
      its blend ring. */
  lemma {:induction false} RegionSizeMonotone(i: int, j: int, height: int)
    requires 0 <= i <= j < 6 && height >= 0
    ensures RegionSize(i, height).Ok? && RegionSize(j, height).Ok?
    ensures 0 <= RegionSize(i, height).value <= RegionSize(j, height).value <= RegionSize(5, height).value
    ensures 12 * RegionSize(j, height).value <= 5 * height
    decreases 5 - i, j - i
  {
    LargestSize(height);
    if i < j {
      RegionSizeMonotone(i, j - 1, height);
      RegionSizeStep(j - 1, height);
    } else if i < 5 {
      RegionSizeStep(i, height);
      RegionSizeMonotone(i + 1, 5, height);
    } else {
      SizeValues(height);
    }
  }

  /** The three depths of an action, looked up in the depth lists. */
  function RegionDepths(t: ActionCatalog.DepthTables, x: ActionCatalog.ActionIndex): (r: Result<Qoe.Depths>)
    ensures r.Ok? <==> (-|t.fovea| <= x.depthFovea < |t.fovea|
      && -|t.blend| <= x.depthBlend < |t.blend| && -|t.peri| <= x.depthPeri < |t.peri|)
  {
    match (Index(t.fovea, x.depthFovea), Index(t.blend, x.depthBlend), Index(t.peri, x.depthPeri))
    case (Some(df), Some(db), Some(dp)) => Ok(Qoe.Depths(df, db, dp))
    case _ => Err(IndexError)
  }

  /** What the environments append for one action: the tier, the two
      region sizes and the three depths. */
  datatype Selection = Selection(tier: Tier, sizeFovea: int, sizeBlend: int, depths: Qoe.Depths)

  /** The lookups of one step at tier `k`: any lookup outside its list is
      an `IndexError`. */
  function Select(tiers: seq<Tier>, k: int, x: ActionCatalog.ActionIndex): (r: Result<Selection>)
    ensures r.Ok? ==> Some(r.value.tier) == Index(tiers, k)
    ensures r.Ok? ==> Ok(r.value.depths) == RegionDepths(ActionCatalog.Depths, x)
    ensures Index(tiers, k).None? ==> r == Err(IndexError)
  {
    match Index(tiers, k)
    case None => Err(IndexError)
    case Some(tier) =>
      match (RegionSize(x.sizeFovea, tier.frame.height), RegionSize(x.sizeBlend, tier.frame.height),
             RegionDepths(ActionCatalog.Depths, x))
      case (Ok(sf), Ok(sb), Ok(d)) => Ok(Selection(tier, sf, sb, d))
      case _ => Err(IndexError)
  }

  /** The tier a mode reads: the pinned one for mode 1, the action's own
      for mode 2. */
  function TierOf(mode: int, x: ActionCatalog.ActionIndex): int {
    if mode == 1 || x.bitrate.None? then FocasTier else x.bitrate.value
  }

  /** Every action the catalog decodes selects regions the evaluation can
      use: the lookups succeed, the fovea sits inside the blend ring, both
      fit in the frame, and the depths fall strictly from the fovea
      outwards, the precondition under which every region time is
      non-negative. */
  lemma SelectValid(tiers: seq<Tier>, k: int, x: ActionCatalog.ActionIndex)
    requires 0 <= k < |tiers| && tiers[k].frame.height >= 0
    requires ActionCatalog.Loopable(ActionCatalog.Depths) && ActionCatalog.ValidIndex(ActionCatalog.Depths, x)
    ensures Select(tiers, k, x).Ok?
    ensures var s := Select(tiers, k, x).value;
      0 <= s.sizeFovea <= s.sizeBlend && 12 * s.sizeBlend <= 5 * s.tier.frame.height
      && s.depths.fovea > s.depths.blend > s.depths.peri >= 1
  {
    var h := tiers[k].frame.height;
    RegionSizeMonotone(x.sizeFovea, x.sizeBlend, h);
    ActionCatalog.DepthsValues(x.depthFovea);
    ActionCatalog.DepthsValues(x.depthBlend);
    ActionCatalog.DepthsValues(x.depthPeri);
  }

  /** The server ladder serves every decoded action, in either mode. */
  lemma ServerTiersServe(mode: int, x: ActionCatalog.ActionIndex)
    requires ActionCatalog.Loopable(ActionCatalog.Depths) && ActionCatalog.ValidIndex(ActionCatalog.Depths, x)
    ensures Select(ServerTiers, TierOf(mode, x), x).Ok?
    ensures var s := Select(ServerTiers, TierOf(mode, x), x).value;
      s.tier.frame.height > 0 && s.tier.frame.width > 0 && 0 <= s.sizeFovea <= s.sizeBlend
      && s.depths.fovea > s.depths.blend > s.depths.peri >= 1
  {
    var k := TierOf(mode, x);
    assert 0 <= k < 4;
    assert ServerTiers[k].frame.height > 0 && ServerTiers[k].frame.width > 0 by {
      if k == 0 {} else if k == 1 {} else if k == 2 {} else {}
    }
    SelectValid(ServerTiers, k, x);
  }

  // ---------------------------------------------------------------------
  // Error counters
  // ---------------------------------------------------------------------

  /** The counts of latency violations and stalls in the running episode,
      and the percentages of earlier episodes. */
  datatype Errors = Errors(late: int, buffer: int, latePer: seq<real>, bufferPer: seq<real>)

  const NoErrors: Errors := Errors(0, 0, [], [])

  predicate Percentages(p: seq<real>) {
    forall k :: 0 <= k < |p| ==> 0.0 <= p[k] <= 100.0
  }

  /** Counts that fit in an episode of `steps` steps, and percentages that
      are percentages. */
  predicate Bounded(e: Errors, steps: int) {
    0 <= e.late <= steps && 0 <= e.buffer <= steps && Percentages(e.latePer) && Percentages(e.bufferPer)
  }

  function Percent(count: int, steps: int): real
    requires steps != 0
  {
    100.0 * count as real / steps as real
  }

  lemma PercentInRange(count: int, steps: int)
    requires 0 <= count <= steps && steps != 0
    ensures 0.0 <= Percent(count, steps) <= 100.0
  {
    var c := count as real;
    var s := steps as real;
    assert c / s <= 1.0 by {
      assert c <= s;
      assert c / s <= s / s;
    }
    assert 100.0 * c / s == 100.0 * (c / s);
  }

  /** The flush at the start of `reset`: an episode that took steps turns
      its counts into two percentages and starts again from zero; before
      the first episode nothing is recorded. */
  function Flush(e: Errors, steps: int): (r: Errors)
    ensures steps == 0 ==> r == e
    ensures steps != 0 ==> (r.late == 0 && r.buffer == 0
      && |r.latePer| == |e.latePer| + 1 && |r.bufferPer| == |e.bufferPer| + 1
      && r.latePer[..|e.latePer|] == e.latePer && r.bufferPer[..|e.bufferPer|] == e.bufferPer)
  {
    if steps != 0 then
      Errors(0, 0, e.latePer + [Percent(e.late, steps)], e.bufferPer + [Percent(e.buffer, steps)])
    else e
  }

  /** A flush of bounded counts records percentages in [0, 100]. */
  lemma FlushBounded(e: Errors, steps: int)
    requires Bounded(e, steps)
    ensures Bounded(Flush(e, steps), 0)
    ensures steps != 0 ==> Flush(e, steps).latePer[|e.latePer|] == 100.0 * e.late as real / steps as real
  {
    if steps != 0 {
      PercentInRange(e.late, steps);
      PercentInRange(e.buffer, steps);
      var r := Flush(e, steps);
      assert forall k :: 0 <= k < |r.latePer| ==> r.latePer[k] == if k < |e.latePer| then e.latePer[k] else Percent(e.late, steps);
      assert forall k :: 0 <= k < |r.bufferPer| ==> r.bufferPer[k] == if k < |e.bufferPer| then e.bufferPer[k] else Percent(e.buffer, steps);
    } else {
      assert e.late == 0 && e.buffer == 0;
    }
  }

  /** One step's counts: a latency violation and a stall each add one. */
  function Count(e: Errors, invalid: bool, stalled: bool): Errors {
    e.(late := e.late + (if invalid then 1 else 0), buffer := e.buffer + (if stalled then 1 else 0))
  }

  // ---------------------------------------------------------------------
  // The environment's records
  // ---------------------------------------------------------------------

  /** What the environments keep between steps. The histories other than
      the bitrates are never cleared; `steps` counts the running episode
      and `time` the whole training. */
  datatype Env = Env(
    steps: int, time: int, latencyAve: real, errors: Errors,
    transmissions: seq<real>, bitrates: seq<real>, selections: seq<Selection>,
    actions: seq<int>, rewards: seq<real>, invalidActions: seq<int>,
    rewardAves: seq<real>, transmissionAves: seq<real>, latencies: seq<real>)

  const InitialEnv: Env := Env(0, 0, 0.0, NoErrors, [], [], [], [], [], [], [], [], [])

  /** What every step and reset keeps: the error counts fit in the episode,
      and the never-cleared histories hold at least the episode's steps. */
  predicate Consistent(e: Env) {
    0 <= e.steps <= |e.rewards| && e.steps <= |e.transmissions|
    && Bounded(e.errors, e.steps) && 0.0 <= e.latencyAve
  }

  /** What one evaluation hands back to the environment. */
  datatype Outcome = Outcome(reward: real, calTime: real, invalid: bool)

  /** `np.mean` of a non-empty history. */
  function Mean(s: seq<real>): real
    requires |s| > 0
  {
    OtherCal.Sum(s) / |s| as real
  }

  /** The part of `step` both environments share once the evaluation is
      known: count the violation and the stall, add the processing time,
      record the action and the reward, and advance both step counters. */
  function Advance(e: Env, action: int, o: Outcome, stalled: bool): Env {
    e.(errors := Count(e.errors, o.invalid, stalled),
       latencyAve := e.latencyAve + o.calTime,
       invalidActions := if o.invalid then e.invalidActions + [action] else e.invalidActions,
       actions := e.actions + [action], rewards := e.rewards + [o.reward],
       steps := e.steps + 1, time := e.time + 1)
  }

  /** A consistent environment stays consistent through a step whose
      transmission is already appended; the step counts exactly its own
      violation and stall, and hands the action to the agent exactly when
      it was invalid. */
  lemma AdvanceConsistent(e: Env, action: int, o: Outcome, stalled: bool)
    requires Consistent(e) && e.steps < |e.transmissions| && o.calTime >= 0.0
    ensures var a := Advance(e, action, o, stalled);
      Consistent(a) && a.steps == e.steps + 1 && a.time == e.time + 1
      && a.errors.late == e.errors.late + (if o.invalid then 1 else 0)
      && a.errors.buffer == e.errors.buffer + (if stalled then 1 else 0)
      && a.errors.latePer == e.errors.latePer && a.errors.bufferPer == e.errors.bufferPer
      && a.invalidActions == (if o.invalid then e.invalidActions + [action] else e.invalidActions)
      && a.rewards == e.rewards + [o.reward] && a.latencyAve == e.latencyAve + o.calTime
      && a.transmissions == e.transmissions && a.bitrates == e.bitrates && a.selections == e.selections
      && a.rewardAves == e.rewardAves && a.latencies == e.latencies
  {
  }

  /** The end of an episode: when the step counter reaches the episode
      length, the trailing means of the rewards and transmissions and the
      mean processing time are appended. */
  function Close(e: Env, maxSteps: int): Result<Env> {
    if e.steps == maxSteps then
      match (OtherCal.TrailingMean(e.rewards, maxSteps), OtherCal.TrailingMean(e.transmissions, maxSteps))
      case (Ok(ra), Ok(ta)) =>
        Ok(e.(rewardAves := e.rewardAves + [ra], transmissionAves := e.transmissionAves + [ta],
              latencies := e.latencies + [e.latencyAve / maxSteps as real]))
      case (Err(x), _) => Err(x)
      case (_, Err(x)) => Err(x)
    else Ok(e)
  }

  /** Closing never fails once a step was taken, touches only the three
      episode averages, and the averages it records are those of this
      episode alone: the mean of its last `maxSteps` rewards and of its
      processing time. */
  lemma CloseEpisode(e: Env, maxSteps: int)
    requires Consistent(e) && e.steps >= 1
    ensures var r := Close(e, maxSteps);
      r.Ok? && Consistent(r.value)
      && r.value.(rewardAves := e.rewardAves, transmissionAves := e.transmissionAves, latencies := e.latencies) == e
    ensures var r := Close(e, maxSteps);
      e.steps != maxSteps ==> r.Ok? && r.value == e
    ensures var r := Close(e, maxSteps);
      e.steps == maxSteps ==> (r.Ok? && var n := |e.rewards|;
        r.value.rewardAves == e.rewardAves + [OtherCal.Sum(e.rewards[n - maxSteps..]) / maxSteps as real]
        && r.value.latencies == e.latencies + [e.latencyAve / maxSteps as real]
        && |r.value.transmissionAves| == |e.transmissionAves| + 1)
  {
  }

  datatype Stepped = Stepped(env: Env, done: bool)

  /** The shared bookkeeping of `step`: advance, decide `done` against the
      mean of every reward so far, and close the episode on its last step. */
  function Record(e: Env, maxSteps: int, goal: real, action: int, o: Outcome, stalled: bool): Result<Stepped> {
    var a := Advance(e, action, o, stalled);
    match Close(a, maxSteps)
    case Err(x) => Err(x)
    case Ok(c) => Ok(Stepped(c, Mean(a.rewards) >= goal))
  }

  /** One recorded step of a consistent environment whose transmission for
      this step is already appended: it succeeds, stays consistent, and
      `done` holds exactly when the mean of all rewards reaches the goal. */
  lemma RecordStep(e: Env, maxSteps: int, goal: real, action: int, o: Outcome, stalled: bool)
    requires Consistent(e) && e.steps < |e.transmissions| && o.calTime >= 0.0
    ensures var r := Record(e, maxSteps, goal, action, o, stalled);
      r.Ok? && Consistent(r.value.env)
      && Close(Advance(e, action, o, stalled), maxSteps) == Ok(r.value.env)
      && (r.value.done <==> OtherCal.Sum(e.rewards + [o.reward]) / (|e.rewards| + 1) as real >= goal)
  {
    AdvanceConsistent(e, action, o, stalled);
    CloseEpisode(Advance(e, action, o, stalled), maxSteps);
  }

  // ---------------------------------------------------------------------
  // `environment.py` (modes 1 and 2)
  // ---------------------------------------------------------------------

  /** The stall signal `environment.py` tests: position 3 of the
      paragraph, which `qoe_cal` fills with the spatial jitter. */
  function StallSignalAsWritten(p: Qoe.Paragraph): real {
    [p.aveQuality, p.weiQuality, p.jitterT, p.jitterS, p.rebuffer][3]
  }

  /** The signal the counter is named for: the rebuffering penalty,
      position 4. */
  function StallSignal(p: Qoe.Paragraph): real {
    [p.aveQuality, p.weiQuality, p.jitterT, p.jitterS, p.rebuffer][4]
  }

  /** One `step` of `environment.py` in mode 1 or 2, given the decoded
      action and the evaluation of the selected regions: the transmission
      of this step is read from the trace and appended, the selection is
      recorded, and the shared bookkeeping follows. `stallAt` reads the
      stall signal from the paragraph. */
  function EnvStepWith(stallAt: Qoe.Paragraph -> real, e: Env, mode: int, trace: seq<real>, maxSteps: int,
                       goal: real, action: int, x: ActionCatalog.ActionIndex, ev: Qoe.Evaluation): Result<Stepped>
  {
    match Index(trace, e.steps)
    case None => Err(IndexError)
    case Some(rate) =>
      match Select(ServerTiers, TierOf(mode, x), x)
      case Err(err) => Err(err)
      case Ok(s) =>
        var e1 := e.(transmissions := e.transmissions + [rate], selections := e.selections + [s]);
        Record(e1, maxSteps, goal, action, Outcome(ev.reward, ev.calTime, ev.invalid), stallAt(ev.paragraph) > 0.0)
  }

  function EnvStepAsWritten(e: Env, mode: int, trace: seq<real>, maxSteps: int, goal: real,
                            action: int, x: ActionCatalog.ActionIndex, ev: Qoe.Evaluation): Result<Stepped> {
    EnvStepWith(StallSignalAsWritten, e, mode, trace, maxSteps, goal, action, x, ev)
  }

  function EnvStep(e: Env, mode: int, trace: seq<real>, maxSteps: int, goal: real,
                   action: int, x: ActionCatalog.ActionIndex, ev: Qoe.Evaluation): Result<Stepped> {
    EnvStepWith(StallSignal, e, mode, trace, maxSteps, goal, action, x, ev)
  }

  /** A step of `environment.py` on a trace that covers the episode keeps
      the environment consistent and counts a stall exactly when the
      evaluation charged a rebuffering penalty. */
  lemma EnvStepCountsStalls(e: Env, mode: int, trace: seq<real>, maxSteps: int, goal: real,
                            action: int, x: ActionCatalog.ActionIndex, ev: Qoe.Evaluation)
    requires Consistent(e) && e.steps < |trace| && ev.calTime >= 0.0
    requires ActionCatalog.Loopable(ActionCatalog.Depths) && ActionCatalog.ValidIndex(ActionCatalog.Depths, x)
    ensures var r := EnvStep(e, mode, trace, maxSteps, goal, action, x, ev);
      r.Ok? && Consistent(r.value.env)
      && r.value.env.errors.buffer == e.errors.buffer + (if ev.paragraph.rebuffer > 0.0 then 1 else 0)
      && r.value.env.errors.late == e.errors.late + (if ev.invalid then 1 else 0)
      && r.value.env.transmissions == e.transmissions + [trace[e.steps]]
  {
    ServerTiersServe(mode, x);
    var s := Select(ServerTiers, TierOf(mode, x), x).value;
    var e1 := e.(transmissions := e.transmissions + [trace[e.steps]], selections := e.selections + [s]);
    AdvanceConsistent(e1, action, Outcome(ev.reward, ev.calTime, ev.invalid), ev.paragraph.rebuffer > 0.0);
    CloseEpisode(Advance(e1, action, Outcome(ev.reward, ev.calTime, ev.invalid), ev.paragraph.rebuffer > 0.0), maxSteps);
    RecordStep(e1, maxSteps, goal, action, Outcome(ev.reward, ev.calTime, ev.invalid), ev.paragraph.rebuffer > 0.0);
  }

  /** The counter as written follows the spatial jitter instead: a step
      with no rebuffering but some jitter is counted as a stall, and a
      stall without jitter is missed. */
  lemma StallCounterAsWrittenMiscounts(e: Env, trace: seq<real>, goal: real, action: int,
                                       x: ActionCatalog.ActionIndex, ev: Qoe.Evaluation)
    requires Consistent(e) && e.steps < |trace| && ev.calTime >= 0.0
    requires ActionCatalog.Loopable(ActionCatalog.Depths) && ActionCatalog.ValidIndex(ActionCatalog.Depths, x)
    requires ev.paragraph.jitterS > 0.0 && ev.paragraph.rebuffer == 0.0
    ensures var w := EnvStepAsWritten(e, 2, trace, e.steps + 2, goal, action, x, ev);
      var c := EnvStep(e, 2, trace, e.steps + 2, goal, action, x, ev);
      w.Ok? && c.Ok? && w.value.env.errors.buffer == e.errors.buffer + 1 && c.value.env.errors.buffer == e.errors.buffer
  {
    ServerTiersServe(2, x);
    var s := Select(ServerTiers, TierOf(2, x), x).value;
    var e1 := e.(transmissions := e.transmissions + [trace[e.steps]], selections := e.selections + [s]);
    var o := Outcome(ev.reward, ev.calTime, ev.invalid);
    AdvanceConsistent(e1, action, o, true);
    CloseEpisode(Advance(e1, action, o, true), e.steps + 2);
    RecordStep(e1, e.steps + 2, goal, action, o, true);
    AdvanceConsistent(e1, action, o, false);
    CloseEpisode(Advance(e1, action, o, false), e.steps + 2);
    RecordStep(e1, e.steps + 2, goal, action, o, false);
  }

  // ---------------------------------------------------------------------
  // A whole `environment.py` step: decode, evaluate, record
  // ---------------------------------------------------------------------

  /** The catalog `environment.py` builds for its mode from the depth
      tables `t` (the program's own are `ActionCatalog.Depths`): the FOCAS
      catalog in mode 1, the one with a bitrate tier in front in mode 2.
      Mode 2 calls `a_focas_combination`, a name `action_generate.py`
      does not define; `ours_combination` is the catalog of that size. */
  function Catalog(t: ActionCatalog.DepthTables, mode: int): seq<ActionCatalog.Entry>
    requires ActionCatalog.Loopable(t)
  {
    if mode == 1 then ActionCatalog.FocasCombination(t) else ActionCatalog.OursCombination(t)
  }

  /** Every action id of the mode's action space decodes to a valid index,
      carrying a bitrate tier exactly in mode 2. */
  lemma CatalogDecodes(t: ActionCatalog.DepthTables, mode: int, action: int)
    requires ActionCatalog.Loopable(t) && (mode == 1 || mode == 2) && 0 <= action < |Catalog(t, mode)|
    ensures var r := ActionCatalog.AssignAction(Catalog(t, mode), mode, action);
      r.Ok? && ActionCatalog.ValidIndex(t, r.value) && (r.value.bitrate.Some? <==> mode == 2)
  {
    if mode == 1 {
      ActionCatalog.FocasDecode(t, mode, action);
    } else {
      OursDecodes(t, action);
    }
  }

  /** An id of the proposed method's action space decodes to a valid index
      with a bitrate tier. */
  lemma OursDecodes(t: ActionCatalog.DepthTables, action: int)
    requires ActionCatalog.Loopable(t) && 0 <= action < |ActionCatalog.OursCombination(t)|
    ensures var r := ActionCatalog.AssignAction(ActionCatalog.OursCombination(t), 2, action);
      r.Ok? && ActionCatalog.ValidIndex(t, r.value) && r.value.bitrate.Some?
  {
    var a := ActionCatalog.OursCombination(t)[action];
    ActionCatalog.OursMembers(t, a);
    ActionCatalog.OursEntryValid(t, a);
  }

  /** What the evaluator reads that the environment does not compute: the
      gaze of this step, the playback buffer and its cap, and the history
      of average qualities. */
  datatype Playback = Playback(gaze: Qoe.Gaze, buffer: real, maxBuffer: real, aveHistory: seq<real>)

  /** The evaluator's input for one selection: the selected tier's frame
      and bitrate, the decoded sizes and depths, and this step's
      transmission rate. */
  function EvaluationStep(mode: int, e: Env, s: Selection, rate: real, p: Playback): Qoe.Step {
    Qoe.Step(mode, e.steps, e.time, s.tier.frame, p.gaze, s.sizeFovea, s.sizeBlend, s.depths,
             rate, s.tier.bitrate, p.buffer, p.maxBuffer, p.aveHistory)
  }

  /** One `step` of `environment.py` in mode 1 or 2 once the action is
      decoded: read this step's transmission, select the regions, evaluate
      them and record the step. */
  function EnvStepDecoded(e: Env, mode: int, trace: seq<real>, maxSteps: int, goal: real, action: int,
                          x: ActionCatalog.ActionIndex, c: Qoe.Config, o: Qoe.Oracles, p: Playback): Result<Stepped>
    requires mode == 1 || mode == 2
  {
    match Index(trace, e.steps)
    case None => Err(IndexError)
    case Some(rate) =>
      match Select(ServerTiers, TierOf(mode, x), x)
      case Err(err) => Err(err)
      case Ok(s) =>
        match Qoe.QoeCal(c, o, EvaluationStep(mode, e, s, rate, p))
        case Err(err) => Err(err)
        case Ok(ev) => EnvStep(e, mode, trace, maxSteps, goal, action, x, ev)
  }

  /** One `step` of `environment.py` in mode 1 or 2 from the agent's action
      id: decode it in the environment's catalog `comb`, then step. */
  function EnvStepEvaluated(e: Env, mode: int, comb: seq<ActionCatalog.Entry>, trace: seq<real>, maxSteps: int,
                            goal: real, action: int, c: Qoe.Config, o: Qoe.Oracles, p: Playback): Result<Stepped>
    requires mode == 1 || mode == 2
  {
    match ActionCatalog.AssignAction(comb, mode, action)
    case Err(err) => Err(err)
    case Ok(x) => EnvStepDecoded(e, mode, trace, maxSteps, goal, action, x, c, o, p)
  }

  /** A step of a valid decoded action, on a trace covering the episode and
      with a non-negative per-pixel time, fails exactly when the evaluation
      of its selection fails. Otherwise the environment stays consistent,
      the latency counter grows exactly when the compute time of the
      selected regions plus the rest of the network's time exceeds the
      budget, the stall counter grows exactly when the evaluation charged a
      rebuffering penalty, and a budget below the network's own time flags
      the step whatever the action. */
  lemma EnvStepDecodedCounts(e: Env, mode: int, trace: seq<real>, maxSteps: int, goal: real, action: int,
                             x: ActionCatalog.ActionIndex, c: Qoe.Config, o: Qoe.Oracles, p: Playback)
    requires mode == 1 || mode == 2
    requires Consistent(e) && e.steps < |trace| && c.resblock.time >= 0.0
    requires ActionCatalog.Loopable(ActionCatalog.Depths) && ActionCatalog.ValidIndex(ActionCatalog.Depths, x)
    ensures Select(ServerTiers, TierOf(mode, x), x).Ok?
    ensures var s := Select(ServerTiers, TierOf(mode, x), x).value;
      var ev := Qoe.QoeCal(c, o, EvaluationStep(mode, e, s, trace[e.steps], p));
      var r := EnvStepDecoded(e, mode, trace, maxSteps, goal, action, x, c, o, p);
      && (r.Ok? <==> ev.Ok?)
      && (ev.Ok? ==> (r.Ok? && Consistent(r.value.env)
        && r.value.env.errors.late == e.errors.late + (if ev.value.calTime + c.resblock.other > c.latency then 1 else 0)
        && r.value.env.errors.buffer == e.errors.buffer + (if ev.value.paragraph.rebuffer > 0.0 then 1 else 0)
        && (c.latency < c.resblock.other ==> r.value.env.errors.late == e.errors.late + 1)))
  {
    ServerTiersServe(mode, x);
    var s := Select(ServerTiers, TierOf(mode, x), x).value;
    var st := EvaluationStep(mode, e, s, trace[e.steps], p);
    Qoe.QoeCalTimeNonNegative(c, o, st);
    var ev := Qoe.QoeCal(c, o, st);
    if ev.Ok? {
      EnvStepCountsStalls(e, mode, trace, maxSteps, goal, action, x, ev.value);
    }
  }

  /** The same for an action id that the environment's catalog `comb`
      decodes to a valid index, as every id of the action space does
      (`CatalogDecodes`). */
  lemma EnvStepEvaluatedCounts(e: Env, mode: int, comb: seq<ActionCatalog.Entry>, trace: seq<real>, maxSteps: int,
                               goal: real, action: int, c: Qoe.Config, o: Qoe.Oracles, p: Playback)
    requires mode == 1 || mode == 2
    requires ActionCatalog.AssignAction(comb, mode, action).Ok?
    requires ActionCatalog.Loopable(ActionCatalog.Depths)
    requires ActionCatalog.ValidIndex(ActionCatalog.Depths, ActionCatalog.AssignAction(comb, mode, action).value)
    requires Consistent(e) && e.steps < |trace| && c.resblock.time >= 0.0
    ensures var x := ActionCatalog.AssignAction(comb, mode, action).value;
      Select(ServerTiers, TierOf(mode, x), x).Ok?
    ensures var x := ActionCatalog.AssignAction(comb, mode, action).value;
      var s := Select(ServerTiers, TierOf(mode, x), x).value;
      var ev := Qoe.QoeCal(c, o, EvaluationStep(mode, e, s, trace[e.steps], p));
      var r := EnvStepEvaluated(e, mode, comb, trace, maxSteps, goal, action, c, o, p);
      && (r.Ok? <==> ev.Ok?)
      && (ev.Ok? ==> (r.Ok? && Consistent(r.value.env)
        && r.value.env.errors.late == e.errors.late + (if ev.value.calTime + c.resblock.other > c.latency then 1 else 0)
        && r.value.env.errors.buffer == e.errors.buffer + (if ev.value.paragraph.rebuffer > 0.0 then 1 else 0)))
  {
    var x := ActionCatalog.AssignAction(comb, mode, action).value;
    EnvStepDecodedCounts(e, mode, trace, maxSteps, goal, action, x, c, o, p);
  }

  /** `reset` in modes 1 and 2 as written: the counts are flushed and the
      bitrate history emptied, but the processing-time sum is kept, so the
      next episode's average latency also counts the earlier episodes. */
  function EnvResetAsWritten(e: Env): (r: Env)
    ensures r.latencyAve == e.latencyAve
  {
    e.(errors := Flush(e.errors, e.steps), bitrates := [], steps := 0)
  }

  /** `reset` with the processing-time sum cleared, as the per-episode
      average it feeds is meant to be. */
  function EnvReset(e: Env): (r: Env) {
    EnvResetAsWritten(e).(latencyAve := 0.0)
  }

  /** A reset keeps the environment consistent and starts an episode with
      no counts and no processing time. */
  lemma EnvResetConsistent(e: Env)
    requires Consistent(e)
    ensures Consistent(EnvReset(e)) && EnvReset(e).steps == 0 && EnvReset(e).latencyAve == 0.0
    ensures EnvReset(e).errors == Flush(e.errors, e.steps) && EnvReset(e).bitrates == []
  {
    FlushBounded(e.errors, e.steps);
  }

  /** An episode of one step whose evaluation took `c` seconds records
      the processing-time sum carried into it plus `c`. */
  lemma OneStepEpisode(e: Env, goal: real, c: real)
    requires Consistent(e) && e.steps == 0 && |e.transmissions| >= 1 && c >= 0.0
    ensures var r := Record(e, 1, goal, 0, Outcome(0.0, c, false), false);
      r.Ok? && Consistent(r.value.env) && r.value.env.steps == 1
      && r.value.env.latencyAve == e.latencyAve + c
      && r.value.env.latencies == e.latencies + [e.latencyAve + c]
      && |r.value.env.transmissions| == |e.transmissions|
  {
    var o := Outcome(0.0, c, false);
    AdvanceConsistent(e, 0, o, false);
    CloseEpisode(Advance(e, 0, o, false), 1);
  }

  lemma EnvResetAsWrittenConsistent(e: Env)
    requires Consistent(e)
    ensures var r := EnvResetAsWritten(e);
      Consistent(r) && r.steps == 0 && r.latencies == e.latencies && r.transmissions == e.transmissions
  {
    FlushBounded(e.errors, e.steps);
  }

  /** The second episode's average latency as written: two one-step
      episodes with processing times `a` and then `b` record `a` and then
      `a + b`, while the corrected reset records `b`. */
  lemma LatencyCarriesOver(e: Env, goal: real, a: real, b: real)
    requires Consistent(e) && e.steps == 0 && e.latencyAve == 0.0 && |e.transmissions| >= 1
    requires a >= 0.0 && b >= 0.0
    ensures var r1 := Record(e, 1, goal, 0, Outcome(0.0, a, false), false);
      r1.Ok? && r1.value.env.latencies == e.latencies + [a]
    ensures var r1 := Record(e, 1, goal, 0, Outcome(0.0, a, false), false).value.env;
      var w := Record(EnvResetAsWritten(r1), 1, goal, 0, Outcome(0.0, b, false), false);
      w.Ok? && w.value.env.latencies == e.latencies + [a, a + b]
    ensures var r1 := Record(e, 1, goal, 0, Outcome(0.0, a, false), false).value.env;
      var c := Record(EnvReset(r1), 1, goal, 0, Outcome(0.0, b, false), false);
      c.Ok? && c.value.env.latencies == e.latencies + [a, b]
  {
    OneStepEpisode(e, goal, a);
    var r1 := Record(e, 1, goal, 0, Outcome(0.0, a, false), false).value.env;
    EnvResetAsWrittenConsistent(r1);
    OneStepEpisode(EnvResetAsWritten(r1), goal, b);
    assert e.latencies + [a] + [a + b] == e.latencies + [a, a + b];
    EnvResetConsistent(r1);
    OneStepEpisode(EnvReset(r1), goal, b);
    assert e.latencies + [a] + [0.0 + b] == e.latencies + [a, b];
  }

  // ---------------------------------------------------------------------
  // `env_ours.py`
  // ---------------------------------------------------------------------

  /** `reset` of `env_ours.py`: the bitrate history restarts from the
      lowest tier, the processing-time sum is cleared, the counts are
      flushed. An empty ladder has no lowest tier. */
  function OursReset(e: Env, tiers: seq<Tier>): (r: Result<Env>)
    ensures r.Err? <==> |tiers| == 0
  {
    match Index(tiers, 0)
    case None => Err(IndexError)
    case Some(t) =>
      Ok(e.(bitrates := [t.bitrate], latencyAve := 0.0, errors := Flush(e.errors, e.steps), steps := 0))
  }

  /** One `step` of `env_ours.py`: the transmission of this step and the
      chosen tier's bitrate are appended, then the selection; the stall
      signal is position 3 of the paragraph its evaluation returns, a
      shorter paragraph being an `IndexError`. */
  function OursStep(e: Env, tiers: seq<Tier>, trace: seq<real>, maxSteps: int, goal: real,
                    action: int, x: ActionCatalog.ActionIndex, paragraph: seq<real>, o: Outcome): Result<Stepped>
  {
    match Index(trace, e.steps)
    case None => Err(IndexError)
    case Some(rate) =>
      match Select(tiers, TierOf(2, x), x)
      case Err(err) => Err(err)
      case Ok(s) =>
        match Index(paragraph, 3)
        case None => Err(IndexError)
        case Some(stall) =>
          var e1 := e.(transmissions := e.transmissions + [rate], bitrates := e.bitrates + [s.tier.bitrate],
                       selections := e.selections + [s]);
          Record(e1, maxSteps, goal, action, o, stall > 0.0)
  }

  /** An `env_ours.py` step appends exactly one entry to each per-step
      history, the bitrate of the action's own tier among them. */
  lemma OursStepAppends(e: Env, tiers: seq<Tier>, trace: seq<real>, maxSteps: int, goal: real,
                        action: int, x: ActionCatalog.ActionIndex, paragraph: seq<real>, o: Outcome)
    requires Consistent(e) && e.steps < |trace| && o.calTime >= 0.0 && |paragraph| >= 4
    requires x.bitrate.Some? && 0 <= x.bitrate.value < |tiers| && tiers[x.bitrate.value].frame.height >= 0
    requires ActionCatalog.Loopable(ActionCatalog.Depths) && ActionCatalog.ValidIndex(ActionCatalog.Depths, x)
    ensures var r := OursStep(e, tiers, trace, maxSteps, goal, action, x, paragraph, o);
      r.Ok? && Consistent(r.value.env)
      && r.value.env.bitrates == e.bitrates + [tiers[x.bitrate.value].bitrate]
      && r.value.env.transmissions == e.transmissions + [trace[e.steps]]
      && |r.value.env.selections| == |e.selections| + 1
      && r.value.env.actions == e.actions + [action]
      && r.value.env.errors.buffer == e.errors.buffer + (if paragraph[3] > 0.0 then 1 else 0)
  {
    SelectValid(tiers, x.bitrate.value, x);
    var s := Select(tiers, x.bitrate.value, x).value;
    var e1 := e.(transmissions := e.transmissions + [trace[e.steps]], bitrates := e.bitrates + [s.tier.bitrate],
                 selections := e.selections + [s]);
    AdvanceConsistent(e1, action, o, paragraph[3] > 0.0);
    CloseEpisode(Advance(e1, action, o, paragraph[3] > 0.0), maxSteps);
    RecordStep(e1, maxSteps, goal, action, o, paragraph[3] > 0.0);
  }

  /** A reset of `env_ours.py` keeps the environment consistent and leaves
      exactly the lowest tier's bitrate in the bitrate history. */
  lemma OursResetConsistent(e: Env, tiers: seq<Tier>)
    requires Consistent(e) && |tiers| > 0
    ensures var r := OursReset(e, tiers);
      r.Ok? && Consistent(r.value) && r.value.steps == 0 && r.value.latencyAve == 0.0
      && r.value.bitrates == [tiers[0].bitrate]
  {
    FlushBounded(e.errors, e.steps);
  }

  // ---------------------------------------------------------------------
  // Whole episodes
  // ---------------------------------------------------------------------

  /** `sum(error_late_per) / len(error_late_per)` at the end of training;
      no finished episode is a `ZeroDivisionError`. */
  function AveragePercent(per: seq<real>): (r: Result<real>)
    ensures r.Err? <==> |per| == 0
  {
    if |per| == 0 then Err(ZeroDivisionError) else Ok(OtherCal.Sum(per) / |per| as real)
  }

  lemma SumBounds(s: seq<real>)
    requires Percentages(s)
    ensures 0.0 <= OtherCal.Sum(s) <= 100.0 * |s| as real
  {
    if |s| > 0 {
      SumBounds(s[..|s| - 1]);
    }
  }

  /** The training's average percentages are percentages too. */
  lemma AveragePercentInRange(per: seq<real>)
    requires Percentages(per) && |per| > 0
    ensures var r := AveragePercent(per); r.Ok? && 0.0 <= r.value <= 100.0
  {
    SumBounds(per);
    var n := |per| as real;
    assert OtherCal.Sum(per) / n <= 100.0 * n / n;
  }
}
