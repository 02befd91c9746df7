# Gaze-guided super-resolution streaming, point-cloud density and octree tools: a Dafny model

This project models the computational core of a research code base on
foveated, gaze-guided super-resolution (SR) video streaming, and of the
point-cloud and mesh tools next to it. Everything is stated as pure
functions over immutable datatypes, and the properties are proved.

- **Action catalogs** (`action_catalog.dfy`, module `ActionCatalog`). An
  agent action picks a fovea and a blend-ring size, three ResBlock depths
  (fovea > blend > periphery) and, for the proposed method, a bitrate tier.
  `focas_combination` enumerates the 1200 FOCAS actions and
  `ours_combination` the 4800 proposed-method actions. `assign_action`
  decodes an action id into list indices.
- **QoE evaluation** (`qoe.dfy`, module `Qoe`). One step of `QoE.qoe_cal`:
  - the pixel area of the square around the gaze point;
  - the SR compute time of the three regions against the latency budget;
  - the height-to-quality ladder;
  - the rebuffering penalty;
  - the area-weighted average quality;
  - the temporal and spatial jitter;
  - the linear reward `10 w - 2 jt - 2 js - 43 rebuffer`.
- **Helpers** (`other_cal.dfy`, module `OtherCal`). `ave_cal`, the trailing
  mean over a history, and `debug_time`.
- **Training environments** (`episode.dfy`, module `Episode`). The
  bookkeeping of `DQN/environment.py` and `DQN/env_ours.py`:
  - the server ladder and the region sizes;
  - one step from action id to recorded outcome;
  - the per-episode error counters and percentages;
  - `reset`.
- **Client playback buffer** (`client.dfy`, module `Client`).
- **Voxel density analysis** (`geometry.dfy`, `voxel.dfy`, `density.dfy`,
  `ranking.dfy`, `roi.dfy`, `kde.dfy`, `normalise.dfy`, `paths.dfy`):
  - axis-aligned bounding boxes and voxel indexing;
  - the voxel counter and density (`np.unique` with counts);
  - the stable lowest-density ranking and its CSV rows;
  - the `--roi` argument;
  - the voxel-centroid kernel density estimate on a `U^3` grid;
  - the scalar and density normalisations used for colouring;
  - the derived output paths.
- **Octree compression and visualisation** (`mesh.dfy`, `octree.dfy`):
  - OBJ vertex loading and model bounds;
  - the compressor's padded cube;
  - the bounding-box extraction of `OctreeVisualizer`, with its wireframe
    and solid-box vertex lists.
- **OFF to point-cloud converters** (`off_parser.dfy`, module `OffParser`).
  Both `off2pcv.py` scripts: header classification (standard `OFF` header
  or the compact `OFF n m k` one), count parsing and the vertex block.
- **Python semantics** (`py.dfy`, module `Py`). Negative indexing,
  slices, `int()`, `str.split`, `strip`, `lower` and `int(str)`.

Numbers that are floats in the source are exact reals here. Integers are
unbounded. Python exceptions become `Result` errors (`IndexError`,
`ValueError`, ...). File I/O, Open3D, numpy's quantile, the Gaussian kernel
and Python's `float()` are parameters or are left out (see below).

### Where the code departs from its evident intent

In the first three cases the model follows the code as written. In the
fourth it follows the evident intent of the code and models the code as
written separately, as a finding:

- `size_via_resolution` gives a region that fits entirely in the frame
  the area `r^2` (`qoe_cal.py:357-358`). In every clipped case the code
  measures each axis from `c - r` to `c + r`, an extent of up to `2r`, so
  the fitting case is the only one that counts `r` per axis.
  `Qoe.AreaBounds` states both the `r^2` case and the general bound
  `(2r)^2`.
- The temporal jitter is the absolute difference of the raw average
  qualities (`qoe_cal.py:167-170`), while the spatial jitter on line 173
  compares utilities of the qualities.
- `ratio_blend` is computed already net of the fovea (`qoe_cal.py:145-146`),
  yet the blend weight subtracts `ratio_fovea` from it again (line 149).
  The weight is negative whenever the blend square holds less than twice
  the fovea's pixels (`Qoe.BlendWeightNegative`).
- Lines 128-133 compute each region's own height, the frame height times
  `resblock_quality ** depth`, and pass it to `resolution_to_quality`. That
  function never reads its argument: it looks up `self.now_resolution[0]`
  (lines 374-397). As written, all three regions get the quality of the
  frame's own height, the average quality is that quality and the spatial
  jitter is 0. `Qoe.QoeCal` looks each region up at its own height
  (`Qoe.RegionQuality`); `Qoe.QoeCalQualitiesAsWritten` is the code as
  written (see Findings).

## Model

| member | source | states |
|---|---|---|
| ActionCatalog.FocasCombination | InternalSystem/action_generate.py:8-30 | the nested loops of `focas_combination` over the depth tables; `ActionCatalog.FocasMembers` and `ActionCatalog.FocasCount` state its members and size |
| ActionCatalog.FocasMembers | InternalSystem/action_generate.py:8-30 | an entry is in `focas_combination` iff every index is in 0..4, sf <= sb, and the looked-up depths strictly decrease fovea > blend > periphery |
| ActionCatalog.DepthTriplesMembers | InternalSystem/action_generate.py:16-25 | the three depth loops enumerate exactly the admissible depth triples |
| ActionCatalog.DepthTriplesCount | InternalSystem/action_generate.py:16-25 | with the program's depth tables there are 80 admissible depth triples |
| ActionCatalog.PeriLoopMembers | InternalSystem/action_generate.py:18-25 | the innermost depth loop yields exactly the admissible periphery depths from its start index, with the outer two indices fixed |
| ActionCatalog.BlendLoopMembers | InternalSystem/action_generate.py:17-25 | the blend-depth loop yields exactly the admissible triples with the fovea index fixed and the blend index from its start |
| ActionCatalog.DepthLoopMembers | InternalSystem/action_generate.py:16-25 | the fovea-depth loop yields exactly the admissible triples whose fovea index is at least its start |
| ActionCatalog.DepthsStepped | InternalSystem/action_generate.py:2-4 | the program's depth lists have five entries each, stepping by one |
| ActionCatalog.SizeFoveaTotal | InternalSystem/action_generate.py:11-28 | the two size loops contribute 15 size pairs with sf <= sb |
| ActionCatalog.SizeBlendLoopMembers | InternalSystem/action_generate.py:13-27 | the blend-size loop yields the fixed fovea size, a blend size from its start up to 4, and any depth triple |
| ActionCatalog.SizeFoveaLoopMembers | InternalSystem/action_generate.py:11-28 | the fovea-size loop yields sf <= sb < 5 with sf from its start, followed by any depth triple |
| ActionCatalog.FocasCount | InternalSystem/action_generate.py:8-30 | the FOCAS catalog has 1200 actions |
| ActionCatalog.OursTiers | InternalSystem/action_generate.py:32-57 | `ours_combination` is four copies of the FOCAS catalog, with bitrate tier 0, 1, 2, 3 in front of the copies |
| ActionCatalog.TierSplit | InternalSystem/action_generate.py:35-57 | the block of tier b is the FOCAS enumeration with b in front, followed by the blocks of the later tiers |
| ActionCatalog.BitrateLoopTiers | InternalSystem/action_generate.py:35-57 | the bitrate loop from tier b lays out the FOCAS enumeration once per tier b..3 |
| ActionCatalog.TiersMembers | InternalSystem/action_generate.py:35-57 | an entry is in the tiers from b iff it is a tier in b..3 followed by an inner entry |
| ActionCatalog.TiersLength | InternalSystem/action_generate.py:35-57 | the tiers from b hold (4 - b) copies of the inner catalog |
| ActionCatalog.OursCombination | InternalSystem/action_generate.py:32-57 | the bitrate loop of `ours_combination` around the FOCAS loops; `ActionCatalog.OursMembers` and `ActionCatalog.OursLength` state its members and size |
| ActionCatalog.OursMembers | InternalSystem/action_generate.py:32-57 | an entry is in `ours_combination` iff it is a bitrate tier in 0..3 followed by a well-formed FOCAS entry |
| ActionCatalog.OursLength | InternalSystem/action_generate.py:32-57 | the proposed catalog is four times as long as the FOCAS one |
| ActionCatalog.ProgramCatalogSizes | DQN/environment.py:62-84 | the catalogs built from the program's tables have 1200 and 4800 entries, the sizes of the action spaces `Discrete(1200)` and `Discrete(4800)` |
| ActionCatalog.DepthsValues | InternalSystem/action_generate.py:2-4 | the program's depth lists are 6.., 3.. and 1.., each stepping by one |
| ActionCatalog.FocasIncreasing | InternalSystem/action_generate.py:8-30 | the FOCAS catalog is strictly increasing in list order, so no action occurs twice |
| ActionCatalog.OursIncreasing | InternalSystem/action_generate.py:32-57 | the proposed catalog is strictly increasing too, so it has no duplicates |
| ActionCatalog.TiersBlocks | InternalSystem/action_generate.py:35-57 | the entry at id `b * n + j` of the tiered catalog, n being the FOCAS length, is tier `b` followed by FOCAS entry `j` |
| ActionCatalog.Prepend | InternalSystem/action_generate.py:19-24 | each appended entry is the outer loop variables followed by the inner entry, position by position |
| ActionCatalog.PrependMembers | InternalSystem/action_generate.py:19-24 | a prefixed entry is in the block iff it starts with the prefix and its rest is an inner entry |
| ActionCatalog.DecodeEntry | InternalSystem/action_generate.py:59-115 | modes 0 and 1 read five fields and any other mode reads six; decoding fails with an `IndexError` exactly when the entry is too short, and a bitrate is present exactly outside modes 0 and 1 |
| ActionCatalog.EncodeEntry | InternalSystem/action_generate.py:59-115 | the entry an index is read from has five fields without a bitrate and six with one |
| ActionCatalog.DecodeEncode | InternalSystem/action_generate.py:59-115 | encoding an index, then decoding it in the matching mode, gives the index back |
| ActionCatalog.EncodeDecode | InternalSystem/action_generate.py:59-115 | decoding an entry with exactly the fields the mode reads, then encoding it, gives the entry back |
| ActionCatalog.AssignAction | InternalSystem/action_generate.py:59-115 | an id in range decodes the entry at that position; a negative id counts from the end as in Python; any other id is an `IndexError` |
| ActionCatalog.FocasDecode | InternalSystem/action_generate.py:78-93 | every FOCAS id in range decodes to a valid index without a bitrate; an id past the end is an `IndexError` |
| ActionCatalog.FocasDecodeComplete | InternalSystem/action_generate.py:78-93 | every valid index without a bitrate is the decoding of some FOCAS id |
| ActionCatalog.EncodedFocasEntry | InternalSystem/action_generate.py:8-30 | the entry of any valid index without a bitrate is a FOCAS entry, so it occurs in the catalog |
| ActionCatalog.OursDecode | InternalSystem/action_generate.py:95-113 | every proposed id in range decodes in mode 2 to a valid index with a bitrate tier |
| ActionCatalog.OursDecodeComplete | InternalSystem/action_generate.py:95-113 | every valid index with a tier is the decoding of some proposed id |
| ActionCatalog.TiersDecode | InternalSystem/action_generate.py:95-113 | an index with tier b whose remaining fields are inner entry j is decoded in mode 2 from id b * n + j of the tiered catalog |
| ActionCatalog.FocasCatalogInOursMode | InternalSystem/action_generate.py:95-113 | a FOCAS entry has no sixth field, so decoding it in mode 2 is always an `IndexError` |
| ActionCatalog.EntryValid | InternalSystem/action_generate.py:78-93 | a well-formed FOCAS entry decodes to a valid index |
| ActionCatalog.OursEntryValid | InternalSystem/action_generate.py:95-113 | a well-formed proposed entry decodes to a valid index |
| Qoe.ClampPixel | InternalSystem/qoe_cal.py:341-342 | the clamped coordinate lies in 0..top; an in-range coordinate is unchanged; too low goes to 0 and too high to top |
| Qoe.GazePixel | InternalSystem/qoe_cal.py:335-342 | the rescaled gaze pixel always lies inside a non-empty frame |
| Qoe.GazeInsideFrame | InternalSystem/qoe_cal.py:337-338 | a gaze inside the 1080 x 1920 reference frame maps to the floor of its rescaled coordinates, with no clamping |
| Qoe.Area | InternalSystem/qoe_cal.py:346-371 | `size_via_resolution`'s nine-case area of the square of half-side `r` around the clamped gaze, 0 for a zero size; its properties are in `Qoe.AreaFactors` and `Qoe.AreaBounds` |
| Qoe.AreaFactors | InternalSystem/qoe_cal.py:346-367 | the nine clipping cases of `size_via_resolution` are the product of the two axis extents |
| Qoe.ExtentBounds | InternalSystem/qoe_cal.py:346-367 | an axis extent of a point inside the frame lies in 0..2r |
| Qoe.AreaBounds | InternalSystem/qoe_cal.py:346-371 | for a point in the frame the area lies in 0..(2r)^2, and a square that fits entirely has area r^2 |
| Qoe.RegionArea | InternalSystem/qoe_cal.py:334-371 | the region's pixel count lies in 0..(2 size)^2 for a non-empty frame |
| Qoe.TimesNonNegative | InternalSystem/qoe_cal.py:114-119 | with strictly decreasing depths every region's compute time, and the total, is non-negative |
| Qoe.RateIndex | InternalSystem/qoe_cal.py:380-384 | the search stops at the first tier strictly taller than the height, or past the last tier; every tier it passes is no taller |
| Qoe.RateIndexUnique | InternalSystem/qoe_cal.py:380-384 | on a well-formed ladder the search lands on the one tier whose height bracket contains the height |
| Qoe.ResolutionToQuality | InternalSystem/qoe_cal.py:374-397 | the ladder lookup of a height: the first tier above it, then scaling below the first tier, interpolation between tiers and scaling above the last; its cases are `Qoe.LadderBelow`, `Qoe.LadderBetween` and `Qoe.LadderAbove` |
| Qoe.LadderBelow | InternalSystem/qoe_cal.py:387-389 | below the first tier the quality is the first bitrate scaled by height over tier height |
| Qoe.LadderBetween | InternalSystem/qoe_cal.py:390-392 | between two tiers the quality rises linearly from the lower tier's bitrate to twice it |
| Qoe.LadderAbove | InternalSystem/qoe_cal.py:393-395 | from the last tier on the quality is the last bitrate scaled by height over tier height |
| Qoe.QualityAtTier | InternalSystem/qoe_cal.py:374-397 | at a tier's own height a well-formed ladder gives exactly that tier's bitrate |
| Qoe.ServerLadderWellFormed | InternalSystem/qoe_cal.py:17 | the server ladder is well formed: positive, strictly increasing heights with a bitrate for each |
| Qoe.ServerLadderPieces | InternalSystem/qoe_cal.py:17 | the server ladder (250/500/1000/2000 at heights 375/540/750/1080) is five explicit linear pieces |
| Qoe.ServerLadderMonotone | InternalSystem/qoe_cal.py:374-397 | on the server ladder a taller frame never gets a lower quality |
| Qoe.ServerLadderIsMonotone | InternalSystem/qoe_cal.py:374-397 | the server ladder's lookup is monotone in height at every pair of non-negative heights |
| Qoe.RegionHeightMonotone | InternalSystem/qoe_cal.py:128-133 | with a per-layer gain of at least one, a deeper region is at least as tall, and no region has negative height |
| Qoe.RegionQualityMonotone | InternalSystem/qoe_cal.py:128-139 | with the per-region lookup and a gain of at least one, on a ladder monotone in height (the server's) a deeper region never has a lower quality |
| Qoe.RegionQualitiesAsWritten | InternalSystem/qoe_cal.py:128-139 | as written every region gets the quality of the frame's own height; the lookup fails exactly when a region height or that quality fails |
| Qoe.QoeCalQualitiesAsWritten | InternalSystem/qoe_cal.py:137-173 | as written the average quality is the frame height's quality and the spatial jitter is 0 |
| Qoe.QualitiesAsWrittenIgnoreDepths | InternalSystem/qoe_cal.py:137-173 | as written two steps that differ only in their depths get the same paragraph and reward |
| Qoe.ResolutionLookupWitness | InternalSystem/qoe_cal.py:128-139 | on a 375-pixel frame with gain 2 and depths 3, 2, 1 the per-region lookup ranks the fovea above the periphery, while as written every region gets 250 |
| Qoe.ServerLadderBetweenTiers | InternalSystem/qoe_cal.py:374-397 | a height between two server tiers gets a quality between their bitrates |
| Qoe.IntPow | InternalSystem/qoe_cal.py:129-134 | `resblock_quality ** depth` fails (`ZeroDivisionError`) exactly when a negative depth meets a zero base |
| Qoe.CalculateRebuffering | InternalSystem/qoe_cal.py:315-330 | a zero transmission rate is an error; otherwise the stall is max(0, download time - buffer) and the new buffer is min(max(buffer - download time, 0) + segment, max buffer) |
| Qoe.StallIffShortBuffer | InternalSystem/qoe_cal.py:320-325 | a stall happens exactly when the buffer holds less than the download time |
| Qoe.AreaWeights | InternalSystem/qoe_cal.py:145-149 | a frame without pixels is an error; otherwise the three region weights are the ratios as written and sum to 1 |
| Qoe.BlendWeightNegative | InternalSystem/qoe_cal.py:145-149 | equal fovea and blend squares give a negative blend weight |
| Qoe.AverageOfUniform | InternalSystem/qoe_cal.py:149 | weights summing to 1 make the average of a uniform quality that quality |
| Qoe.TimeJitter | InternalSystem/qoe_cal.py:167-170 | the temporal jitter is 0 at an episode's first step, otherwise the absolute change from the previous average quality; it is never negative |
| Qoe.SpatialJitter | InternalSystem/qoe_cal.py:173 | the area-weighted squared distance of each region's utility from the utility of the average; `Qoe.SpatialJitterSign` gives its sign |
| Qoe.SpatialJitterSign | InternalSystem/qoe_cal.py:173 | non-negative weights give a non-negative spatial jitter, and equal utilities give zero |
| Qoe.Reward | InternalSystem/qoe_cal.py:25-28 | the reward 10 · weighted quality − 2 · temporal jitter − 2 · spatial jitter − 43 · rebuffering; `Qoe.RewardMonotone` states its monotonicity |
| Qoe.RewardMonotone | InternalSystem/qoe_cal.py:25-28 | the reward rises with weighted quality and falls with each jitter and with rebuffering; without penalties it is 10 times the weighted quality |
| Qoe.StepRebuffering | InternalSystem/qoe_cal.py:159-164 | the penalty is never negative, and a link at least as fast as the bitrate leaves the buffer untouched with no penalty |
| Qoe.QoeCal | InternalSystem/qoe_cal.py:88-173 | the compute time is the three regions' total; the step is invalid iff compute time plus other time exceeds the latency budget; the rebuffer and temporal jitter are non-negative; the reward is the weighted sum of the paragraph |
| Qoe.QoeCalErrors | InternalSystem/qoe_cal.py:88-173 | the evaluation fails exactly when a quality lookup fails, the frame has no pixels, the rebuffering division fails, or the previous average is missing after the first step |
| Qoe.QoeCalUniformQuality | InternalSystem/qoe_cal.py:145-173 | equal region qualities make the average that quality and the spatial jitter zero, whatever the sizes |
| Qoe.QoeCalSpatialJitterNonNegative | InternalSystem/qoe_cal.py:145-173 | when the blend square holds at least twice the fovea's pixels and fits in the frame, the spatial jitter is non-negative |
| Qoe.QoeCalTimeNonNegative | InternalSystem/qoe_cal.py:114-122 | under the catalog's depth order the compute time is non-negative, so a budget below the network's other time always flags the step |
| Qoe.QoeCalLatencyMonotone | InternalSystem/qoe_cal.py:121-122 | a looser latency budget changes only the verdict, and can only clear it |
| Qoe.Reset | InternalSystem/qoe_cal.py:409-415 | `reset` clears the verdict, the stall and the compute time, and saves the current rate as the previous one |
| Qoe.QoeCalAsWritten | InternalSystem/qoe_cal.py:305-309 | as written, the call always returns compute time 0 and a valid verdict |
| Qoe.ResetHidesLatencyVerdict | InternalSystem/qoe_cal.py:305-309 | for a concrete over-budget step the intended evaluation flags the step, while the function as written reports it valid |
| Qoe.WitnessRegions | InternalSystem/qoe_cal.py:105-139 | in the over-budget witness both squares are empty, the periphery alone costs one second, and the weights and qualities exist |
| OtherCal.Window | InternalSystem/other_cal.py:10-16 | the window read by `range(len - n, len)` has n elements, and none for n <= 0 |
| OtherCal.TrailingMean | InternalSystem/other_cal.py:10-16 | `ave_cal` fails exactly for n = 0 (division by zero) or n > 2 len (`IndexError`); a negative n gives 0 |
| OtherCal.GatherWindow | InternalSystem/other_cal.py:12-14 | reading positions len - n .. len - 1 one by one gives exactly the window |
| OtherCal.AveCal | InternalSystem/other_cal.py:10-16 | the loop computes the trailing mean |
| OtherCal.TrailingMeanIgnoresPrefix | InternalSystem/other_cal.py:10-16 | elements before the trailing window have no effect |
| OtherCal.TrailingMeanOfConstant | InternalSystem/other_cal.py:10-16 | a window holding one value throughout averages to that value |
| OtherCal.TrailingMeanWrapsAround | InternalSystem/other_cal.py:10-16 | a window longer than the history counts the front elements twice |
| OtherCal.DebugTime | InternalSystem/other_cal.py:1-7 | the hours, minutes under 60 and seconds under 60 add back up to the elapsed time |
| OtherCal.ClockSplit | InternalSystem/other_cal.py:1-7 | splitting by 3600 and then by 60 leaves minutes under 60 and adds back up to the elapsed time |
| Episode.RegionSize | DQN/environment.py:248-249 | a size index outside the six-entry list is an `IndexError`, as in Python indexing |
| Episode.SizeValues | DQN/environment.py:130-131 | the six sizes are 0, 1/12, ..., 5/12 of the frame height, truncated |
| Episode.RegionSizeMonotone | DQN/environment.py:248-249 | sizes grow with their index and stay within five twelfths of the height |
| Episode.RegionSizeStep | DQN/environment.py:130-131 | each size is at least the one before it |
| Episode.LargestSize | DQN/environment.py:130-131 | the largest size is at most five twelfths of the height |
| Episode.RegionDepths | DQN/environment.py:250-252 | the depth lookup succeeds exactly when each index is in range of its list, counting negatives from the end |
| Episode.Select | DQN/environment.py:244-253 | a successful selection uses the tier at the given position and the looked-up depths; a missing tier is an `IndexError` |
| Episode.SelectValid | DQN/environment.py:244-253 | a valid action selects sizes with fovea <= blend <= 5/12 of the height, and depths with fovea > blend > periphery >= 1 |
| Episode.ServerTiersServe | DQN/environment.py:111-118 | the server ladder serves every decoded action in either mode with a non-empty frame |
| Episode.Flush | DQN/environment.py:180-186 | after steps were taken the counts become two appended percentages and restart at zero; before any episode nothing changes |
| Episode.FlushBounded | DQN/environment.py:180-186 | flushing bounded counts records percentages in [0, 100] |
| Episode.PercentInRange | DQN/environment.py:182-185 | a count between 0 and the number of steps is a percentage in [0, 100] |
| Episode.AdvanceConsistent | DQN/environment.py:293-308 | a step adds exactly its own violation and stall to the counts, records the invalid action, appends the reward and adds the compute time, changing nothing else |
| Episode.CloseEpisode | DQN/environment.py:343-346 | before the last step closing changes nothing; at the last step it appends the mean of the episode's rewards, its mean processing time and one transmission average, and touches nothing else |
| Episode.RecordStep | DQN/environment.py:293-346 | a recorded step keeps the environment consistent, and `done` holds exactly when the mean reward reaches the goal |
| Episode.EnvStepWith | DQN/environment.py:216-346 | one step in mode 1 or 2: the step's transmission and the selected tier and regions are appended, then the shared bookkeeping with the stall read by the given signal; `Episode.EnvStepDecodedCounts` states its counts |
| Episode.EnvStep | DQN/environment.py:216-346 | the step with the stall read from the rebuffering penalty, as the counter is meant; `Episode.EnvStepCountsStalls` states its effects |
| Episode.EnvStepAsWritten | DQN/environment.py:295-296 | the step with the stall read from paragraph entry 3, as written; `Episode.StallCounterAsWrittenMiscounts` shows the difference |
| Episode.EnvStepCountsStalls | DQN/environment.py:286-346 | a step keeps the environment consistent, counts a stall exactly when the evaluation charged rebuffering, and counts a violation exactly when it was invalid |
| Episode.StallCounterAsWrittenMiscounts | DQN/environment.py:295-296 | the counter as written counts a step with spatial jitter and no rebuffering as a stall |
| Episode.CatalogDecodes | DQN/environment.py:62-84 | every id of the mode's action space decodes to a valid index, with a bitrate tier exactly in mode 2 |
| Episode.OursDecodes | DQN/env_ours.py:162-170 | every id of the proposed action space decodes to a valid index with a bitrate tier |
| Episode.EnvStepDecodedCounts | DQN/environment.py:244-296 | a decoded step succeeds iff `qoe_cal` does; then it counts a violation iff compute time plus other time exceeds the budget, and a stall iff rebuffering was charged |
| Episode.EnvStepEvaluatedCounts | DQN/environment.py:217-346 | from the action id through `assign_action` and `qoe_cal` to the counters: the same iff and the same two counts |
| Episode.EnvReset | DQN/environment.py:179-214 | `reset` in modes 1 and 2 with the processing-time sum cleared: the error counts are flushed, the bitrate history emptied and the step count zeroed; `Episode.EnvResetConsistent` states its effects |
| Episode.EnvResetAsWritten | DQN/environment.py:179-214 | the reset as written keeps the processing-time sum of earlier episodes |
| Episode.EnvResetConsistent | DQN/environment.py:179-214 | the corrected reset keeps the environment consistent, with no steps, no processing time, flushed counts and an empty bitrate history |
| Episode.EnvResetAsWrittenConsistent | DQN/environment.py:179-214 | the reset as written also keeps the environment consistent |
| Episode.OneStepEpisode | DQN/environment.py:293-346 | a one-step episode records the carried-in processing-time sum plus this step's time |
| Episode.LatencyCarriesOver | DQN/environment.py:164 | two one-step episodes with times a and b record a and then a + b as written, a and then b with the corrected reset |
| Episode.OursReset | DQN/env_ours.py:118-149 | the reset fails exactly when the ladder has no lowest tier |
| Episode.OursResetConsistent | DQN/env_ours.py:118-149 | the reset keeps the environment consistent, clears the processing time and restarts the bitrate history at the lowest tier |
| Episode.OursStep | DQN/env_ours.py:152-237 | one step of `env_ours.py`: the transmission, the chosen tier's bitrate and the selection are appended, and paragraph entry 3 drives the stall counter; `Episode.OursStepAppends` states its effects |
| Episode.OursStepAppends | DQN/env_ours.py:152-237 | a step appends one entry to each history, including the bitrate of the action's own tier, and counts a stall iff paragraph entry 3 is positive |
| Episode.AveragePercent | DQN/environment.py:360-361 | the training average fails (division by zero) exactly when no episode finished |
| Episode.AveragePercentInRange | DQN/environment.py:360-361 | the average of percentages is a percentage |
| Client.BufferAdd | System/Client_side/client.py:53-55 | a segment is appended only while the buffer has room, otherwise nothing changes |
| Client.SegPlay | System/Client_side/client.py:57-61 | playing removes the newest segment; with nothing buffered the player stalls |
| Client.ReachableValid | System/Client_side/client.py:19-70 | every state reachable from construction keeps the buffer within its capacity and a two-valued stall flag |
| Client.RunPreservesValid | System/Client_side/client.py:53-61 | any run of adds and plays from a state within capacity stays within capacity with a two-valued stall flag |
| Client.StallIsPermanent | System/Client_side/client.py:57-61 | once stalled, no call clears the flag |
| Client.PlayUndoesAdd | System/Client_side/client.py:53-61 | playing right after adding returns to the previous state: the buffer is last-in first-out |
| Client.StallIffEmptyPlay | System/Client_side/client.py:45-61 | the player is stalled after a run exactly when some play found the buffer empty |
| Geometry.MinVec | Compress/Octree/3d-octree-compression/src/Model.cc:17 | the componentwise minimum is below both vectors and takes each coordinate from one of them |
| Geometry.MaxVec | Compress/Octree/3d-octree-compression/src/Model.cc:18 | the componentwise maximum is above both and takes each coordinate from one of them |
| Geometry.Lowest | Mine/density/utility.py:18 | the running minimum is below every point |
| Geometry.Highest | Mine/density/utility.py:19 | the running maximum is above every point |
| Geometry.LowestIsGreatestLowerBound | Mine/density/utility.py:14-20 | any vector below every point is below the minimum corner |
| Geometry.HighestIsLeastUpperBound | Mine/density/utility.py:14-20 | any vector above every point is above the maximum corner |
| Geometry.LowestAttained | Mine/density/utility.py:18 | every coordinate of the minimum corner is some point's coordinate |
| Geometry.HighestAttained | Mine/density/utility.py:19 | every coordinate of the maximum corner is some point's coordinate |
| Geometry.Aabb | Mine/density/utility.py:14-20 | an empty cloud is a `ValueError`; otherwise the box is the per-axis minimum and maximum and contains every point |
| Voxel.AxisIndexBounds | Mine/density/utility.py:23-30 | a point lies in the half-open interval of its cell index |
| Voxel.AxisIndexUnique | Mine/density/utility.py:23-30 | that interval determines the index |
| Voxel.VoxelIndex | Mine/density/utility.py:23-30 | `voxel_index` of one point: the floor of its offset from the origin divided by the voxel size, per axis; `Voxel.VoxelIndexIffInCell` and `Voxel.AxisIndexReflected` say which cell that is |
| Voxel.VoxelIndexIffInCell | Mine/density/utility.py:23-30 | a point's index equals a cell exactly when the point lies in that cell |
| Voxel.VoxelIndexOfCenter | Mine/density/utility.py:23-35 | the index of a cell's centre is the cell |
| Voxel.AxisIndexOfCenter | Mine/density/utility.py:23-35 | per axis, indexing a cell centre gives the cell back |
| Voxel.PointNearCenter | Mine/density/utility.py:23-35 | every point is within half a cell of its cell's centre on each axis |
| Voxel.AxisNearCenter | Mine/density/utility.py:23-35 | per axis a point is at most half a cell from its cell's centre |
| Voxel.AxisIndexNonNegative | Mine/density/utility.py:23-30 | points at or above the origin get non-negative indices |
| Voxel.AxisIndexReflected | Mine/density/utility.py:28-29 | for a negative size, index i is exactly the interval (o + (i + 1) s, o + i s], the mirror image of the positive case |
| Voxel.AxisOfMean | Mine/density/utility.py:28-29 | for a size of either sign, the mean of coordinates that all have index i has index i |
| Voxel.VoxelIndexInCell | Mine/density/utility.py:23-30 | for a positive size, a point lies in the cell its index names |
| Voxel.IndicesFromMinimumNonNegative | Mine/density/cal_den.py:31-37 | with the origin at the points' minimum corner every index component is non-negative |
| Density.NewCalculator | Mine/density/cal_den.py:24-27 | the constructor accepts exactly the cell sizes that are positive on every axis, otherwise `ValueError` |
| Density.CellsOfPoints | Mine/density/cal_den.py:37 | each point gets its `voxel_index` cell, and for a positive voxel size the point lies in that cell |
| Density.TallyCounts | Mine/density/cal_den.py:41 | the tally lists each occupied cell once in increasing order, each with its number of occurrences; the counts add up to the input length |
| Density.TallyBinCounts | Mine/density/cal_den.py:41 | each bin's count is the number of inputs equal to its cell, at least 1 |
| Density.Table | Mine/density/cal_den.py:44-57 | the result columns are aligned and list the bins' cells and counts in order |
| Density.Compute | Mine/density/cal_den.py:29-57 | the calculation fails exactly when no origin is given and the cloud is empty; the origin is the given one or the minimum corner; the columns are aligned |
| Density.ComputeCells | Mine/density/cal_den.py:37-41 | the listed cells strictly increase, and each count is the number of points in that cell, at least 1 |
| Density.ComputeCovers | Mine/density/cal_den.py:37-48 | every point lies in a listed cell, and the counts add up to the number of points |
| Density.ComputeDensity | Mine/density/cal_den.py:44-48 | each density times the cell volume is the count, and each centre is its cell's centre |
| Density.TableDensity | Mine/density/cal_den.py:44-48 | each table density times the cell volume is the count, and each centre is the centre of its cell |
| Ranking.Argsort | Mine/density/ranking.py:14 | the argsort lists in-range positions, one per value |
| Ranking.ArgsortIsStableSort | Mine/density/ranking.py:14 | the argsort is a permutation of the positions in ascending density, ties in position order |
| Ranking.StableSortUnique | Mine/density/ranking.py:14 | any other stable ascending permutation equals the argsort |
| Ranking.InsertPosition | Mine/density/ranking.py:14 | inserting a position adds exactly that position, keeping all others |
| Ranking.ArgsortUpTo | Mine/density/ranking.py:14 | the argsort of the first n values lists exactly the positions below n |
| Ranking.Selection | Mine/density/ranking.py:14 | the selection lists in-range positions |
| Ranking.SelectionPrefix | Mine/density/ranking.py:14 | `[:k]` is the leading part of the argsort, of length min(k, n) for k >= 0 and max(0, n + k) for negative k |
| Ranking.SelectionLowest | Mine/density/ranking.py:14 | the selected densities are non-decreasing, and every position left out has a density at least as large as every selected one |
| Ranking.Rows | Mine/density/ranking.py:15-18 | one row per selected position, ranked from 1, each read from that voxel's index, density, count and centre |
| Ranking.ExportLowest | Mine/density/ranking.py:4-38 | the export fails exactly when the prefix has no name to replace, and writes its rows to the `<stem>_lowest<k>.csv` beside the prefix |
| Ranking.ExportLowestRows | Mine/density/ranking.py:14-31 | the exported rows are the min(k, n) lowest-density voxels in ascending order, ranked 1, 2, ... |
| Roi.ParseRoi | Mine/density/CLI.py:39-50 | `auto` in any letter case gives the points' bounding box (an empty cloud is a `ValueError`); otherwise exactly six numbers with max > min on every axis, else `ValueError` |
| Roi.ParseRoiOfArgs | Mine/density/CLI.py:39-50 | writing a non-degenerate box as six numbers and parsing them gives the box back; a degenerate box is refused |
| Roi.AutoIgnoresCase | Mine/density/CLI.py:41 | `AUTO`, `Auto` and `auto` are the auto keyword, while two words or `automatic` are not |
| Kde.NewKde | Mine/density/kde.py:26-34 | the constructor refuses a non-positive grid resolution, radius or bandwidth with `ValueError` and keeps the parameters otherwise |
| Kde.Members | Mine/density/kde.py:40-43 | the members of a voxel are points whose index is that voxel, in input order; for a positive size they lie in the voxel |
| Kde.MembersCount | Mine/density/kde.py:44 | a voxel's member count is the number of points indexed to it |
| Kde.ComputeCentroids | Mine/density/kde.py:37-47 | for any voxel size without a zero component: an empty cloud is a `ValueError`; otherwise the origin is the minimum corner and there is one centroid per listed voxel |
| Kde.CentroidsAreMeans | Mine/density/kde.py:42-46 | for a voxel size of any sign: every listed voxel is occupied (the fallback divisor is never used), its centroid times its member count is their sum, and the centroid indexes to the voxel; for a positive size it lies in the voxel's box |
| Kde.MeanIndexed | Mine/density/kde.py:40-46 | the mean of points that all index to one voxel indexes to that voxel, whatever the signs of the size components |
| Kde.CentroidsCells | Mine/density/kde.py:40-41 | the centroid voxels are exactly the points' voxels, each once, in lexicographic order |
| Kde.MeanInCell | Mine/density/kde.py:46 | the mean of points in a voxel lies in that voxel |
| Kde.GenerateGrid | Mine/density/kde.py:50-57 | the grid has U^3 points |
| Kde.GridOrder | Mine/density/kde.py:54-57 | row (i U + j) U + k holds x step i, y step j and z step k, in meshgrid `ij` order |
| Kde.GridCellOfRow | Mine/density/kde.py:55-57 | rows and cells correspond one to one |
| Kde.GridRowOfCell | Mine/density/kde.py:55-57 | every row number below U^3 comes from exactly one in-range cell |
| Kde.GridAxisInside | Mine/density/kde.py:53-54 | every cell middle along an axis lies strictly between the bounds |
| Kde.GridInside | Mine/density/kde.py:50-57 | every grid point lies strictly inside a box that is non-degenerate on every axis |
| Kde.NeighborsFrom | Mine/density/kde.py:72 | the radius search returns, in increasing order, exactly the centroids strictly within the radius |
| Kde.KdeAt | Mine/density/kde.py:71-78 | the estimate is 0 without neighbours, and there are none exactly when every centroid is at least the radius away |
| Kde.KdeAtNonNegative | Mine/density/kde.py:77-78 | a non-negative kernel gives a non-negative estimate |
| Kde.KdeOnGrid | Mine/density/kde.py:60-79 | one estimate and one neighbour count per grid point; zero neighbours means zero estimate, and happens exactly when no centroid is within the radius |
| Kde.KdeCompute | Mine/density/kde.py:82-92 | for any voxel size without a zero component: an empty cloud is a `ValueError`; otherwise the region is widened by half the radius on every side and gridded into U^3 points; a grid point has no neighbours exactly when every voxel centroid is at least the radius away, and then its estimate is 0 |
| Kde.KdeComputeNonNegative | Mine/density/kde.py:77-91 | with a non-negative kernel, such as the Gaussian, every estimate on the grid is non-negative |
| Kde.KdeGridInside | Mine/density/kde.py:84-90 | the padded region is non-degenerate, every grid point lies strictly inside it, and with the auto region every input point lies within the unpadded box |
| Kde.AutoRoiOrdered | Mine/density/kde.py:84-85 | the automatic region is ordered low <= high |
| Normalise.NormaliseScalars | Mine/density/IO.py:36-43 | an empty column becomes one zero per point (with no points, `np.min` raises `ValueError`); the result has one entry per scalar, every one in [0, 1] |
| Normalise.MinOf | Mine/density/IO.py:39 | the minimum is an entry and at most every entry |
| Normalise.MaxOf | Mine/density/IO.py:40 | the maximum is an entry and at least every entry |
| Normalise.NormaliseScalarsEnds | Mine/density/IO.py:39-43 | the extremes map to 0 and 1 and the rescaling is undone by `sn (max - min) + min`; a constant column maps to zeros |
| Normalise.NormaliseScalarsOrder | Mine/density/IO.py:39-43 | normalising keeps the order of the entries, and for a spread column reflects it too |
| Normalise.RescaleEnds | Mine/density/IO.py:40-41 | rescaling by a positive width sends the ends to 0 and 1 and can be undone |
| Normalise.RescaleOrder | Mine/density/IO.py:40-41 | rescaling by a positive width keeps and reflects the order |
| Normalise.RescaledRange | Mine/density/visual/display2.py:132-137 | entries at least the lower bound rescale to non-negative values, at most 1 up to the upper bound and above 1 beyond it |
| Normalise.Grey | Mine/density/IO.py:44 | one grey colour per entry |
| Normalise.ScalarColors | Mine/density/IO.py:36-44 | one colour per scalar (per point for an empty column), every channel in [0, 1] |
| Normalise.Clip | Mine/density/visual/display2.py:118 | the clip lies in [0, 1], is the identity there and saturates outside |
| Normalise.ClipMonotone | Mine/density/visual/display2.py:118 | clipping keeps order and is idempotent |
| Normalise.ColorFromScalarLinear | Mine/density/visual/display2.py:116-119 | one grey colour per value, with the clipped value in all three channels |
| Normalise.ColorsInUnit | Mine/density/visual/display2.py:116-119 | every channel of the linear colour map is in [0, 1] |
| Normalise.BoxNormalise | Mine/density/visual/display2.py:132-137 | an empty density column is a `ValueError`; otherwise there is one normalised value per voxel |
| Normalise.BoxNormaliseRange | Mine/density/visual/display2.py:132-137 | normalised densities are non-negative, at most 1 up to the quantile and above 1 beyond it, and ordered as the densities |
| Normalise.BoxNormaliseAtMaximum | Mine/density/visual/display2.py:132-137 | with the top quantile as the upper bound the box normalisation equals the min-max normalisation of the point colouring |
| Normalise.ProjectionAxes | Mine/density/visual/display2.py:209-219 | `xy`, `xz` and `yz` select coordinate pairs (0, 1), (0, 2) and (1, 2); anything else is a `ValueError` |
| Paths.WithName | Mine/density/ranking.py:21 | `with_name` keeps the parent and sets the name; a path without a name, or a name that is not one component, is a `ValueError` |
| Paths.Join | Mine/density/utility.py:54 | joining appends the components, and an absolute right-hand side replaces the left |
| Paths.Stem | Mine/density/visual/display2.py:196 | the stem is a prefix of the name |
| Paths.Name | Mine/density/utility.py:46-54 | `p.name` is the last component, or empty for a path without components |
| Paths.RFind | Mine/density/visual/display2.py:196 | the position found is the last occurrence of the character, or -1 when there is none |
| Paths.ComponentOfStem | Mine/density/visual/display2.py:196-198 | a valid name's stem followed by separator-free text is again one valid component |
| Paths.StemOfSuffixed | Mine/density/visual/display2.py:196 | the stem of a name with one added suffix is the original stem |
| Paths.DeriveOutputPrefixBelowRoot | Mine/density/utility.py:37-54 | the derived prefix is always below the output root and keeps the input's name |
| Paths.DeriveOutputPrefix | Mine/density/utility.py:37-54 | `derive_output_prefix`: the input's components from the first `PartAnnotation` on, or else its name, joined under the output root; `Paths.DeriveOutputPrefixMirrors` states the result |
| Paths.DeriveOutputPrefixMirrors | Mine/density/utility.py:46-54 | below the root it mirrors the input from its first `PartAnnotation` component when there is one, and is the bare name otherwise |
| Paths.LowestCsvPath | Mine/density/ranking.py:21 | the ranking CSV `<stem>_lowest<k>.csv` beside the prefix, through `with_name`; `Paths.LowestCsvPathNamesK` states it |
| Paths.LowestCsvPathNamesK | Mine/density/ranking.py:21 | the CSV path fails exactly for a nameless prefix; otherwise it sits beside the prefix and its name reads back as the stem, the marker and k |
| Paths.MeshNameTagged | Mine/density/visual/display2.py:197 | the mesh file name is one valid component that says which mode built it |
| Paths.MapNameTagged | Mine/density/visual/display2.py:198 | the map file name is a valid component exactly when the projection has no separator, and it ends with the projection |
| Paths.DeriveAutoPaths | Mine/density/visual/display2.py:191-199 | `derive_auto_paths`: the mesh path `<stem>_alpha.ply` or `<stem>_boxes.ply` and the map path `<stem>_density_<proj>.png`, both through `with_name`; `Paths.DeriveAutoPathsBeside` states them |
| Paths.DeriveAutoPathsBeside | Mine/density/visual/display2.py:191-199 | both outputs sit beside the input, and a projection containing a separator makes the map path a `ValueError` |
| Octree.ExtractBoundingBoxes | Compress/Octree/3d-octree-compression/src/OctreeVisualizer.cc:5-13 | a missing tree has no boxes; otherwise the traversal starts at depth 0 with the root's box first, stays within the level limit, and a limit of 0 draws the root alone |
| Octree.Extract | Compress/Octree/3d-octree-compression/src/OctreeVisualizer.cc:15-53 | every box is at or below the starting depth and within the level limit |
| Octree.ExtractIsVisitedEmitters | Compress/Octree/3d-octree-compression/src/OctreeVisualizer.cc:15-53 | a box is extracted exactly when a node the traversal reaches within the limit holds data or has a child with data or children |
| Octree.LimitIsFilter | Compress/Octree/3d-octree-compression/src/OctreeVisualizer.cc:20-22 | stopping at maxLevel gives the unlimited traversal's boxes with the deeper ones removed, in the same order |
| Octree.ExtractAll | Compress/Octree/3d-octree-compression/src/OctreeVisualizer.cc:47-52 | the children's boxes are below the parent's depth and within the level limit |
| Octree.ExtractAllIsVisitedEmitters | Compress/Octree/3d-octree-compression/src/OctreeVisualizer.cc:47-52 | a box comes from the children exactly when a node reached through them within the limit emits it |
| Octree.LimitAllIsFilter | Compress/Octree/3d-octree-compression/src/OctreeVisualizer.cc:20-22 | for the children too, the limit filters the unlimited traversal by depth |
| Octree.UpTo | Compress/Octree/3d-octree-compression/src/OctreeVisualizer.cc:20-22 | the filter keeps only boxes at depth maxLevel or above |
| Octree.Wireframe | Compress/Octree/3d-octree-compression/src/OctreeVisualizer.cc:55-83 | the wireframe has 24 vertices, two per edge |
| Octree.EdgeVertices | Compress/Octree/3d-octree-compression/src/OctreeVisualizer.cc:76-80 | both ends of every edge are pushed in turn, start corner first |
| Octree.WireframeCorners | Compress/Octree/3d-octree-compression/src/OctreeVisualizer.cc:55-83 | every wireframe vertex is a corner of the box |
| Octree.WireframeCoversCorners | Compress/Octree/3d-octree-compression/src/OctreeVisualizer.cc:55-83 | all eight corners are drawn |
| Octree.WireframeEdgesAxisAligned | Compress/Octree/3d-octree-compression/src/OctreeVisualizer.cc:55-83 | on a box of positive size each pair differs on exactly one axis: the pairs are edges, not diagonals |
| Octree.CornersNumbered | Compress/Octree/3d-octree-compression/src/OctreeVisualizer.cc:59-70 | corners 0-3 go round the low-z face and 4-7 round the high-z face |
| Octree.CornersApart | Compress/Octree/3d-octree-compression/src/OctreeVisualizer.cc:59-67 | on a box of positive size two corners differ on exactly the axes whose low/high choice differs |
| Octree.Solid | Compress/Octree/3d-octree-compression/src/OctreeVisualizer.cc:85-141 | the solid box has 36 vertices, six per face |
| Octree.Faces | Compress/Octree/3d-octree-compression/src/OctreeVisualizer.cc:85-141 | the faces are pushed one after the other, six vertices each |
| Octree.FaceOnPlane | Compress/Octree/3d-octree-compression/src/OctreeVisualizer.cc:92-138 | every vertex of a face is a corner on that face's plane, and the two triangles share a diagonal |
| Octree.SolidFaces | Compress/Octree/3d-octree-compression/src/OctreeVisualizer.cc:85-141 | every solid vertex is a corner; each run of six lies on its face's plane and is two triangles sharing a diagonal |
| Mesh.CalculateBounds | Compress/Octree/3d-octree-compression/src/Model.cc:6-20 | no vertices give zero bounds; otherwise every vertex lies between the bounds, and vertices and colours are unchanged |
| Mesh.BoundsAreExtremes | Compress/Octree/3d-octree-compression/src/Model.cc:13-19 | the bounds are the per-axis minimum and maximum, each attained by some vertex |
| Mesh.FoldMin | Compress/Octree/3d-octree-compression/src/Model.cc:16-19 | the running `glm::min` is below the seed and every vertex |
| Mesh.FoldMax | Compress/Octree/3d-octree-compression/src/Model.cc:16-19 | the running `glm::max` is above the seed and every vertex |
| Mesh.FoldMinIsLowest | Compress/Octree/3d-octree-compression/src/Model.cc:13-19 | from a seed above every vertex (the largest float) the fold gives the true minimum |
| Mesh.FoldMaxIsHighest | Compress/Octree/3d-octree-compression/src/Model.cc:13-19 | from a seed below every vertex (the lowest float) the fold gives the true maximum |
| Mesh.MaxExtent | Compress/Octree/3d-octree-compression/src/OctreeCompressor.cc:23 | the largest extent is at least each extent and equals one of them |
| Mesh.Compress | Compress/Octree/3d-octree-compression/src/OctreeCompressor.cc:14-38 | an invalid model gives no result; otherwise the cube is centred on the bounds' midpoint with half size 1.1 times half the largest extent, and every vertex is inserted with its colour, in order |
| Mesh.Restore | Compress/Octree/3d-octree-compression/src/OctreeCompressor.cc:31-34 | the model read back lists the inserted positions and colours in insertion order |
| Mesh.CompressRestores | Compress/Octree/3d-octree-compression/src/OctreeCompressor.cc:14-38 | compressing a valid model and restoring gives the model back |
| Mesh.CompressCovers | Compress/Octree/3d-octree-compression/src/OctreeCompressor.cc:21-24 | the padded cube contains the bounds box, and so every vertex within the bounds |
| Mesh.BoundedModelFitsCube | Compress/Octree/3d-octree-compression/src/OctreeCompressor.cc:14-38 | a valid model with computed bounds compresses into a cube holding every vertex |
| Mesh.VertexLines | Compress/Octree/3d-octree-compression/src/OBJLoader.cc:18-32 | there is at most one vertex per line, and none exactly when no line is a `v` line |
| Mesh.Load | Compress/Octree/3d-octree-compression/src/OBJLoader.cc:9-41 | loading succeeds exactly when some line is a `v` line; then one grey vertex per `v` line, in order, with every vertex within the computed bounds |
| Mesh.VertexLinesAppend | Compress/Octree/3d-octree-compression/src/OBJLoader.cc:18-32 | lines are read independently: two stretches give their vertices one after the other |
| Mesh.OtherLinesIgnored | Compress/Octree/3d-octree-compression/src/OBJLoader.cc:23-32 | lines of other kinds add nothing wherever they appear |
| Mesh.LoadOfWritten | Compress/Octree/3d-octree-compression/src/OBJLoader.cc:9-41 | loading the `v` lines written for a non-empty vertex list gives the same vertices back, with one colour each |
| Mesh.VertexLinesOfWritten | Compress/Octree/3d-octree-compression/src/OBJLoader.cc:18-32 | reading back written `v` lines gives the vertices written, in order |
| Mesh.LoadedModelCompresses | Compress/Octree/3d-octree-compression/src/OctreeCompressor.cc:14-38 | a loaded model is valid and compresses into a cube holding all its vertices |
| OffParser.HeaderLine | Mine/demo/off2pcv.py:24 | the classified header line contains no byte-order mark |
| OffParser.ParseCounts | Mine/demo/off2pcv.py:28 | the counts parse exactly when there are three integers, giving the first two; anything else is a `ValueError` |
| OffParser.ReadHeader | Mine/demo/off2pcv.py:24-36 | an empty file is an `IndexError`; exactly `OFF` takes the counts from the second line, `OFF` and more takes them from the same line, anything else is not OFF; errors are `IndexError` or `ValueError` |
| OffParser.ParseRows | Mine/demo/off2pcv.py:39-42 | the rows parse exactly when every line's words are all numbers, one row per line |
| OffParser.VertexBlock | Mine/demo/off2pcv.py:41 | the block is the n lines from the vertex start when they exist |
| OffParser.Rows | Mine/demo/off2pcv.py:39-42 | the outcome fails exactly when a block row fails, and otherwise carries the header counts and the parsed rows |
| OffParser.ConvertFileByHeader | Mine/demo/off2pcv.py:24-42 | with a readable OFF header the file's outcome is the rows of the vertex block that starts where the header form says |
| OffParser.ConvertFile | Mine/demo/off2pcv.py:18-56 | a non-`.off` name is ignored and a non-OFF header skipped; the conversion fails exactly when the header or a vertex row fails, and otherwise gives the header's counts and the block's rows |
| OffParser.ConvertOffToPcd | Mine/demo/off2pcv.py:12-61 | the run fails exactly when some file fails, and returns the first file's point-cloud path exactly when that file was converted |
| OffParser.ConvertEach | Mine/demo/off2pcv.py:18-59 | files are converted in turn; the run succeeds iff every file does and otherwise reports an error one of them raised |
| OffParser.PcdPath | Mine/demo/off2pcv.py:51-52 | the output path: the `splitext` root of the base name plus `.pcd`, in the output directory; `OffParser.PcdPathOfOff` states the root |
| OffParser.PcdPathOfOff | Mine/demo/off2pcv.py:51-52 | the output name of `<stem>.off` has the root `<stem>` |
| OffParser.ConvertDataset | Mine/data_expand/Translate/off2pcv.py:18-64 | with the slice corrected, each file is converted as the demo converts it, all in order or the first error |
| OffParser.ConvertDatasetAsWritten | Mine/data_expand/Translate/off2pcv.py:18-64 | the script as written converts each file with the slice from line 2 |
| OffParser.ConvertFileAsWritten | Mine/data_expand/Translate/off2pcv.py:22-50 | the per-file conversion as written reads the block from line 2 whatever the header form |
| OffParser.AsWrittenBlockShifted | Mine/data_expand/Translate/off2pcv.py:50 | for the standard header the slice is right; for the compact one it is the intended block shifted one line down |
| OffParser.ConvertFileAsWrittenByHeader | Mine/data_expand/Translate/off2pcv.py:30-50 | with a readable header the script as written converts the slice from line 2 |
| OffParser.AsWrittenBlockEndsOnFace | Mine/data_expand/Translate/off2pcv.py:50 | on compact written text the slice as written ends on the first face line |
| OffParser.AsWrittenLastRowTooLong | Mine/data_expand/Translate/off2pcv.py:50-56 | a last sliced row of four words makes the as-written conversion differ from the vertices |
| OffParser.ReadHeaderOfOffLines | Mine/demo/off2pcv.py:24-33 | written OFF text reads back in the form it was written in, with the written counts |
| OffParser.ReadHeaderStandard | Mine/demo/off2pcv.py:27-29 | an `OFF` line followed by a line of count words reads as the standard form with those counts |
| OffParser.ReadHeaderCompact | Mine/demo/off2pcv.py:30-33 | `OFF`, a space and count words on one line read as the compact form with those counts |
| OffParser.OffLinesLayout | Mine/demo/off2pcv.py:27-41 | in written OFF text the vertices start on line 1 after a compact header and line 2 after a standard one, with the faces after them |
| OffParser.ParseRowsOfReadable | Mine/demo/off2pcv.py:39-42 | a block whose every line reads as the matching row parses to exactly those rows |
| OffParser.ParseFloatsOfRendered | Mine/demo/off2pcv.py:40 | a row written as words reads back as the row |
| OffParser.ConvertFileOfOffLines | Mine/demo/off2pcv.py:18-42 | round trip: converting written OFF text in either header form gives the written counts and exactly the written vertex rows |
| OffParser.ConvertFileAsWrittenMisreadsCompact | Mine/data_expand/Translate/off2pcv.py:50 | with the slice as written, compact-header text with a triangle as first face does not convert back to its vertices |
| OffParser.CompactHeaderWitness | Mine/data_expand/Translate/off2pcv.py:37-50 | for a two-vertex compact file the intended block is the two vertex lines, while the slice as written takes the second vertex and the face line |
| OffParser.SplitExtRoot | Mine/demo/off2pcv.py:51-52 | the file's root name is a prefix of the name |
| Py.Index | InternalSystem/action_generate.py:59-115 | Python indexing succeeds exactly in -len..len-1, with negative positions counting from the end |
| Py.Slice | Mine/density/ranking.py:14 | a slice resolves both bounds against the length, and an in-range slice is the ordinary subsequence |
| Py.Trunc | DQN/environment.py:248-249 | `int()` of a float drops the fraction towards zero |
| Py.Lower | Mine/density/CLI.py:41 | lowering keeps the length and changes nothing but ASCII capitals |
| Py.LStrip | Mine/demo/off2pcv.py:24 | `lstrip` removes a leading stretch and leaves no whitespace at the front |
| Py.RStrip | Mine/demo/off2pcv.py:24 | `rstrip` removes a trailing stretch and leaves no whitespace at the end |
| Py.RemoveChar | Mine/demo/off2pcv.py:24 | `replace(c, '')` removes every `c` and keeps every other character that occurs |
| Py.RemoveAbsentChar | Mine/demo/off2pcv.py:24 | removing a character that does not occur changes nothing |
| Py.Split | Mine/demo/off2pcv.py:28 | `split()` gives non-empty whitespace-free words |
| Py.SplitJoinWords | Mine/demo/off2pcv.py:28 | splitting words joined by single spaces gives the words back |
| Py.SplitOfStrip | Mine/demo/off2pcv.py:40 | `s.strip().split()` equals `s.split()` |
| Py.SplitLStrip | Mine/demo/off2pcv.py:40 | `s.lstrip().split()` equals `s.split()` |
| Py.SplitRStrip | Mine/demo/off2pcv.py:40 | `s.rstrip().split()` equals `s.split()` |
| Py.ParseIntOfIntToString | Mine/demo/off2pcv.py:28 | `int(str(i)) == i` |
| Py.IntToString | Mine/density/ranking.py:21 | `str(i)` is one word of digits and a sign |
| Py.ParseFloats | Mine/density/CLI.py:45 | `list(map(float, ...))` succeeds exactly when every word converts, one number per word |

## Left out

- Qoe.QoeCal: ABR mode 0 (`qoe_cal.py:48-84`) is not modelled, because it reads `ave_quality` before assignment (line 305) and calls a `Client.buffering` that does not exist. QoeCal therefore requires mode 1 or 2.
- Qoe.QoeCal: returns the values computed before the closing `reset()`, which is the intended behaviour. The code as written is `Qoe.QoeCalAsWritten` (see Findings).
- Qoe.QoeCal: mode 2's calls to `size_via_resolution` with six arguments (`qoe_cal.py:203-208`) and to `resolution_to_quality` with three (227-229) raise `TypeError` as written. The model evaluates mode 2 like mode 1, on the step's own frame.
- Qoe.StepRebuffering: the call sites pass the wrong arguments. Mode 1 at `qoe_cal.py:164` passes the current rate as the buffer and the buffer as the maximum; mode 2 at 250-251 passes the segment length as the buffer. `buffer` and `now_transmissionrate` are undefined names, and `self.now_rate` is never set in modes 1 and 2. The model passes the step's rate, buffer and maximum buffer to `calculate_rebuffering_penalty` as its signature (line 315) intends.
- Qoe.ResolutionToQuality, Qoe.RegionQuality: departs from the code. The model looks each region up at its own height, the frame height times `resblock_quality ** depth` (`qoe_cal.py:128-139`). The code's `resolution_to_quality` ignores its argument and reads `self.now_resolution[0]` (lines 381-394), so as written every region gets the quality of the frame height, the average quality equals it, the spatial jitter is 0, and region size and depth never change any quality. That behaviour is `Qoe.QoeCalQualitiesAsWritten` (see Findings).
- Qoe.QoeCal: `self.resolution_history` (line 100) is never assigned, and `self.colorama` (line 13) is not an attribute. The model takes the current frame from the step and leaves out the coloured log line (123).
- Qoe.QoeCal: the utility `log(1 + q)` and `calculate_video_quality` (lines 155-157, not defined in any of the modules modelled here) are the parameters `Oracles.utility` and `Oracles.videoQuality`, so no property depends on the logarithm.
- `area_percentage` (`qoe_cal.py:400-402`) is never called and is not modelled.
- Episode.Catalog: mode 2 of `environment.py` imports and calls `a_focas_combination` (lines 11, 76), which `action_generate.py` does not define. The model uses `ours_combination`, whose 4800 entries match the `Discrete(4800)` action space at line 78.
- Episode.EnvStepDecoded: selects tiers from the constant `ServerTiers`, which replaces the set-of-lists ladder of `environment.py:111-118` (a set display of lists, which raises `TypeError` when `__init__` runs) with the four tiers in ascending order, indexed by position.
- Episode.EnvStepWith, Episode.EnvStepDecoded: `environment.py` reads and appends to attributes it never sets (`bitrate_resolution_history`, `transmission_history`, `transmission_ave_history`) and indexes `bitrate_history[-1]` right after emptying the list. The model follows the evident intent: the history of the current episode, and the tier the action selects.
- Episode.EnvStepWith, Episode.EnvReset: `__init__` also reads attributes that are never set before the read. `self.history` (`environment.py:150`) is first assigned in `step` (line 228), so `__init__` raises `AttributeError`. `self.seg_length` (line 176) is read where line 120 sets `segment_length`. `self.bitrate_list` (lines 189, 195, 201) is never defined, so `reset` raises in every mode. The model has no `history` attribute: the step's selection is a value built from the decoded action. The segment length is the parameter `segLength` of `Qoe.CalculateRebuffering`, with 2 as line 120 sets it. The initial bitrate of `reset` is left out (see below).
- Episode.OursStep: `env_ours.py` imports names that do not exist (line 7), calls `self.client.assign_action`, which `client.py` does not define (line 162), and calls `qoe_cal` with 18 arguments (173-176). The decoded index and the QoE paragraph are therefore parameters of `OursStep`, not computed from the action id.
- Episode.OursReset: the attributes read at `env_ours.py:138-142` are never defined, and that initialisation is not modelled.
- Episode: logging, `debug_log` writes, matplotlib plots, the initial bitrate `reset` appends (`bitrate_list[0]` or `bitrate_list[focas_bitrate_index]`, `environment.py:189-201`), which line 207 discards at once, the random distance (lines 191, 197, 203) and the gaze data of `reset` and the agent's training loop are not modelled. The transmission trace is a parameter.
- Qoe.QoeCal, Episode.EnvStepWith, Kde.KdeCompute, Normalise.NormaliseScalars: Python floats are modelled as exact reals, so rounding, overflow to infinity and NaN are not modelled.
- Mesh.CalculateBounds, Mesh.Compress: `float`/`glm::vec3` arithmetic is modelled as exact reals. The seeds `std::numeric_limits<float>::max()` and `lowest()` (`Model.cc:13-14`) are the only constants affected; `Mesh.FoldMinIsLowest` and `Mesh.FoldMaxIsHighest` show the fold gives the true extremes for coordinates within the float range.
- Paths.DeriveOutputPrefixMirrors, Paths.WithName, Paths.Join: POSIX paths only (`/` separator). The source's own examples use Windows paths (`utility.py:43-44`, with backslash separators), whose separators are not modelled.
- Py.Lower, Py.Split, Py.Strip: ASCII letters and ASCII/Latin-1 whitespace only; Python's full Unicode tables are not modelled.
- Py.ParseInt: rejects `_` digit separators and non-ASCII digits, which Python's `int()` accepts.
- Py.ParseFloats: Python's `float()` is a parameter `parseFloat`, so decimal float syntax is not modelled.
- OffParser.ParseRows: rows whose width is not 3 parse here. `np.array` would build a ragged object array or fail, and Open3D would reject it; neither is modelled.
- OffParser: the Translate script reads its file list from module-level globals (`Translate/off2pcv.py:15, 22`) and ignores its `input_path` parameter. The model takes the list as an argument. `get_files` and `get_single_file_name` (`Mine/data_expand/file_road.py:7-23`) list the directory and take the base name, which is I/O and is not modelled; the output name follows `os.path.splitext`.
- OffParser: writing the point cloud and the Open3D window are I/O and are not modelled. The conversion result stands for what is written.
- Kde.ComputeCentroids, Kde.KdeCompute: a voxel size with a zero component is excluded (`NonZero`). NumPy divides by zero to infinity or NaN and casts those to platform-dependent `int64` values, which the model does not represent. Negative components are accepted, as in the source, and group the points by reflected cells (`Voxel.AxisIndexReflected`).
- Kde.NewKde: takes `gridU` as an integer. `int(grid_U)` truncation of a float argument happens in argparse, which is not modelled.
- Kde.KdeAt: the Gaussian kernel `exp(-d^2 / 2 sigma^2) / (2 pi)^1.5` is a parameter function. Only its non-negativity is used.
- Kde.NeighborsFrom: the KD-tree of Open3D is replaced by a linear search with the same result set, ordered by position instead of the tree's order.
- Normalise.BoxNormalise: `np.quantile(density, quantile_max)` is a parameter `dmax`. Box meshes, normals and the Open3D cleanup (`display2.py:140-162`) are not modelled.
- `render_density_map` (`display2.py:202-258`): only the projection choice is modelled (`Normalise.ProjectionAxes`). Reading files, the weighted histogram and plotting are I/O.
- `parse_args` (`CLI.py:12-36`, `display2.py:168-189`) is argparse configuration and is not modelled. `ensure_dir` and `load_points` (`utility.py:9-11`, `IO.py:20-28`) are file-system I/O; the empty-cloud error of `load_points` reappears as the `ValueError` of every consumer of an empty cloud.
- Normalise.ColorFromScalarLinear, Normalise.BoxNormalise, Normalise.ProjectionAxes, Paths.DeriveAutoPathsBeside: the `from __future__` import at `display2.py:20` comes after other statements, which is a `SyntaxError` in Python. The model treats the module as if it were importable.
- Octree.Extract: `Octree<VertexData>` (insertion, subdivision, `maxDepth`) is not part of this model. Trees are an inductive datatype, and `Mesh.Compress` records the inserts in order instead of building the tree.
- Mesh.Load: `iss >> x >> y >> z` is a parameter `readVertex`. Failed reads, which leave `glm::vec3` unchanged or zero it, are not modelled.
- Mesh.Load: a file that cannot be opened (`OBJLoader.cc:10-12`) is I/O and is not modelled. A file without vertices is the `None` result (the invalid-model exception).

## Findings

| source | as written | input that shows it | evidently intended | confidence | as-written member | corrected member |
|---|---|---|---|---|---|---|
| InternalSystem/qoe_cal.py:305-309 | `reset()` runs before the return, so the returned compute time is always 0 and the latency verdict always False | a 1 x 1 frame at periphery depth 1, one second per pixel and layer, latency budget 0: the step is over budget but is reported valid | return the compute time and verdict of this call | high (not executed) | Qoe.QoeCalAsWritten, Qoe.ResetHidesLatencyVerdict | Qoe.QoeCal |
| DQN/environment.py:295-296 | the stall counter tests `qoe_paragraph[3]`, which is the spatial jitter; the rebuffer is entry 4 of the five-entry list at `qoe_cal.py:305`, while the log line at 317 labels entry 3 as the rebuffering penalty | a step with spatial jitter > 0 and no rebuffering is counted as a stall | test the rebuffer, `qoe_paragraph[4]` | high (not executed) | Episode.StallCounterAsWrittenMiscounts | Episode.EnvStepCountsStalls |
| DQN/environment.py:179-214 | `reset` never clears `latency_ave` (set once at line 164), so each episode's recorded latency includes all earlier episodes | two one-step episodes taking a and b seconds record a and then a + b | clear it in `reset`, as `env_ours.py:123` does | high (not executed) | Episode.EnvResetAsWritten, Episode.LatencyCarriesOver | Episode.EnvResetConsistent |
| InternalSystem/qoe_cal.py:374-397 | `resolution_to_quality` ignores its argument and looks up `self.now_resolution[0]`, the frame height, so the per-region heights of lines 128-133 are never used | a 375-pixel-tall frame, `resblock_quality` 2, depths 3, 2, 1: every region gets quality 250, where the region heights 3000 and 750 give a fovea above 1000 and a periphery of 1000 | look up each region's own height, the argument | high (not executed) | Qoe.RegionQualitiesAsWritten, Qoe.QoeCalQualitiesAsWritten, Qoe.QualitiesAsWrittenIgnoreDepths, Qoe.ResolutionLookupWitness | Qoe.QoeCal, Qoe.RegionQualityMonotone |
| Mine/data_expand/Translate/off2pcv.py:50 | the vertex block is `lines[2:2 + n_vertices]` whatever header form was read | `OFF 2 1 0`, `1 2 3`, `4 5 6`, `3 0 1 0`: the first vertex is dropped and the face line is read as a vertex | `lines[vertex_start_index:vertex_start_index + n_vertices]`, as `Mine/demo/off2pcv.py:41` does | high (not executed) | OffParser.ConvertFileAsWritten, OffParser.ConvertFileAsWrittenMisreadsCompact | OffParser.ConvertFile, OffParser.ConvertFileOfOffLines |
