# InvokeAI DemoFusion modules in Dafny

This project models the noise-prediction modules of the InvokeAI DemoFusion
node pack and the bookkeeping its Denoise Latents node does around them. The
modules can be nested into a tree. Each module is a function that one
denoising step calls to predict noise for a latent. Modules either call the
UNet themselves (the standard module) or wrap other modules:

- **MultiDiffusion** cuts the latent into overlapping views, runs its
  sub-module on every view and averages the results.
- **Dilated sampling** runs its sub-module on interlaced sub-latents and
  scatters the predictions back.
- **Linear and cosine-decay transfers** blend two sub-modules.
- **Colour guidance** recentres channel means.
- **Skip residual** replaces denoising by synthetic noising of a stored
  latent.

Tensors become two-dimensional grids of reals (`seq<seq<real>>`). A grid is
one channel of one batch element, or a list of channels where colour guidance
needs them. Views are integer rectangles. Random draws, tensor loading and
the UNet are parameters.

| file | module | what it holds |
|---|---|---|
| `wrappers.dfy` | `Wrappers` | `Option` and `Result` |
| `arith.dfy` | `Arith` | two integer facts the other modules share |
| `grids.dfy` | `Grids` | grids, `torch.lerp`, sums, means and their behaviour under affine maps |
| `views.dfy` | `Views` | `get_views`: block counts, placement, jitter, coverage |
| `stitch.dfy` | `Stitch` | MultiDiffusion tile inputs, sum and count buffers, crop and divide, ControlNet and T2I-Adapter crops |
| `dilated.dfy` | `Dilated` | interlacing into phases, strided scatter, blur shape, renormalisation |
| `transfer.dfy` | `Transfer` | `linear_transfer` |
| `color.dfy` | `Color` | `center_tensor`, `color_guidance`, `CHANNEL_VALUES` |
| `skip_residual.dfy` | `SkipResidual` | `skip_residual` and its persistent store |
| `module_tree.dfy` | `ModuleTree` | module dictionaries and `resolve_module`, the node presets, one step through a module tree with the scheduler counter |
| `driver.dfy` | `Driver` | `cfg_scale` checks, input normalisation, noise/latents/seed preparation, T2I-Adapter sizes |
| `regions.dfy` | `Regions` | regional prompt concatenation: token ranges and the pooled-embedding choice |
| `schedule.dfy` | `Schedule` | the timestep window of `init_scheduler` |

A module tree is evaluated structurally. `ModuleTree.Eval` follows the
branches of every module function: which sub-modules run, on which extents,
and with which scheduler counter and guidance scale. It has two readings.
`AsWritten` follows the code as it stands, where unjittered MultiDiffusion
(line 235) and linear transfer (line 585) read names they never bind and
raise. `Corrected` follows the fix of both lines (see "## Findings"). What each module does to
values is modelled separately: stitching, scattering, lerping, centring and
the skip residual. The tensor typing between modules depends on the registry
in `modular_decorators.py`, which is not part of this model.

## Model

| member | source | states |
|---|---|---|
| Views.NumBlocks | do_unet_step_modules.py:135-136 | an axis that fits in one window gets exactly one block; every axis gets at least one |
| Views.NumBlocksReach | do_unet_step_modules.py:135-136 | beyond one window the block count n is the least whose strides reach the far edge: (n-2)·stride < extent−window ≤ (n-1)·stride, so n = ceil((extent−window)/stride)+1 |
| Views.PlaceAxis | do_unet_step_modules.py:145-156 | a placed window keeps its length and never starts below 0; a window inside the axis stays where it is, one that overshoots is moved back to end at the extent, and on an axis shorter than the window it becomes [0, window) |
| Views.JitterBounds | do_unet_step_modules.py:162-173 | no draw happens exactly when the view touches both edges; otherwise the draw range is [−j, 0] at the start edge, [0, j] at the end edge and [−j, j] in between |
| Views.RandInt | do_unet_step_modules.py:163-173 | `random.randint` succeeds exactly on a non-empty range, its outcome lies in the range, and any supplied draw in the range is the outcome |
| Views.JitterAll | do_unet_step_modules.py:158-179 | jittering the views succeeds iff every view's draw succeeds; the list keeps its length and view i is view i jittered with draw i |
| Views.GetViews | do_unet_step_modules.py:132-180 | without jitter a plan exists exactly when the stride is positive or both axes fit in one window; every plan has NumBlocks(height)·NumBlocks(width) views, the corrected count of line 135 |
| Views.GetViewsRowMajor | do_unet_step_modules.py:137-156 | the unjittered views come in row-major block order: view i takes row block i // nbw and column block i % nbw, each placed on its own axis |
| Views.ViewsHaveWindowSize | do_unet_step_modules.py:140-177 | every view, jittered or not, is exactly `window` long in both directions |
| Views.ViewsInBounds | do_unet_step_modules.py:145-156 | an unjittered view lies inside [0, extent] on every axis at least a window long, and is [0, window) on a shorter axis |
| Views.AxisEnds | do_unet_step_modules.py:135-156 | with 0 < stride ≤ window ≤ extent, the first window of an axis starts at 0 and the last ends exactly at the extent |
| Views.CoveringBlock | do_unet_step_modules.py:135-156 | with 0 < stride ≤ window ≤ extent, every coordinate of the axis lies in the window of some block |
| Views.ViewsCover | do_unet_step_modules.py:135-156 | with 0 < stride ≤ window ≤ both extents, the unjittered plan exists and every position of the latent lies in some view |
| Views.JitteredViewsInBounds | do_unet_step_modules.py:158-177 | with jitter and a jitter range j ≥ 0, every view keeps its size and lies inside the frame padded by j on every side |
| Views.JitterShiftInFrame | do_unet_step_modules.py:174-177 | on one axis, an interval inside [0, extent] moved by its drawn offset plus j lies inside [0, extent + 2j] |
| Views.StrideBeyondWindowJitterFails | do_unet_step_modules.py:159-165 | with jitter and stride > window, the jitter range is negative and the plan fails on an empty `randint` range whenever the height exceeds the window |
| Views.StrideBeyondWindowLeavesGap | do_unet_step_modules.py:135-156 | without jitter, window 1 and stride 2 on a 3-row latent give two views and neither covers row 1 |
| Views.NumBlocksAsWrittenAgrees | do_unet_step_modules.py:135 | the 1e-6 tolerance leaves the block count right when the remainder of extent−window by the stride is 0 or at least a millionth of the stride |
| Views.EpsilonUndercountsBlocks | do_unet_step_modules.py:135 | for extent 4000001, window 2000000 and stride 2000000, line 135 counts 2 blocks where 3 are needed, and the last coordinate is in no window |
| Stitch.Divide | do_unet_step_modules.py:305 | the division is NaN exactly when the count is zero; otherwise the quotient times the count gives back the sum |
| Stitch.Accumulate | do_unet_step_modules.py:227-299 | after all tiles, the value buffer holds at every position the sum of the tile values over it, and the count buffer holds the number of tiles over it |
| Stitch.BuffersAreCoveringValues | do_unet_step_modules.py:294-295 | the buffered sum is the sum of the values the covering tiles place there, and the count is their number |
| Stitch.CountPositiveIffCovered | do_unet_step_modules.py:295 | a position's count is positive exactly when some view contains it |
| Stitch.ConstantTilesSum | do_unet_step_modules.py:294-295 | when every tile holds the constant v, the buffered sum is v times the count |
| Stitch.Stitch | do_unet_step_modules.py:227-311 | every cell of the result, cropped from the frame padded by the jitter range, is the mean of the tile values covering it, and NaN where no tile covers it |
| Stitch.CombineStepOutputs | do_unet_step_modules.py:292-317 | `prev_sample` and `pred_original_sample` are each averaged this way over their own tile outputs |
| Stitch.StitchConstant | do_unet_step_modules.py:294-311 | when every tile returns the constant v, every covered cell of the stitched result is exactly v |
| Stitch.PlannedStitchHasNoNaN | do_unet_step_modules.py:302-311 | with the views of an unjittered plan and 0 < stride ≤ window ≤ both extents, no stitched cell is 0 / 0 |
| Stitch.StrideBeyondWindowGivesNaN | do_unet_step_modules.py:305 | with window 1 and stride 2 on a 3×1 latent, row 1 of the stitched result is 0 / 0 |
| Stitch.Slice | do_unet_step_modules.py:234 | a view's slice has Python's clipped extents and holds the frame's entries offset by the view's start |
| Stitch.TileInputs | do_unet_step_modules.py:234-235 | every tile gets both the sample and the original latents cut at its view |
| Stitch.TileInputsAsWritten | do_unet_step_modules.py:218-235 | defines the cut as written: it fails exactly when jitter is off and there is a view, and otherwise is `TileInputs` (its consequence is `Stitch.UnjitteredTilingFailsAsWritten`) |
| Stitch.UnjitteredTilingFailsAsWritten | do_unet_step_modules.py:223-235 | every unjittered plan has a view, so unjittered MultiDiffusion always fails as written; with the original latents bound, the cut is the corrected `TileInputs` |
| Stitch.ControlRegion | do_unet_step_modules.py:248 | a ControlNet crop is 8 times the tile's extent in each direction |
| Stitch.ControlRegionOverTile | do_unet_step_modules.py:248 | the ControlNet crop holds exactly the image pixels (y, x) whose latent cell (y // 8, x // 8) lies in the tile |
| Stitch.AdapterCropAligned | do_unet_step_modules.py:264-270 | when the feature-map scale divides the jitter padding, the padded feature-map crop starts at the feature row of the tile's unpadded latent row |
| Stitch.AdapterCropShiftedWithoutDivisibility | do_unet_step_modules.py:264-270 | when it does not, the view starting at the first multiple of the scale past the padding gets a crop one feature row too far down |
| Dilated.Strided | do_unet_step_modules.py:428 | `xs[offset::scale]` has the phase's length, and its entry i is the entry i strides after `offset` |
| Dilated.StridedInverse | do_unet_step_modules.py:428 | position b is entry b // scale of the slice of phase b % scale |
| Dilated.PhaseOf | do_unet_step_modules.py:425-428 | every position belongs to the phase of its remainder, at the index of its quotient |
| Dilated.PhaseUnique | do_unet_step_modules.py:425-443 | a position of a phase determines that phase and its index, so no position lies in two phases |
| Dilated.RemQuotAreDivMod | do_unet_step_modules.py:428 | the phase and index of a position are Python's `a % scale` and `a // scale` |
| Dilated.Interlace | do_unet_step_modules.py:428 | the sub-latent of phase (h, w) has the phase lengths on both axes, and its row i is the column slice of latent row h + i·scale |
| Dilated.ScatterSeq | do_unet_step_modules.py:443 | a strided assignment writes entry b // scale of the prediction at each position b of the phase and keeps every other position |
| Dilated.Scatter | do_unet_step_modules.py:443 | assigning `[h::scale, w::scale]` keeps the shape; rows of the phase get a strided assignment of their prediction row, other rows are kept |
| Dilated.ScatterKeepsOthers | do_unet_step_modules.py:443 | the assignment changes nothing outside its phase |
| Dilated.ScatterPlacesPrediction | do_unet_step_modules.py:443 | after the assignment, the `[h::scale, w::scale]` slice is the prediction |
| Dilated.DilatedSampling | do_unet_step_modules.py:421-444 | a scale below 1 fails; otherwise the loop succeeds iff every prediction has its phase's shape (broadcasting is not modelled), and then each position holds the prediction for its phase, at its quotients |
| Dilated.InterlaceRoundTrip | do_unet_step_modules.py:425-443 | with an identity sub-module the loop returns the latent: the scale² phases partition the positions and each is written once |
| Dilated.InterlaceInverse | do_unet_step_modules.py:428 | position (a, b) is found in phase (a % scale, b % scale) at (a // scale, b // scale) |
| Dilated.BlurKeepsShape | do_unet_step_modules.py:423 | for every scale ≥ 1 the kernel size 2·scale−1 is odd, and a convolution padded by half the kernel size keeps the latent's size (line 396) |
| Dilated.Renormalise | do_unet_step_modules.py:424 | renormalising gives no finite result exactly when the blurred latent's standard deviation is zero (torch divides into inf or NaN), and otherwise keeps the shape |
| Dilated.ShiftScale | do_unet_step_modules.py:424 | the affine map applied to every entry is `(x - mean) / std * std_ + mean_` |
| Dilated.RenormalisedMean | do_unet_step_modules.py:424 | the renormalised latent has the mean of the latent before the blur |
| Transfer.Clamp01 | do_unet_step_modules.py:586 | the clamp lands in [0, 1] and leaves values already there unchanged |
| Transfer.LinearFactor | do_unet_step_modules.py:585-586 | the factor divides by zero exactly when start = end, and otherwise lies in [0, 1]; for start < end it is 0 iff the step is at most the start and 1 iff it is at least the end, and mirrored for start > end |
| Transfer.LinearFactorMonotone | do_unet_step_modules.py:585-586 | for start < end the factor never decreases as the step grows |
| Transfer.LinearTransfer | do_unet_step_modules.py:585-613 | the module fails exactly when start = end; otherwise sub-module 1 runs iff the factor is below 1 and sub-module 2 iff it is above 0, so at least one runs |
| Transfer.LinearTransferIsLerp | do_unet_step_modules.py:604-612 | the result is always `lerp(pred_1, pred_2, factor)`, and it only uses the prediction of a sub-module that ran |
| Transfer.LinearTransferEnds | do_unet_step_modules.py:585-613 | up to the start step only sub-module 1 runs and its prediction is returned; from the end step on only sub-module 2 runs and its prediction is returned |
| Transfer.LinearTransferAsWritten | do_unet_step_modules.py:585 | defines line 585 as written: it fails on the unbound name `step_index` unless the function's scope binds it (its consequence is `Transfer.LinearTransferAsWrittenAlwaysFails`) |
| Transfer.LinearTransferAsWrittenAlwaysFails | do_unet_step_modules.py:574-585 | the scope never binds `step_index`, so every call fails, while the corrected module succeeds with the caller's `step_index` whenever start ≠ end |
| Color.TensorMeanShift | do_unet_step_modules.py:747 | adding b to every entry adds b to the mean |
| Color.ShiftedChannelMean | do_unet_step_modules.py:746 | after its shift, a channel's mean is (1 − channel_shift) times its old mean |
| Color.ShiftChannels | do_unet_step_modules.py:745-746 | the channel shifts succeed iff every listed channel exists; they keep every shape and leave unlisted channels unchanged |
| Color.ShiftChannelsShiftsListed | do_unet_step_modules.py:745-746 | each channel listed once is shifted by its own mean exactly once |
| Color.CenterTensor | do_unet_step_modules.py:744-747 | `center_tensor` succeeds iff every listed channel exists, and keeps every shape |
| Color.CenterTensorMean | do_unet_step_modules.py:747 | after centring, the tensor's mean is (1 − full_shift) times its mean after the channel shifts, and zero when full_shift = 1 |
| Color.FullShiftMean | do_unet_step_modules.py:747 | the whole-tensor shift leaves (1 − full_shift) of the mean |
| Color.CenterTensorChannel | do_unet_step_modules.py:744-747 | an unselected channel only moves by the whole-tensor shift, the same amount everywhere; a selected channel listed once first loses channel_shift times its own mean |
| Color.ColorGuidance | do_unet_step_modules.py:805-810 | colour guidance succeeds iff the listed channels exist or neither regime applies, and keeps every shape |
| Color.ColorGuidanceRegimes | do_unet_step_modules.py:805-810 | above 700 the prediction is centred with (0.8, 0.8); strictly between 1 and 100 with (0.6, 1.0), leaving zero mean; otherwise it is returned unchanged |
| Color.ChannelsAsWritten | do_unet_step_modules.py:870 | defines the lookup as written: it succeeds exactly when the chosen label is a key of `CHANNEL_VALUES` (its consequences are `Color.ChannelLookupFailsForTwoLabels` and `Color.ChannelsAgreeWithTable`) |
| Color.ChannelLookupFailsForTwoLabels | do_unet_step_modules.py:812-828 | exactly the choices "L1: Red->Cyan" and "L2: Magenta->Green" fail the lookup |
| Color.Channels | do_unet_step_modules.py:821-828 | every choice names a non-empty, strictly increasing list of channels below 4 |
| Color.ChannelsAgreeWithTable | do_unet_step_modules.py:821-828 | the corrected table agrees with `CHANNEL_VALUES` wherever that has the label, lists each channel once, and every choice guides a four-channel latent without error |
| SkipResidual.Fetch | do_unet_step_modules.py:910-917 | a fetch returns the stored tensor if there is one and otherwise loads and stores it; the slot is stored afterwards and no other entry changes |
| SkipResidual.SkipIsScaledGap | do_unet_step_modules.py:909-924 | a call fails exactly when latent and noise differ in shape; either way both are stored; on success each residual entry is t/T times the gap from latent to noise, and the latent plus the residual is `lerp(latent, noise, t/T)` |
| SkipResidual.SkipLoadsOnce | do_unet_step_modules.py:909-917 | a second call on the store the first call left does not load, keeps the store, and at the same timestep returns the same residual |
| SkipResidual.SkipKeepsOtherModules | do_unet_step_modules.py:910-917 | a call never changes another module's stored tensors |
| SkipResidual.SkipEnds | do_unet_step_modules.py:921-924 | the residual is zero at timestep 0, and the full gap from latent to noise at the last training timestep |
| ModuleTree.DecodeEncode | do_unet_step_modules.py:211-215 | every module survives the trip through its keyword dictionary, read as the module functions read it |
| ModuleTree.ResolveDefault | do_unet_step_modules.py:25-30 | an unconnected sub-module and a connected standard module resolve alike, and a name the registry does not hold is rejected |
| ModuleTree.LeafPresetsDecode | do_unet_step_modules.py:113-123 | the standard and skip-residual nodes resolve to the module they describe |
| ModuleTree.TilingPresetsDecode | do_unet_step_modules.py:362-374 | the MultiDiffusion node resolves to jittered MultiDiffusion with its stride, and the tiled node to unjittered MultiDiffusion with stride tile_size − overlap, each around whatever its sub-module resolves to |
| ModuleTree.WrapperPresetsDecode | do_unet_step_modules.py:474-484 | the dilated and colour nodes resolve to their module around whatever their sub-module resolves to |
| ModuleTree.TransferPresetsDecode | do_unet_step_modules.py:554-564 | the cosine-decay and linear-transfer nodes resolve to their module around their two sub-modules |
| ModuleTree.GuidanceAt | do_unet_step_modules.py:84-86 | a scalar guidance always applies; a list applies exactly when the step index is a valid Python index, negative indices included |
| ModuleTree.StandardStep | do_unet_step_modules.py:84-97 | the standard step succeeds exactly when the guidance has a scale for the step, and makes one UNet call |
| ModuleTree.ChannelCheck | do_unet_step_modules.py:745-746 | indexing the listed channels succeeds exactly when each is below the channel count |
| ModuleTree.ColorStepAgrees | do_unet_step_modules.py:805-808 | the colour step of the tree walk fails exactly when `Color.ColorGuidance` does |
| ModuleTree.Eval | do_unet_step_modules.py:95-97 | in both readings, walking any module tree hands the scheduler counter back unchanged, every UNet call sees the counter the step started with, every call uses the step's guidance scale, a guidance error arises only from an index outside the guidance list, and an unbound-name error only from the code as written |
| ModuleTree.EvalEach | do_unet_step_modules.py:232-290 | running the sub-module once per tile or phase keeps the same counter, guidance and unbound-name guarantees |
| ModuleTree.ReadingsAgree | do_unet_step_modules.py:217-235 | a tree with no linear transfer and only jittered MultiDiffusion walks the same as written and corrected, since it never reaches line 235 without jitter or line 585 |
| ModuleTree.EachReadingsAgree | do_unet_step_modules.py:232-290 | running such a sub-module once per extent walks the same in both readings |
| ModuleTree.LinearTransferRuns | do_unet_step_modules.py:585-602 | as written, every linear transfer fails on the unbound `step_index`; corrected, it runs only sub-module 1 up to the start step, only sub-module 2 from the end step on, and in between both, as cosine decay does |
| ModuleTree.LeafCount | do_unet_step_modules.py:425-440 | in either reading, a tree without tiling makes `Calls` UNet calls when it succeeds: scale² per dilation, both sides of a cosine decay, the active sides of a linear transfer, none for a skip residual |
| ModuleTree.TiledIsEach | do_unet_step_modules.py:217-290 | MultiDiffusion fails when the planner does; as written without jitter it then fails on `original_latents_pad` before any sub-module runs; otherwise it runs its sub-module once per view, on the view's extent in the padded latent, measured as a Python slice (a negative bound counts from the end) |
| ModuleTree.NegativeStartCountsFromEnd | do_unet_step_modules.py:232 | a slice whose start is negative and whose end reaches past the axis keeps the last −start cells of the axis; on a 12-long axis `[-2:14]` is 2 long |
| ModuleTree.TiledLeafCount | do_unet_step_modules.py:135-137 | in either reading, a successful MultiDiffusion over a tree without tiling makes NumBlocks(rows)·NumBlocks(cols) times its sub-module's calls |
| ModuleTree.UnjitteredTilesAreWindows | do_unet_step_modules.py:217-235 | without jitter, on a latent at least a window wide, the step as written fails before the UNet runs (on `original_latents_pad` whenever the stride is positive); in the corrected code every tile the standard module gets is tile_size / 8 square |
| ModuleTree.ColorPresetAsWritten | do_unet_step_modules.py:868-884 | the colour node as written succeeds exactly when the `CHANNEL_VALUES` lookup does |
| ModuleTree.TiledPreset | do_unet_step_modules.py:703-715 | the corrected tiled node succeeds exactly when the overlap is below the tile size, and then builds what the written node builds |
| ModuleTree.TiledPresetAsWrittenFails | do_unet_step_modules.py:711 | an overlap of at least the tile size gives a stride of zero or less, and in either reading every step on a latent taller than one tile then fails in the modelled view planner; at an overlap equal to the tile size this is the division by zero of line 135 |
| ModuleTree.TiledNodeFailsAsWritten | do_unet_step_modules.py:703-715 | as written, every step of the tiled node fails, whatever its sub-module and latent: on `original_latents_pad` (line 235) or in the view planner |
| ModuleTree.UnjitteredFailsAsWritten | do_unet_step_modules.py:217-235 | as written, every unjittered MultiDiffusion step fails before its sub-module runs: on `original_latents_pad` when the planner succeeds, otherwise on the zero stride |
| ModuleTree.TiledPresetPlans | do_unet_step_modules.py:703-715 | with the overlap below the tile size the stride is at least one latent cell and the view planner succeeds on every latent |
| Driver.GeOne | denoise_latents_nodes.py:165-175 | the validator accepts a scalar or a list exactly when every value is at least 1, returns it unchanged, and otherwise raises the cfg error |
| Driver.CheckLength | denoise_latents_nodes.py:333-336 | defines the length check: a list `cfg_scale` passes exactly when it has one entry per step, and a scalar always passes (its consequences are `Driver.ValidGuidanceCoversSteps` and `Driver.ShortGuidanceFails`) |
| Driver.ValidGuidanceCoversSteps | denoise_latents_nodes.py:333-336 | guidance that passed both checks gives every step in range a scale of at least 1, so in either reading no module tree fails on the guidance index |
| Driver.ShortGuidanceFails | denoise_latents_nodes.py:333-336 | a list shorter than the step count is rejected, and without the length check the step just past its end would have no scale |
| Driver.Normalise | denoise_latents_nodes.py:450-458 | a normalised input, when present, is a non-empty list |
| Driver.NormaliseCases | denoise_latents_nodes.py:509-517 | an absent input or an empty list gives no input, a single item becomes a one-entry list, a non-empty list is kept, and normalising twice changes nothing |
| Driver.NormaliseControl | denoise_latents_nodes.py:382-393 | a normalised control input, when present, is a non-empty list led by a control field |
| Driver.ControlAgreesOnFields | denoise_latents_nodes.py:382-393 | on control fields the control normalisation is the common one, and a list whose first entry is not a control field is dropped |
| Driver.PrepareInputsSpec | denoise_latents_nodes.py:650-670 | preparation fails exactly when neither input is given or both are and their shapes past the batch differ; the seed is the noise's, else the latents', else 0; without latents they are zeros shaped like the noise |
| Driver.MaxUnetDownscale | denoise_latents_nodes.py:526-531 | SD1 and SDXL get a UNet downscale of 8 or 4, and any other base raises |
| Driver.T2IInputSize | denoise_latents_nodes.py:540-541 | the adapter input size exists exactly for the two supported bases |
| Driver.T2IInputMatchesUnet | denoise_latents_nodes.py:540-541 | the adapter input is a multiple of the adapter's downscale and, scaled down by it, lands on the latent size after the UNet's downscale |
| Driver.DuplicateHalves | denoise_latents_nodes.py:562-564 | under classifier-free guidance both halves of every adapter state are the original state; otherwise nothing changes |
| Regions.MaskFlags | denoise_latents_nodes.py:232-233 | a missing mask list means no prompt has a mask |
| Regions.ConcatRegional | denoise_latents_nodes.py:232-294 | concatenation fails only on no prompts or a mask count that differs; the length is the sum of the token counts; regions exist iff some prompt has a mask, with contiguous ranges; a pooled source is chosen iff SDXL, as the last unmasked prompt or else the first |
| Regions.ContiguousStarts | denoise_latents_nodes.py:266-277 | each prompt's range starts at the sum of the token counts before it, and the ranges end at the total |
| Regions.PooledChoiceUnique | denoise_latents_nodes.py:261-264 | the pooled source is determined by which prompts have masks |
| Schedule.Slice | denoise_latents_nodes.py:611-612 | a Python slice never outgrows its list, and is the plain subsequence when its bounds lie inside |
| Schedule.WholeOrders | denoise_latents_nodes.py:613 | the step count is the number of whole scheduler orders in the window |
| Schedule.WindowShape | denoise_latents_nodes.py:596-613 | the window is a contiguous run of the timesteps from the clipped start index, the initial timestep is its first entry when it has one, and the step count is its number of whole orders |
| Schedule.DescendingCount | denoise_latents_nodes.py:601 | on strictly descending timesteps, counting those at or above a value finds the prefix that holds them |
| Schedule.WindowSelectsRange | denoise_latents_nodes.py:596-613 | for a first-order scheduler with strictly descending timesteps, the window holds exactly the timesteps in [t_end_val, t_start_val) and each is a step |
| Schedule.FirstOrderWindow | denoise_latents_nodes.py:596-613 | with order 1 the window is the timesteps after those at or above the start value, up to those at or above the end value |
| Schedule.FlipLow32Involution | denoise_latents_nodes.py:621 | `seed ^ 0xFFFFFFFF` flipped twice is the seed, a 32-bit seed stays 32-bit, and the generator seed always differs from the seed |
| Grids.LerpEndpoints | do_unet_step_modules.py:604-611 | lerp at weight 0 is the start and at weight 1 the end, so returning a prediction unchanged at either end agrees with the lerp |
| Grids.GridMeanAffine | do_unet_step_modules.py:424 | the mean of an affine image of a grid is the affine image of its mean |

## Left out

- Gaussian kernel values and the convolution on lines 384-398: only the kernel size and the padding are modelled (`Dilated.BlurKeepsShape`). The blur is left out as floating-point arithmetic.
- The standard deviations on line 422 are inputs to `Dilated.Renormalise`, not computed.
- The cosine-decay weights on lines 416-417 and 505-506 are trigonometry on floats. The tree walk models which sub-modules run, not the blend.
- The UNet, ControlNet and T2I-Adapter forward passes and `scheduler.step`'s update formula (lines 59-82, 95) are foreign calls. The scheduler is a counter that `step` advances by one.
- `random.randint` is replaced by a caller-supplied draw, clamped into the requested range.
- Pad-mode values (reflect, replicate, constant): padding is only a coordinate offset of the jitter range.
- Tensor storage I/O, `time.sleep` and the prints on lines 606-612 and 918-923 are left out. Loading is a function parameter.
- `crop_residuals` is never called.
- `soft_clamp_tensor` and `maximize_tensor` are only called from commented-out lines.
- Invocation classes, pydantic field metadata and UI ordering. Field bounds (`ge`, `multiple_of`) appear as preconditions of the presets.
- Model loading, LoRA, FreeU and seamless patching, `ExitStack`, `prepare_control_image`, CLIP encoding and the denoising loop itself (denoise_latents_nodes.py:395-500, 680-770).
- The registry behind `get_noise_prediction_module`: `modular_decorators.py` is not part of this model. The registered names are the ones the module functions are decorated with.
- ModuleTree.ResolveDefault: that an unregistered name is rejected is assumed of the registry, which is not part of this model.
- `__init__.py` only re-exports node classes.
- Python's rounding of `t_start_val` and `t_end_val` (lines 600, 604). They are inputs of the timestep window.
- Tensors in the regional prompt code are reduced to token counts and mask presence. The mask resizing on lines 198-221 is left out.
- Batch and channel axes are dropped where every channel is treated alike: one channel of batch element 0.
- Views.GetViews: the block count is the corrected `NumBlocks`, not line 135's `int((extent - window) / stride - 1e-6) + 2`; the two agree unless the remainder is below a millionth of the stride (`Views.NumBlocksAsWrittenAgrees`, `Views.EpsilonUndercountsBlocks`).
- Views.GetViews: a negative stride on an axis longer than the window is reported as the zero-stride error. The source instead truncates line 135 toward zero, which can give a negative block count on either axis, and plans with Python's `//` and `%` by that count. For the tiled node this is any overlap above the tile size. With latent window 16 and stride −1, a 20×20 latent gets 4 views and no view covers rows 18-19. A 17×16 latent gets 1 view and a 20×16 latent gets none. As written the step then fails at line 235, or at line 314 on the unbound `step_output` when there are no views. In the corrected code the uncovered cells are 0/0 = NaN at line 305, or the step fails at line 314.
- ModuleTree.TiledPresetAsWrittenFails: only at an overlap equal to the tile size is the planner failure the source's own (the division by zero of line 135). For a larger overlap, the failure in both readings comes from the `Views.GetViews` abstraction above. The source as written still fails, as `ModuleTree.TiledNodeFailsAsWritten` states, but at line 235 or 314, and the corrected source can return NaN cells instead of failing.
- Views.JitterAll: one draw pair per view. The source's draws are a shared random stream. In the tree walk every MultiDiffusion of a step, nested ones included, reads the same `draws` function from the step context. In the source, `random.randint` continues one stream from call to call, so two nested tilings get independent draws.
- Stitch.Stitch: the jitter padding of `Stitch.Stitch`, `Stitch.Crop` and `Stitch.CombineStepOutputs` is a `nat`. So the stitch cannot express a negative jitter range: jitter on, a stride above the window, and a latent exactly one window on both axes. There `F.pad` crops instead of padding. `Views.StrideBeyondWindowJitterFails` covers every taller latent. The tree walk does follow the crop. `ModuleTree.Padded` shrinks the axis by the negative range, and `ModuleTree.SliceLen` counts a negative slice bound from the end, as Python does (`ModuleTree.NegativeStartCountsFromEnd`). For example, tile 128 and stride 192 on a 16×16 latent crop it to 12×12, and the view `[-2:14]` cuts a 2×2 tile.
- Color.Mean: the mean of an empty tensor is taken to be 0. torch gives NaN.
- SkipResidual.SkipIsScaledGap: requires a positive number of training timesteps, which every scheduler configuration has.
- Schedule.WindowSelectsRange: proved only for first-order schedulers. For higher orders only `Schedule.WindowShape` is stated.
- Schedule: timesteps are exact reals. Float rounding in the comparisons of lines 601 and 605 is not modelled.
- Stitch.AdapterCropAligned: the T2I-Adapter crop is only related to the tile when the feature-map scale divides the jitter padding. The other case is exhibited by `Stitch.AdapterCropShiftedWithoutDivisibility`.
- Dilated.Renormalise: only the mean of the result is stated. Its standard deviation is not modelled.
- Dilated.DilatedSampling: a prediction whose shape differs from its phase fails. torch broadcasts a broadcastable prediction (a 1×1 one, say) into the strided slice; broadcasting is not modelled.
- Grids.LerpGrid: `torch.lerp` broadcasting is left out; both operands have one shape.
- ModuleTree.TiledIsEach: when a negative jitter range crops more than the whole axis (n + 2 × range < 0), torch's `F.pad` rejects the negative size. `ModuleTree.Padded` gives an empty axis instead, so the walk makes calls on empty tiles where the source raises.
- ModuleTree.Decode: the whole tree and every `module_kwargs` entry are resolved up front. The source resolves a sub-module only when it is called (lines 25-30, 211-215, 580-583). So a malformed dictionary under a branch that never runs, such as the second module of a linear transfer at factor 0, makes `Decode` fail where the source does not raise. The walk assumes well-formed dictionaries, and every node builds one.
- Color.CenterTensor: colour guidance is modelled for a batch of one. Line 746 shifts only batch element 0's channels, while line 747 subtracts the mean over the whole batch. For a larger batch, the other elements' cells would move only by the whole-tensor shift, and the mean would mix both. `Color.CenterTensorMean` and `Color.CenterTensorChannel` state the batch-of-one case.
- ModuleTree.Eval: states structure only (calls, extents, counter, guidance, and the errors of both readings). The `Corrected` reading walks lines 235 and 585 as corrected (`Stitch.TileInputs`, `Transfer.LinearTransfer`). The values the modules compute are stated by the `Stitch`, `Dilated`, `Transfer`, `Color` and `SkipResidual` members.

## Findings

| source | as written | input that shows it | evidently intended | confidence | as-written member | corrected member |
|---|---|---|---|---|---|---|
| do_unet_step_modules.py:135 | block count `int((extent - window) / stride - 1e-6) + 2` | extent 4000001, window 2000000, stride 2000000: 2 blocks, and coordinate 4000000 lies in no view | ceil((extent − window) / stride) + 1 blocks | not executed | Views.EpsilonUndercountsBlocks | Views.NumBlocksReach |
| do_unet_step_modules.py:218-235 | `original_latents_pad` is bound only on the jitter branch and read for every view | any call without jitter, which includes every call from the tiled node (line 712) | the unpadded latents without jitter | not executed | Stitch.UnjitteredTilingFailsAsWritten | Stitch.TileInputs |
| do_unet_step_modules.py:585 | reads the name `step_index`, which the function neither takes nor binds | any call of `linear_transfer` | the `step_index` the caller passes in the keyword arguments | not executed | Transfer.LinearTransferAsWrittenAlwaysFails | Transfer.LinearTransferIsLerp |
| do_unet_step_modules.py:812-828 | the offered labels "L1: Red->Cyan" and "L2: Magenta->Green" are not keys of `CHANNEL_VALUES`, which has "L1: Cyan->Red" and "L2: Lime->Purple" | channel selection "L1: Red->Cyan": `KeyError` on line 870 | channel 1 and channel 2 for those labels | not executed | Color.ChannelLookupFailsForTwoLabels | Color.ChannelsAgreeWithTable |
| do_unet_step_modules.py:711 | stride `tile_size - overlap` with the overlap only bounded below | tile size 128, overlap 128 on a latent taller than 16: stride 0, division by zero on line 135 | an overlap below the tile size | not executed | ModuleTree.TiledPresetAsWrittenFails | ModuleTree.TiledPresetPlans |
