/** The module tree. The nodes of the graph describe noise-prediction modules as
    `ModuleData` dictionaries (a registry name plus keyword arguments, with
    sub-modules nested inside); `resolve_module` turns a dictionary, or `None`,
    back into a module. One denoising step then walks the tree: which
    sub-modules run, on what extent of latent, with which guidance scale, and
    what every call does to the scheduler's shared step counter. The tensor
    arithmetic of each module is modelled in its own module (Views, Stitch,
    Dilated, Transfer, Color, SkipResidual). */
module ModuleTree {
  import opened Wrappers
  import Views
  import Stitch
  import Dilated
  import Transfer
  import Color
  import Arith

  // ---------------------------------------------------------------------------
  // The dictionaries the nodes build
  // ---------------------------------------------------------------------------

  /** A keyword argument: an integer, a real, a flag, a text, `None`, a channel
      list, a sub-module input (`None` when nothing is connected) or a latents
      field, which arrives serialised to the name it is stored under. */
  datatype Value =
    | IntArg(i: int)
    | RealArg(x: real)
    | BoolArg(b: bool)
    | TextArg(s: string)
    | NoneArg
    | ChannelsArg(cs: seq<nat>)
    | SubArg(sub: Option<ModuleData>)
    | LatentsArg(latentsName: string)

  /** `ModuleData`: the registry name of the module and its keyword arguments. */
  datatype ModuleData = ModuleData(entry: string, kwargs: map<string, Value>)

  const StandardName: string := "standard_unet_step_module"
  const MultiDiffusionName: string := "multidiffusion_sampling"
  const DilatedName: string := "dilated_sampling"
  const CosineName: string := "cosine_decay_transfer"
  const LinearName: string := "linear_transfer"
  const ColorName: string := "color_guidance"
  const SkipName: string := "skip_residual"

  /** The modules, as the registry functions see them once their keyword
      arguments are read. */
  datatype Module =
    | Standard
    | MultiDiffusion(sub: Module, tileSize: int, stride: int, padMode: Option<string>, jitter: bool)
    | DilatedSampling(sub: Module, scale: int, decayRate: real)
    | CosineDecay(first: Module, second: Module, decayRate: real)
    | LinearTransfer(first: Module, second: Module, start: int, end: int)
    | ColorGuidance(sub: Module, channels: seq<nat>)
    | SkipResidual(latentName: string, noiseName: string, id: string)

  /** A registry name that is not a module, a keyword argument that is missing
      (`KeyError`), or one of a kind the module cannot use. */
  datatype DecodeError = UnknownModule(name: string) | MissingKey(key: string) | WrongKind(key: string)

  function IntKw(kw: map<string, Value>, key: string): (r: Result<int, DecodeError>)
    ensures r.Ok? <==> key in kw && kw[key].IntArg?
    ensures r.Ok? ==> kw[key] == IntArg(r.value)
  {
    if key !in kw then Err(MissingKey(key)) else if kw[key].IntArg? then Ok(kw[key].i) else Err(WrongKind(key))
  }

  function RealKw(kw: map<string, Value>, key: string): (r: Result<real, DecodeError>)
    ensures r.Ok? <==> key in kw && kw[key].RealArg?
    ensures r.Ok? ==> kw[key] == RealArg(r.value)
  {
    if key !in kw then Err(MissingKey(key)) else if kw[key].RealArg? then Ok(kw[key].x) else Err(WrongKind(key))
  }

  function BoolKw(kw: map<string, Value>, key: string): (r: Result<bool, DecodeError>)
    ensures r.Ok? <==> key in kw && kw[key].BoolArg?
    ensures r.Ok? ==> kw[key] == BoolArg(r.value)
  {
    if key !in kw then Err(MissingKey(key)) else if kw[key].BoolArg? then Ok(kw[key].b) else Err(WrongKind(key))
  }

  function TextKw(kw: map<string, Value>, key: string): (r: Result<string, DecodeError>)
    ensures r.Ok? <==> key in kw && kw[key].TextArg?
    ensures r.Ok? ==> kw[key] == TextArg(r.value)
  {
    if key !in kw then Err(MissingKey(key)) else if kw[key].TextArg? then Ok(kw[key].s) else Err(WrongKind(key))
  }

  /** An optional text: a text or `None`. */
  function OptionalTextKw(kw: map<string, Value>, key: string): (r: Result<Option<string>, DecodeError>)
    ensures r.Ok? <==> key in kw && (kw[key].TextArg? || kw[key].NoneArg?)
    ensures r.Ok? ==> kw[key] == OptionalText(r.value)
  {
    if key !in kw then Err(MissingKey(key))
    else if kw[key].TextArg? then Ok(Some(kw[key].s))
    else if kw[key].NoneArg? then Ok(None)
    else Err(WrongKind(key))
  }

  function OptionalText(o: Option<string>): Value {
    if o.Some? then TextArg(o.value) else NoneArg
  }

  function ChannelsKw(kw: map<string, Value>, key: string): (r: Result<seq<nat>, DecodeError>)
    ensures r.Ok? <==> key in kw && kw[key].ChannelsArg?
    ensures r.Ok? ==> kw[key] == ChannelsArg(r.value)
  {
    if key !in kw then Err(MissingKey(key)) else if kw[key].ChannelsArg? then Ok(kw[key].cs) else Err(WrongKind(key))
  }

  /** A latents field is read through its `latents_name` (lines 913, 916). */
  function LatentsKw(kw: map<string, Value>, key: string): (r: Result<string, DecodeError>)
    ensures r.Ok? <==> key in kw && kw[key].LatentsArg?
    ensures r.Ok? ==> kw[key] == LatentsArg(r.value)
  {
    if key !in kw then Err(MissingKey(key)) else if kw[key].LatentsArg? then Ok(kw[key].latentsName) else Err(WrongKind(key))
  }

  /** `resolve_module` (lines 25-30): no dictionary means the standard module,
      otherwise the registry entry named by the dictionary, with its keyword
      arguments. */
  function Resolve(o: Option<ModuleData>): (r: Result<Module, DecodeError>)
  {
    if o.None? then Ok(Standard) else Decode(o.value)
  }

  /** The sub-module input stored under `key`, resolved. */
  function DecodeSub(d: ModuleData, key: string): (r: Result<Module, DecodeError>)
    decreases d, 0
  {
    if key !in d.kwargs then Err(MissingKey(key))
    else
      match d.kwargs[key]
      case SubArg(o) =>
        if o.None? then Ok(Standard)
        else
          assert d.kwargs[key] in d.kwargs.Values;
          Decode(o.value)
      case _ => Err(WrongKind(key))
  }

  /** The registry lookup and the keyword arguments each module reads, in the
      order it reads them: lines 211-215, 416-420, 500-502, 582-584, 774-777 and
      905-907. */
  function Decode(d: ModuleData): (r: Result<Module, DecodeError>)
    decreases d, 1
  {
    var kw := d.kwargs;
    if d.entry == StandardName then Ok(Standard)
    else if d.entry == MultiDiffusionName then
      var tile :- IntKw(kw, "tile_size");
      var stride :- IntKw(kw, "stride");
      var pad :- OptionalTextKw(kw, "pad_mode");
      var jitter :- BoolKw(kw, "enable_jitter");
      var sub :- DecodeSub(d, "sub_module");
      Ok(MultiDiffusion(sub, tile, stride, pad, jitter))
    else if d.entry == DilatedName then
      var decay :- RealKw(kw, "gaussian_decay_rate");
      var scale :- IntKw(kw, "dilation_scale");
      var sub :- DecodeSub(d, "sub_module");
      Ok(DilatedSampling(sub, scale, decay))
    else if d.entry == CosineName then
      var decay :- RealKw(kw, "decay_rate");
      var first :- DecodeSub(d, "sub_module_1");
      var second :- DecodeSub(d, "sub_module_2");
      Ok(CosineDecay(first, second, decay))
    else if d.entry == LinearName then
      var start :- IntKw(kw, "start_step");
      var end :- IntKw(kw, "end_step");
      var first :- DecodeSub(d, "sub_module_1");
      var second :- DecodeSub(d, "sub_module_2");
      Ok(LinearTransfer(first, second, start, end))
    else if d.entry == ColorName then
      var sub :- DecodeSub(d, "sub_module");
      var channels :- ChannelsKw(kw, "channels");
      Ok(ColorGuidance(sub, channels))
    else if d.entry == SkipName then
      var latent :- LatentsKw(kw, "latent_input");
      var noise :- LatentsKw(kw, "noise_input");
      var id :- TextKw(kw, "module_id");
      Ok(SkipResidual(latent, noise, id))
    else Err(UnknownModule(d.entry))
  }

  /** The dictionary a node builds for a module whose sub-modules are all
      connected. */
  function Encode(m: Module): (d: ModuleData)
  {
    match m
    case Standard => ModuleData(StandardName, map[])
    case MultiDiffusion(sub, tile, stride, pad, jitter) =>
      ModuleData(MultiDiffusionName, map[
        "sub_module" := SubArg(Some(Encode(sub))), "tile_size" := IntArg(tile), "stride" := IntArg(stride),
        "pad_mode" := OptionalText(pad), "enable_jitter" := BoolArg(jitter)])
    case DilatedSampling(sub, scale, decay) =>
      ModuleData(DilatedName, map[
        "sub_module" := SubArg(Some(Encode(sub))), "dilation_scale" := IntArg(scale), "gaussian_decay_rate" := RealArg(decay)])
    case CosineDecay(first, second, decay) =>
      ModuleData(CosineName, map[
        "sub_module_1" := SubArg(Some(Encode(first))), "sub_module_2" := SubArg(Some(Encode(second))), "decay_rate" := RealArg(decay)])
    case LinearTransfer(first, second, start, end) =>
      ModuleData(LinearName, map[
        "sub_module_1" := SubArg(Some(Encode(first))), "sub_module_2" := SubArg(Some(Encode(second))),
        "start_step" := IntArg(start), "end_step" := IntArg(end)])
    case ColorGuidance(sub, channels) =>
      ModuleData(ColorName, map["sub_module" := SubArg(Some(Encode(sub))), "channels" := ChannelsArg(channels)])
    case SkipResidual(latent, noise, id) =>
      ModuleData(SkipName, map["latent_input" := LatentsArg(latent), "noise_input" := LatentsArg(noise), "module_id" := TextArg(id)])
  }

  /** Every module survives the trip through its dictionary. */
  lemma {:induction false} DecodeEncode(m: Module)
    ensures Decode(Encode(m)) == Ok(m)
  {
    match m
    case Standard =>
    case MultiDiffusion(sub, _, _, _, _) =>
      DecodeEncode(sub);
      DecodeEncodeOne(m, sub);
    case DilatedSampling(sub, _, _) =>
      DecodeEncode(sub);
      DecodeEncodeOne(m, sub);
    case CosineDecay(first, second, _) =>
      DecodeEncode(first);
      DecodeEncode(second);
      DecodeEncodeTwo(m, first, second);
    case LinearTransfer(first, second, _, _) =>
      DecodeEncode(first);
      DecodeEncode(second);
      DecodeEncodeTwo(m, first, second);
    case ColorGuidance(sub, _) =>
      DecodeEncode(sub);
      DecodeEncodeOne(m, sub);
    case SkipResidual(_, _, _) =>
  }

  /** The step of the round trip for a module with one sub-module. */
  lemma {:induction false} DecodeEncodeOne(m: Module, sub: Module)
    requires m.MultiDiffusion? || m.DilatedSampling? || m.ColorGuidance?
    requires sub == m.sub && Decode(Encode(m.sub)) == Ok(m.sub)
    ensures Decode(Encode(m)) == Ok(m)
  {
    var d := Encode(m);
    var inner := DecodeSub(d, "sub_module");
    assert inner == Ok(sub);
  }

  /** The step of the round trip for a module with two sub-modules. */
  lemma {:induction false} DecodeEncodeTwo(m: Module, first: Module, second: Module)
    requires m.CosineDecay? || m.LinearTransfer?
    requires first == m.first && second == m.second
    requires Decode(Encode(first)) == Ok(first) && Decode(Encode(second)) == Ok(second)
    ensures Decode(Encode(m)) == Ok(m)
  {
    var d := Encode(m);
    var one, two := DecodeSub(d, "sub_module_1"), DecodeSub(d, "sub_module_2");
    assert one == Ok(first) && two == Ok(second);
  }

  /** An unconnected sub-module input and a connected standard module resolve
      alike, and a dictionary with an unregistered name is rejected. */
  lemma {:induction false} ResolveDefault(d: ModuleData)
    ensures Resolve(None) == Resolve(Some(Encode(Standard))) == Ok(Standard)
    ensures d.entry !in {StandardName, MultiDiffusionName, DilatedName, CosineName, LinearName, ColorName, SkipName} ==>
              Resolve(Some(d)) == Err(UnknownModule(d.entry))
  {
  }

  // ---------------------------------------------------------------------------
  // The nodes
  // ---------------------------------------------------------------------------

  /** Lines 113-124. */
  function StandardPreset(): ModuleData {
    ModuleData(StandardName, map[])
  }

  /** Lines 341-378: jitter is always on; the field constraints are checked by
      the node before `invoke`. */
  function MultiDiffusionPreset(sub: Option<ModuleData>, tileSize: int, stride: int, padMode: string): ModuleData
    requires tileSize >= 128 && tileSize % 8 == 0 && stride >= 64 && stride % 64 == 0
  {
    ModuleData(MultiDiffusionName, map[
      "sub_module" := SubArg(sub), "tile_size" := IntArg(tileSize), "stride" := IntArg(stride),
      "pad_mode" := TextArg(padMode), "enable_jitter" := BoolArg(true)])
  }

  /** Lines 460-489. */
  function DilatedPreset(sub: Option<ModuleData>, scale: int, decayRate: real): ModuleData
    requires scale >= 1 && decayRate >= 0.0
  {
    ModuleData(DilatedName, map[
      "sub_module" := SubArg(sub), "dilation_scale" := IntArg(scale), "gaussian_decay_rate" := RealArg(decayRate)])
  }

  /** Lines 546-569. */
  function CosinePreset(first: Option<ModuleData>, second: Option<ModuleData>, decayRate: real): ModuleData
    requires decayRate >= 0.0
  {
    ModuleData(CosineName, map["sub_module_1" := SubArg(first), "sub_module_2" := SubArg(second), "decay_rate" := RealArg(decayRate)])
  }

  /** Lines 637-667. */
  function LinearPreset(first: Option<ModuleData>, second: Option<ModuleData>, start: int, end: int): ModuleData
    requires start >= 0 && end >= 0
  {
    ModuleData(LinearName, map[
      "sub_module_1" := SubArg(first), "sub_module_2" := SubArg(second), "start_step" := IntArg(start), "end_step" := IntArg(end)])
  }

  /** Lines 868-889 as written: the channels come from `CHANNEL_VALUES`, whose
      lookup fails for two of the offered labels. */
  function ColorPresetAsWritten(sub: Option<ModuleData>, selection: Color.Selection): (r: Result<ModuleData, Color.ColorError>)
    ensures r.Ok? <==> Color.ChannelsAsWritten(selection).Ok?
  {
    var channels :- Color.ChannelsAsWritten(selection);
    Ok(ModuleData(ColorName, map["sub_module" := SubArg(sub), "channels" := ChannelsArg(channels)]))
  }

  /** The colour node with the table keyed by the offered labels. */
  function ColorPreset(sub: Option<ModuleData>, selection: Color.Selection): ModuleData {
    ModuleData(ColorName, map["sub_module" := SubArg(sub), "channels" := ChannelsArg(Color.Channels(selection))])
  }

  /** Lines 945-960: the module id is the node's own id. */
  function SkipPreset(latentName: string, noiseName: string, nodeId: string): ModuleData {
    ModuleData(SkipName, map["latent_input" := LatentsArg(latentName), "noise_input" := LatentsArg(noiseName), "module_id" := TextArg(nodeId)])
  }

  /** Lines 703-720 as written: MultiDiffusion without jitter, with the stride
      set to the tile size less the overlap, whatever the overlap is. */
  function TiledPresetAsWritten(sub: Option<ModuleData>, tileSize: int, overlap: int): ModuleData
    requires tileSize >= 128 && tileSize % 8 == 0 && overlap >= 0 && overlap % 8 == 0
  {
    ModuleData(MultiDiffusionName, map[
      "sub_module" := SubArg(sub), "tile_size" := IntArg(tileSize), "stride" := IntArg(tileSize - overlap),
      "enable_jitter" := BoolArg(false), "pad_mode" := NoneArg])
  }

  datatype PresetError = OverlapNotBelowTile

  /** The tiled node with the overlap required to be smaller than the tile, so
      that tiles still advance. */
  function TiledPreset(sub: Option<ModuleData>, tileSize: int, overlap: int): (r: Result<ModuleData, PresetError>)
    requires tileSize >= 128 && tileSize % 8 == 0 && overlap >= 0 && overlap % 8 == 0
    ensures r.Ok? <==> overlap < tileSize
    ensures r.Ok? ==> r.value == TiledPresetAsWritten(sub, tileSize, overlap)
  {
    if overlap >= tileSize then Err(OverlapNotBelowTile) else Ok(TiledPresetAsWritten(sub, tileSize, overlap))
  }

  /** The nodes without sub-module inputs resolve to the module they describe. */
  lemma {:induction false} LeafPresetsDecode(latentName: string, noiseName: string, nodeId: string)
    ensures Decode(StandardPreset()) == Ok(Standard)
    ensures Decode(SkipPreset(latentName, noiseName, nodeId)) == Ok(SkipResidual(latentName, noiseName, nodeId))
  {
  }

  /** The tiling nodes resolve to MultiDiffusion around whatever their
      sub-module input resolves to: with jitter and the given stride, or
      (tiled) without jitter and the stride the tile size less the overlap. */
  lemma {:induction false} TilingPresetsDecode(sub: Option<ModuleData>, s: Module, tileSize: int, stride: int, overlap: int, padMode: string)
    requires Resolve(sub) == Ok(s)
    requires tileSize >= 128 && tileSize % 8 == 0 && stride >= 64 && stride % 64 == 0
    requires overlap >= 0 && overlap % 8 == 0
    ensures Decode(MultiDiffusionPreset(sub, tileSize, stride, padMode)) == Ok(MultiDiffusion(s, tileSize, stride, Some(padMode), true))
    ensures Decode(TiledPresetAsWritten(sub, tileSize, overlap)) == Ok(MultiDiffusion(s, tileSize, tileSize - overlap, None, false))
  {
    assert DecodeSub(MultiDiffusionPreset(sub, tileSize, stride, padMode), "sub_module") == Resolve(sub);
    assert DecodeSub(TiledPresetAsWritten(sub, tileSize, overlap), "sub_module") == Resolve(sub);
  }

  /** The dilated and colour nodes resolve to their module around whatever
      their sub-module input resolves to. */
  lemma {:induction false} WrapperPresetsDecode(sub: Option<ModuleData>, s: Module, scale: int, decayRate: real, selection: Color.Selection)
    requires Resolve(sub) == Ok(s)
    requires scale >= 1 && decayRate >= 0.0
    ensures Decode(DilatedPreset(sub, scale, decayRate)) == Ok(DilatedSampling(s, scale, decayRate))
    ensures Decode(ColorPreset(sub, selection)) == Ok(ColorGuidance(s, Color.Channels(selection)))
  {
    assert DecodeSub(DilatedPreset(sub, scale, decayRate), "sub_module") == Resolve(sub);
    assert DecodeSub(ColorPreset(sub, selection), "sub_module") == Resolve(sub);
  }

  /** The transfer nodes resolve to their module around whatever their two
      sub-module inputs resolve to. */
  lemma {:induction false} TransferPresetsDecode(first: Option<ModuleData>, second: Option<ModuleData>, s1: Module, s2: Module,
                              decayRate: real, start: int, end: int)
    requires Resolve(first) == Ok(s1) && Resolve(second) == Ok(s2)
    requires decayRate >= 0.0 && start >= 0 && end >= 0
    ensures Decode(CosinePreset(first, second, decayRate)) == Ok(CosineDecay(s1, s2, decayRate))
    ensures Decode(LinearPreset(first, second, start, end)) == Ok(LinearTransfer(s1, s2, start, end))
  {
    assert DecodeSub(CosinePreset(first, second, decayRate), "sub_module_1") == Resolve(first);
    assert DecodeSub(CosinePreset(first, second, decayRate), "sub_module_2") == Resolve(second);
    assert DecodeSub(LinearPreset(first, second, start, end), "sub_module_1") == Resolve(first);
    assert DecodeSub(LinearPreset(first, second, start, end), "sub_module_2") == Resolve(second);
  }

  // ---------------------------------------------------------------------------
  // One step through the tree
  // ---------------------------------------------------------------------------

  /** `guidance_scale` of the conditioning data: one value, or one per step. */
  datatype Guidance = Scalar(scale: real) | PerStep(scales: seq<real>)

  /** What every module of one denoising step is called with: the step index,
      the timestep, the guidance, the number of latent channels, and the
      outcomes of `random.randint` for jittered tiling, one function that
      every MultiDiffusion of the step reads from its start. */
  datatype StepContext = StepContext(stepIndex: int, timestep: real, guidance: Guidance, latentChannels: nat, draws: nat -> Views.Jitter)

  /** One call of the standard module: the scheduler counter its
      `scheduler.step` read, the guidance scale it combined the two predictions
      with, and the extent of the sample it denoised. */
  datatype LeafCall = LeafCall(counter: int, guidance: real, rows: nat, cols: nat)

  /** A walk through the tree: the scheduler counter afterwards and the calls of
      the standard module in the order they happened. */
  datatype Run = Run(counter: int, leaves: seq<LeafCall>)

  /** Why a step fails: the guidance index, the view planner, the linear
      factor, the dilation scale, the colour channels, or a name the code as
      written reads without binding (`UnboundLocalError`, `NameError`). */
  datatype EvalError =
    | GuidanceIndexOutOfRange(index: int)
    | PlanFailed(plan: Views.PlanError)
    | TransferFailed(transfer: Transfer.TransferError)
    | NonPositiveScale
    | ColorFailed(color: Color.ColorError)
    | UnboundName(name: string)

  /** Lines 85-87: a per-step guidance list is indexed by the step index, with
      Python's reading of a negative index from the end. */
  function GuidanceAt(g: Guidance, i: int): (r: Result<real, EvalError>)
    ensures r.Ok? <==> g.Scalar? || -|g.scales| <= i < |g.scales|
    ensures r.Err? ==> r.error == GuidanceIndexOutOfRange(i)
  {
    match g
    case Scalar(s) => Ok(s)
    case PerStep(xs) =>
      if 0 <= i < |xs| then Ok(xs[i]) else if -|xs| <= i < 0 then Ok(xs[|xs| + i]) else Err(GuidanceIndexOutOfRange(i))
  }

  /** Lines 84-97 with the UNet, ControlNet and scheduler arithmetic left out:
      the guidance scale is picked for the step, `scheduler.step` reads the
      counter and advances it by one, and the module steps it back. */
  function StandardStep(c: StepContext, rows: nat, cols: nat, counter: int): (r: Result<Run, EvalError>)
    ensures r.Ok? <==> GuidanceAt(c.guidance, c.stepIndex).Ok?
    ensures r.Ok? ==> |r.value.leaves| == 1
  {
    var g :- GuidanceAt(c.guidance, c.stepIndex);
    var advanced := counter + 1;
    Ok(Run(advanced - 1, [LeafCall(counter, g, rows, cols)]))
  }

  /** Lines 217 and 221-224: the views of the tiling, and the padding every side
      of the latent gets (the jitter range with jitter, none without). */
  function Tiling(rows: nat, cols: nat, window: int, stride: int, jitter: bool, draws: nat -> Views.Jitter): (r: Result<seq<Views.View>, EvalError>)
    ensures r.Ok? <==> Views.GetViews(rows, cols, window, stride, jitter, draws).Ok?
    ensures r.Ok? ==> r.value == Views.GetViews(rows, cols, window, stride, jitter, draws).value
  {
    match Views.GetViews(rows, cols, window, stride, jitter, draws)
    case Ok(vs) => Ok(vs)
    case Err(e) => Err(PlanFailed(e))
  }

  /** Lines 220-226: the jitter range with jitter, nothing without. */
  function TilePadding(window: int, stride: int, jitter: bool): int {
    if jitter then Views.JitterRange(window, stride) else 0
  }

  /** An axis of `n` padded by `j` on both sides; a negative `j` crops. */
  function Padded(n: nat, j: int): nat {
    if n + 2 * j < 0 then 0 else n + 2 * j
  }

  /** Where a slice bound `b` lands on an axis of length `n`: Python counts a
      negative bound from the end and clips both ends to the axis. */
  function SliceBound(b: int, n: nat): (p: nat)
    ensures p <= n
  {
    if b < 0 then (if n + b < 0 then 0 else n + b)
    else if b < n then b else n
  }

  /** The extent of the slice `[start:end]` of an axis of length `n`, as Python
      measures it: both bounds placed on the axis, never below zero. */
  function SliceLen(start: int, end: int, n: nat): nat {
    var l := SliceBound(end, n) - SliceBound(start, n);
    if l < 0 then 0 else l
  }

  /** Lines 230-233: the extents of the tiles cut from the padded latent. */
  function TileExtents(vs: seq<Views.View>, rows: nat, cols: nat): (e: seq<(nat, nat)>)
    ensures |e| == |vs|
    ensures forall k :: 0 <= k < |vs| ==> e[k] == (SliceLen(vs[k].rowStart, vs[k].rowEnd, rows), SliceLen(vs[k].colStart, vs[k].colEnd, cols))
  {
    seq(|vs|, k requires 0 <= k < |vs| => (SliceLen(vs[k].rowStart, vs[k].rowEnd, rows), SliceLen(vs[k].colStart, vs[k].colEnd, cols)))
  }

  /** Lines 424-427: the extents of the interlaced sub-latents, row phase in the
      outer loop. */
  function PhaseExtents(rows: nat, cols: nat, scale: nat): (e: seq<(nat, nat)>)
    requires scale > 0
    ensures |e| == scale * scale
  {
    seq(scale * scale, k requires 0 <= k < scale * scale => (Dilated.PhaseLen(rows, scale, k / scale), Dilated.PhaseLen(cols, scale, k % scale)))
  }

  /** Line 585 with the step index supplied (see `Transfer.LinearFactor`). */
  function Factor(step: int, start: int, end: int): (r: Result<real, EvalError>)
    ensures r.Ok? <==> start != end
    ensures r.Ok? ==> r.value == Transfer.LinearFactor(step, start, end).value
  {
    match Transfer.LinearFactor(step, start, end)
    case Ok(f) => Ok(f)
    case Err(e) => Err(TransferFailed(e))
  }

  /** The timesteps at which colour guidance centres the prediction (lines
      805-808). */
  predicate ColorAdjusts(t: real) {
    t > 700.0 || 1.0 < t < 100.0
  }

  /** The channel indexing of line 746 on a latent with `n` channels: the first
      listed channel that does not exist raises. */
  function ChannelCheck(channels: seq<nat>, n: nat): (r: Result<(), EvalError>)
    ensures r.Ok? <==> forall i :: 0 <= i < |channels| ==> channels[i] < n
    ensures r.Err? ==> r.error.ColorFailed?
    decreases |channels|
  {
    if |channels| == 0 then Ok(())
    else if channels[0] >= n then Err(ColorFailed(Color.ChannelOutOfRange(channels[0])))
    else
      assert forall i :: 1 <= i < |channels| ==> channels[1..][i - 1] == channels[i];
      ChannelCheck(channels[1..], n)
  }

  /** The colour step of the walk fails exactly when `Color.ColorGuidance` does on
      a latent with that many channels. */
  lemma {:induction false} ColorStepAgrees(pred: Color.Latent, t: real, channels: seq<nat>)
    ensures (ColorAdjusts(t) ==> ChannelCheck(channels, |pred|).Ok?) <==> Color.ColorGuidance(pred, t, channels).Ok?
  {
  }

  /** Which code a walk follows: the module functions as written, where line
      235 reads `original_latents_pad`, bound only on the jitter branch, and
      line 585 reads `step_index`, which `linear_transfer` never binds; or the
      corrected code, which cuts the unpadded latents without jitter and takes
      the step index the caller passes (`Stitch.TileInputs`,
      `Transfer.LinearTransfer`). */
  datatype Reading = AsWritten | Corrected

  /** One step through the module tree on a latent of `rows x cols`, starting
      with the scheduler counter at `counter`. Every call of the standard
      module reads the counter the step started with and every walk hands it
      back unchanged, so modules running side by side never see each other's
      scheduler updates; every call combines with the guidance scale of the
      step; and a guidance error only arises from the step index lying outside
      the guidance list. Both readings keep these guarantees. */
  function Eval(rd: Reading, m: Module, c: StepContext, rows: nat, cols: nat, counter: int): (r: Result<Run, EvalError>)
    ensures r.Ok? ==> r.value.counter == counter
    ensures r.Ok? ==> forall i :: 0 <= i < |r.value.leaves| ==> r.value.leaves[i].counter == counter
    ensures r.Ok? ==> forall i :: 0 <= i < |r.value.leaves| ==> GuidanceAt(c.guidance, c.stepIndex) == Ok(r.value.leaves[i].guidance)
    ensures r.Err? && r.error.GuidanceIndexOutOfRange? ==> GuidanceAt(c.guidance, c.stepIndex).Err?
    ensures r.Err? && r.error.UnboundName? ==> rd == AsWritten
    decreases m, 0
  {
    match m
    case Standard => StandardStep(c, rows, cols, counter)
    case MultiDiffusion(sub, tileSize, stride, _, jitter) =>
      var window, s := tileSize / 8, stride / 8;
      var vs :- Tiling(rows, cols, window, s, jitter, c.draws);
      var j := TilePadding(window, s, jitter);
      EvalTiles(rd, sub, c, vs, Padded(rows, j), Padded(cols, j), jitter, counter)
    case DilatedSampling(sub, scale, _) =>
      if scale < 1 then Err(NonPositiveScale)
      else EvalEach(rd, sub, c, PhaseExtents(rows, cols, scale), counter)
    case CosineDecay(first, second, _) =>
      var r1 :- Eval(rd, first, c, rows, cols, counter);
      var r2 :- Eval(rd, second, c, rows, cols, r1.counter);
      Ok(Run(r2.counter, r1.leaves + r2.leaves))
    case LinearTransfer(first, second, start, end) =>
      if rd == AsWritten then Err(UnboundName("step_index"))
      else
        var f :- Factor(c.stepIndex, start, end);
        var r1 :- if f < 1.0 then Eval(rd, first, c, rows, cols, counter) else Ok(Run(counter, []));
        var r2 :- if f > 0.0 then Eval(rd, second, c, rows, cols, r1.counter) else Ok(Run(r1.counter, []));
        Ok(Run(r2.counter, r1.leaves + r2.leaves))
    case ColorGuidance(sub, channels) =>
      var r1 :- Eval(rd, sub, c, rows, cols, counter);
      if ColorAdjusts(c.timestep) && ChannelCheck(channels, c.latentChannels).Err? then
        Err(ChannelCheck(channels, c.latentChannels).error)
      else Ok(r1)
    case SkipResidual(_, _, _) => Ok(Run(counter, []))
  }

  /** Lines 229-290: the tiles of a plan are cut from the padded latent and the
      sub-module runs on each. As written, without jitter, the first view's
      cut of `original_latents_pad` raises before anything runs. */
  function EvalTiles(rd: Reading, sub: Module, c: StepContext, vs: seq<Views.View>, rows: nat, cols: nat, jitter: bool, counter: int): (r: Result<Run, EvalError>)
    ensures r.Ok? ==> r.value.counter == counter
    ensures r.Ok? ==> forall i :: 0 <= i < |r.value.leaves| ==> r.value.leaves[i].counter == counter
    ensures r.Ok? ==> forall i :: 0 <= i < |r.value.leaves| ==> GuidanceAt(c.guidance, c.stepIndex) == Ok(r.value.leaves[i].guidance)
    ensures r.Err? && r.error.GuidanceIndexOutOfRange? ==> GuidanceAt(c.guidance, c.stepIndex).Err?
    ensures r.Err? && r.error.UnboundName? ==> rd == AsWritten
    decreases sub, 2
  {
    if rd == AsWritten && !jitter && vs != [] then Err(UnboundName("original_latents_pad"))
    else EvalEach(rd, sub, c, TileExtents(vs, rows, cols), counter)
  }

  /** The sub-module run once per extent, in order, each call starting from the
      counter the previous one left. */
  function EvalEach(rd: Reading, sub: Module, c: StepContext, extents: seq<(nat, nat)>, counter: int): (r: Result<Run, EvalError>)
    ensures r.Ok? ==> r.value.counter == counter
    ensures r.Ok? ==> forall i :: 0 <= i < |r.value.leaves| ==> r.value.leaves[i].counter == counter
    ensures r.Ok? ==> forall i :: 0 <= i < |r.value.leaves| ==> GuidanceAt(c.guidance, c.stepIndex) == Ok(r.value.leaves[i].guidance)
    ensures r.Err? && r.error.GuidanceIndexOutOfRange? ==> GuidanceAt(c.guidance, c.stepIndex).Err?
    ensures r.Err? && r.error.UnboundName? ==> rd == AsWritten
    decreases sub, 1, |extents|
  {
    if |extents| == 0 then Ok(Run(counter, []))
    else
      var r1 :- Eval(rd, sub, c, extents[0].0, extents[0].1, counter);
      var r2 :- EvalEach(rd, sub, c, extents[1..], r1.counter);
      Ok(Run(r2.counter, r1.leaves + r2.leaves))
  }

  /** A tree that never reaches line 235 without jitter or line 585: no linear
      transfer and only jittered MultiDiffusion. */
  predicate AvoidsUnboundNames(m: Module) {
    match m
    case Standard => true
    case MultiDiffusion(sub, _, _, _, jitter) => jitter && AvoidsUnboundNames(sub)
    case DilatedSampling(sub, _, _) => AvoidsUnboundNames(sub)
    case CosineDecay(first, second, _) => AvoidsUnboundNames(first) && AvoidsUnboundNames(second)
    case LinearTransfer(_, _, _, _) => false
    case ColorGuidance(sub, _) => AvoidsUnboundNames(sub)
    case SkipResidual(_, _, _) => true
  }

  /** On such a tree the code as written and the corrected code walk alike. */
  lemma {:induction false} ReadingsAgree(m: Module, c: StepContext, rows: nat, cols: nat, counter: int)
    requires AvoidsUnboundNames(m)
    ensures Eval(AsWritten, m, c, rows, cols, counter) == Eval(Corrected, m, c, rows, cols, counter)
    decreases m, 0
  {
    match m
    case Standard =>
    case MultiDiffusion(sub, tileSize, stride, _, jitter) =>
      var window, s := tileSize / 8, stride / 8;
      var vs := Tiling(rows, cols, window, s, jitter, c.draws);
      if vs.Ok? {
        var j := TilePadding(window, s, jitter);
        EachReadingsAgree(sub, c, TileExtents(vs.value, Padded(rows, j), Padded(cols, j)), counter);
      }
    case DilatedSampling(sub, scale, _) =>
      if scale >= 1 {
        EachReadingsAgree(sub, c, PhaseExtents(rows, cols, scale), counter);
      }
    case CosineDecay(first, second, _) =>
      ReadingsAgree(first, c, rows, cols, counter);
      ReadingsAgree(second, c, rows, cols, counter);
    case ColorGuidance(sub, _) =>
      ReadingsAgree(sub, c, rows, cols, counter);
    case SkipResidual(_, _, _) =>
  }

  /** The same, run once per extent. */
  lemma {:induction false} EachReadingsAgree(sub: Module, c: StepContext, extents: seq<(nat, nat)>, counter: int)
    requires AvoidsUnboundNames(sub)
    ensures EvalEach(AsWritten, sub, c, extents, counter) == EvalEach(Corrected, sub, c, extents, counter)
    decreases sub, 1, |extents|
  {
    if |extents| > 0 {
      ReadingsAgree(sub, c, extents[0].0, extents[0].1, counter);
      EachReadingsAgree(sub, c, extents[1..], counter);
    }
  }

  // ---------------------------------------------------------------------------
  // Properties of the walk
  // ---------------------------------------------------------------------------

  /** Linear transfer runs only the first sub-module up to the start step, only
      the second from the end step on, and in between runs both in order, just
      as cosine decay does. */
  lemma {:induction false} LinearTransferRuns(first: Module, second: Module, start: int, end: int, decayRate: real,
                           c: StepContext, rows: nat, cols: nat, counter: int)
    requires start < end
    ensures c.stepIndex <= start ==> Eval(Corrected, LinearTransfer(first, second, start, end), c, rows, cols, counter) == Eval(Corrected, first, c, rows, cols, counter)
    ensures c.stepIndex >= end ==> Eval(Corrected, LinearTransfer(first, second, start, end), c, rows, cols, counter) == Eval(Corrected, second, c, rows, cols, counter)
    ensures start < c.stepIndex < end ==>
              Eval(Corrected, LinearTransfer(first, second, start, end), c, rows, cols, counter) == Eval(Corrected, CosineDecay(first, second, decayRate), c, rows, cols, counter)
    ensures Eval(AsWritten, LinearTransfer(first, second, start, end), c, rows, cols, counter) == Err(UnboundName("step_index"))
  {
    var f := Transfer.LinearFactor(c.stepIndex, start, end).value;
    if c.stepIndex <= start {
      var r1 := Eval(Corrected, first, c, rows, cols, counter);
      if r1.Ok? {
        assert r1.value.leaves + [] == r1.value.leaves;
      }
    } else if c.stepIndex >= end {
      var r2 := Eval(Corrected, second, c, rows, cols, counter);
      assert f == 1.0;
      if r2.Ok? {
        assert [] + r2.value.leaves == r2.value.leaves;
      }
    }
  }

  /** A tree with no tiling in it: the number of its standard calls does not
      depend on the extent of the latent. */
  predicate Untiled(m: Module) {
    match m
    case Standard => true
    case MultiDiffusion(_, _, _, _, _) => false
    case DilatedSampling(sub, _, _) => Untiled(sub)
    case CosineDecay(first, second, _) => Untiled(first) && Untiled(second)
    case LinearTransfer(first, second, _, _) => Untiled(first) && Untiled(second)
    case ColorGuidance(sub, _) => Untiled(sub)
    case SkipResidual(_, _, _) => true
  }

  /** How many times an untiled tree calls the standard module at a step: once
      per standard leaf, `scale * scale` times per dilation, both sides of a
      cosine decay, the sides of a linear transfer whose weight is not zero,
      and never below a skip residual. */
  function Calls(m: Module, step: int): nat
    requires Untiled(m)
  {
    match m
    case Standard => 1
    case DilatedSampling(sub, scale, _) => if scale < 1 then 0 else scale * scale * Calls(sub, step)
    case CosineDecay(first, second, _) => Calls(first, step) + Calls(second, step)
    case LinearTransfer(first, second, start, end) =>
      if start == end then 0
      else
        var f := Transfer.LinearFactor(step, start, end).value;
        (if f < 1.0 then Calls(first, step) else 0) + (if f > 0.0 then Calls(second, step) else 0)
    case ColorGuidance(sub, _) => Calls(sub, step)
    case SkipResidual(_, _, _) => 0
  }

  /** A successful walk of an untiled tree makes exactly `Calls` standard calls. */
  lemma {:induction false} LeafCount(rd: Reading, m: Module, c: StepContext, rows: nat, cols: nat, counter: int)
    requires Untiled(m)
    ensures Eval(rd, m, c, rows, cols, counter).Ok? ==> |Eval(rd, m, c, rows, cols, counter).value.leaves| == Calls(m, c.stepIndex)
    decreases m, 0
  {
    var r := Eval(rd, m, c, rows, cols, counter);
    if r.Ok? {
      match m
      case Standard =>
      case DilatedSampling(sub, scale, _) =>
        EachLeafCount(rd, sub, c, PhaseExtents(rows, cols, scale), counter);
      case CosineDecay(first, second, _) =>
        LeafCount(rd, first, c, rows, cols, counter);
        LeafCount(rd, second, c, rows, cols, counter);
      case LinearTransfer(first, second, start, end) =>
        LeafCount(rd, first, c, rows, cols, counter);
        LeafCount(rd, second, c, rows, cols, counter);
      case ColorGuidance(sub, _) =>
        LeafCount(rd, sub, c, rows, cols, counter);
      case SkipResidual(_, _, _) =>
    }
  }

  /** Running an untiled sub-module once per extent makes `Calls` standard calls
      per extent. */
  lemma {:induction false} EachLeafCount(rd: Reading, sub: Module, c: StepContext, extents: seq<(nat, nat)>, counter: int)
    requires Untiled(sub)
    ensures EvalEach(rd, sub, c, extents, counter).Ok? ==>
              |EvalEach(rd, sub, c, extents, counter).value.leaves| == |extents| * Calls(sub, c.stepIndex)
    decreases sub, 1, |extents|
  {
    var r := EvalEach(rd, sub, c, extents, counter);
    if r.Ok? && |extents| > 0 {
      var r1 := Eval(rd, sub, c, extents[0].0, extents[0].1, counter);
      LeafCount(rd, sub, c, extents[0].0, extents[0].1, counter);
      EachLeafCount(rd, sub, c, extents[1..], r1.value.counter);
      var k := Calls(sub, c.stepIndex);
      assert |extents| * k == k + (|extents| - 1) * k;
    }
  }

  /** MultiDiffusion is its sub-module run once per tile of the plan. As
      written, without jitter, the first tile's cut of the original latents
      (line 235) raises before any sub-module runs, since every plan has a
      view. */
  lemma {:induction false} TiledIsEach(rd: Reading, sub: Module, tileSize: int, stride: int, padMode: Option<string>, jitter: bool,
                    c: StepContext, rows: nat, cols: nat, counter: int)
    ensures var vs := Tiling(rows, cols, tileSize / 8, stride / 8, jitter, c.draws);
            vs.Err? ==> Eval(rd, MultiDiffusion(sub, tileSize, stride, padMode, jitter), c, rows, cols, counter) == Err(vs.error)
    ensures var vs := Tiling(rows, cols, tileSize / 8, stride / 8, jitter, c.draws);
            vs.Ok? && rd == AsWritten && !jitter ==>
              Eval(rd, MultiDiffusion(sub, tileSize, stride, padMode, jitter), c, rows, cols, counter) == Err(UnboundName("original_latents_pad"))
    ensures var window, s := tileSize / 8, stride / 8;
            var vs := Tiling(rows, cols, window, s, jitter, c.draws);
            var j := TilePadding(window, s, jitter);
            vs.Ok? && (rd == Corrected || jitter) ==>
              Eval(rd, MultiDiffusion(sub, tileSize, stride, padMode, jitter), c, rows, cols, counter) ==
                EvalEach(rd, sub, c, TileExtents(vs.value, Padded(rows, j), Padded(cols, j)), counter)
  {
    PlanHasView(rows, cols, tileSize / 8, stride / 8, jitter, c.draws);
    TiledUnfolds(rd, sub, tileSize, stride, padMode, jitter, c, rows, cols, counter);
  }

  /** One unfolding of the MultiDiffusion walk: the planner's error, or the
      tiles of its plan. */
  lemma {:induction false} TiledUnfolds(rd: Reading, sub: Module, tileSize: int, stride: int, padMode: Option<string>, jitter: bool,
                     c: StepContext, rows: nat, cols: nat, counter: int)
    ensures var vs := Tiling(rows, cols, tileSize / 8, stride / 8, jitter, c.draws);
            vs.Err? ==> Eval(rd, MultiDiffusion(sub, tileSize, stride, padMode, jitter), c, rows, cols, counter) == Err(vs.error)
    ensures var window, s := tileSize / 8, stride / 8;
            var vs := Tiling(rows, cols, window, s, jitter, c.draws);
            var j := TilePadding(window, s, jitter);
            vs.Ok? ==> Eval(rd, MultiDiffusion(sub, tileSize, stride, padMode, jitter), c, rows, cols, counter) ==
                         EvalTiles(rd, sub, c, vs.value, Padded(rows, j), Padded(cols, j), jitter, counter)
  {
  }

  /** Every plan has at least one view. */
  lemma {:induction false} PlanHasView(rows: nat, cols: nat, window: int, stride: int, jitter: bool, draws: nat -> Views.Jitter)
    ensures var vs := Tiling(rows, cols, window, stride, jitter, draws);
            vs.Ok? ==> |vs.value| > 0
  {
    var vs := Tiling(rows, cols, window, stride, jitter, draws);
    if vs.Ok? {
      Arith.MulMono(1, Views.NumBlocks(rows, window, stride), Views.NumBlocks(cols, window, stride));
    }
  }

  /** MultiDiffusion over an untiled sub-module makes `Calls` standard calls
      per view, `NumBlocks` views along each axis. */
  lemma {:induction false} TiledLeafCount(rd: Reading, sub: Module, tileSize: int, stride: int, padMode: Option<string>, jitter: bool,
                       c: StepContext, rows: nat, cols: nat, counter: int)
    requires Untiled(sub)
    ensures var r := Eval(rd, MultiDiffusion(sub, tileSize, stride, padMode, jitter), c, rows, cols, counter);
            var window, s := tileSize / 8, stride / 8;
            r.Ok? ==> (rows <= window || s > 0) && (cols <= window || s > 0) &&
                      |r.value.leaves| == Views.NumBlocks(rows, window, s) * Views.NumBlocks(cols, window, s) * Calls(sub, c.stepIndex)
  {
    var window, s := tileSize / 8, stride / 8;
    var vs := Tiling(rows, cols, window, s, jitter, c.draws);
    TiledIsEach(rd, sub, tileSize, stride, padMode, jitter, c, rows, cols, counter);
    if vs.Ok? {
      var j := TilePadding(window, s, jitter);
      var e := TileExtents(vs.value, Padded(rows, j), Padded(cols, j));
      EachLeafCount(rd, sub, c, e, counter);
      assert |e| == Views.NumBlocks(rows, window, s) * Views.NumBlocks(cols, window, s);
    }
  }

  /** Run on standard modules, a list of extents gives one call per extent, in
      order, each on its own extent. */
  lemma {:induction false} EachStandardCall(rd: Reading, c: StepContext, extents: seq<(nat, nat)>, counter: int)
    ensures var r := EvalEach(rd, Standard, c, extents, counter);
            r.Ok? ==> |r.value.leaves| == |extents| &&
                      forall k :: 0 <= k < |extents| ==> (r.value.leaves[k].rows, r.value.leaves[k].cols) == extents[k]
    decreases |extents|
  {
    if |extents| > 0 {
      EachStandardCall(rd, c, extents[1..], counter);
      var r := EvalEach(rd, Standard, c, extents, counter);
      if r.Ok? {
        var first := Eval(rd, Standard, c, extents[0].0, extents[0].1, counter);
        assert first == StandardStep(c, extents[0].0, extents[0].1, counter);
        var rest := EvalEach(rd, Standard, c, extents[1..], counter).value.leaves;
        assert r.value.leaves == first.value.leaves + rest;
        assert forall k :: 1 <= k < |extents| ==> extents[k] == extents[1..][k - 1];
      }
    }
  }

  /** Without jitter, on a latent at least a window wide in both directions,
      every tile the standard module denoises in the corrected code is exactly
      `tile_size / 8` square; as written, the same step never reaches the
      standard module, because the plan exists and line 235 raises. */
  lemma {:induction false} UnjitteredTilesAreWindows(tileSize: int, stride: int, padMode: Option<string>, c: StepContext, rows: nat, cols: nat, counter: int)
    requires tileSize >= 128 && tileSize / 8 <= rows && tileSize / 8 <= cols
    ensures var r := Eval(Corrected, MultiDiffusion(Standard, tileSize, stride, padMode, false), c, rows, cols, counter);
            r.Ok? ==> forall k :: 0 <= k < |r.value.leaves| ==> r.value.leaves[k].rows == tileSize / 8 == r.value.leaves[k].cols
    ensures var w := Eval(AsWritten, MultiDiffusion(Standard, tileSize, stride, padMode, false), c, rows, cols, counter);
            w.Err? && (stride / 8 > 0 ==> w.error == UnboundName("original_latents_pad"))
  {
    var window, s := tileSize / 8, stride / 8;
    var vs := Tiling(rows, cols, window, s, false, c.draws);
    TiledIsEach(Corrected, Standard, tileSize, stride, padMode, false, c, rows, cols, counter);
    TiledIsEach(AsWritten, Standard, tileSize, stride, padMode, false, c, rows, cols, counter);
    if vs.Ok? {
      assert TilePadding(window, s, false) == 0 && Padded(rows, 0) == rows && Padded(cols, 0) == cols;
      UnjitteredExtentsAreWindows(rows, cols, window, s, c.draws, vs.value);
      EachStandardCall(Corrected, c, TileExtents(vs.value, rows, cols), counter);
    }
  }

  /** The tiles of an unjittered plan on a latent at least a window wide are
      `window` square. */
  lemma {:induction false} UnjitteredExtentsAreWindows(rows: nat, cols: nat, window: int, stride: int, draws: nat -> Views.Jitter, vs: seq<Views.View>)
    requires 0 <= window <= rows && window <= cols
    requires Views.GetViews(rows, cols, window, stride, false, draws) == Ok(vs)
    ensures forall k :: 0 <= k < |vs| ==> TileExtents(vs, rows, cols)[k] == (window, window)
  {
    Views.ViewsHaveWindowSize(rows, cols, window, stride, false, draws);
    Views.ViewsInBounds(rows, cols, window, stride, draws);
    forall k | 0 <= k < |vs|
      ensures SliceLen(vs[k].rowStart, vs[k].rowEnd, rows) == window && SliceLen(vs[k].colStart, vs[k].colEnd, cols) == window
    {
      var v := vs[k];
      assert 0 <= v.rowStart && v.rowEnd <= rows && v.rowEnd - v.rowStart == window;
      assert 0 <= v.colStart && v.colEnd <= cols && v.colEnd - v.colStart == window;
      InsideSlice(v.rowStart, v.rowEnd, rows);
      InsideSlice(v.colStart, v.colEnd, cols);
    }
  }

  /** A slice inside the axis is as long as its bounds say. */
  lemma {:induction false} InsideSlice(start: int, end: int, n: nat)
    requires 0 <= start <= end <= n
    ensures SliceLen(start, end, n) == end - start
  {
  }

  /** A negative start counts from the end of the axis, so a slice reaching
      back past the axis end keeps only its last `-start` cells or fewer: on a
      12-long axis `[-2:14]` is 2 long, not 16. */
  lemma {:induction false} NegativeStartCountsFromEnd(start: int, end: int, n: nat)
    requires 0 - n <= start < 0 && n <= end
    ensures SliceLen(start, end, n) == -start
    ensures SliceLen(-2, 14, 12) == 2
  {
    assert SliceBound(start, n) == n + start;
    assert SliceBound(end, n) == n;
  }

  /** A tiled node whose overlap is at least its tile size gives a stride of
      zero or less, and in either reading every step on a latent longer than
      one tile then fails in the view planner. At an overlap equal to the tile
      size that is the division by zero of line 135. A larger overlap gives a
      negative stride, which `Views.GetViews` reports as the same error; the
      source instead plans from truncated, possibly negative block counts
      (see `Views.GetViews`). */
  lemma {:induction false} TiledPresetAsWrittenFails(rd: Reading, sub: Option<ModuleData>, s: Module, tileSize: int, overlap: int,
                                  c: StepContext, rows: nat, cols: nat, counter: int)
    requires Resolve(sub) == Ok(s)
    requires tileSize >= 128 && tileSize % 8 == 0 && overlap >= 0 && overlap % 8 == 0
    requires overlap >= tileSize && rows > tileSize / 8
    ensures Decode(TiledPresetAsWritten(sub, tileSize, overlap)) == Ok(MultiDiffusion(s, tileSize, tileSize - overlap, None, false))
    ensures Eval(rd, MultiDiffusion(s, tileSize, tileSize - overlap, None, false), c, rows, cols, counter) == Err(PlanFailed(Views.ZeroStride))
  {
    TilingPresetsDecode(sub, s, tileSize, 64, overlap, "");
    assert (tileSize - overlap) / 8 <= 0;
  }

  /** As written, every step of the tiled node fails, whatever its sub-module
      and latent: with a valid stride the plan has a view and line 235 raises,
      otherwise the planner fails. */
  lemma {:induction false} TiledNodeFailsAsWritten(sub: Option<ModuleData>, s: Module, tileSize: int, overlap: int,
                                c: StepContext, rows: nat, cols: nat, counter: int)
    requires Resolve(sub) == Ok(s)
    requires tileSize >= 128 && tileSize % 8 == 0 && overlap >= 0 && overlap % 8 == 0
    ensures Decode(TiledPresetAsWritten(sub, tileSize, overlap)) == Ok(MultiDiffusion(s, tileSize, tileSize - overlap, None, false))
    ensures var w := Eval(AsWritten, MultiDiffusion(s, tileSize, tileSize - overlap, None, false), c, rows, cols, counter);
            w.Err? && (w.error == UnboundName("original_latents_pad") || w.error == PlanFailed(Views.ZeroStride))
  {
    TilingPresetsDecode(sub, s, tileSize, 64, overlap, "");
    UnjitteredFailsAsWritten(s, tileSize, tileSize - overlap, None, c, rows, cols, counter);
  }

  /** As written, every unjittered MultiDiffusion step fails: on
      `original_latents_pad` when the planner succeeds, since every plan has a
      view, and on the zero stride otherwise. */
  lemma {:induction false} UnjitteredFailsAsWritten(sub: Module, tileSize: int, stride: int, padMode: Option<string>,
                                 c: StepContext, rows: nat, cols: nat, counter: int)
    ensures var w := Eval(AsWritten, MultiDiffusion(sub, tileSize, stride, padMode, false), c, rows, cols, counter);
            w.Err? && (w.error == UnboundName("original_latents_pad") || w.error == PlanFailed(Views.ZeroStride))
  {
    TiledIsEach(AsWritten, sub, tileSize, stride, padMode, false, c, rows, cols, counter);
    var vs := Tiling(rows, cols, tileSize / 8, stride / 8, false, c.draws);
    if vs.Err? {
      assert vs.error == PlanFailed(Views.ZeroStride);
    }
  }

  /** With the overlap below the tile size, the tiled node's stride is at
      least one latent cell, so the view planner succeeds on every latent and
      the tiles cover it. */
  lemma {:induction false} TiledPresetPlans(sub: Option<ModuleData>, s: Module, tileSize: int, overlap: int, draws: nat -> Views.Jitter, rows: nat, cols: nat)
    requires Resolve(sub) == Ok(s)
    requires tileSize >= 128 && tileSize % 8 == 0 && overlap >= 0 && overlap % 8 == 0
    requires TiledPreset(sub, tileSize, overlap).Ok?
    ensures Decode(TiledPreset(sub, tileSize, overlap).value) == Ok(MultiDiffusion(s, tileSize, tileSize - overlap, None, false))
    ensures (tileSize - overlap) / 8 >= 1
    ensures Tiling(rows, cols, tileSize / 8, (tileSize - overlap) / 8, false, draws).Ok?
  {
    TilingPresetsDecode(sub, s, tileSize, 64, overlap, "");
    var a, b := tileSize / 8, overlap / 8;
    assert tileSize == 8 * a && overlap == 8 * b;
    assert tileSize - overlap == 8 * (a - b);
    assert (tileSize - overlap) / 8 == a - b;
  }
}
