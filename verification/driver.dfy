/** The input checks and bookkeeping of the denoise node
    (denoise_latents_nodes.py): the guidance-scale validator and length check,
    the normalisation of optional single-or-list inputs, the choice of initial
    latents, noise and seed, and the T2I-Adapter resize arithmetic. */
module Driver {
  import opened Wrappers
  import ModuleTree
  import Arith

  // ---------------------------------------------------------------------------
  // Guidance scale
  // ---------------------------------------------------------------------------

  /** `ge_one`'s `ValueError` and the assertion of lines 334-336. */
  datatype CfgError = ScaleBelowOne | LengthDiffersFromSteps

  /** Every guidance scale the setting holds is at least one. */
  predicate AtLeastOne(g: ModuleTree.Guidance) {
    match g
    case Scalar(s) => s >= 1.0
    case PerStep(xs) => forall i :: 0 <= i < |xs| ==> xs[i] >= 1.0
  }

  /** Lines 165-175: a scalar or every entry of a list must be at least one;
      the value passes through as it is. */
  method GeOne(v: ModuleTree.Guidance) returns (r: Result<ModuleTree.Guidance, CfgError>)
    ensures r.Ok? <==> AtLeastOne(v)
    ensures r.Ok? ==> r.value == v
    ensures r.Err? ==> r.error == ScaleBelowOne
  {
    match v {
      case Scalar(s) =>
        if s < 1.0 {
          return Err(ScaleBelowOne);
        }
      case PerStep(xs) =>
        var k := 0;
        while k < |xs|
          invariant 0 <= k <= |xs|
          invariant forall i :: 0 <= i < k ==> xs[i] >= 1.0
        {
          if xs[k] < 1.0 {
            return Err(ScaleBelowOne);
          }
          k := k + 1;
        }
    }
    return Ok(v);
  }

  /** Lines 333-336: a per-step list must have one entry per step. */
  function CheckLength(g: ModuleTree.Guidance, steps: nat): (r: Result<ModuleTree.Guidance, CfgError>)
    ensures r.Ok? <==> (g.PerStep? ==> |g.scales| == steps)
    ensures r.Ok? ==> r.value == g
    ensures r.Err? ==> r.error == LengthDiffersFromSteps
  {
    if g.PerStep? && |g.scales| != steps then Err(LengthDiffersFromSteps) else Ok(g)
  }

  /** A guidance setting that passed both checks gives every step in range a
      scale of at least one, so no standard module of such a step fails on
      the guidance index and every one combines its predictions with a scale
      of at least one. Without the length check, a list shorter than the
      step count leaves a step without a scale. */
  lemma {:induction false} ValidGuidanceCoversSteps(g: ModuleTree.Guidance, steps: nat, rd: ModuleTree.Reading, m: ModuleTree.Module, c: ModuleTree.StepContext,
                                 rows: nat, cols: nat, counter: int)
    requires AtLeastOne(g) && CheckLength(g, steps).Ok?
    requires c.guidance == g && 0 <= c.stepIndex < steps
    ensures ModuleTree.GuidanceAt(g, c.stepIndex).Ok? && ModuleTree.GuidanceAt(g, c.stepIndex).value >= 1.0
    ensures var r := ModuleTree.Eval(rd, m, c, rows, cols, counter);
            (r.Err? ==> !r.error.GuidanceIndexOutOfRange?) &&
            (r.Ok? ==> forall i :: 0 <= i < |r.value.leaves| ==> r.value.leaves[i].guidance >= 1.0)
  {
    var r := ModuleTree.Eval(rd, m, c, rows, cols, counter);
    if r.Ok? {
      forall i | 0 <= i < |r.value.leaves|
        ensures r.value.leaves[i].guidance >= 1.0
      {
        assert ModuleTree.GuidanceAt(g, c.stepIndex) == Ok(r.value.leaves[i].guidance);
      }
    }
  }

  /** A per-step list shorter than the step count, which the length check
      rejects, leaves the first step past its end without a scale. */
  lemma {:induction false} ShortGuidanceFails(xs: seq<real>, steps: nat)
    requires |xs| < steps
    ensures CheckLength(ModuleTree.PerStep(xs), steps).Err?
    ensures 0 <= |xs| < steps && ModuleTree.GuidanceAt(ModuleTree.PerStep(xs), |xs|).Err?
  {
  }

  // ---------------------------------------------------------------------------
  // Single-or-list inputs
  // ---------------------------------------------------------------------------

  /** An input that takes one item or a list of them. */
  datatype OneOrMany<T> = One(item: T) | Many(items: seq<T>)

  /** Lines 304-309 and 468-470: a single item becomes a one-item list. */
  function AsList<T>(x: OneOrMany<T>): seq<T> {
    match x
    case One(item) => [item]
    case Many(items) => items
  }

  /** Lines 450-458 (IP-Adapter) and 509-517 (T2I-Adapter): an absent input or
      an empty list is no input; otherwise the input as a list. */
  function Normalise<T>(x: Option<OneOrMany<T>>): (r: Option<seq<T>>)
    ensures r.Some? ==> |r.value| > 0
  {
    match x
    case None => None
    case Some(v) => if |AsList(v)| == 0 then None else Some(AsList(v))
  }

  /** A normalised input given back as a list input. */
  function Relist<T>(r: Option<seq<T>>): Option<OneOrMany<T>> {
    match r
    case None => None
    case Some(xs) => Some(Many(xs))
  }

  /** Normalising yields no input exactly for an absent input or an empty
      list, a single item as the one entry of a list and a non-empty list
      unchanged; normalising what it yields changes nothing. */
  lemma {:induction false} NormaliseCases<T>(x: Option<OneOrMany<T>>)
    ensures Normalise(x).None? <==> x.None? || x == Some(Many([]))
    ensures x.Some? && x.value.One? ==> Normalise(x) == Some([x.value.item])
    ensures x.Some? && x.value.Many? && |x.value.items| > 0 ==> Normalise(x) == Some(x.value.items)
    ensures Normalise(Relist(Normalise(x))) == Normalise(x)
  {
  }

  /** An entry of a control input: a `ControlField`, or a value of another
      type. */
  datatype Entry<T> = Field(field: T) | Foreign

  /** Lines 382-393: like `Normalise`, except that a single value that is not
      a field, or a list whose first entry is not one, is no input. Only the
      first entry of a list is looked at. */
  function NormaliseControl<T>(x: Option<OneOrMany<Entry<T>>>): (r: Option<seq<Entry<T>>>)
    ensures r.Some? ==> |r.value| > 0 && r.value[0].Field?
  {
    match x
    case None => None
    case Some(Many(items)) => if |items| > 0 && items[0].Field? then Some(items) else None
    case Some(One(item)) => if item.Field? then Some([item]) else None
  }

  /** Every entry of a list as a field. */
  function Fields<T>(xs: seq<T>): (r: seq<Entry<T>>)
    ensures |r| == |xs| && forall i :: 0 <= i < |xs| ==> r[i] == Field(xs[i])
  {
    seq(|xs|, i requires 0 <= i < |xs| => Field(xs[i]))
  }

  function LiftInput<T>(x: Option<OneOrMany<T>>): Option<OneOrMany<Entry<T>>> {
    match x
    case None => None
    case Some(One(item)) => Some(One(Field(item)))
    case Some(Many(items)) => Some(Many(Fields(items)))
  }

  /** On inputs made of fields only, the control normalisation is the common
      one; a list led by a foreign value is dropped as a whole. */
  lemma {:induction false} ControlAgreesOnFields<T>(x: Option<OneOrMany<T>>, rest: seq<Entry<T>>)
    ensures var n := Normalise(x);
            NormaliseControl(LiftInput(x)) == (if n.None? then None else Some(Fields(n.value)))
    ensures NormaliseControl(Some(Many([Foreign] + rest))).None?
  {
    if x.Some? && x.value.One? {
      assert Fields([x.value.item]) == [Field(x.value.item)];
    }
  }

  // ---------------------------------------------------------------------------
  // Initial latents, noise and seed
  // ---------------------------------------------------------------------------

  /** A connected latents input (`LatentsField`): the stored tensor's name and
      the seed it carries, if any. */
  datatype LatentsRef = LatentsRef(name: string, seed: Option<int>)

  /** The latents denoising starts from: a stored tensor, or zeros shaped like
      the stored noise. */
  datatype Initial = Loaded(name: string) | ZerosLike(noiseName: string)

  /** What lines 650-670 leave behind: the initial latents and their shape,
      the noise if any, and the seed. */
  datatype Prepared = Prepared(latents: Initial, latentShape: seq<nat>, noise: Option<string>, seed: int)

  /** The two exceptions of lines 662 and 667. */
  datatype PrepareError = IncompatibleShapes | NoLatentsOrNoise

  /** `shape[1:]`. */
  function Drop1(shape: seq<nat>): seq<nat> {
    if |shape| == 0 then [] else shape[1..]
  }

  /** Lines 650-670, with the tensor store reduced to the shape of each stored
      tensor (`shapeOf`). */
  function PrepareInputs(noise: Option<LatentsRef>, latents: Option<LatentsRef>, shapeOf: string -> seq<nat>): (r: Result<Prepared, PrepareError>)
    ensures r.Ok? ==> r.value.noise == (if noise.Some? then Some(noise.value.name) else None)
  {
    var seed0 := if noise.Some? then noise.value.seed else None;
    var noiseName := if noise.Some? then Some(noise.value.name) else None;
    if latents.Some? then
      var seed1 := if seed0.None? then latents.value.seed else seed0;
      if noise.Some? && Drop1(shapeOf(noise.value.name)) != Drop1(shapeOf(latents.value.name)) then Err(IncompatibleShapes)
      else Ok(Prepared(Loaded(latents.value.name), shapeOf(latents.value.name), noiseName, if seed1.None? then 0 else seed1.value))
    else if noise.Some? then
      Ok(Prepared(ZerosLike(noise.value.name), shapeOf(noise.value.name), noiseName, if seed0.None? then 0 else seed0.value))
    else Err(NoLatentsOrNoise)
  }

  /** The first seed that is there, or 0. */
  function FirstSeed(seeds: seq<Option<int>>): int {
    if |seeds| == 0 then 0 else if seeds[0].Some? then seeds[0].value else FirstSeed(seeds[1..])
  }

  /** The seed of an input if it is connected. */
  function SeedOf(x: Option<LatentsRef>): Option<int> {
    if x.Some? then x.value.seed else None
  }

  /** Preparation fails exactly when neither input is connected or both are
      and their shapes past the batch dimension differ. Otherwise the seed is
      the noise's, else the latents', else 0; the initial latents are the
      latents input when connected, else zeros shaped like the noise; and the
      latents agree with the noise past the batch dimension. */
  lemma {:induction false} PrepareInputsSpec(noise: Option<LatentsRef>, latents: Option<LatentsRef>, shapeOf: string -> seq<nat>)
    ensures var r := PrepareInputs(noise, latents, shapeOf);
            (r.Err? <==> (noise.None? && latents.None?) ||
                         (noise.Some? && latents.Some? && Drop1(shapeOf(noise.value.name)) != Drop1(shapeOf(latents.value.name)))) &&
            (r.Err? && noise.None? ==> r.error == NoLatentsOrNoise) &&
            (r.Err? && noise.Some? ==> r.error == IncompatibleShapes)
    ensures var r := PrepareInputs(noise, latents, shapeOf);
            r.Ok? ==>
              r.value.seed == FirstSeed([SeedOf(noise), SeedOf(latents)]) &&
              r.value.latents == (if latents.Some? then Loaded(latents.value.name) else ZerosLike(noise.value.name)) &&
              (noise.Some? ==> Drop1(r.value.latentShape) == Drop1(shapeOf(noise.value.name))) &&
              (latents.Some? ==> r.value.latentShape == shapeOf(latents.value.name))
  {
    var seeds := [SeedOf(noise), SeedOf(latents)];
    assert seeds[1..] == [SeedOf(latents)] && seeds[1..][1..] == [];
    assert FirstSeed(seeds[1..]) == if SeedOf(latents).Some? then SeedOf(latents).value else FirstSeed([]);
    assert FirstSeed(seeds) == if SeedOf(noise).Some? then SeedOf(noise).value else FirstSeed(seeds[1..]);
  }

  // ---------------------------------------------------------------------------
  // T2I-Adapter input size
  // ---------------------------------------------------------------------------

  /** The base model of a T2I-Adapter's configuration. */
  datatype BaseModel = StableDiffusion1 | StableDiffusionXL | OtherBase(name: string)

  /** The `ValueError` of line 531. */
  datatype T2IError = UnexpectedBase(name: string)

  /** Lines 526-531: how far the UNet of each base scales the latents down. */
  function MaxUnetDownscale(base: BaseModel): (r: Result<nat, T2IError>)
    ensures r.Ok? <==> !base.OtherBase?
    ensures r.Ok? ==> r.value == 4 || r.value == 8
  {
    match base
    case StableDiffusion1 => Ok(8)
    case StableDiffusionXL => Ok(4)
    case OtherBase(name) => Err(UnexpectedBase(name))
  }

  /** Lines 540-541 for one axis of the latents. */
  function T2IInputSize(latentDim: nat, base: BaseModel, totalDownscale: nat): (r: Result<nat, T2IError>)
    ensures r.Ok? <==> !base.OtherBase?
  {
    var m :- MaxUnetDownscale(base);
    Ok(latentDim / m * totalDownscale)
  }

  /** The adapter input is a whole multiple of the adapter's own downscale
      factor, and scaled down by it lands on the latent size after the UNet's
      largest downscale; it never exceeds the latent size times the adapter's
      factor over the UNet's. */
  lemma {:induction false} T2IInputMatchesUnet(latentDim: nat, base: BaseModel, totalDownscale: nat)
    requires T2IInputSize(latentDim, base, totalDownscale).Ok? && totalDownscale > 0
    ensures var size := T2IInputSize(latentDim, base, totalDownscale).value;
            var m := MaxUnetDownscale(base).value;
            size % totalDownscale == 0 && size / totalDownscale == latentDim / m &&
            size * m <= latentDim * totalDownscale
  {
    var m := MaxUnetDownscale(base).value;
    var q := latentDim / m;
    var size := q * totalDownscale;
    Arith.DivModUnique(size, totalDownscale, q, 0);
    assert q * m <= latentDim;
    Arith.MulMono(q * m, latentDim, totalDownscale);
    assert size * m == q * m * totalDownscale;
  }

  /** Lines 562-564: under classifier-free guidance every adapter state is
      stacked twice along the batch. */
  function DuplicateForCfg<T>(states: seq<seq<T>>, cfg: bool): (r: seq<seq<T>>)
    ensures |r| == |states|
  {
    if cfg then seq(|states|, i requires 0 <= i < |states| => states[i] + states[i]) else states
  }

  /** Each duplicated state is twice as long and both of its halves are the
      original state; without guidance nothing changes. */
  lemma {:induction false} DuplicateHalves<T>(states: seq<seq<T>>, cfg: bool)
    ensures var r := DuplicateForCfg(states, cfg);
            forall i :: 0 <= i < |states| ==>
              (cfg ==> |r[i]| == 2 * |states[i]| && r[i][..|states[i]|] == states[i] && r[i][|states[i]|..] == states[i]) &&
              (!cfg ==> r[i] == states[i])
  {
  }
}
