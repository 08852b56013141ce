/** The skip-residual module (`skip_residual`): instead of denoising, it returns
    the difference between the input latent noised to the current timestep and
    the input latent itself. The input latent and the noise are loaded once per
    module and kept in the pipeline's persistent data. */
module SkipResidual {
  import opened Wrappers
  import opened Grids

  /** The two tensors a skip-residual module keeps between steps. */
  datatype Slot = LatentSlot | NoiseSlot

  /** The pipeline's persistent data: per module id and slot, the tensor loaded
      on the module's first call. */
  type Store = map<(string, Slot), Grid>

  /** `torch.lerp` raises when the latent and the noise have different shapes.
      Both were stored before the call reached it, so the failure carries the
      persistent data as the call left it. */
  datatype SkipError = ShapeMismatch(store: Store)

  /** Lines 910-917 for one slot: the stored tensor if there is one, otherwise
      the tensor named `name`, loaded through `load` and stored. Only that one
      entry of the store can change. */
  function Fetch(store: Store, id: string, slot: Slot, name: string, load: string -> Grid): (r: (Grid, Store))
    ensures (id, slot) in r.1 && r.1[(id, slot)] == r.0
    ensures (id, slot) in store ==> r.1 == store
    ensures (id, slot) !in store ==> r.0 == load(name)
    ensures r.1.Keys == store.Keys + {(id, slot)}
    ensures forall k :: k in store ==> r.1[k] == store[k]
  {
    if (id, slot) in store then (store[(id, slot)], store)
    else (load(name), store[(id, slot) := load(name)])
  }

  /** Elementwise `a - b`. */
  function Difference(a: Grid, b: Grid): (r: Grid)
    requires SameShape(a, b)
    ensures SameShape(r, a)
    ensures forall i, j :: 0 <= i < |a| && 0 <= j < |a[i]| ==> r[i][j] == a[i][j] - b[i][j]
  {
    seq(|a|, i requires 0 <= i < |a| => seq(|a[i]|, j requires 0 <= j < |a[i]| => a[i][j] - b[i][j]))
  }

  /** Elementwise `a + b`. */
  function Total(a: Grid, b: Grid): (r: Grid)
    requires SameShape(a, b)
    ensures SameShape(r, a)
    ensures forall i, j :: 0 <= i < |a| && 0 <= j < |a[i]| ==> r[i][j] == a[i][j] + b[i][j]
  {
    seq(|a|, i requires 0 <= i < |a| => seq(|a[i]|, j requires 0 <= j < |a[i]| => a[i][j] + b[i][j]))
  }

  /** The residual a call returns and the persistent data after it. */
  datatype SkipCall = SkipCall(residual: Grid, store: Store)

  /** The weight of line 921: the timestep as a fraction of the scheduler's
      training timesteps. */
  function Weight(t: real, trainSteps: nat): real
    requires trainSteps > 0
  {
    t / trainSteps as real
  }

  /** Lines 907-924: fetch the latent, then the noise, interpolate between them
      at the timestep's weight and return the interpolation minus the latent. */
  function Skip(store: Store, id: string, latentName: string, noiseName: string, load: string -> Grid,
                t: real, trainSteps: nat): (r: Result<SkipCall, SkipError>)
    requires trainSteps > 0
  {
    var latent := Fetch(store, id, LatentSlot, latentName, load);
    var noise := Fetch(latent.1, id, NoiseSlot, noiseName, load);
    if !SameShape(latent.0, noise.0) then Err(ShapeMismatch(noise.1))
    else
      var noised := LerpGrid(latent.0, noise.0, Weight(t, trainSteps));
      Ok(SkipCall(Difference(noised, latent.0), noise.1))
  }

  /** What a call works from: the stored latent and noise after its fetches. */
  function Inputs(store: Store, id: string, latentName: string, noiseName: string, load: string -> Grid): (r: (Grid, Grid))
    ensures (id, LatentSlot) in store ==> r.0 == store[(id, LatentSlot)]
    ensures (id, NoiseSlot) in store ==> r.1 == store[(id, NoiseSlot)]
  {
    var latent := Fetch(store, id, LatentSlot, latentName, load);
    (latent.0, Fetch(latent.1, id, NoiseSlot, noiseName, load).0)
  }

  /** A call fails exactly when the latent and noise differ in shape, and
      either way both are in the store afterwards. On success every entry is
      the weight times the gap from the latent to the noise, and adding the
      residual back to the latent gives the noised latent. */
  lemma {:induction false} SkipIsScaledGap(store: Store, id: string, latentName: string, noiseName: string, load: string -> Grid,
                        t: real, trainSteps: nat)
    requires trainSteps > 0
    ensures var (latent, noise) := Inputs(store, id, latentName, noiseName, load);
            var r := Skip(store, id, latentName, noiseName, load, t, trainSteps);
            (r.Ok? <==> SameShape(latent, noise)) &&
            (r.Err? ==> r.error.store[(id, LatentSlot)] == latent && r.error.store[(id, NoiseSlot)] == noise) &&
            (r.Ok? ==>
              r.value.store[(id, LatentSlot)] == latent && r.value.store[(id, NoiseSlot)] == noise &&
              SameShape(r.value.residual, latent) &&
              (forall i, j :: 0 <= i < |latent| && 0 <= j < |latent[i]| ==>
                 r.value.residual[i][j] == Weight(t, trainSteps) * (noise[i][j] - latent[i][j])) &&
              Total(latent, r.value.residual) == LerpGrid(latent, noise, Weight(t, trainSteps)))
  {
    var (latent, noise) := Inputs(store, id, latentName, noiseName, load);
    var r := Skip(store, id, latentName, noiseName, load, t, trainSteps);
    if r.Ok? {
      var w := Weight(t, trainSteps);
      var res := r.value.residual;
      var back, noised := Total(latent, res), LerpGrid(latent, noise, w);
      forall i | 0 <= i < |latent|
        ensures back[i] == noised[i]
      {
        assert forall j :: 0 <= j < |latent[i]| ==> back[i][j] == noised[i][j];
      }
    }
  }

  /** Only the first call of a module loads: a second call from the store the
      first one left behind leaves that store as it is, ignores the loader, and
      at the same timestep returns the same residual. */
  lemma {:induction false} SkipLoadsOnce(store: Store, id: string, latentName: string, noiseName: string, load1: string -> Grid,
                      load2: string -> Grid, t: real, trainSteps: nat)
    requires trainSteps > 0
    requires Skip(store, id, latentName, noiseName, load1, t, trainSteps).Ok?
    ensures var first := Skip(store, id, latentName, noiseName, load1, t, trainSteps).value;
            Skip(first.store, id, latentName, noiseName, load2, t, trainSteps) == Ok(first)
  {
  }

  /** Calls for one module never touch another module's entries. */
  lemma {:induction false} SkipKeepsOtherModules(store: Store, id: string, latentName: string, noiseName: string, load: string -> Grid,
                              t: real, trainSteps: nat, other: string, slot: Slot)
    requires trainSteps > 0 && other != id && (other, slot) in store
    requires Skip(store, id, latentName, noiseName, load, t, trainSteps).Ok?
    ensures Skip(store, id, latentName, noiseName, load, t, trainSteps).value.store[(other, slot)] == store[(other, slot)]
  {
  }

  /** At timestep 0 the residual is zero everywhere; at the last training
      timestep it is the full gap from the latent to the noise. */
  lemma {:induction false} SkipEnds(store: Store, id: string, latentName: string, noiseName: string, load: string -> Grid, trainSteps: nat)
    requires trainSteps > 0
    requires Skip(store, id, latentName, noiseName, load, 0.0, trainSteps).Ok?
    ensures var (latent, noise) := Inputs(store, id, latentName, noiseName, load);
            var zero := Skip(store, id, latentName, noiseName, load, 0.0, trainSteps).value.residual;
            var full := Skip(store, id, latentName, noiseName, load, trainSteps as real, trainSteps).value.residual;
            zero == Difference(latent, latent) && full == Difference(noise, latent)
  {
    var (latent, noise) := Inputs(store, id, latentName, noiseName, load);
    assert Weight(0.0, trainSteps) == 0.0;
    assert Weight(trainSteps as real, trainSteps) == 1.0;
    LerpEndpoints(latent, noise);
  }
}
