/** Dilated sampling: the blurred latent is split into `scale * scale`
    interlaced sub-latents (every `scale`-th row and column from a phase
    offset), the sub-module predicts each one, and every prediction is written
    back into the strided positions it came from. */
module Dilated {
  import opened Wrappers
  import opened Arith
  import opened Grids

  datatype DilatedError =
    | NonPositiveScale
    | PhaseShapeMismatch(row: int, col: int)

  /** Position `i` of the phase starting at `offset` with step `scale`, reached
      by `i` steps of `scale` (it equals `offset + i * scale`, see
      `PhaseIndexValue`). */
  function PhaseIndex(offset: nat, i: nat, scale: nat): (p: nat)
    ensures p >= offset
    decreases i
  {
    if i == 0 then offset else PhaseIndex(offset + scale, i - 1, scale)
  }

  lemma {:induction false} PhaseIndexValue(offset: nat, i: nat, scale: nat)
    ensures PhaseIndex(offset, i, scale) == offset + i * scale
    decreases i
  {
    if i > 0 {
      PhaseIndexValue(offset + scale, i - 1, scale);
      assert (i - 1) * scale + scale == i * scale;
    }
  }

  /** Starting one step later moves every position of the phase by one step. */
  lemma {:induction false} PhaseIndexShift(offset: nat, i: nat, scale: nat)
    ensures PhaseIndex(offset + scale, i, scale) == PhaseIndex(offset, i, scale) + scale
    decreases i
  {
    if i > 0 {
      PhaseIndexShift(offset + scale, i - 1, scale);
    }
  }

  /** The length of the Python slice `[offset::scale]` of an axis of length `n`:
      the number of positions `offset`, `offset + scale`, ... below `n`. */
  function PhaseLen(n: nat, scale: nat, offset: nat): nat
    requires scale > 0
    decreases n - offset
  {
    if offset >= n then 0 else 1 + PhaseLen(n, scale, offset + scale)
  }

  /** The phase's indices are exactly those whose position lies on the axis. */
  lemma {:induction false} PhaseLenSpec(n: nat, scale: nat, offset: nat, i: nat)
    requires scale > 0
    ensures i < PhaseLen(n, scale, offset) <==> PhaseIndex(offset, i, scale) < n
    decreases i
  {
    if i > 0 {
      PhaseLenSpec(n, scale, offset + scale, i - 1);
    }
  }

  /** The phase a position belongs to: its remainder modulo `scale`. */
  function Rem(a: nat, scale: nat): (r: nat)
    requires scale > 0
    ensures r < scale
    decreases a
  {
    if a < scale then a else Rem(a - scale, scale)
  }

  /** The index of a position within its phase: its quotient by `scale`. */
  function Quot(a: nat, scale: nat): nat
    requires scale > 0
    decreases a
  {
    if a < scale then 0 else 1 + Quot(a - scale, scale)
  }

  /** Every position belongs to the phase of its remainder, at the index of its
      quotient. */
  lemma {:induction false} PhaseOf(a: nat, n: nat, scale: nat)
    requires scale > 0 && a < n
    ensures a == PhaseIndex(Rem(a, scale), Quot(a, scale), scale)
    ensures Quot(a, scale) < PhaseLen(n, scale, Rem(a, scale))
    decreases a
  {
    if a >= scale {
      PhaseOf(a - scale, n, scale);
      PhaseIndexShift(Rem(a, scale), Quot(a - scale, scale), scale);
    }
    PhaseLenSpec(n, scale, Rem(a, scale), Quot(a, scale));
  }

  /** A position's quotient is an index of its remainder's phase. */
  lemma {:induction false} PhaseBound(a: nat, n: nat, scale: nat)
    requires scale > 0 && a < n
    ensures Quot(a, scale) < PhaseLen(n, scale, Rem(a, scale))
  {
    PhaseOf(a, n, scale);
  }

  /** No position lies in two phases: a phase position determines its phase and
      its index. */
  lemma {:induction false} PhaseUnique(offset: nat, i: nat, scale: nat)
    requires offset < scale
    ensures Rem(PhaseIndex(offset, i, scale), scale) == offset
    ensures Quot(PhaseIndex(offset, i, scale), scale) == i
    decreases i
  {
    if i > 0 {
      PhaseUnique(offset, i - 1, scale);
      PhaseIndexShift(offset, i - 1, scale);
    }
  }

  /** The phase and index are Python's `a % scale` and `a // scale`. */
  lemma {:induction false} RemQuotAreDivMod(a: nat, scale: nat)
    requires scale > 0
    ensures Rem(a, scale) == a % scale && Quot(a, scale) == a / scale
  {
    PhaseOf(a, a + 1, scale);
    PhaseIndexValue(Rem(a, scale), Quot(a, scale), scale);
    DivModUnique(a, scale, Quot(a, scale), Rem(a, scale));
  }

  /** The Python slice `xs[offset::scale]`. */
  function Strided<T>(xs: seq<T>, scale: nat, offset: nat): (r: seq<T>)
    requires scale > 0
    ensures |r| == PhaseLen(|xs|, scale, offset)
    ensures forall i {:trigger r[i]} :: 0 <= i < |r| ==> PhaseIndex(offset, i, scale) < |xs| && r[i] == xs[PhaseIndex(offset, i, scale)]
  {
    var len := PhaseLen(|xs|, scale, offset);
    forall i | 0 <= i < len
      ensures PhaseIndex(offset, i, scale) < |xs|
    {
      PhaseLenSpec(|xs|, scale, offset, i);
    }
    seq(len, i requires 0 <= i < len => xs[PhaseIndex(offset, i, scale)])
  }

  /** Position `b` is entry `Quot(b, scale)` of the slice of its remainder. */
  lemma {:induction false} StridedInverse<T>(xs: seq<T>, scale: nat, b: nat)
    requires scale > 0 && b < |xs|
    ensures Quot(b, scale) < |Strided(xs, scale, Rem(b, scale))|
    ensures Strided(xs, scale, Rem(b, scale))[Quot(b, scale)] == xs[b]
  {
    PhaseOf(b, |xs|, scale);
  }

  /** Line 429: `blurred[:, :, h::scale, w::scale]`, the row slice of the column
      slices. */
  function Interlace(g: Grid, height: nat, width: nat, scale: nat, h: nat, w: nat): (sub: Grid)
    requires IsGrid(g, height, width) && scale > 0
    ensures IsGrid(sub, PhaseLen(height, scale, h), PhaseLen(width, scale, w))
    ensures forall i {:trigger sub[i]} :: 0 <= i < |sub| ==> PhaseIndex(h, i, scale) < height && sub[i] == Strided(g[PhaseIndex(h, i, scale)], scale, w)
  {
    var cols := ColumnSlices(g, scale, w);
    var sub := Strided(cols, scale, h);
    forall i | 0 <= i < |sub|
      ensures PhaseIndex(h, i, scale) < height && sub[i] == Strided(g[PhaseIndex(h, i, scale)], scale, w)
    {
      var row := sub[i];
      assert row == cols[PhaseIndex(h, i, scale)];
    }
    sub
  }

  function ColumnSlices(g: Grid, scale: nat, w: nat): (r: Grid)
    requires scale > 0
    ensures |r| == |g| && forall a :: 0 <= a < |g| ==> r[a] == Strided(g[a], scale, w)
  {
    seq(|g|, a requires 0 <= a < |g| => Strided(g[a], scale, w))
  }

  /** One row of a strided assignment: `xs[offset::scale] = ys`. Position `b` of
      the phase takes entry `Quot(b, scale)` of `ys`; every other position keeps its
      value. The lengths are checked by `Scatter`, whose shape requirement is
      the one the assignment raises on. */
  function ScatterSeq(xs: seq<real>, ys: seq<real>, scale: nat, offset: nat): (r: seq<real>)
    requires offset < scale
    ensures |r| == |xs|
    ensures forall b {:trigger r[b]} :: 0 <= b < |xs| && Rem(b, scale) == offset && Quot(b, scale) < |ys| ==> r[b] == ys[Quot(b, scale)]
    ensures forall b {:trigger r[b]} :: 0 <= b < |xs| && Rem(b, scale) != offset ==> r[b] == xs[b]
  {
    seq(|xs|, b requires 0 <= b < |xs| => if Rem(b, scale) == offset && Quot(b, scale) < |ys| then ys[Quot(b, scale)] else xs[b])
  }

  /** Line 443: `total[:, :, h::scale, w::scale] = pred`. Each row of the phase is
      a strided assignment of its prediction row; other rows keep their values. */
  function Scatter(total: Grid, pred: Grid, height: nat, width: nat, scale: nat, h: nat, w: nat): (r: Grid)
    requires IsGrid(total, height, width) && h < scale && w < scale
    requires IsGrid(pred, PhaseLen(height, scale, h), PhaseLen(width, scale, w))
    ensures IsGrid(r, height, width)
    ensures forall a {:trigger r[a]} :: 0 <= a < height && Rem(a, scale) == h ==>
      Quot(a, scale) < |pred| && r[a] == ScatterSeq(total[a], pred[Quot(a, scale)], scale, w)
    ensures forall a {:trigger r[a]} :: 0 <= a < height && Rem(a, scale) != h ==> r[a] == total[a]
  {
    forall a | 0 <= a < height
      ensures Quot(a, scale) < PhaseLen(height, scale, Rem(a, scale))
    {
      PhaseBound(a, height, scale);
    }
    seq(height, a requires 0 <= a < height => if Rem(a, scale) == h then ScatterSeq(total[a], pred[Quot(a, scale)], scale, w) else total[a])
  }

  /** Nothing outside the phase changes. */
  lemma {:induction false} ScatterKeepsOthers(total: Grid, pred: Grid, height: nat, width: nat, scale: nat, h: nat, w: nat, a: nat, b: nat)
    requires IsGrid(total, height, width) && h < scale && w < scale
    requires IsGrid(pred, PhaseLen(height, scale, h), PhaseLen(width, scale, w))
    requires a < height && b < width && (Rem(a, scale) != h || Rem(b, scale) != w)
    ensures Scatter(total, pred, height, width, scale, h, w)[a][b] == total[a][b]
  {
  }

  /** The strided slice `[h::scale, w::scale]` of the result is the prediction. */
  lemma {:induction false} ScatterPlacesPrediction(total: Grid, pred: Grid, height: nat, width: nat, scale: nat, h: nat, w: nat, i: nat, j: nat)
    requires IsGrid(total, height, width) && h < scale && w < scale
    requires IsGrid(pred, PhaseLen(height, scale, h), PhaseLen(width, scale, w))
    requires i < |pred| && j < |pred[i]|
    ensures PhaseIndex(h, i, scale) < height && PhaseIndex(w, j, scale) < width
    ensures Scatter(total, pred, height, width, scale, h, w)[PhaseIndex(h, i, scale)][PhaseIndex(w, j, scale)] == pred[i][j]
  {
    PhaseLenSpec(height, scale, h, i);
    PhaseLenSpec(width, scale, w, j);
    PhaseUnique(h, i, scale);
    PhaseUnique(w, j, scale);
  }

  /** The sub-module's prediction for phase `(h, w)` has the phase's shape. */
  predicate PhaseFits(g: Grid, height: nat, width: nat, scale: nat, sub: Grid -> Grid, h: nat, w: nat)
    requires IsGrid(g, height, width) && scale > 0
  {
    IsGrid(sub(Interlace(g, height, width, scale, h, w)), PhaseLen(height, scale, h), PhaseLen(width, scale, w))
  }

  predicate AllPhasesFit(g: Grid, height: nat, width: nat, scale: nat, sub: Grid -> Grid)
    requires IsGrid(g, height, width) && scale > 0
  {
    forall h, w :: 0 <= h < scale && 0 <= w < scale ==> PhaseFits(g, height, width, scale, sub, h, w)
  }

  /** Reference definition: position `(a, b)` holds the prediction of the phase of
      its remainders, at the index of its quotients. */
  function Reassembled(g: Grid, height: nat, width: nat, scale: nat, sub: Grid -> Grid): (r: Grid)
    requires IsGrid(g, height, width) && scale > 0 && AllPhasesFit(g, height, width, scale, sub)
    ensures IsGrid(r, height, width)
  {
    seq(height, a requires 0 <= a < height => seq(width, b requires 0 <= b < width =>
      PhaseOf(a, height, scale);
      PhaseOf(b, width, scale);
      assert PhaseFits(g, height, width, scale, sub, Rem(a, scale), Rem(b, scale));
      sub(Interlace(g, height, width, scale, Rem(a, scale), Rem(b, scale)))[Quot(a, scale)][Quot(b, scale)]))
  }

  /** Lines 422-444 after the blur: phases are visited row offset first, each
      interlaced sub-latent goes through `sub`, and the prediction is scattered
      back. A prediction of another shape than its phase fails; torch would
      broadcast a broadcastable one into the slice, which is not modelled. */
  method DilatedSampling(g: Grid, height: nat, width: nat, scale: int, sub: Grid -> Grid) returns (r: Result<Grid, DilatedError>)
    requires IsGrid(g, height, width)
    ensures scale < 1 ==> r == Err(NonPositiveScale)
    ensures r.Ok? <==> scale >= 1 && AllPhasesFit(g, height, width, scale, sub)
    ensures r.Ok? ==> r.value == Reassembled(g, height, width, scale, sub)
  {
    if scale < 1 {
      return Err(NonPositiveScale);
    }
    var total := Fill(height, width, 0.0);
    for h := 0 to scale
      invariant IsGrid(total, height, width)
      invariant forall h', w' :: 0 <= h' < h && 0 <= w' < scale ==> PhaseFits(g, height, width, scale, sub, h', w')
      invariant Progress(total, g, height, width, scale, sub, h, 0)
    {
      for w := 0 to scale
        invariant IsGrid(total, height, width)
        invariant forall h', w' :: 0 <= h' < h && 0 <= w' < scale ==> PhaseFits(g, height, width, scale, sub, h', w')
        invariant forall w' :: 0 <= w' < w ==> PhaseFits(g, height, width, scale, sub, h, w')
        invariant Progress(total, g, height, width, scale, sub, h, w)
      {
        var pred := sub(Interlace(g, height, width, scale, h, w));
        if !IsGrid(pred, PhaseLen(height, scale, h), PhaseLen(width, scale, w)) {
          assert !PhaseFits(g, height, width, scale, sub, h, w);
          return Err(PhaseShapeMismatch(h, w));
        }
        ScatterAdvances(total, g, height, width, scale, sub, h, w);
        total := Scatter(total, pred, height, width, scale, h, w);
      }
      RowOfPhasesDone(total, g, height, width, scale, sub, h);
    }
    AllPhasesDone(total, g, height, width, scale, sub);
    r := Ok(total);
  }

  /** Phase `(ph, pw)` comes before phase `(h, w)` in the loops' order. */
  predicate Before(ph: int, pw: int, h: int, w: int) {
    ph < h || (ph == h && pw < w)
  }

  /** The phases before `(h, w)` are written into `total`; the rest is still 0. */
  predicate Progress(total: Grid, g: Grid, height: nat, width: nat, scale: nat, sub: Grid -> Grid, h: int, w: int)
    requires IsGrid(total, height, width) && IsGrid(g, height, width) && scale > 0
  {
    forall a, b {:trigger total[a][b]} :: 0 <= a < height && 0 <= b < width ==>
      total[a][b] == if Before(Rem(a, scale), Rem(b, scale), h, w) then Done(g, height, width, scale, sub, a, b) else 0.0
  }

  /** Scattering phase `(h, w)` moves the progress on by one phase. */
  lemma {:induction false} ScatterAdvances(total: Grid, g: Grid, height: nat, width: nat, scale: nat, sub: Grid -> Grid, h: nat, w: nat)
    requires IsGrid(total, height, width) && IsGrid(g, height, width) && h < scale && w < scale
    requires PhaseFits(g, height, width, scale, sub, h, w)
    requires Progress(total, g, height, width, scale, sub, h, w)
    ensures Progress(Scatter(total, sub(Interlace(g, height, width, scale, h, w)), height, width, scale, h, w), g, height, width, scale, sub, h, w + 1)
  {
    forall a, b | 0 <= a < height && 0 <= b < width
      ensures Scatter(total, sub(Interlace(g, height, width, scale, h, w)), height, width, scale, h, w)[a][b] ==
              if Before(Rem(a, scale), Rem(b, scale), h, w + 1) then Done(g, height, width, scale, sub, a, b) else 0.0
    {
      ScatterAdvancesAt(total, g, height, width, scale, sub, h, w, a, b);
    }
  }

  /** One position of `ScatterAdvances`: the scattered phase is written, every
      other position keeps its progress. */
  lemma {:induction false} ScatterAdvancesAt(total: Grid, g: Grid, height: nat, width: nat, scale: nat, sub: Grid -> Grid, h: nat, w: nat, a: nat, b: nat)
    requires IsGrid(total, height, width) && IsGrid(g, height, width) && h < scale && w < scale
    requires PhaseFits(g, height, width, scale, sub, h, w)
    requires a < height && b < width
    requires Progress(total, g, height, width, scale, sub, h, w)
    ensures Scatter(total, sub(Interlace(g, height, width, scale, h, w)), height, width, scale, h, w)[a][b] ==
            if Before(Rem(a, scale), Rem(b, scale), h, w + 1) then Done(g, height, width, scale, sub, a, b) else 0.0
  {
    if Rem(a, scale) == h && Rem(b, scale) == w {
      ScatterWritesPhase(total, g, height, width, scale, sub, h, w, a, b);
    } else {
      ScatterKeepsOthers(total, sub(Interlace(g, height, width, scale, h, w)), height, width, scale, h, w, a, b);
    }
  }

  lemma {:induction false} ScatterWritesPhase(total: Grid, g: Grid, height: nat, width: nat, scale: nat, sub: Grid -> Grid, h: nat, w: nat, a: nat, b: nat)
    requires IsGrid(total, height, width) && IsGrid(g, height, width) && h < scale && w < scale
    requires PhaseFits(g, height, width, scale, sub, h, w)
    requires a < height && b < width && Rem(a, scale) == h && Rem(b, scale) == w
    ensures Scatter(total, sub(Interlace(g, height, width, scale, h, w)), height, width, scale, h, w)[a][b] == Done(g, height, width, scale, sub, a, b)
  {
    ScatterEntry(total, sub(Interlace(g, height, width, scale, h, w)), height, width, scale, h, w, a, b);
  }

  /** Position `(a, b)` of a scatter into its own phase holds the prediction at
      its quotients. */
  lemma {:induction false} ScatterEntry(total: Grid, pred: Grid, height: nat, width: nat, scale: nat, h: nat, w: nat, a: nat, b: nat)
    requires IsGrid(total, height, width) && h < scale && w < scale
    requires IsGrid(pred, PhaseLen(height, scale, h), PhaseLen(width, scale, w))
    requires a < height && b < width && Rem(a, scale) == h && Rem(b, scale) == w
    ensures Quot(a, scale) < |pred| && Quot(b, scale) < |pred[Quot(a, scale)]| &&
            Scatter(total, pred, height, width, scale, h, w)[a][b] == pred[Quot(a, scale)][Quot(b, scale)]
  {
    PhaseBound(a, height, scale);
    assert |total[a]| == width;
    ScatterSeqPlaces(total[a], pred[Quot(a, scale)], scale, w, b);
  }

  /** Entry `b` of a strided assignment into the phase of `b`. */
  lemma {:induction false} ScatterSeqPlaces(xs: seq<real>, ys: seq<real>, scale: nat, offset: nat, b: nat)
    requires offset < scale && |ys| == PhaseLen(|xs|, scale, offset)
    requires b < |xs| && Rem(b, scale) == offset
    ensures Quot(b, scale) < |ys| && ScatterSeq(xs, ys, scale, offset)[b] == ys[Quot(b, scale)]
  {
    PhaseBound(b, |xs|, scale);
  }

  /** Finishing a row offset: every column offset of it is done. */
  lemma {:induction false} RowOfPhasesDone(total: Grid, g: Grid, height: nat, width: nat, scale: nat, sub: Grid -> Grid, h: nat)
    requires IsGrid(total, height, width) && IsGrid(g, height, width) && scale > 0
    requires Progress(total, g, height, width, scale, sub, h, scale)
    ensures Progress(total, g, height, width, scale, sub, h + 1, 0)
  {
    forall a, b | 0 <= a < height && 0 <= b < width
      ensures Before(Rem(a, scale), Rem(b, scale), h, scale) == Before(Rem(a, scale), Rem(b, scale), h + 1, 0)
    {
    }
  }

  /** After every phase, the buffer is the reference reassembly. */
  lemma {:induction false} AllPhasesDone(total: Grid, g: Grid, height: nat, width: nat, scale: nat, sub: Grid -> Grid)
    requires IsGrid(total, height, width) && IsGrid(g, height, width) && scale > 0
    requires AllPhasesFit(g, height, width, scale, sub)
    requires Progress(total, g, height, width, scale, sub, scale, 0)
    ensures total == Reassembled(g, height, width, scale, sub)
  {
    var r := Reassembled(g, height, width, scale, sub);
    forall a | 0 <= a < height
      ensures total[a] == r[a]
    {
      forall b | 0 <= b < width
        ensures total[a][b] == r[a][b]
      {
        PhaseOf(a, height, scale);
        PhaseOf(b, width, scale);
        assert PhaseFits(g, height, width, scale, sub, Rem(a, scale), Rem(b, scale));
      }
    }
  }

  /** `Reassembled` at one position, or 0 when the phase's prediction is too small. */
  function Done(g: Grid, height: nat, width: nat, scale: nat, sub: Grid -> Grid, a: nat, b: nat): real
    requires IsGrid(g, height, width) && scale > 0 && a < height && b < width
  {
    var p := sub(Interlace(g, height, width, scale, Rem(a, scale), Rem(b, scale)));
    if Quot(a, scale) < |p| && Quot(b, scale) < |p[Quot(a, scale)]| then p[Quot(a, scale)][Quot(b, scale)] else 0.0
  }

  /** A sub-module that returns its input unchanged. */
  function Identity(g: Grid): Grid {
    g
  }

  /** Interlacing then reassembling with an identity sub-module gives back the
      latent: the phases partition the positions. */
  lemma {:induction false} InterlaceRoundTrip(g: Grid, height: nat, width: nat, scale: nat)
    requires IsGrid(g, height, width) && scale > 0
    ensures AllPhasesFit(g, height, width, scale, Identity)
    ensures Reassembled(g, height, width, scale, Identity) == g
  {
    forall h: nat, w: nat | h < scale && w < scale
      ensures PhaseFits(g, height, width, scale, Identity, h, w)
    {
    }
    var r := Reassembled(g, height, width, scale, Identity);
    forall a | 0 <= a < height
      ensures r[a] == g[a]
    {
      forall b | 0 <= b < width
        ensures r[a][b] == g[a][b]
      {
        InterlaceInverse(g, height, width, scale, a, b);
        var phase := Interlace(g, height, width, scale, Rem(a, scale), Rem(b, scale));
        assert r[a][b] == Identity(phase)[Quot(a, scale)][Quot(b, scale)];
      }
    }
  }

  /** Position `(a, b)` is found in its own phase at its quotients. */
  lemma {:induction false} InterlaceInverse(g: Grid, height: nat, width: nat, scale: nat, a: nat, b: nat)
    requires IsGrid(g, height, width) && scale > 0 && a < height && b < width
    ensures Quot(a, scale) < PhaseLen(height, scale, Rem(a, scale)) && Quot(b, scale) < PhaseLen(width, scale, Rem(b, scale))
    ensures Interlace(g, height, width, scale, Rem(a, scale), Rem(b, scale))[Quot(a, scale)][Quot(b, scale)] == g[a][b]
  {
    var cols := ColumnSlices(g, scale, Rem(b, scale));
    StridedInverse(cols, scale, a);
    StridedInverse(g[a], scale, b);
  }

  /** Line 423: the blur kernel is `2 * scale - 1` wide. */
  function BlurKernelSize(scale: int): int {
    2 * scale - 1
  }

  /** Line 396: the convolution pads by half the kernel size (floor). */
  function BlurPadding(kernel: int): int {
    kernel / 2
  }

  /** The length of a stride-1 convolution's output. */
  function ConvOutLen(n: int, kernel: int, padding: int): int {
    n + 2 * padding - kernel + 1
  }

  /** The blur kernel is odd for every valid scale, so the padded convolution
      keeps the latent's size. */
  lemma {:induction false} BlurKeepsShape(scale: int, n: int)
    requires scale >= 1
    ensures BlurKernelSize(scale) % 2 == 1
    ensures ConvOutLen(n, BlurKernelSize(scale), BlurPadding(BlurKernelSize(scale))) == n
  {
    DivModUnique(BlurKernelSize(scale), 2, scale - 1, 1);
  }

  /** Line 424: the blurred latent is shifted and scaled to the original's mean
      and standard deviation, an affine map of every entry. A blurred latent of
      standard deviation 0 divides by zero and becomes non-finite (`None`). */
  function Renormalise(blurred: Grid, blurredStd: real, targetStd: real, targetMean: real): (r: Option<Grid>)
    requires Size(blurred) > 0
    ensures r.None? <==> blurredStd == 0.0
    ensures r.Some? ==> SameShape(r.value, blurred)
  {
    if blurredStd == 0.0 then None
    else Some(AffineGrid(blurred, RenormScale(blurredStd, targetStd), RenormShift(GridMean(blurred), blurredStd, targetStd, targetMean)))
  }

  function RenormScale(blurredStd: real, targetStd: real): real
    requires blurredStd != 0.0
  {
    targetStd / blurredStd
  }

  function RenormShift(mean: real, blurredStd: real, targetStd: real, targetMean: real): real
    requires blurredStd != 0.0
  {
    targetMean - mean * RenormScale(blurredStd, targetStd)
  }

  /** The affine map is the source's `(x - mean) / std * std_ + mean_` for every
      entry `x`. */
  lemma {:induction false} ShiftScale(x: real, m: real, sb: real, st: real, mt: real)
    requires sb != 0.0
    ensures RenormScale(sb, st) * x + RenormShift(m, sb, st, mt) == (x - m) / sb * st + mt
  {
  }

  /** After renormalisation the latent has the original's mean. */
  lemma {:induction false} RenormalisedMean(blurred: Grid, blurredStd: real, targetStd: real, targetMean: real)
    requires Size(blurred) > 0 && blurredStd != 0.0
    ensures var r := Renormalise(blurred, blurredStd, targetStd, targetMean).value;
            Size(r) == Size(blurred) && GridMean(r) == targetMean
  {
    GridMeanAffine(blurred, RenormScale(blurredStd, targetStd), RenormShift(GridMean(blurred), blurredStd, targetStd, targetMean));
    CancelShift(GridMean(blurred), blurredStd, targetStd, targetMean);
  }

  lemma {:induction false} CancelShift(m: real, sb: real, st: real, mt: real)
    requires sb != 0.0
    ensures RenormScale(sb, st) * m + RenormShift(m, sb, st, mt) == mt
  {
  }
}
