/** The MultiDiffusion tile stitcher: every tile's result is added into a sum
    buffer over the tile's view and a count buffer is raised by one there; the
    buffers are cropped back from the padded frame and divided, so each position
    ends up as the mean of the tile values that cover it. */
module Stitch {
  import opened Grids
  import opened Views
  import opened Wrappers
  import opened Arith

  /** The outcome of a float division `sum / count` in a cropped buffer cell.
      A cell no tile covers holds 0 / 0, which is NaN. */
  datatype Quotient = Mean(value: real) | NaN

  function Divide(sum: real, count: nat): (q: Quotient)
    ensures q.NaN? <==> count == 0
    ensures q.Mean? ==> q.value * count as real == sum
  {
    if count == 0 then NaN else Mean(sum / count as real)
  }

  /** The length of the slice `[start:end]` of an axis of length `n`, for
      non-negative bounds: Python clips both ends to `n`. */
  function ClipLen(start: int, end: int, n: int): int {
    (if end < n then end else n) - (if start < n then start else n)
  }

  /** One sub-module result placed at its view. */
  datatype Tile = Tile(view: View, values: Grid)

  /** The tile's view starts at non-negative coordinates and its values have the
      shape of that view clipped to a `rows x cols` buffer. */
  predicate Fits(t: Tile, rows: int, cols: int) {
    && 0 <= t.view.rowStart <= t.view.rowEnd
    && 0 <= t.view.colStart <= t.view.colEnd
    && IsGrid(t.values, ClipLen(t.view.rowStart, t.view.rowEnd, rows), ClipLen(t.view.colStart, t.view.colEnd, cols))
  }

  predicate AllFit(ts: seq<Tile>, rows: int, cols: int) {
    forall k :: 0 <= k < |ts| ==> Fits(ts[k], rows, cols)
  }

  /** What tile `t` adds at buffer position `(r, c)`. */
  function Contribution(t: Tile, rows: int, cols: int, r: int, c: int): real
    requires Fits(t, rows, cols) && 0 <= r < rows && 0 <= c < cols
  {
    if Contains(t.view, r, c) then t.values[r - t.view.rowStart][c - t.view.colStart] else 0.0
  }

  /** The values the tiles covering `(r, c)` hold there, in tile order. */
  function CoveringValues(ts: seq<Tile>, rows: int, cols: int, r: int, c: int): seq<real>
    requires AllFit(ts, rows, cols) && 0 <= r < rows && 0 <= c < cols
    decreases |ts|
  {
    if |ts| == 0 then []
    else
      var last := ts[|ts| - 1];
      CoveringValues(ts[..|ts| - 1], rows, cols, r, c) +
        (if Contains(last.view, r, c) then [last.values[r - last.view.rowStart][c - last.view.colStart]] else [])
  }

  /** The sum buffer entry after the tiles `ts` were added. */
  function SumAt(ts: seq<Tile>, rows: int, cols: int, r: int, c: int): real
    requires AllFit(ts, rows, cols) && 0 <= r < rows && 0 <= c < cols
    decreases |ts|
  {
    if |ts| == 0 then 0.0 else SumAt(ts[..|ts| - 1], rows, cols, r, c) + Contribution(ts[|ts| - 1], rows, cols, r, c)
  }

  /** The count buffer entry after the tiles `ts` were added. */
  function CountAt(ts: seq<Tile>, r: int, c: int): nat
    decreases |ts|
  {
    if |ts| == 0 then 0 else CountAt(ts[..|ts| - 1], r, c) + (if Contains(ts[|ts| - 1].view, r, c) then 1 else 0)
  }

  /** The buffers hold exactly the sum and the number of the covering values. */
  lemma {:induction false} BuffersAreCoveringValues(ts: seq<Tile>, rows: int, cols: int, r: int, c: int)
    requires AllFit(ts, rows, cols) && 0 <= r < rows && 0 <= c < cols
    ensures SumAt(ts, rows, cols, r, c) == Sum(CoveringValues(ts, rows, cols, r, c))
    ensures CountAt(ts, r, c) == |CoveringValues(ts, rows, cols, r, c)|
    decreases |ts|
  {
    if |ts| > 0 {
      var init := ts[..|ts| - 1];
      var last := ts[|ts| - 1];
      BuffersAreCoveringValues(init, rows, cols, r, c);
      var tail := if Contains(last.view, r, c) then [last.values[r - last.view.rowStart][c - last.view.colStart]] else [];
      SumAppend(CoveringValues(init, rows, cols, r, c), tail);
      assert Sum(tail) == Contribution(last, rows, cols, r, c) by {
        if Contains(last.view, r, c) {
          assert tail[..0] == [];
        }
      }
    }
  }

  /** A position's count is positive exactly when some tile covers it. */
  lemma {:induction false} CountPositiveIffCovered(ts: seq<Tile>, r: int, c: int)
    ensures CountAt(ts, r, c) > 0 <==> exists k :: 0 <= k < |ts| && Contains(ts[k].view, r, c)
    decreases |ts|
  {
    if |ts| > 0 {
      var init := ts[..|ts| - 1];
      CountPositiveIffCovered(init, r, c);
      if CountAt(init, r, c) > 0 {
        var k :| 0 <= k < |init| && Contains(init[k].view, r, c);
        assert ts[k] == init[k];
      }
      if exists k :: 0 <= k < |ts| && Contains(ts[k].view, r, c) {
        var k :| 0 <= k < |ts| && Contains(ts[k].view, r, c);
        if k < |ts| - 1 {
          assert init[k] == ts[k];
        }
      }
    }
  }

  /** A tile whose every value is `v`. */
  predicate ConstantTile(t: Tile, v: real) {
    forall i, j :: 0 <= i < |t.values| && 0 <= j < |t.values[i]| ==> t.values[i][j] == v
  }

  /** When every tile holds the constant `v`, the sum is `v` times the count. */
  lemma {:induction false} ConstantTilesSum(ts: seq<Tile>, rows: int, cols: int, r: int, c: int, v: real)
    requires AllFit(ts, rows, cols) && 0 <= r < rows && 0 <= c < cols
    requires forall k :: 0 <= k < |ts| ==> ConstantTile(ts[k], v)
    ensures SumAt(ts, rows, cols, r, c) == Times(CountAt(ts, r, c), v)
    decreases |ts|
  {
    if |ts| > 0 {
      var init, last := ts[..|ts| - 1], ts[|ts| - 1];
      ConstantTilesSum(init, rows, cols, r, c, v);
      if Contains(last.view, r, c) {
        assert ConstantTile(last, v);
        assert Contribution(last, rows, cols, r, c) == v;
      }
    }
  }

  /** Add one tile into a sum buffer over its view. */
  function AddTile(buf: Grid, t: Tile, rows: nat, cols: nat): (b: Grid)
    requires IsGrid(buf, rows, cols) && Fits(t, rows, cols)
    ensures IsGrid(b, rows, cols)
    ensures forall r, c :: 0 <= r < rows && 0 <= c < cols ==> b[r][c] == buf[r][c] + Contribution(t, rows, cols, r, c)
  {
    seq(rows, r requires 0 <= r < rows => seq(cols, c requires 0 <= c < cols => buf[r][c] + Contribution(t, rows, cols, r, c)))
  }

  /** Raise a count buffer by one over a view. */
  function AddOne(buf: seq<seq<nat>>, v: View, rows: nat, cols: nat): (b: seq<seq<nat>>)
    requires IsGrid(buf, rows, cols)
    ensures IsGrid(b, rows, cols)
    ensures forall r, c :: 0 <= r < rows && 0 <= c < cols ==> b[r][c] == buf[r][c] + (if Contains(v, r, c) then 1 else 0)
  {
    seq(rows, r requires 0 <= r < rows => seq(cols, c requires 0 <= c < cols => buf[r][c] + (if Contains(v, r, c) then 1 else 0)))
  }

  /** Lines 227-299: the tiles are added one after another into zeroed buffers. */
  method Accumulate(ts: seq<Tile>, rows: nat, cols: nat) returns (sum: Grid, count: seq<seq<nat>>)
    requires AllFit(ts, rows, cols)
    ensures IsGrid(sum, rows, cols) && IsGrid(count, rows, cols)
    ensures forall r, c :: 0 <= r < rows && 0 <= c < cols ==>
      sum[r][c] == SumAt(ts, rows, cols, r, c) && count[r][c] == CountAt(ts, r, c)
  {
    sum := Fill(rows, cols, 0.0);
    count := Fill(rows, cols, 0);
    for k := 0 to |ts|
      invariant IsGrid(sum, rows, cols) && IsGrid(count, rows, cols)
      invariant forall r, c :: 0 <= r < rows && 0 <= c < cols ==>
        sum[r][c] == SumAt(ts[..k], rows, cols, r, c) && count[r][c] == CountAt(ts[..k], r, c)
    {
      sum := AddTile(sum, ts[k], rows, cols);
      count := AddOne(count, ts[k].view, rows, cols);
      assert ts[..k + 1][..k] == ts[..k];
    }
    assert ts[..|ts|] == ts;
  }

  /** The mean of the values covering `(r, c)`, NaN when there are none. */
  function Averaged(ts: seq<Tile>, rows: int, cols: int, r: int, c: int): Quotient
    requires AllFit(ts, rows, cols) && 0 <= r < rows && 0 <= c < cols
  {
    var vals := CoveringValues(ts, rows, cols, r, c);
    if |vals| == 0 then NaN else Mean(Sum(vals) / |vals| as real)
  }

  /** Lines 302-311: accumulate in the frame padded by `pad`, crop the buffers back
      to `height x width` and divide. Each cell is the mean of the values covering
      it, NaN where no tile covers it. */
  method Stitch(ts: seq<Tile>, height: nat, width: nat, pad: nat) returns (out: seq<seq<Quotient>>)
    requires AllFit(ts, height + 2 * pad, width + 2 * pad)
    ensures IsGrid(out, height, width)
    ensures forall r, c :: 0 <= r < height && 0 <= c < width ==>
      out[r][c] == Averaged(ts, height + 2 * pad, width + 2 * pad, r + pad, c + pad)
  {
    var rows, cols := height + 2 * pad, width + 2 * pad;
    var sum, count := Accumulate(ts, rows, cols);
    out := Crop(sum, count, height, width, pad);
    forall r, c | 0 <= r < height && 0 <= c < width
      ensures out[r][c] == Averaged(ts, rows, cols, r + pad, c + pad)
    {
      BuffersAreCoveringValues(ts, rows, cols, r + pad, c + pad);
    }
  }

  /** Crop both buffers by `pad` on every side and divide them. */
  function Crop(sum: Grid, count: seq<seq<nat>>, height: nat, width: nat, pad: nat): (out: seq<seq<Quotient>>)
    requires IsGrid(sum, height + 2 * pad, width + 2 * pad) && IsGrid(count, height + 2 * pad, width + 2 * pad)
    ensures IsGrid(out, height, width)
    ensures forall r, c :: 0 <= r < height && 0 <= c < width ==> out[r][c] == Divide(sum[r + pad][c + pad], count[r + pad][c + pad])
  {
    seq(height, r requires 0 <= r < height => seq(width, c requires 0 <= c < width => Divide(sum[r + pad][c + pad], count[r + pad][c + pad])))
  }

  /** The two fields of a scheduler step output returned for one tile. */
  datatype TileOutput = TileOutput(view: View, prevSample: Grid, predOriginal: Grid)

  /** Lines 292-317: `prev_sample` and `pred_original_sample` are stitched alike. */
  method CombineStepOutputs(outs: seq<TileOutput>, height: nat, width: nat, pad: nat)
    returns (prev: seq<seq<Quotient>>, pred: seq<seq<Quotient>>)
    requires forall k :: 0 <= k < |outs| ==> Fits(Tile(outs[k].view, outs[k].prevSample), height + 2 * pad, width + 2 * pad)
    requires forall k :: 0 <= k < |outs| ==> Fits(Tile(outs[k].view, outs[k].predOriginal), height + 2 * pad, width + 2 * pad)
    ensures IsGrid(prev, height, width) && IsGrid(pred, height, width)
    ensures forall r, c :: 0 <= r < height && 0 <= c < width ==>
      prev[r][c] == Averaged(PrevTiles(outs), height + 2 * pad, width + 2 * pad, r + pad, c + pad)
    ensures forall r, c :: 0 <= r < height && 0 <= c < width ==>
      pred[r][c] == Averaged(PredTiles(outs), height + 2 * pad, width + 2 * pad, r + pad, c + pad)
  {
    prev := Stitch(PrevTiles(outs), height, width, pad);
    pred := Stitch(PredTiles(outs), height, width, pad);
  }

  function PrevTiles(outs: seq<TileOutput>): (ts: seq<Tile>)
    ensures |ts| == |outs| && forall k :: 0 <= k < |outs| ==> ts[k] == Tile(outs[k].view, outs[k].prevSample)
  {
    seq(|outs|, k requires 0 <= k < |outs| => Tile(outs[k].view, outs[k].prevSample))
  }

  function PredTiles(outs: seq<TileOutput>): (ts: seq<Tile>)
    ensures |ts| == |outs| && forall k :: 0 <= k < |outs| ==> ts[k] == Tile(outs[k].view, outs[k].predOriginal)
  {
    seq(|outs|, k requires 0 <= k < |outs| => Tile(outs[k].view, outs[k].predOriginal))
  }

  /** Averaging identical values is the identity: when every tile holds the constant
      `v`, every covered cell of the stitched result is exactly `v`. */
  lemma {:induction false} StitchConstant(ts: seq<Tile>, rows: int, cols: int, r: int, c: int, v: real)
    requires AllFit(ts, rows, cols) && 0 <= r < rows && 0 <= c < cols
    requires forall k :: 0 <= k < |ts| ==> ConstantTile(ts[k], v)
    requires exists k :: 0 <= k < |ts| && Contains(ts[k].view, r, c)
    ensures Averaged(ts, rows, cols, r, c) == Mean(v)
  {
    var vals := CoveringValues(ts, rows, cols, r, c);
    BuffersAreCoveringValues(ts, rows, cols, r, c);
    ConstantTilesSum(ts, rows, cols, r, c, v);
    CountPositiveIffCovered(ts, r, c);
    TimesIsProduct(|vals|, v);
    DivideProduct(|vals| as real, v, Sum(vals));
  }

  lemma {:induction false} DivideProduct(n: real, v: real, s: real)
    requires n > 0.0 && s == n * v
    ensures s / n == v
  {
  }

  /** With the views of an unjittered plan whose stride does not exceed the window,
      every stitched cell is a mean: no cell is left at 0 / 0. */
  lemma {:induction false} PlannedStitchHasNoNaN(height: int, width: int, window: int, stride: int, draws: nat -> Jitter, vs: seq<View>, ts: seq<Tile>)
    requires 0 < stride <= window && window <= height && window <= width
    requires GetViews(height, width, window, stride, false, draws) == Ok(vs)
    requires |ts| == |vs| && forall k :: 0 <= k < |ts| ==> ts[k].view == vs[k]
    requires AllFit(ts, height, width)
    ensures forall r, c :: 0 <= r < height && 0 <= c < width ==> Averaged(ts, height, width, r, c).Mean?
  {
    ViewsCover(height, width, window, stride, draws);
    forall r, c | 0 <= r < height && 0 <= c < width
      ensures Averaged(ts, height, width, r, c).Mean?
    {
      assert Covered(vs, r, c);
      var k :| 0 <= k < |vs| && Contains(vs[k], r, c);
      assert Contains(ts[k].view, r, c);
      CountPositiveIffCovered(ts, r, c);
      BuffersAreCoveringValues(ts, height, width, r, c);
    }
  }

  /** A cell outside every view stays at 0 / 0: with window 1 and stride 2 on a
      3 x 1 latent, row 1 of the stitched result is NaN. */
  lemma {:induction false} StrideBeyondWindowGivesNaN(draws: nat -> Jitter, ts: seq<Tile>)
    requires GetViews(3, 1, 1, 2, false, draws).Ok?
    requires var vs := GetViews(3, 1, 1, 2, false, draws).value;
             |ts| == |vs| && forall k :: 0 <= k < |ts| ==> ts[k].view == vs[k]
    requires AllFit(ts, 3, 1)
    ensures Averaged(ts, 3, 1, 1, 0) == NaN
  {
    StrideBeyondWindowLeavesGap(draws);
    CountPositiveIffCovered(ts, 1, 0);
    BuffersAreCoveringValues(ts, 3, 1, 1, 0);
  }

  /** The view's bounds are non-negative and ordered, as every planned view's are. */
  predicate Ordered(v: View) {
    0 <= v.rowStart <= v.rowEnd && 0 <= v.colStart <= v.colEnd
  }

  /** `g[rowStart:rowEnd, colStart:colEnd]`, with Python's clipping of the ends. */
  function Slice(g: Grid, v: View, rows: nat, cols: nat): (s: Grid)
    requires IsGrid(g, rows, cols) && Ordered(v)
    ensures IsGrid(s, ClipLen(v.rowStart, v.rowEnd, rows), ClipLen(v.colStart, v.colEnd, cols))
    ensures forall a, b :: 0 <= a < |s| && 0 <= b < |s[a]| ==> s[a][b] == g[v.rowStart + a][v.colStart + b]
  {
    var h := ClipLen(v.rowStart, v.rowEnd, rows);
    var w := ClipLen(v.colStart, v.colEnd, cols);
    seq(h, a requires 0 <= a < h => seq(w, b requires 0 <= b < w => g[v.rowStart + a][v.colStart + b]))
  }

  /** What one call of the sub-module receives: the tile of the sample being
      denoised and the same tile of the original latents. */
  datatype TileInput = TileInput(sample: Grid, original: Grid)

  datatype InputError = UnboundOriginalLatents

  /** Both frames cut at every view. */
  function TileInputs(sampleFrame: Grid, originalFrame: Grid, vs: seq<View>, rows: nat, cols: nat): (r: seq<TileInput>)
    requires IsGrid(sampleFrame, rows, cols) && IsGrid(originalFrame, rows, cols)
    requires forall k :: 0 <= k < |vs| ==> Ordered(vs[k])
    ensures |r| == |vs|
    ensures forall k :: 0 <= k < |vs| ==>
      r[k].sample == Slice(sampleFrame, vs[k], rows, cols) && r[k].original == Slice(originalFrame, vs[k], rows, cols)
  {
    seq(|vs|, k requires 0 <= k < |vs| => TileInput(Slice(sampleFrame, vs[k], rows, cols), Slice(originalFrame, vs[k], rows, cols)))
  }

  /** Lines 218-235 as written. `latents_pad` is the padded sample with jitter and
      the sample itself without; `original_latents_pad` is assigned only on the
      jitter branch, so without jitter the first tile's slice raises. */
  function TileInputsAsWritten(jitter: bool, sampleFrame: Grid, paddedOriginal: Grid, vs: seq<View>, rows: nat, cols: nat): (r: Result<seq<TileInput>, InputError>)
    requires IsGrid(sampleFrame, rows, cols) && IsGrid(paddedOriginal, rows, cols)
    requires forall k :: 0 <= k < |vs| ==> Ordered(vs[k])
    ensures r.Err? <==> !jitter && |vs| > 0
  {
    if !jitter && |vs| > 0 then Err(UnboundOriginalLatents) else Ok(TileInputs(sampleFrame, paddedOriginal, vs, rows, cols))
  }

  /** Every unjittered plan has a view, so unjittered MultiDiffusion always fails as
      written, while the jittered path is the corrected slicing. */
  lemma {:induction false} UnjitteredTilingFailsAsWritten(height: int, width: int, window: int, stride: int, draws: nat -> Jitter, sampleFrame: Grid, original: Grid, rows: nat, cols: nat)
    requires GetViews(height, width, window, stride, false, draws).Ok?
    requires IsGrid(sampleFrame, rows, cols) && IsGrid(original, rows, cols)
    requires var vs := GetViews(height, width, window, stride, false, draws).value;
             forall k :: 0 <= k < |vs| ==> Ordered(vs[k])
    ensures TileInputsAsWritten(false, sampleFrame, original, GetViews(height, width, window, stride, false, draws).value, rows, cols) == Err(UnboundOriginalLatents)
    ensures TileInputsAsWritten(true, sampleFrame, original, GetViews(height, width, window, stride, false, draws).value, rows, cols)
         == Ok(TileInputs(sampleFrame, original, GetViews(height, width, window, stride, false, draws).value, rows, cols))
  {
    var nbh := NumBlocks(height, window, stride);
    var nbw := NumBlocks(width, window, stride);
    MulMono(1, nbh, nbw);
  }

  /** Line 248: a ControlNet image is 8 times the latent's size, so a tile's image
      crop is its view scaled by 8. */
  function ControlRegion(v: View): (c: View)
    ensures c.rowEnd - c.rowStart == 8 * (v.rowEnd - v.rowStart) && c.colEnd - c.colStart == 8 * (v.colEnd - v.colStart)
  {
    View(8 * v.rowStart, 8 * v.rowEnd, 8 * v.colStart, 8 * v.colEnd)
  }

  /** The control crop holds exactly the image pixels that lie over the tile. */
  lemma {:induction false} ControlRegionOverTile(v: View, y: int, x: int)
    ensures Contains(ControlRegion(v), y, x) <==> Contains(v, y / 8, x / 8)
  {
    FloorDivBounds(y, v.rowStart, v.rowEnd, 8);
    FloorDivBounds(x, v.colStart, v.colEnd, 8);
  }

  lemma {:induction false} FloorDivBounds(y: int, lo: int, hi: int, n: int)
    requires n > 0
    ensures n * lo <= y < n * hi <==> lo <= y / n < hi
  {
    var q := y / n;
    assert y == n * q + y % n && 0 <= y % n < n;
    if lo <= q {
      MulMono(lo, q, n);
    } else {
      MulMono(q + 1, lo, n);
    }
    if q < hi {
      MulMono(q + 1, hi, n);
    } else {
      MulMono(hi, q, n);
    }
  }

  /** Lines 264-270: a T2I-Adapter feature map `scale` times smaller than the latent
      is padded by `jitter // scale` and cut at the view divided by `scale`. */
  function AdapterRegion(v: View, scale: int): View
    requires scale > 0
  {
    View(v.rowStart / scale, v.rowEnd / scale, v.colStart / scale, v.colEnd / scale)
  }

  /** When `scale` divides the jitter padding, the padded feature-map row cut for a
      padded latent row `p` is the feature-map row of the unpadded latent row. */
  lemma {:induction false} AdapterCropAligned(v: View, scale: int, j: int)
    requires scale > 0 && j % scale == 0
    ensures AdapterRegion(v, scale).rowStart - j / scale == (v.rowStart - j) / scale
    ensures AdapterRegion(v, scale).colStart - j / scale == (v.colStart - j) / scale
  {
    var m := j / scale;
    assert j == m * scale;
    DivModUnique(v.rowStart - j, scale, v.rowStart / scale - m, v.rowStart % scale);
    DivModUnique(v.colStart - j, scale, v.colStart / scale - m, v.colStart % scale);
  }

  /** Otherwise the feature-map crop is shifted one row against the latent tile
      for the view that starts at the first multiple of `scale` past the
      padding: its padded feature row is one more than the feature row of its
      unpadded latent row. */
  lemma {:induction false} AdapterCropShiftedWithoutDivisibility(v: View, scale: int, j: int)
    requires scale > 0 && j % scale != 0
    requires v.rowStart == j + scale - j % scale
    ensures AdapterRegion(v, scale).rowStart - j / scale == (v.rowStart - j) / scale + 1
  {
    var q := j / scale;
    assert v.rowStart == (q + 1) * scale;
    DivModUnique(v.rowStart, scale, q + 1, 0);
    DivModUnique(v.rowStart - j, scale, 0, scale - j % scale);
  }
}
