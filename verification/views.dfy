/** The MultiDiffusion view planner (`get_views`): it cuts a latent of
    `height x width` into overlapping `window x window` rectangles whose top-left
    corners step by `stride`, listed in row-major order, optionally moving each one
    by a random jitter inside a frame padded by the jitter range. */
module Views {
  import opened Wrappers
  import opened Arith

  /** A rectangle `[rowStart, rowEnd) x [colStart, colEnd)`, the source's
      `(h_start, h_end, w_start, w_end)` tuple. */
  datatype View = View(rowStart: int, rowEnd: int, colStart: int, colEnd: int)

  /** The exceptions the planner can raise: a division by a zero stride, and
      `random.randint` asked for an empty range. */
  datatype PlanError = ZeroStride | EmptyJitterRange

  /** The values `random.randint` returns for one tile, one per axis. */
  datatype Jitter = Jitter(row: int, col: int)

  predicate Contains(v: View, r: int, c: int) {
    v.rowStart <= r < v.rowEnd && v.colStart <= c < v.colEnd
  }

  function CeilDiv(a: nat, b: nat): nat
    requires b > 0
  {
    (a + b - 1) / b
  }

  /** Number of windows along one axis: one when the axis fits in a window,
      otherwise one more than the number of strides needed to reach the far edge. */
  function NumBlocks(extent: int, window: int, stride: int): (n: int)
    requires extent <= window || stride > 0
    ensures n >= 1
    ensures extent <= window ==> n == 1
  {
    if extent > window then CeilDiv(extent - window, stride) + 1 else 1
  }

  /** Beyond one window, the blocks are just enough for their strides to reach
      the far edge: one block fewer would fall short. */
  lemma {:induction false} NumBlocksReach(extent: int, window: int, stride: int)
    requires extent > window && stride > 0
    ensures var n := NumBlocks(extent, window, stride);
            (n - 2) * stride < extent - window <= (n - 1) * stride
  {
    var a := extent - window;
    var c := CeilDiv(a, stride);
    var q, r := (a + stride - 1) / stride, (a + stride - 1) % stride;
    assert a + stride - 1 == q * stride + r;
    assert (c - 1) * stride == q * stride - stride;
  }

  /** Python's `int(x)` on a float: truncation toward zero. */
  function Trunc(x: real): int {
    if x >= 0.0 then x.Floor else -((-x).Floor)
  }

  /** The tolerance subtracted before truncation on line 135. */
  const Epsilon: real := 0.000001

  /** The block count exactly as line 135 writes it, in exact real arithmetic. */
  function NumBlocksAsWritten(extent: int, window: int, stride: int): int
    requires extent <= window || stride != 0
  {
    if extent > window then Trunc((extent - window) as real / stride as real - Epsilon) + 2 else 1
  }

  /** Lines 145-156 for one axis: a window starting at `start` is moved back so it
      ends at the extent if it overshoots, then moved forward to 0 if it now starts
      before 0. The window keeps its length throughout. */
  function PlaceAxis(start: int, extent: int, window: int): (r: (int, int))
    ensures r.1 - r.0 == window
    ensures r.0 >= 0
    ensures start >= 0 && start + window <= extent ==> r == (start, start + window)
    ensures start >= 0 && start + window > extent && window <= extent ==> r == (extent - window, extent)
    ensures start >= 0 && extent < window ==> r == (0, window)
  {
    var (s1, e1) := if start + window > extent then (start + extent - (start + window), extent) else (start, start + window);
    if s1 < 0 then (0, e1 - s1) else (s1, e1)
  }

  /** The interval of the `k`-th window along one axis. */
  function AxisView(k: nat, extent: int, window: int, stride: int): (int, int) {
    PlaceAxis(k * stride, extent, window)
  }

  /** The view with block index `i` before jitter: row block `i / nbw`, column block `i % nbw`. */
  function BaseView(i: nat, nbw: nat, height: int, width: int, window: int, stride: int): View
    requires nbw > 0
  {
    var (hs, he) := AxisView(i / nbw, height, window, stride);
    var (ws, we) := AxisView(i % nbw, width, window, stride);
    View(hs, he, ws, we)
  }

  /** `jitter_range` (line 159): Python's floor division by 4. */
  function JitterRange(window: int, stride: int): int {
    (window - stride) / 4
  }

  /** Lines 162-173 for one axis: the bounds handed to `random.randint`, or `None`
      when the view touches both edges and no draw is made. A view at the start
      edge may only move back, one at the end edge only forward. */
  function JitterBounds(start: int, end: int, extent: int, j: int): (b: Option<(int, int)>)
    ensures b.None? <==> start == 0 && end == extent
    ensures b.Some? ==> b.value.0 == (if start == 0 then -j else if end == extent then 0 else -j)
    ensures b.Some? ==> b.value.1 == (if start == 0 then 0 else j)
  {
    if start != 0 && end != extent then Some((-j, j))
    else if start == 0 && end != extent then Some((-j, 0))
    else if start != 0 && end == extent then Some((0, j))
    else None
  }

  /** `random.randint(lo, hi)` with the outcome supplied as `draw`: a draw outside
      the range is moved to the nearest bound, so exactly the values of the range
      can come out. An empty range raises, as Python's does. */
  function RandInt(lo: int, hi: int, draw: int): (r: Result<int, PlanError>)
    ensures r.Ok? <==> lo <= hi
    ensures r.Ok? ==> lo <= r.value <= hi
    ensures lo <= draw <= hi ==> r == Ok(draw)
  {
    if lo > hi then Err(EmptyJitterRange)
    else if draw < lo then Ok(lo)
    else if draw > hi then Ok(hi)
    else Ok(draw)
  }

  function JitterOffset(start: int, end: int, extent: int, j: int, draw: int): Result<int, PlanError> {
    match JitterBounds(start, end, extent, j)
    case None => Ok(0)
    case Some(b) => RandInt(b.0, b.1, draw)
  }

  /** Lines 158-177: move one view by its drawn offsets plus `j`, the shift into
      the frame padded by `j` on every side. The column offset is drawn first. */
  function JitterView(v: View, height: int, width: int, j: int, d: Jitter): Result<View, PlanError> {
    var wj :- JitterOffset(v.colStart, v.colEnd, width, j, d.col);
    var hj :- JitterOffset(v.rowStart, v.rowEnd, height, j, d.row);
    Ok(View(v.rowStart + hj + j, v.rowEnd + hj + j, v.colStart + wj + j, v.colEnd + wj + j))
  }

  /** Jitter every view in order, the `k`-th (counting from `first`) with `draws(k)`;
      the first failing draw aborts the plan. */
  function JitterAll(vs: seq<View>, height: int, width: int, j: int, draws: nat -> Jitter, first: nat): (r: Result<seq<View>, PlanError>)
    ensures r.Ok? <==> forall i :: 0 <= i < |vs| ==> JitterView(vs[i], height, width, j, draws(first + i)).Ok?
    ensures r.Ok? ==> |r.value| == |vs|
    ensures r.Ok? ==> forall i :: 0 <= i < |vs| ==> JitterView(vs[i], height, width, j, draws(first + i)) == Ok(r.value[i])
    decreases |vs|
  {
    if |vs| == 0 then Ok([])
    else
      match JitterView(vs[0], height, width, j, draws(first))
      case Err(e) => Err(e)
      case Ok(v) =>
        match JitterAll(vs[1..], height, width, j, draws, first + 1)
        case Err(e) =>
          TailJitterFails(vs, height, width, j, draws, first);
          Err(e)
        case Ok(rest) =>
          JitterCons(vs, height, width, j, draws, first, v, rest);
          Ok([v] + rest)
  }

  /** A failing draw in the tail is a failing draw of the whole list. */
  lemma {:induction false} TailJitterFails(vs: seq<View>, height: int, width: int, j: int, draws: nat -> Jitter, first: nat)
    requires |vs| > 0
    requires !forall i :: 0 <= i < |vs| - 1 ==> JitterView(vs[1..][i], height, width, j, draws(first + 1 + i)).Ok?
    ensures !forall i :: 0 <= i < |vs| ==> JitterView(vs[i], height, width, j, draws(first + i)).Ok?
  {
    var i :| 0 <= i < |vs| - 1 && !JitterView(vs[1..][i], height, width, j, draws(first + 1 + i)).Ok?;
    assert vs[i + 1] == vs[1..][i] && first + (i + 1) == first + 1 + i;
  }

  /** Jittering the head and the tail jitters the whole list, view by view. */
  lemma {:induction false} JitterCons(vs: seq<View>, height: int, width: int, j: int, draws: nat -> Jitter, first: nat, v: View, rest: seq<View>)
    requires |vs| > 0 && JitterView(vs[0], height, width, j, draws(first)) == Ok(v)
    requires |rest| == |vs| - 1
    requires forall i :: 0 <= i < |vs| - 1 ==> JitterView(vs[1..][i], height, width, j, draws(first + 1 + i)) == Ok(rest[i])
    ensures forall i :: 0 <= i < |vs| ==> JitterView(vs[i], height, width, j, draws(first + i)) == Ok(([v] + rest)[i])
  {
    forall i | 0 <= i < |vs|
      ensures JitterView(vs[i], height, width, j, draws(first + i)) == Ok(([v] + rest)[i])
    {
      if i > 0 {
        assert vs[i] == vs[1..][i - 1] && first + i == first + 1 + (i - 1);
      }
    }
  }

  /** `get_views` (lines 132-180) with the block count of line 135 corrected to
      `NumBlocks`; the two counts agree unless the remainder is below a
      millionth of the stride (`NumBlocksAsWrittenAgrees`). A zero stride
      divides by zero whenever an axis is longer than the window. A negative
      stride is reported the same way; the source instead truncates line 135
      toward zero, so a block count can be negative, and plans whatever views
      Python's `//` and `%` by that count give. With jitter, `draws` supplies
      the random outcomes tile by tile. */
  function GetViews(height: int, width: int, window: int, stride: int, jitter: bool, draws: nat -> Jitter): (r: Result<seq<View>, PlanError>)
    ensures !jitter ==> (r.Ok? <==> stride > 0 || (height <= window && width <= window))
    ensures r.Err? && !(stride > 0 || (height <= window && width <= window)) ==> r.error == ZeroStride
    ensures r.Ok? ==> stride > 0 || (height <= window && width <= window)
    ensures r.Ok? ==> |r.value| == NumBlocks(height, window, stride) * NumBlocks(width, window, stride)
  {
    if stride <= 0 && (height > window || width > window) then Err(ZeroStride)
    else
      var nbh := NumBlocks(height, window, stride);
      var nbw := NumBlocks(width, window, stride);
      var base := Plan(nbh, nbw, height, width, window, stride);
      if jitter then JitterAll(base, height, width, JitterRange(window, stride), draws, 0) else Ok(base)
  }

  /** The unjittered plan: `nbh * nbw` views in row-major block order. */
  function Plan(nbh: nat, nbw: nat, height: int, width: int, window: int, stride: int): (vs: seq<View>)
    requires nbw > 0
    ensures |vs| == nbh * nbw
    ensures forall i :: 0 <= i < |vs| ==> vs[i] == BaseView(i, nbw, height, width, window, stride)
  {
    seq(nbh * nbw, i requires 0 <= i < nbh * nbw => BaseView(i, nbw, height, width, window, stride))
  }

  // ---------------------------------------------------------------------------
  // Properties of the plan
  // ---------------------------------------------------------------------------

  /** Views come out in row-major block order: view `i` takes row block `i / nbw`
      and column block `i % nbw`, each placed on its own axis. */
  lemma {:induction false} GetViewsRowMajor(height: int, width: int, window: int, stride: int, draws: nat -> Jitter)
    requires GetViews(height, width, window, stride, false, draws).Ok?
    ensures var vs := GetViews(height, width, window, stride, false, draws).value;
            var nbw := NumBlocks(width, window, stride);
            forall i :: 0 <= i < |vs| ==> vs[i] == BaseView(i, nbw, height, width, window, stride)
  {
    var nbh := NumBlocks(height, window, stride);
    var nbw := NumBlocks(width, window, stride);
    assert GetViews(height, width, window, stride, false, draws).value == Plan(nbh, nbw, height, width, window, stride);
  }

  lemma {:induction false} ViewsHaveWindowSize(height: int, width: int, window: int, stride: int, jitter: bool, draws: nat -> Jitter)
    requires GetViews(height, width, window, stride, jitter, draws).Ok?
    ensures var vs := GetViews(height, width, window, stride, jitter, draws).value;
            forall i :: 0 <= i < |vs| ==> vs[i].rowEnd - vs[i].rowStart == window && vs[i].colEnd - vs[i].colStart == window
  {
    var nbh := NumBlocks(height, window, stride);
    var nbw := NumBlocks(width, window, stride);
    var base := Plan(nbh, nbw, height, width, window, stride);
    var vs := GetViews(height, width, window, stride, jitter, draws).value;
    if jitter {
      var j := JitterRange(window, stride);
      forall i | 0 <= i < |vs|
        ensures vs[i].rowEnd - vs[i].rowStart == window && vs[i].colEnd - vs[i].colStart == window
      {
        assert JitterView(base[i], height, width, j, draws(i)) == Ok(vs[i]);
      }
    }
  }

  /** A block's start `k * stride` is never negative in a plan that exists. */
  lemma {:induction false} BlockStartNonNegative(k: nat, extent: int, window: int, stride: int)
    requires extent <= window || stride > 0
    requires k < NumBlocks(extent, window, stride) || stride >= 0
    ensures k * stride >= 0 || k == 0
  {
    if stride < 0 {
      assert NumBlocks(extent, window, stride) == 1;
    }
  }

  /** Without jitter, views stay inside the extent when the window fits in it, and
      are `[0, window)` on an axis shorter than the window. */
  lemma {:induction false} ViewsInBounds(height: int, width: int, window: int, stride: int, draws: nat -> Jitter)
    requires GetViews(height, width, window, stride, false, draws).Ok?
    ensures var vs := GetViews(height, width, window, stride, false, draws).value;
            forall i :: 0 <= i < |vs| ==>
              && (window <= height ==> 0 <= vs[i].rowStart && vs[i].rowEnd <= height)
              && (height < window ==> vs[i].rowStart == 0 && vs[i].rowEnd == window)
              && (window <= width ==> 0 <= vs[i].colStart && vs[i].colEnd <= width)
              && (width < window ==> vs[i].colStart == 0 && vs[i].colEnd == window)
  {
    var vs := GetViews(height, width, window, stride, false, draws).value;
    var nbh := NumBlocks(height, window, stride);
    var nbw := NumBlocks(width, window, stride);
    forall i | 0 <= i < |vs|
      ensures (window <= height ==> 0 <= vs[i].rowStart && vs[i].rowEnd <= height)
      ensures (height < window ==> vs[i].rowStart == 0 && vs[i].rowEnd == window)
      ensures (window <= width ==> 0 <= vs[i].colStart && vs[i].colEnd <= width)
      ensures (width < window ==> vs[i].colStart == 0 && vs[i].colEnd == window)
    {
      assert vs[i] == BaseView(i, nbw, height, width, window, stride);
      if stride < 0 {
        assert nbh == 1 && nbw == 1;
      }
      BaseViewInBounds(i, nbw, height, width, window, stride);
    }
  }

  /** One unjittered view, placed from a block start that is not negative. */
  lemma {:induction false} BaseViewInBounds(i: nat, nbw: nat, height: int, width: int, window: int, stride: int)
    requires nbw > 0 && (stride >= 0 || i == 0)
    ensures var v := BaseView(i, nbw, height, width, window, stride);
            && (window <= height ==> 0 <= v.rowStart && v.rowEnd <= height)
            && (height < window ==> v.rowStart == 0 && v.rowEnd == window)
            && (window <= width ==> 0 <= v.colStart && v.colEnd <= width)
            && (width < window ==> v.colStart == 0 && v.colEnd == window)
  {
    AxisInBounds(i / nbw, height, window, stride);
    AxisInBounds(i % nbw, width, window, stride);
  }

  /** The `k`-th window of an axis, from a start that is not negative. */
  lemma {:induction false} AxisInBounds(k: nat, extent: int, window: int, stride: int)
    requires stride >= 0 || k == 0
    ensures window <= extent ==> 0 <= AxisView(k, extent, window, stride).0 && AxisView(k, extent, window, stride).1 <= extent
    ensures extent < window ==> AxisView(k, extent, window, stride) == (0, window)
  {
    MulMono(0, k, if stride >= 0 then stride else 0);
    PlaceInBounds(k * stride, extent, window);
  }

  /** A window placed from a start that is not negative lies in the axis when
      it fits, and is `[0, window)` otherwise. */
  lemma {:induction false} PlaceInBounds(start: int, extent: int, window: int)
    requires start >= 0
    ensures window <= extent ==> 0 <= PlaceAxis(start, extent, window).0 && PlaceAxis(start, extent, window).1 <= extent
    ensures extent < window ==> PlaceAxis(start, extent, window) == (0, window)
  {
  }

  /** With `0 < stride <= window <= extent`, the first window on an axis starts at 0
      and the last one ends exactly at the extent. */
  lemma {:induction false} AxisEnds(extent: int, window: int, stride: int)
    requires 0 < stride <= window <= extent
    ensures AxisView(0, extent, window, stride).0 == 0
    ensures AxisView(NumBlocks(extent, window, stride) - 1, extent, window, stride).1 == extent
  {
    var n := NumBlocks(extent, window, stride);
    if extent > window {
      MulMono(0, n - 1, stride);
    }
  }

  /** A block whose window holds coordinate `x`. */
  lemma {:induction false} CoveringBlock(x: int, extent: int, window: int, stride: int) returns (k: nat)
    requires 0 < stride <= window <= extent && 0 <= x < extent
    ensures k < NumBlocks(extent, window, stride)
    ensures AxisView(k, extent, window, stride).0 <= x < AxisView(k, extent, window, stride).1
  {
    var n := NumBlocks(extent, window, stride);
    if x / stride < n {
      k := x / stride;
      CoverByQuotient(x, extent, window, stride);
    } else {
      k := n - 1;
      CoverByLast(x, extent, window, stride);
    }
  }

  /** The block `x / stride` starts at or before `x` and reaches past it. */
  lemma {:induction false} CoverByQuotient(x: int, extent: int, window: int, stride: int)
    requires 0 < stride <= window <= extent && 0 <= x < extent
    ensures x / stride >= 0
    ensures AxisView(x / stride, extent, window, stride).0 <= x < AxisView(x / stride, extent, window, stride).1
  {
    var q := x / stride;
    MulMono(0, q, stride);
    PlaceCovers(x, extent, window, q * stride);
  }

  /** When `x / stride` is past the last block, the last block holds `x`. */
  lemma {:induction false} CoverByLast(x: int, extent: int, window: int, stride: int)
    requires 0 < stride <= window <= extent && 0 <= x < extent
    requires x / stride >= NumBlocks(extent, window, stride)
    ensures var k := NumBlocks(extent, window, stride) - 1;
            AxisView(k, extent, window, stride).0 <= x < AxisView(k, extent, window, stride).1
  {
    var k := NumBlocks(extent, window, stride) - 1;
    MulMono(k, x / stride, stride);
    MulMono(0, k, stride);
    PlaceCovers(x, extent, window, k * stride);
  }

  /** A window placed from a start at or before `x` that reaches past `x`, or
      that reaches the far edge, holds `x`. */
  lemma {:induction false} PlaceCovers(x: int, extent: int, window: int, start: int)
    requires 0 <= start <= x < extent && window <= extent
    requires x < start + window || extent <= start + window
    ensures PlaceAxis(start, extent, window).0 <= x < PlaceAxis(start, extent, window).1
  {
  }

  /** With `0 < stride <= window <= extent`, every coordinate of the axis lies in
      some window. */
  lemma {:induction false} AxisCoverage(extent: int, window: int, stride: int)
    requires 0 < stride <= window <= extent
    ensures forall x :: 0 <= x < extent ==> AxisCovered(x, extent, window, stride)
  {
    forall x | 0 <= x < extent
      ensures AxisCovered(x, extent, window, stride)
    {
      var k := CoveringBlock(x, extent, window, stride);
    }
  }

  /** Some window of the axis holds coordinate `x`. */
  predicate AxisCovered(x: int, extent: int, window: int, stride: int)
    requires 0 < stride
  {
    exists k: nat :: k < NumBlocks(extent, window, stride) &&
      AxisView(k, extent, window, stride).0 <= x < AxisView(k, extent, window, stride).1
  }

  /** Some view of `vs` holds position `(r, c)`. */
  predicate Covered(vs: seq<View>, r: int, c: int) {
    exists i :: 0 <= i < |vs| && Contains(vs[i], r, c)
  }

  /** Without jitter and with `0 < stride <= window <= min(height, width)`, the views
      cover every position of the latent, so no count buffer stays at zero. */
  lemma {:induction false} ViewsCover(height: int, width: int, window: int, stride: int, draws: nat -> Jitter)
    requires 0 < stride <= window && window <= height && window <= width
    ensures GetViews(height, width, window, stride, false, draws).Ok?
    ensures var vs := GetViews(height, width, window, stride, false, draws).value;
            forall r, c :: 0 <= r < height && 0 <= c < width ==> Covered(vs, r, c)
  {
    var vs := GetViews(height, width, window, stride, false, draws).value;
    var nbh := NumBlocks(height, window, stride);
    var nbw := NumBlocks(width, window, stride);
    assert vs == Plan(nbh, nbw, height, width, window, stride);
    forall r, c | 0 <= r < height && 0 <= c < width
      ensures Covered(vs, r, c)
    {
      PlanCovers(nbh, nbw, height, width, window, stride, r, c);
    }
  }

  lemma {:induction false} PlanCovers(nbh: nat, nbw: nat, height: int, width: int, window: int, stride: int, r: int, c: int)
    requires 0 < stride <= window && window <= height && window <= width
    requires nbh == NumBlocks(height, window, stride) && nbw == NumBlocks(width, window, stride)
    requires 0 <= r < height && 0 <= c < width
    ensures Covered(Plan(nbh, nbw, height, width, window, stride), r, c)
  {
    var vs := Plan(nbh, nbw, height, width, window, stride);
    var kr := CoveringBlock(r, height, window, stride);
    var kc := CoveringBlock(c, width, window, stride);
    var i := BlockIndex(kr, kc, nbh, nbw);
    assert vs[i] == BaseView(i, nbw, height, width, window, stride);
    assert Contains(vs[i], r, c);
  }

  /** Row block `kr` and column block `kc` meet at view `kr * nbw + kc`. */
  lemma {:induction false} BlockIndex(kr: nat, kc: nat, nbh: nat, nbw: nat) returns (i: nat)
    requires kr < nbh && kc < nbw
    ensures i < nbh * nbw && i / nbw == kr && i % nbw == kc
  {
    i := kr * nbw + kc;
    MulMono(kr, nbh - 1, nbw);
    DivModUnique(i, nbw, kr, kc);
  }

  /** With jitter and `0 <= j`, every view keeps its size and lies inside the frame
      `[0, extent + 2j]` padded by the jitter range `j`. */
  lemma {:induction false} JitteredViewsInBounds(height: int, width: int, window: int, stride: int, draws: nat -> Jitter)
    requires GetViews(height, width, window, stride, true, draws).Ok?
    requires 0 < stride && JitterRange(window, stride) >= 0 && window <= height && window <= width
    ensures var vs := GetViews(height, width, window, stride, true, draws).value;
            var j := JitterRange(window, stride);
            forall i :: 0 <= i < |vs| ==>
              && vs[i].rowEnd - vs[i].rowStart == window && vs[i].colEnd - vs[i].colStart == window
              && 0 <= vs[i].rowStart && vs[i].rowEnd <= height + 2 * j
              && 0 <= vs[i].colStart && vs[i].colEnd <= width + 2 * j
  {
    var nbh := NumBlocks(height, window, stride);
    var nbw := NumBlocks(width, window, stride);
    var base := Plan(nbh, nbw, height, width, window, stride);
    var vs := GetViews(height, width, window, stride, true, draws).value;
    var j := JitterRange(window, stride);
    ViewsInBounds(height, width, window, stride, draws);
    assert GetViews(height, width, window, stride, false, draws) == Ok(base);
    forall i | 0 <= i < |vs|
      ensures vs[i].rowEnd - vs[i].rowStart == window && vs[i].colEnd - vs[i].colStart == window
      ensures 0 <= vs[i].rowStart && vs[i].rowEnd <= height + 2 * j
      ensures 0 <= vs[i].colStart && vs[i].colEnd <= width + 2 * j
    {
      assert JitterView(base[i], height, width, j, draws(i)) == Ok(vs[i]);
      JitterShiftInFrame(base[i].rowStart, base[i].rowEnd, height, j, draws(i).row);
      JitterShiftInFrame(base[i].colStart, base[i].colEnd, width, j, draws(i).col);
    }
  }

  /** One axis of a jittered view: an interval inside `[0, extent]` moved by its
      offset plus `j` lies inside `[0, extent + 2j]`. */
  lemma {:induction false} JitterShiftInFrame(start: int, end: int, extent: int, j: int, draw: int)
    requires 0 <= start <= end <= extent && j >= 0
    requires JitterOffset(start, end, extent, j, draw).Ok?
    ensures var d := JitterOffset(start, end, extent, j, draw).value;
            0 <= start + d + j && end + d + j <= extent + 2 * j
  {
  }

  /** With jitter and `stride > window`, the jitter range is negative and the first
      view on an axis longer than the window asks `randint` for an empty range. */
  lemma {:induction false} StrideBeyondWindowJitterFails(height: int, width: int, window: int, stride: int, draws: nat -> Jitter)
    requires window < stride && window < height
    ensures GetViews(height, width, window, stride, true, draws).Err?
  {
    if stride <= 0 {
      return;
    }
    var nbh := NumBlocks(height, window, stride);
    var nbw := NumBlocks(width, window, stride);
    var base := Plan(nbh, nbw, height, width, window, stride);
    var j := JitterRange(window, stride);
    assert j < 0;
    assert base[0] == BaseView(0, nbw, height, width, window, stride);
    assert base[0].rowStart == 0 && base[0].rowEnd == window;
    assert JitterView(base[0], height, width, j, draws(0)).Err?;
  }

  /** Without jitter, a stride longer than the window leaves rows no view covers:
      here row 1 of a 3-row latent with window 1 and stride 2. */
  lemma {:induction false} StrideBeyondWindowLeavesGap(draws: nat -> Jitter)
    ensures GetViews(3, 1, 1, 2, false, draws).Ok?
    ensures var vs := GetViews(3, 1, 1, 2, false, draws).value;
            |vs| == 2 && forall i :: 0 <= i < |vs| ==> !Contains(vs[i], 1, 0)
  {
    var vs := GetViews(3, 1, 1, 2, false, draws).value;
    assert NumBlocks(3, 1, 2) == 2 && NumBlocks(1, 1, 2) == 1;
    assert vs[0] == BaseView(0, 1, 3, 1, 1, 2);
    assert vs[1] == BaseView(1, 1, 3, 1, 1, 2);
    assert vs[0].rowEnd == 1 && vs[1].rowStart == 2;
  }

  /** The tolerance on line 135 is harmless unless the stride exceeds a million:
      when the remainder of `extent - window` by the stride is 0 or at least a
      millionth of the stride, line 135 counts the intended number of blocks. */
  lemma {:induction false} NumBlocksAsWrittenAgrees(extent: int, window: int, stride: int)
    requires stride > 0
    requires (extent - window) % stride == 0 || (extent - window) % stride * 1000000 >= stride
    ensures NumBlocksAsWritten(extent, window, stride) == NumBlocks(extent, window, stride)
  {
    if extent > window {
      var a := extent - window;
      if a % stride == 0 {
        TruncExact(a, stride);
      } else {
        TruncWithRemainder(a, stride);
      }
    }
  }

  /** A stride dividing `a`: subtracting the tolerance lands just below the
      quotient, one less than the ceiling. */
  lemma {:induction false} TruncExact(a: int, stride: int)
    requires a > 0 && stride > 0 && a % stride == 0
    ensures Trunc(a as real / stride as real - Epsilon) == CeilDiv(a, stride) - 1
  {
    var q := a / stride;
    RealQuotient(a, stride);
    assert q >= 1;
    FloorBetween(q as real - Epsilon, q - 1);
    DivModUnique(a + stride - 1, stride, q, stride - 1);
  }

  /** A remainder of at least a millionth of the stride survives the tolerance,
      so truncation gives the quotient, one less than the ceiling. */
  lemma {:induction false} TruncWithRemainder(a: int, stride: int)
    requires a > 0 && stride > 0 && a % stride != 0 && a % stride * 1000000 >= stride
    ensures Trunc(a as real / stride as real - Epsilon) == CeilDiv(a, stride) - 1
  {
    var q, r := a / stride, a % stride;
    var f := r as real / stride as real;
    RealQuotient(a, stride);
    FractionAtLeastEpsilon(r, stride);
    FloorBetween(q as real + f - Epsilon, q);
    DivModUnique(a + stride - 1, stride, q + 1, r - 1);
  }

  lemma {:induction false} RealQuotient(a: int, s: int)
    requires s > 0
    ensures a as real / s as real == (a / s) as real + (a % s) as real / s as real
  {
    assert a as real == (a / s) as real * s as real + (a % s) as real;
  }

  lemma {:induction false} FractionAtLeastEpsilon(r: int, s: int)
    requires 0 < r < s && r * 1000000 >= s
    ensures Epsilon <= r as real / s as real < 1.0
  {
    var f := r as real / s as real;
    assert f * s as real == r as real;
    assert f * 1000000.0 * s as real >= 1.0 * s as real;
  }

  lemma {:induction false} FloorBetween(x: real, n: int)
    requires n as real <= x < n as real + 1.0
    ensures Trunc(x) == n || x < 0.0
    ensures x >= 0.0 ==> x.Floor == n
  {
  }

  /** Line 135 undercounts when the remainder is a tiny fraction of a huge stride:
      extent 4000001, window 2000000, stride 2000000 gets 2 blocks where 3 are needed,
      and its two windows leave the last coordinate uncovered. */
  lemma {:induction false} EpsilonUndercountsBlocks()
    ensures NumBlocksAsWritten(4000001, 2000000, 2000000) == 2
    ensures NumBlocks(4000001, 2000000, 2000000) == 3
    ensures forall k :: 0 <= k < 2 ==> AxisView(k, 4000001, 2000000, 2000000).1 <= 4000000
  {
    var x := 2000001 as real / 2000000 as real - Epsilon;
    assert x == 0.9999995;
    assert x.Floor == 0;
    assert CeilDiv(2000001, 2000000) == 2;
  }
}
