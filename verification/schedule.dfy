/** The timestep window of `init_scheduler` (denoise_latents_nodes.py lines
    596-625): the scheduler's timesteps are thinned to one per order, the ones at
    or above the start value are skipped, the ones at or above the end value
    after them are kept, and both counts are scaled back by the order before
    the full timestep list is sliced. The generator seed is the node's seed with
    its low 32 bits flipped. */
module Schedule {
  import opened Wrappers
  import Dilated
  import Arith

  /** `len(list(filter(lambda ts: ts >= v, xs)))`. */
  function CountAtLeast(xs: seq<real>, v: real): (n: nat)
    ensures n <= |xs|
  {
    if |xs| == 0 then 0 else (if xs[0] >= v then 1 else 0) + CountAtLeast(xs[1..], v)
  }

  function Min(a: int, b: int): int {
    if a < b then a else b
  }

  /** Python's slice `xs[a:b]` for non-negative bounds: both are clipped to the
      length, and an inverted range is empty. */
  function Slice<T>(xs: seq<T>, a: nat, b: nat): (r: seq<T>)
    ensures |r| <= |xs|
    ensures a <= b <= |xs| ==> r == xs[a..b]
  {
    var lo := Min(a, |xs|);
    var hi := Min(b, |xs|);
    if hi <= lo then [] else xs[lo..hi]
  }

  /** What `init_scheduler` hands to the denoising loop. `generatorSeed` is
      `None` for a scheduler whose `step` takes no generator. */
  datatype Window = Window(numInferenceSteps: nat, timesteps: seq<real>, initTimestep: seq<real>, generatorSeed: Option<int>)

  /** `seed ^ 0xFFFFFFFF` on Python's unbounded integers: the low 32 bits are
      complemented and the rest, sign included, is kept. */
  function FlipLow32(seed: int): int {
    (seed / 0x1_0000_0000) * 0x1_0000_0000 + (0xFFFF_FFFF - seed % 0x1_0000_0000)
  }

  /** The start index into the full timestep list (lines 597-601 and 608). */
  function StartIndex(timesteps: seq<real>, order: nat, tStartVal: real): nat
    requires order >= 1
  {
    CountAtLeast(Dilated.Strided(timesteps, order, 0), tStartVal) * order
  }

  /** The number of timesteps kept (lines 604-605 and 609), counted in the thinned list
      after the skipped ones. */
  function KeptCount(timesteps: seq<real>, order: nat, tStartVal: real, tEndVal: real): nat
    requires order >= 1
  {
    var thinned := Dilated.Strided(timesteps, order, 0);
    CountAtLeast(Slice(thinned, CountAtLeast(thinned, tStartVal), |thinned|), tEndVal) * order
  }

  /** Line 613: `len // order`, the number of whole orders in `len`. */
  function WholeOrders(len: nat, order: nat): (n: nat)
    requires order >= 1
    ensures n * order <= len < (n + 1) * order
  {
    Arith.DivModUnique(len, order, len / order, len % order);
    len / order
  }

  /** Lines 596-625 with `set_timesteps` done (its result is `timesteps`), the
      scheduler's `order`, the rounded start and end values, and whether the
      scheduler's `step` takes a generator. */
  function InitScheduler(timesteps: seq<real>, order: nat, tStartVal: real, tEndVal: real, seed: int, takesGenerator: bool): (w: Window)
    requires order >= 1
  {
    var start := StartIndex(timesteps, order, tStartVal);
    var window := Slice(timesteps, start, start + KeptCount(timesteps, order, tStartVal, tEndVal));
    Window(WholeOrders(|window|, order), window, Slice(timesteps, start, start + 1), if takesGenerator then Some(FlipLow32(seed)) else None)
  }

  // ---------------------------------------------------------------------------
  // Properties
  // ---------------------------------------------------------------------------

  /** The window is the contiguous run of the scheduler's timesteps from the
      start index (clipped to the list), the initial
      timestep is the window's first entry whenever the window has one, and the
      step count is the number of whole orders in the window. */
  lemma {:induction false} WindowShape(timesteps: seq<real>, order: nat, tStartVal: real, tEndVal: real, seed: int, takesGenerator: bool)
    requires order >= 1
    ensures var w := InitScheduler(timesteps, order, tStartVal, tEndVal, seed, takesGenerator);
            var lo := Min(StartIndex(timesteps, order, tStartVal), |timesteps|);
            lo + |w.timesteps| <= |timesteps| && w.timesteps == timesteps[lo..lo + |w.timesteps|]
    ensures var w := InitScheduler(timesteps, order, tStartVal, tEndVal, seed, takesGenerator);
            |w.initTimestep| <= 1 && (|w.timesteps| > 0 ==> w.initTimestep == w.timesteps[..1])
    ensures var w := InitScheduler(timesteps, order, tStartVal, tEndVal, seed, takesGenerator);
            w.numInferenceSteps * order <= |w.timesteps| < (w.numInferenceSteps + 1) * order
  {
    var start := StartIndex(timesteps, order, tStartVal);
    var count := KeptCount(timesteps, order, tStartVal, tEndVal);
    SliceWindow(timesteps, start, count);
  }

  /** A clipped slice is a contiguous run from the clipped start, and the
      one-entry slice at the same start is its first entry. */
  lemma {:induction false} SliceWindow(ts: seq<real>, start: nat, count: nat)
    ensures var window := Slice(ts, start, start + count);
            var lo := Min(start, |ts|);
            lo + |window| <= |ts| && window == ts[lo..lo + |window|]
    ensures var window, first := Slice(ts, start, start + count), Slice(ts, start, start + 1);
            |first| <= 1 && (|window| > 0 ==> first == window[..1])
  {
    var window := Slice(ts, start, start + count);
    var lo := Min(start, |ts|);
    assert window == ts[lo..lo + |window|];
    if |window| > 0 {
      assert Slice(ts, start, start + 1) == ts[lo..lo + 1] == window[..1];
    }
  }

  /** On a list with no repeats whose entries are in descending order, counting
      the entries at or above `v` finds the length of the prefix that holds
      them. */
  lemma {:induction false} DescendingCount(xs: seq<real>, v: real)
    requires forall i, j :: 0 <= i < j < |xs| ==> xs[i] > xs[j]
    ensures forall i :: 0 <= i < |xs| ==> (xs[i] >= v <==> i < CountAtLeast(xs, v))
  {
    if |xs| > 0 {
      DescendingCount(xs[1..], v);
      if xs[0] < v && |xs| > 1 {
        assert xs[1..][0] < v;
      }
      forall i | 0 < i < |xs|
        ensures xs[i] >= v <==> i < CountAtLeast(xs, v)
      {
        assert xs[i] == xs[1..][i - 1];
        if xs[0] < v {
          assert xs[i] < xs[0];
        }
      }
    }
  }

  /** Taking every entry (`order == 1`) leaves the list as it is. */
  lemma {:induction false} StridedByOne(xs: seq<real>)
    ensures Dilated.Strided(xs, 1, 0) == xs
  {
    var s := Dilated.Strided(xs, 1, 0);
    PhaseLenByOne(|xs|, 0);
    forall i | 0 <= i < |xs|
      ensures s[i] == xs[i]
    {
      Dilated.PhaseIndexValue(0, i, 1);
    }
  }

  /** With step one, the phase from `offset` is the rest of the axis. */
  lemma {:induction false} PhaseLenByOne(n: nat, offset: nat)
    requires offset <= n
    ensures Dilated.PhaseLen(n, 1, offset) == n - offset
    decreases n - offset
  {
    if offset < n {
      PhaseLenByOne(n, offset + 1);
    }
  }

  /** The entries of `window` are exactly the entries of `ts` in `[lo, hi)`. */
  predicate SelectsRange(window: seq<real>, ts: seq<real>, lo: real, hi: real) {
    (forall t :: t in window ==> t in ts && lo <= t < hi) &&
    (forall t :: t in ts && lo <= t < hi ==> t in window)
  }

  /** For a first-order scheduler whose timesteps strictly decrease, the window
      holds exactly the timesteps below the start value and at or above the
      end value, and every one of them is a step. */
  lemma {:induction false} WindowSelectsRange(timesteps: seq<real>, tStartVal: real, tEndVal: real, seed: int, takesGenerator: bool)
    requires forall i, j :: 0 <= i < j < |timesteps| ==> timesteps[i] > timesteps[j]
    ensures var w := InitScheduler(timesteps, 1, tStartVal, tEndVal, seed, takesGenerator);
            SelectsRange(w.timesteps, timesteps, tEndVal, tStartVal) && w.numInferenceSteps == |w.timesteps|
  {
    var w := InitScheduler(timesteps, 1, tStartVal, tEndVal, seed, takesGenerator);
    FirstOrderWindow(timesteps, tStartVal, tEndVal, seed, takesGenerator);
    DescendingWindow(timesteps, tStartVal, tEndVal, w.timesteps);
  }

  /** With order one nothing is thinned and no count is scaled. */
  lemma {:induction false} FirstOrderWindow(timesteps: seq<real>, tStartVal: real, tEndVal: real, seed: int, takesGenerator: bool)
    ensures var s := CountAtLeast(timesteps, tStartVal);
            var e := CountAtLeast(timesteps[s..], tEndVal);
            var w := InitScheduler(timesteps, 1, tStartVal, tEndVal, seed, takesGenerator);
            w.timesteps == timesteps[s..s + e] && w.numInferenceSteps == |w.timesteps|
  {
    OrderOneCounts(timesteps, tStartVal, tEndVal);
  }

  /** With order one the thinned list is the list, so both counts are taken on
      the scheduler's own timesteps. */
  lemma {:induction false} OrderOneCounts(timesteps: seq<real>, tStartVal: real, tEndVal: real)
    ensures StartIndex(timesteps, 1, tStartVal) == CountAtLeast(timesteps, tStartVal)
    ensures var s := CountAtLeast(timesteps, tStartVal);
            KeptCount(timesteps, 1, tStartVal, tEndVal) == CountAtLeast(timesteps[s..], tEndVal)
  {
    StridedByOne(timesteps);
    var s := CountAtLeast(timesteps, tStartVal);
    assert Slice(timesteps, s, |timesteps|) == timesteps[s..];
  }

  /** In a strictly descending list, the entries after those at or above `a`
      that are at or above `b` are exactly the entries in `[b, a)`. */
  lemma {:induction false} DescendingWindow(xs: seq<real>, a: real, b: real, window: seq<real>)
    requires forall i, j :: 0 <= i < j < |xs| ==> xs[i] > xs[j]
    requires var s := CountAtLeast(xs, a);
             window == xs[s..s + CountAtLeast(xs[s..], b)]
    ensures SelectsRange(window, xs, b, a)
  {
    DescendingWindowIndex(xs, a, b);
    var s := CountAtLeast(xs, a);
    WindowByIndex(xs, s, CountAtLeast(xs[s..], b), a, b);
  }

  /** A run of positions that holds exactly the positions whose entries lie in
      `[b, a)` holds exactly those entries. */
  lemma {:induction false} WindowByIndex(xs: seq<real>, s: nat, e: nat, a: real, b: real)
    requires s + e <= |xs|
    requires forall i :: 0 <= i < |xs| ==> (s <= i < s + e <==> b <= xs[i] < a)
    ensures SelectsRange(xs[s..s + e], xs, b, a)
  {
    var w := xs[s..s + e];
    forall t | t in w
      ensures t in xs && b <= t < a
    {
      var i :| 0 <= i < |w| && w[i] == t;
      assert xs[s + i] == t;
    }
    forall t | t in xs && b <= t < a
      ensures t in w
    {
      var i :| 0 <= i < |xs| && xs[i] == t;
      assert w[i - s] == t;
    }
  }

  /** The index form of `DescendingWindow`: position `i` lies in the window iff
      its entry lies in `[b, a)`. */
  lemma {:induction false} DescendingWindowIndex(xs: seq<real>, a: real, b: real)
    requires forall i, j :: 0 <= i < j < |xs| ==> xs[i] > xs[j]
    ensures var s := CountAtLeast(xs, a);
            s + CountAtLeast(xs[s..], b) <= |xs| &&
            forall i :: 0 <= i < |xs| ==> (s <= i < s + CountAtLeast(xs[s..], b) <==> b <= xs[i] < a)
  {
    var s := CountAtLeast(xs, a);
    DescendingCount(xs, a);
    var rest := xs[s..];
    DescendingSuffix(xs, s);
    DescendingCount(rest, b);
    var e := CountAtLeast(rest, b);
    forall i | 0 <= i < |xs|
      ensures s <= i < s + e <==> b <= xs[i] < a
    {
      if s <= i {
        assert rest[i - s] == xs[i];
      }
    }
  }

  /** A suffix of a strictly descending list is strictly descending. */
  lemma {:induction false} DescendingSuffix(xs: seq<real>, s: nat)
    requires s <= |xs|
    requires forall i, j :: 0 <= i < j < |xs| ==> xs[i] > xs[j]
    ensures forall i, j :: 0 <= i < j < |xs[s..]| ==> xs[s..][i] > xs[s..][j]
  {
    forall i, j | 0 <= i < j < |xs[s..]| ensures xs[s..][i] > xs[s..][j] {
      assert xs[s..][i] == xs[s + i] && xs[s..][j] == xs[s + j];
    }
  }

  /** Flipping the low 32 bits twice gives the seed back, a seed of 32 bits
      stays one, and the flipped seed always differs from the seed. */
  lemma {:induction false} FlipLow32Involution(seed: int)
    ensures FlipLow32(FlipLow32(seed)) == seed
    ensures 0 <= seed < 0x1_0000_0000 ==> 0 <= FlipLow32(seed) < 0x1_0000_0000 && FlipLow32(seed) == 0xFFFF_FFFF - seed
    ensures FlipLow32(seed) != seed
  {
    var m := 0x1_0000_0000;
    var q, r := seed / m, seed % m;
    var f := FlipLow32(seed);
    assert f == q * m + (m - 1 - r);
    assert f / m == q && f % m == m - 1 - r by {
      Arith.DivModUnique(f, m, q, m - 1 - r);
    }
  }
}
