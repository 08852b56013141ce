/** Two-dimensional grids of values: one channel of a latent tensor, indexed
    `[row][column]`. The batch and channel axes of the source's tensors are
    dropped wherever an operation treats every channel alike. */
module Grids {

  type Grid = seq<seq<real>>

  /** `g` has exactly `rows` rows of `cols` entries each. */
  predicate IsGrid<T>(g: seq<seq<T>>, rows: int, cols: int) {
    |g| == rows && forall i :: 0 <= i < |g| ==> |g[i]| == cols
  }

  /** Two grids with the same number of rows and the same row lengths. */
  predicate SameShape<T, U>(a: seq<seq<T>>, b: seq<seq<U>>) {
    |a| == |b| && forall i :: 0 <= i < |a| ==> |a[i]| == |b[i]|
  }

  /** A grid holding `v` everywhere (`torch.zeros_like` and friends). */
  function Fill<T>(rows: nat, cols: nat, v: T): (g: seq<seq<T>>)
    ensures IsGrid(g, rows, cols)
    ensures forall i, j :: 0 <= i < rows && 0 <= j < cols ==> g[i][j] == v
  {
    seq(rows, _ => seq(cols, _ => v))
  }

  /** `torch.lerp(a, b, w)` on one element. */
  function Lerp(a: real, b: real, w: real): real {
    a + w * (b - a)
  }

  /** `torch.lerp` applied elementwise to two grids of the same shape. */
  function LerpGrid(a: Grid, b: Grid, w: real): (r: Grid)
    requires SameShape(a, b)
    ensures SameShape(r, a)
    ensures forall i, j :: 0 <= i < |a| && 0 <= j < |a[i]| ==> r[i][j] == Lerp(a[i][j], b[i][j], w)
  {
    seq(|a|, i requires 0 <= i < |a| => seq(|a[i]|, j requires 0 <= j < |a[i]| => Lerp(a[i][j], b[i][j], w)))
  }

  /** Interpolating with weight 0 gives the start, with weight 1 the end. */
  lemma {:induction false} LerpEndpoints(a: Grid, b: Grid)
    requires SameShape(a, b)
    ensures LerpGrid(a, b, 0.0) == a
    ensures LerpGrid(a, b, 1.0) == b
  {
    var r0 := LerpGrid(a, b, 0.0);
    var r1 := LerpGrid(a, b, 1.0);
    forall i | 0 <= i < |a|
      ensures r0[i] == a[i] && r1[i] == b[i]
    {
      assert forall j :: 0 <= j < |a[i]| ==> r0[i][j] == a[i][j];
      assert forall j :: 0 <= j < |a[i]| ==> r1[i][j] == b[i][j];
    }
  }

  /** The sum of a sequence, added left to right. */
  function Sum(xs: seq<real>): real {
    if |xs| == 0 then 0.0 else Sum(xs[..|xs| - 1]) + xs[|xs| - 1]
  }

  lemma {:induction false} SumAppend(xs: seq<real>, ys: seq<real>)
    ensures Sum(xs + ys) == Sum(xs) + Sum(ys)
    decreases |ys|
  {
    if |ys| > 0 {
      assert (xs + ys)[..|xs + ys| - 1] == xs + ys[..|ys| - 1];
      SumAppend(xs, ys[..|ys| - 1]);
    } else {
      assert xs + ys == xs;
    }
  }

  /** `a * x + b` applied to every entry of a sequence. */
  function AffineSeq(xs: seq<real>, a: real, b: real): (ys: seq<real>)
    ensures |ys| == |xs| && forall i :: 0 <= i < |xs| ==> ys[i] == a * xs[i] + b
  {
    seq(|xs|, i requires 0 <= i < |xs| => a * xs[i] + b)
  }

  /** `n * b` as `n` repeated additions of `b`, so that sums of shifted
      entries stay linear in the entries. */
  function Times(n: nat, b: real): real {
    if n == 0 then 0.0 else Times(n - 1, b) + b
  }

  lemma {:induction false} TimesAdd(m: nat, n: nat, b: real)
    ensures Times(m + n, b) == Times(m, b) + Times(n, b)
    decreases n
  {
    if n > 0 {
      TimesAdd(m, n - 1, b);
    }
  }

  lemma {:induction false} TimesIsProduct(n: nat, b: real)
    ensures Times(n, b) == n as real * b
  {
    if n > 0 {
      TimesIsProduct(n - 1, b);
    }
  }

  /** Summing commutes with an affine map: the sum scales by `a` and gains `b`
      once per entry. */
  lemma {:induction false} SumAffine(xs: seq<real>, a: real, b: real)
    ensures Sum(AffineSeq(xs, a, b)) == a * Sum(xs) + Times(|xs|, b)
    decreases |xs|
  {
    if |xs| > 0 {
      var n := |xs| - 1;
      var init, ys := xs[..n], AffineSeq(xs, a, b);
      var yinit := AffineSeq(init, a, b);
      assert ys[..n] == yinit by {
        forall i | 0 <= i < n
          ensures ys[..n][i] == yinit[i]
        {
          assert init[i] == xs[i];
        }
      }
      SumAffine(init, a, b);
      SumAffineStep(xs, ys, init, yinit, a, b);
    }
  }

  /** One more entry in `SumAffine`: the last image adds `a` times the last
      entry and one more `b`. */
  lemma {:induction false} SumAffineStep(xs: seq<real>, ys: seq<real>, init: seq<real>, yinit: seq<real>, a: real, b: real)
    requires |xs| > 0 && |ys| == |xs| && init == xs[..|xs| - 1] && yinit == ys[..|xs| - 1]
    requires ys[|xs| - 1] == a * xs[|xs| - 1] + b
    requires Sum(yinit) == a * Sum(init) + Times(|init|, b)
    ensures Sum(ys) == a * Sum(xs) + Times(|xs|, b)
  {
    var n := |xs| - 1;
    assert Sum(ys) == Sum(yinit) + ys[n];
    assert Sum(xs) == Sum(init) + xs[n];
    assert Times(|xs|, b) == Times(|init|, b) + b;
    Distribute(a, Sum(init), xs[n]);
  }

  lemma {:induction false} Distribute(a: real, s: real, x: real)
    ensures a * (s + x) == a * s + a * x
  {
  }

  /** The entries of a grid, row after row. */
  function Flatten(g: Grid): (xs: seq<real>)
    ensures |xs| == Size(g)
  {
    if |g| == 0 then [] else Flatten(g[..|g| - 1]) + g[|g| - 1]
  }

  /** The number of entries of a grid. */
  function Size<T>(g: seq<seq<T>>): nat {
    if |g| == 0 then 0 else Size(g[..|g| - 1]) + |g[|g| - 1]|
  }

  /** `torch.sum` over a grid. */
  function GridSum(g: Grid): real {
    Sum(Flatten(g))
  }

  /** `torch.mean` over a grid (which must have an entry). */
  function GridMean(g: Grid): real
    requires Size(g) > 0
  {
    GridSum(g) / Size(g) as real
  }

  /** `a * x + b` applied to every entry of a grid. */
  function AffineGrid(g: Grid, a: real, b: real): (r: Grid)
    ensures SameShape(r, g)
    ensures forall i :: 0 <= i < |g| ==> r[i] == AffineSeq(g[i], a, b)
  {
    seq(|g|, i requires 0 <= i < |g| => AffineSeq(g[i], a, b))
  }

  lemma {:induction false} AffineSeqAppend(xs: seq<real>, ys: seq<real>, a: real, b: real)
    ensures AffineSeq(xs + ys, a, b) == AffineSeq(xs, a, b) + AffineSeq(ys, a, b)
  {
    var l, r := AffineSeq(xs + ys, a, b), AffineSeq(xs, a, b) + AffineSeq(ys, a, b);
    forall i | 0 <= i < |l|
      ensures l[i] == r[i]
    {
      if i < |xs| {
        assert (xs + ys)[i] == xs[i];
      } else {
        assert (xs + ys)[i] == ys[i - |xs|];
      }
    }
  }

  /** Flattening commutes with an affine map of the entries. */
  lemma {:induction false} FlattenAffine(g: Grid, a: real, b: real)
    ensures Flatten(AffineGrid(g, a, b)) == AffineSeq(Flatten(g), a, b)
    decreases |g|
  {
    var r := AffineGrid(g, a, b);
    if |g| > 0 {
      var init := g[..|g| - 1];
      assert r[..|g| - 1] == AffineGrid(init, a, b);
      FlattenAffine(init, a, b);
      AffineSeqAppend(Flatten(init), g[|g| - 1], a, b);
    } else {
      assert r == [];
    }
  }

  /** The grid sum commutes with an affine map, as the sequence sum does. */
  lemma {:induction false} GridSumAffine(g: Grid, a: real, b: real)
    ensures Size(AffineGrid(g, a, b)) == Size(g)
    ensures GridSum(AffineGrid(g, a, b)) == a * GridSum(g) + Times(Size(g), b)
  {
    var xs := Flatten(g);
    var ys := AffineSeq(xs, a, b);
    FlattenAffine(g, a, b);
    SumAffine(xs, a, b);
    SumOfImage(g, AffineGrid(g, a, b), xs, ys, a, b);
  }

  /** A grid whose entries flatten to the affine image of `g`'s entries has
      `g`'s size and the affine image of its sum. */
  lemma {:induction false} SumOfImage(g: Grid, r: Grid, xs: seq<real>, ys: seq<real>, a: real, b: real)
    requires Flatten(g) == xs && Flatten(r) == ys && |ys| == |xs|
    requires Sum(ys) == a * Sum(xs) + Times(|xs|, b)
    ensures Size(r) == Size(g)
    ensures GridSum(r) == a * GridSum(g) + Times(Size(g), b)
  {
  }

  /** The mean of an affine image is the affine image of the mean. */
  lemma {:induction false} GridMeanAffine(g: Grid, a: real, b: real)
    requires Size(g) > 0
    ensures Size(AffineGrid(g, a, b)) == Size(g)
    ensures GridMean(AffineGrid(g, a, b)) == a * GridMean(g) + b
  {
    GridSumAffine(g, a, b);
    MeanOfAffine(g, AffineGrid(g, a, b), a, b);
  }

  /** `GridMeanAffine` for any grid `r` with the affine image's size and sum. */
  lemma {:induction false} MeanOfAffine(g: Grid, r: Grid, a: real, b: real)
    requires Size(g) > 0 && Size(r) == Size(g)
    requires GridSum(r) == a * GridSum(g) + Times(Size(g), b)
    ensures GridMean(r) == a * GridMean(g) + b
  {
    TimesIsProduct(Size(g), b);
    DivideAffine(a, b, GridSum(g), Size(g) as real, GridSum(r), GridMean(g), GridMean(r));
  }

  lemma {:induction false} DivideAffine(a: real, b: real, total: real, n: real, image: real, mean: real, imageMean: real)
    requires n > 0.0 && image == a * total + n * b
    requires mean == total / n && imageMean == image / n
    ensures imageMean == a * mean + b
  {
    var m := total / n;
    assert total == m * n;
    assert a * total + n * b == (a * m + b) * n;
  }
}
