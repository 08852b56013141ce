/** SDXL colour guidance (`color_guidance`, `center_tensor`, `CHANNEL_VALUES`):
    the sub-module's prediction is re-centred, channel by channel and then as a
    whole, in two timestep regimes. A latent is modelled as its channels (of
    the first batch element), each a grid of the same shape. */
module Color {
  import opened Wrappers
  import opened Grids

  type Latent = seq<Grid>

  /** `torch.mean` of a grid; an empty grid is given mean 0. */
  function Mean(g: Grid): (m: real)
    ensures Size(g) > 0 ==> m == GridMean(g)
  {
    if Size(g) == 0 then 0.0 else GridMean(g)
  }

  /** The sum of all entries of all channels. */
  function TensorSum(x: Latent): real {
    if |x| == 0 then 0.0 else TensorSum(x[..|x| - 1]) + GridSum(x[|x| - 1])
  }

  /** The number of entries of all channels. */
  function TensorSize(x: Latent): nat {
    if |x| == 0 then 0 else TensorSize(x[..|x| - 1]) + Size(x[|x| - 1])
  }

  /** `input_tensor.mean()` over the whole latent; an empty one is given 0. */
  function TensorMean(x: Latent): real {
    if TensorSize(x) == 0 then 0.0 else TensorSum(x) / TensorSize(x) as real
  }

  /** Applying `a * v + b` to every entry maps the mean alike. */
  lemma {:induction false} MeanAffine(g: Grid, a: real, b: real)
    ensures Size(AffineGrid(g, a, b)) == Size(g)
    ensures Size(g) > 0 ==> Mean(AffineGrid(g, a, b)) == a * Mean(g) + b
  {
    GridSumAffine(g, a, b);
    if Size(g) > 0 {
      GridMeanAffine(g, a, b);
    }
  }

  /** `v + b` applied to every entry of every channel. */
  function ShiftTensor(x: Latent, b: real): (r: Latent)
    ensures |r| == |x| && forall c {:trigger r[c]} :: 0 <= c < |x| ==> r[c] == AffineGrid(x[c], 1.0, b)
  {
    seq(|x|, c requires 0 <= c < |x| => AffineGrid(x[c], 1.0, b))
  }

  /** Shifting every channel keeps the entry count and adds the shift once per
      entry to the sum. */
  lemma {:induction false} TensorSumShift(x: Latent, b: real)
    ensures TensorSize(ShiftTensor(x, b)) == TensorSize(x)
    ensures TensorSum(ShiftTensor(x, b)) == TensorSum(x) + Times(TensorSize(x), b)
    decreases |x|
  {
    if |x| > 0 {
      var r, init, last := ShiftTensor(x, b), x[..|x| - 1], x[|x| - 1];
      var ri, rl := ShiftTensor(init, b), AffineGrid(last, 1.0, b);
      ShiftTensorLast(x, b);
      TensorSumShift(init, b);
      GridSumAffine(last, 1.0, b);
      ShiftStep(x, r, init, ri, last, rl, b);
    }
  }

  /** The step of `TensorSumShift`: the shifted latent is the shifted leading
      channels followed by the shifted last channel. */
  lemma {:induction false} ShiftStep(x: Latent, r: Latent, init: Latent, ri: Latent, last: Grid, rl: Grid, b: real)
    requires |x| > 0 && init == x[..|x| - 1] && last == x[|x| - 1]
    requires TensorSum(r) == TensorSum(ri) + GridSum(rl) && TensorSize(r) == TensorSize(ri) + Size(rl)
    requires TensorSize(ri) == TensorSize(init) && TensorSum(ri) == TensorSum(init) + Times(TensorSize(init), b)
    requires Size(rl) == Size(last) && GridSum(rl) == 1.0 * GridSum(last) + Times(Size(last), b)
    ensures TensorSize(r) == TensorSize(x)
    ensures TensorSum(r) == TensorSum(x) + Times(TensorSize(x), b)
  {
    TimesAdd(TensorSize(init), Size(last), b);
  }

  /** The sum and size of a shifted latent split at its last channel. */
  lemma {:induction false} ShiftTensorLast(x: Latent, b: real)
    requires |x| > 0
    ensures TensorSum(ShiftTensor(x, b)) == TensorSum(ShiftTensor(x[..|x| - 1], b)) + GridSum(AffineGrid(x[|x| - 1], 1.0, b))
    ensures TensorSize(ShiftTensor(x, b)) == TensorSize(ShiftTensor(x[..|x| - 1], b)) + Size(AffineGrid(x[|x| - 1], 1.0, b))
  {
    var r := ShiftTensor(x, b);
    assert r[..|x| - 1] == ShiftTensor(x[..|x| - 1], b);
  }

  /** Shifting every entry shifts the mean alike. */
  lemma {:induction false} TensorMeanShift(x: Latent, b: real)
    ensures TensorSize(x) > 0 ==> TensorMean(ShiftTensor(x, b)) == TensorMean(x) + b
    ensures TensorSize(x) == 0 ==> TensorMean(ShiftTensor(x, b)) == 0.0
  {
    TensorSumShift(x, b);
    var n := TensorSize(x);
    if n > 0 {
      TimesIsProduct(n, b);
      DivideShift(TensorSum(x), n, b, Times(n, b), TensorSum(ShiftTensor(x, b)));
    }
  }

  lemma {:induction false} DivideShift(total: real, n: nat, b: real, t: real, image: real)
    requires n > 0 && image == total + t && t == n as real * b
    ensures image / n as real == total / n as real + b
  {
    assert (total / n as real + b) * n as real == total + n as real * b;
  }

  datatype ColorError = ChannelOutOfRange(channel: nat) | UnknownSelection(name: string)

  /** Every listed channel is one the latent has. */
  predicate InRange(channels: seq<nat>, x: Latent) {
    forall i :: 0 <= i < |channels| ==> channels[i] < |x|
  }

  /** Each channel is listed at most once. */
  predicate Distinct(channels: seq<nat>) {
    forall i, j :: 0 <= i < j < |channels| ==> channels[i] != channels[j]
  }

  /** What line 746 makes of one channel: it loses `channelShift` times its own
      mean. */
  function ShiftedChannel(g: Grid, channelShift: real): Grid {
    AffineGrid(g, 1.0, -Mean(g) * channelShift)
  }

  /** After its shift a channel's mean is `1 - channelShift` times what it was:
      a shift of 1 centres the channel. */
  lemma {:induction false} ShiftedChannelMean(g: Grid, channelShift: real)
    ensures SameShape(ShiftedChannel(g, channelShift), g)
    ensures Mean(ShiftedChannel(g, channelShift)) == (1.0 - channelShift) * Mean(g)
  {
    MeanAffine(g, 1.0, -Mean(g) * channelShift);
  }

  /** Lines 745-746: the channels are shifted one after the other, in the order
      listed; a channel the latent does not have raises. */
  function ShiftChannels(x: Latent, channelShift: real, channels: seq<nat>): (r: Result<Latent, ColorError>)
    ensures r.Ok? <==> InRange(channels, x)
    ensures r.Ok? ==> |r.value| == |x| && forall k {:trigger r.value[k]} :: 0 <= k < |x| ==> SameShape(r.value[k], x[k])
    ensures r.Ok? ==> forall k {:trigger r.value[k]} :: 0 <= k < |x| && k !in channels ==> r.value[k] == x[k]
    decreases |channels|
  {
    if |channels| == 0 then Ok(x)
    else if channels[0] >= |x| then Err(ChannelOutOfRange(channels[0]))
    else
      var y := x[channels[0] := ShiftedChannel(x[channels[0]], channelShift)];
      var r := ShiftChannels(y, channelShift, channels[1..]);
      assert forall i :: 1 <= i < |channels| ==> channels[1..][i - 1] == channels[i];
      r
  }

  /** With each channel listed once, every listed channel ends up shifted by its
      own mean exactly once. */
  lemma {:induction false} ShiftChannelsShiftsListed(x: Latent, channelShift: real, channels: seq<nat>)
    requires InRange(channels, x) && Distinct(channels)
    ensures forall i :: 0 <= i < |channels| ==>
              ShiftChannels(x, channelShift, channels).value[channels[i]] == ShiftedChannel(x[channels[i]], channelShift)
    decreases |channels|
  {
    if |channels| > 0 {
      var c := channels[0];
      var y := x[c := ShiftedChannel(x[c], channelShift)];
      var rest := channels[1..];
      assert forall i :: 0 <= i < |rest| ==> rest[i] == channels[i + 1];
      ShiftChannelsShiftsListed(y, channelShift, rest);
      assert c !in rest;
    }
  }

  /** Line 747: the whole tensor loses `fullShift` times its mean. */
  function FullShift(y: Latent, fullShift: real): (r: Latent)
    ensures |r| == |y|
  {
    ShiftTensor(y, -TensorMean(y) * fullShift)
  }

  /** `center_tensor` (lines 744-747): the channel shifts, then the whole tensor
      loses `fullShift` times its mean. */
  function CenterTensor(x: Latent, channelShift: real, fullShift: real, channels: seq<nat>): (r: Result<Latent, ColorError>)
    ensures r.Ok? <==> InRange(channels, x)
    ensures r.Ok? ==> |r.value| == |x| && forall k {:trigger r.value[k]} :: 0 <= k < |x| ==> SameShape(r.value[k], x[k])
  {
    var shifted := ShiftChannels(x, channelShift, channels);
    if shifted.Err? then Err(shifted.error)
    else Ok(FullShift(shifted.value, fullShift))
  }

  /** After centring, the tensor's mean is `1 - fullShift` times the mean after
      the channel shifts; with `fullShift = 1` it is zero. */
  lemma {:induction false} CenterTensorMean(x: Latent, channelShift: real, fullShift: real, channels: seq<nat>)
    requires InRange(channels, x)
    ensures var y := ShiftChannels(x, channelShift, channels).value;
            TensorMean(CenterTensor(x, channelShift, fullShift, channels).value) == (1.0 - fullShift) * TensorMean(y)
    ensures fullShift == 1.0 ==> TensorMean(CenterTensor(x, channelShift, fullShift, channels).value) == 0.0
  {
    CenterTensorIsFullShift(x, channelShift, fullShift, channels);
    FullShiftMean(ShiftChannels(x, channelShift, channels).value, fullShift);
  }

  /** The whole-tensor shift leaves `1 - fullShift` of the mean. */
  lemma {:induction false} FullShiftMean(y: Latent, fullShift: real)
    ensures TensorMean(FullShift(y, fullShift)) == (1.0 - fullShift) * TensorMean(y)
  {
    var m, r := TensorMean(y), FullShift(y, fullShift);
    var mr := TensorMean(r);
    FullShiftMeanCases(y, fullShift);
    RemainingMean(m, fullShift, mr, TensorSize(y) > 0);
  }

  lemma {:induction false} FullShiftMeanCases(y: Latent, fullShift: real)
    ensures TensorSize(y) > 0 ==> TensorMean(FullShift(y, fullShift)) == TensorMean(y) + -TensorMean(y) * fullShift
    ensures TensorSize(y) == 0 ==> TensorMean(FullShift(y, fullShift)) == 0.0 && TensorMean(y) == 0.0
  {
    var b := -TensorMean(y) * fullShift;
    TensorMeanShift(y, b);
  }

  lemma {:induction false} RemainingMean(m: real, shift: real, shifted: real, nonEmpty: bool)
    requires nonEmpty ==> shifted == m + -m * shift
    requires !nonEmpty ==> shifted == 0.0 && m == 0.0
    ensures shifted == (1.0 - shift) * m
  {
  }

  /** A channel that is not selected only receives the whole-tensor shift: every
      entry moves by the same amount. A selected channel, listed once, first
      loses its own mean's share. */
  lemma {:induction false} CenterTensorChannel(x: Latent, channelShift: real, fullShift: real, channels: seq<nat>, k: nat)
    requires InRange(channels, x) && Distinct(channels) && k < |x|
    ensures var y := ShiftChannels(x, channelShift, channels).value;
            var r := CenterTensor(x, channelShift, fullShift, channels).value;
            r[k] == AffineGrid(if k in channels then ShiftedChannel(x[k], channelShift) else x[k], 1.0, -TensorMean(y) * fullShift)
  {
    CenterTensorEntry(x, channelShift, fullShift, channels, k);
    ShiftChannelsEntry(x, channelShift, channels, k);
  }

  lemma {:induction false} CenterTensorEntry(x: Latent, channelShift: real, fullShift: real, channels: seq<nat>, k: nat)
    requires InRange(channels, x) && k < |x|
    ensures var y := ShiftChannels(x, channelShift, channels).value;
            CenterTensor(x, channelShift, fullShift, channels).value[k] == AffineGrid(y[k], 1.0, -TensorMean(y) * fullShift)
  {
    CenterTensorIsFullShift(x, channelShift, fullShift, channels);
    FullShiftEntry(ShiftChannels(x, channelShift, channels).value, fullShift, k);
  }

  lemma {:induction false} CenterTensorIsFullShift(x: Latent, channelShift: real, fullShift: real, channels: seq<nat>)
    requires InRange(channels, x)
    ensures CenterTensor(x, channelShift, fullShift, channels).value == FullShift(ShiftChannels(x, channelShift, channels).value, fullShift)
  {
  }

  lemma {:induction false} FullShiftEntry(y: Latent, fullShift: real, k: nat)
    requires k < |y|
    ensures FullShift(y, fullShift)[k] == AffineGrid(y[k], 1.0, -TensorMean(y) * fullShift)
  {
  }

  /** After the channel shifts, a listed channel (listed once) is its shifted
      self and any other channel is unchanged. */
  lemma {:induction false} ShiftChannelsEntry(x: Latent, channelShift: real, channels: seq<nat>, k: nat)
    requires InRange(channels, x) && Distinct(channels) && k < |x|
    ensures ShiftChannels(x, channelShift, channels).value[k] == if k in channels then ShiftedChannel(x[k], channelShift) else x[k]
  {
    if k in channels {
      ShiftChannelsShiftsListed(x, channelShift, channels);
      var i :| 0 <= i < |channels| && channels[i] == k;
    }
  }


  /** Lines 805-808: above timestep 700 the prediction is centred with shifts
      0.8 and 0.8; strictly between 1 and 100 with 0.6 and 1.0; otherwise it
      is returned unchanged. */
  function ColorGuidance(pred: Latent, t: real, channels: seq<nat>): (r: Result<Latent, ColorError>)
    ensures r.Ok? <==> InRange(channels, pred) || (t <= 700.0 && !(1.0 < t < 100.0))
    ensures r.Ok? ==> |r.value| == |pred| && forall k {:trigger r.value[k]} :: 0 <= k < |pred| ==> SameShape(r.value[k], pred[k])
  {
    var x :- if t > 700.0 then CenterTensor(pred, 0.8, 0.8, channels) else Ok(pred);
    if 1.0 < t < 100.0 then CenterTensor(x, 0.6, 1.0, channels) else Ok(x)
  }

  /** The regimes are disjoint, so at most one centring happens per step; in the
      late regime the prediction leaves with zero mean, and outside both
      regimes it is untouched. */
  lemma {:induction false} ColorGuidanceRegimes(pred: Latent, t: real, channels: seq<nat>)
    requires InRange(channels, pred)
    ensures t > 700.0 ==> ColorGuidance(pred, t, channels) == CenterTensor(pred, 0.8, 0.8, channels)
    ensures 1.0 < t < 100.0 ==> ColorGuidance(pred, t, channels) == CenterTensor(pred, 0.6, 1.0, channels)
    ensures 1.0 < t < 100.0 ==> TensorMean(ColorGuidance(pred, t, channels).value) == 0.0
    ensures t <= 700.0 && !(1.0 < t < 100.0) ==> ColorGuidance(pred, t, channels) == Ok(pred)
  {
    if 1.0 < t < 100.0 {
      CenterTensorMean(pred, 0.6, 1.0, channels);
    }
  }

  /** The choices offered by the node (lines 812-819). */
  datatype Selection = AllChannels | ColorsOnly | L0Brightness | L1RedCyan | L2MagentaGreen | L3Structure

  /** The label the node shows for each choice. */
  function Label(s: Selection): string {
    match s
    case AllChannels => "All Channels"
    case ColorsOnly => "Colors Only"
    case L0Brightness => "L0: Brightness"
    case L1RedCyan => "L1: Red->Cyan"
    case L2MagentaGreen => "L2: Magenta->Green"
    case L3Structure => "L3: Structure"
  }

  /** `CHANNEL_VALUES` as written (lines 821-828): two keys differ from the labels. */
  const ChannelValuesAsWritten: map<string, seq<nat>> := map[
    "All Channels" := [0, 1, 2, 3],
    "Colors Only" := [1, 2],
    "L0: Brightness" := [0],
    "L1: Cyan->Red" := [1],
    "L2: Lime->Purple" := [2],
    "L3: Structure" := [3]
  ]

  /** Line 870 as written: the chosen label is looked up, raising when absent. */
  function ChannelsAsWritten(s: Selection): (r: Result<seq<nat>, ColorError>)
    ensures r.Ok? <==> Label(s) in ChannelValuesAsWritten
  {
    if Label(s) in ChannelValuesAsWritten then Ok(ChannelValuesAsWritten[Label(s)]) else Err(UnknownSelection(Label(s)))
  }

  /** Exactly the two mislabelled choices fail. */
  lemma {:induction false} ChannelLookupFailsForTwoLabels(s: Selection)
    ensures ChannelsAsWritten(s).Err? <==> s == L1RedCyan || s == L2MagentaGreen
  {
    match s
    case L1RedCyan =>
      assert Label(s) !in ChannelValuesAsWritten.Keys by {
        assert ChannelValuesAsWritten.Keys == {"All Channels", "Colors Only", "L0: Brightness", "L1: Cyan->Red", "L2: Lime->Purple", "L3: Structure"};
        assert Label(s)[4] == 'R';
      }
    case L2MagentaGreen =>
      assert Label(s) !in ChannelValuesAsWritten.Keys by {
        assert ChannelValuesAsWritten.Keys == {"All Channels", "Colors Only", "L0: Brightness", "L1: Cyan->Red", "L2: Lime->Purple", "L3: Structure"};
        assert Label(s)[4] == 'M';
      }
    case _ =>
  }

  /** The channels each choice names: the table keyed by the labels the node
      actually offers, the first latent channel being brightness, the second and
      third colour and the fourth structure. */
  function Channels(s: Selection): (cs: seq<nat>)
    ensures |cs| > 0 && forall i :: 0 <= i < |cs| ==> cs[i] < 4
    ensures forall i, j :: 0 <= i < j < |cs| ==> cs[i] < cs[j]
  {
    match s
    case AllChannels => [0, 1, 2, 3]
    case ColorsOnly => [1, 2]
    case L0Brightness => [0]
    case L1RedCyan => [1]
    case L2MagentaGreen => [2]
    case L3Structure => [3]
  }

  /** The corrected table agrees with the written one wherever that one has the
      label, and every choice then guides a four-channel latent without error. */
  lemma {:induction false} ChannelsAgreeWithTable(s: Selection, pred: Latent, t: real)
    requires |pred| == 4
    ensures ChannelsAsWritten(s).Ok? ==> ChannelsAsWritten(s).value == Channels(s)
    ensures Distinct(Channels(s))
    ensures ColorGuidance(pred, t, Channels(s)).Ok?
  {
  }
}
