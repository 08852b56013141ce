/** The linear transfer module (`linear_transfer`): between a start and an end
    step the noise prediction moves from the first sub-module's to the
    second's, and a sub-module whose weight is zero is not run at all. */
module Transfer {
  import opened Wrappers
  import opened Grids

  /** The exceptions of `linear_transfer`: a start step equal to the end step
      divides by zero, and the bare name `step_index` is not bound. */
  datatype TransferError = ZeroDivision | UnboundStepIndex

  /** `min(max(x, 0), 1)`. */
  function Clamp01(x: real): (r: real)
    ensures 0.0 <= r <= 1.0
    ensures 0.0 <= x <= 1.0 ==> r == x
  {
    if x < 0.0 then 0.0 else if x > 1.0 then 1.0 else x
  }

  /** Lines 585-586: the step's position between the start and end steps, as a
      true division, clamped to `[0, 1]`. Equal steps divide by zero. */
  function LinearFactor(step: int, start: int, end: int): (r: Result<real, TransferError>)
    ensures r.Err? <==> start == end
    ensures r.Err? ==> r.error == ZeroDivision
    ensures r.Ok? ==> 0.0 <= r.value <= 1.0
    ensures r.Ok? && start < end ==> (r.value == 0.0 <==> step <= start) && (r.value == 1.0 <==> step >= end)
    ensures r.Ok? && start > end ==> (r.value == 0.0 <==> step >= start) && (r.value == 1.0 <==> step <= end)
  {
    if end == start then Err(ZeroDivision)
    else
      var x := (step - start) as real / (end - start) as real;
      QuotientSigns(step - start, end - start);
      Ok(Clamp01(x))
  }

  /** The sign facts about `n / d` that the clamp turns into the end regimes. */
  lemma {:induction false} QuotientSigns(n: int, d: int)
    requires d != 0
    ensures d > 0 ==> (n as real / d as real <= 0.0 <==> n <= 0) && (n as real / d as real >= 1.0 <==> n >= d)
    ensures d < 0 ==> (n as real / d as real <= 0.0 <==> n >= 0) && (n as real / d as real >= 1.0 <==> n <= d)
  {
    var q := n as real / d as real;
    assert q * d as real == n as real;
  }

  /** Between the start and end steps the factor never decreases. */
  lemma {:induction false} LinearFactorMonotone(step1: int, step2: int, start: int, end: int)
    requires start < end && step1 <= step2
    ensures LinearFactor(step1, start, end).value <= LinearFactor(step2, start, end).value
  {
    var d := (end - start) as real;
    var x1 := (step1 - start) as real / d;
    var x2 := (step2 - start) as real / d;
    DivideMonotone((step1 - start) as real, (step2 - start) as real, d);
  }

  lemma {:induction false} DivideMonotone(a: real, b: real, d: real)
    requires d > 0.0 && a <= b
    ensures a / d <= b / d
  {
    assert b / d - a / d == (b - a) / d;
  }

  /** What one call of `linear_transfer` did: which sub-modules it ran and the
      prediction it returned. */
  datatype TransferStep = TransferStep(ranFirst: bool, ranSecond: bool, pred: Grid)

  /** Lines 588-613 with the step index supplied: the first sub-module runs iff
      the factor is below 1, the second iff it is above 0; at the ends the
      prediction of the one that ran is returned unchanged, otherwise the two
      are interpolated. `pred1` and `pred2` are what the sub-modules would
      return. */
  function LinearTransfer(step: int, start: int, end: int, pred1: Grid, pred2: Grid): (r: Result<TransferStep, TransferError>)
    requires SameShape(pred1, pred2)
    ensures r.Err? <==> start == end
    ensures r.Ok? ==> r.value.ranFirst == (LinearFactor(step, start, end).value < 1.0)
    ensures r.Ok? ==> r.value.ranSecond == (LinearFactor(step, start, end).value > 0.0)
    ensures r.Ok? ==> r.value.ranFirst || r.value.ranSecond
  {
    var f :- LinearFactor(step, start, end);
    var pred := if f == 0.0 then pred1 else if f == 1.0 then pred2 else LerpGrid(pred1, pred2, f);
    Ok(TransferStep(f < 1.0, f > 0.0, pred))
  }

  /** Skipping a sub-module never changes the result: the prediction is always
      the interpolation at the clamped factor, and it only uses the prediction
      of a sub-module that ran. */
  lemma {:induction false} LinearTransferIsLerp(step: int, start: int, end: int, pred1: Grid, pred2: Grid)
    requires SameShape(pred1, pred2) && start != end
    ensures var r := LinearTransfer(step, start, end, pred1, pred2);
            r.Ok? && r.value.pred == LerpGrid(pred1, pred2, LinearFactor(step, start, end).value)
    ensures var r := LinearTransfer(step, start, end, pred1, pred2);
            (!r.value.ranSecond ==> r.value.pred == pred1) && (!r.value.ranFirst ==> r.value.pred == pred2)
  {
    LerpEndpoints(pred1, pred2);
  }

  /** Before the start step only the first sub-module runs; from the end step on
      only the second. */
  lemma {:induction false} LinearTransferEnds(step: int, start: int, end: int, pred1: Grid, pred2: Grid)
    requires SameShape(pred1, pred2) && start < end
    ensures step <= start ==> LinearTransfer(step, start, end, pred1, pred2) == Ok(TransferStep(true, false, pred1))
    ensures step >= end ==> LinearTransfer(step, start, end, pred1, pred2) == Ok(TransferStep(false, true, pred2))
  {
  }

  /** The names `linear_transfer` can see: its parameters and locals (lines
      574-584). The step index arrives inside `kwargs`, not as a name. */
  const LinearTransferNames: set<string> := {
    "self", "t", "module_kwargs", "kwargs", "start_step", "end_step",
    "sub_module_1", "sub_module_1_kwargs", "sub_module_2", "sub_module_2_kwargs"
  }

  /** Line 585 as written: it reads the name `step_index` from the function's
      scope (`names`, the integer-valued names bound there) before it divides. */
  function LinearTransferAsWritten(names: map<string, int>, start: int, end: int, pred1: Grid, pred2: Grid): (r: Result<TransferStep, TransferError>)
    requires SameShape(pred1, pred2)
    ensures "step_index" !in names ==> r == Err(UnboundStepIndex)
    ensures "step_index" in names ==> r == LinearTransfer(names["step_index"], start, end, pred1, pred2)
  {
    if "step_index" in names then LinearTransfer(names["step_index"], start, end, pred1, pred2)
    else Err(UnboundStepIndex)
  }

  /** Every call of the module as written fails: its scope never binds the step
      index, although the caller's keyword arguments carry it and the corrected
      module succeeds with it whenever the steps differ. */
  lemma {:induction false} LinearTransferAsWrittenAlwaysFails(names: map<string, int>, kwargs: map<string, int>, start: int, end: int, pred1: Grid, pred2: Grid)
    requires SameShape(pred1, pred2) && names.Keys <= LinearTransferNames
    ensures LinearTransferAsWritten(names, start, end, pred1, pred2) == Err(UnboundStepIndex)
    ensures "step_index" in kwargs && start != end ==> LinearTransfer(kwargs["step_index"], start, end, pred1, pred2).Ok?
  {
    assert "step_index" !in LinearTransferNames;
  }
}
