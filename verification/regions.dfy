/** The regional-prompt bookkeeping of `_concat_regional_text_embeddings`
    (denoise_latents_nodes.py lines 223-294): the prompts' embeddings are
    joined along the token axis, each prompt gets the token range it occupies
    in the joined embedding, and an SDXL prompt list lends its pooled
    embedding and time ids from one chosen prompt. Embeddings are reduced to
    their token counts and masks to whether they were given. */
module Regions {
  import opened Wrappers

  /** A half-open token range `[start, end)` (`Range`). */
  datatype Range = Range(start: nat, end: nat)

  /** `TextConditioningRegions`: one range per prompt, and per prompt whether
      its mask was given (otherwise its region mask is all ones). */
  datatype TextRegions = TextRegions(ranges: seq<Range>, masked: seq<bool>)

  /** The joined conditioning: its token count, the prompt whose pooled
      embedding and time ids it carries (SDXL only), and the regions. */
  datatype Joined = Joined(length: nat, pooledFrom: Option<nat>, regions: Option<TextRegions>)

  /** The assertion of line 234, and the `IndexError` of line 236 on an empty
      prompt list. */
  datatype ConcatError = MaskCountMismatch | NoPrompts

  function Sum(xs: seq<nat>): nat {
    if |xs| == 0 then 0 else Sum(xs[..|xs| - 1]) + xs[|xs| - 1]
  }

  /** Lines 232-233: no mask list means no prompt has a mask. */
  function MaskFlags(masks: Option<seq<bool>>, n: nat): (r: seq<bool>)
    ensures masks.None? ==> |r| == n && forall i :: 0 <= i < n ==> !r[i]
    ensures masks.Some? ==> r == masks.value
  {
    if masks.Some? then masks.value else seq(n, _ => false)
  }

  predicate NoneMasked(flags: seq<bool>) {
    forall i :: 0 <= i < |flags| ==> !flags[i]
  }

  /** Ranges that lie end to end from 0, one per length, each as long as its
      length, the last ending at `total`. */
  predicate Contiguous(ranges: seq<Range>, lens: seq<nat>, total: nat) {
    |ranges| == |lens| &&
    (forall i :: 0 <= i < |ranges| ==> ranges[i].end == ranges[i].start + lens[i]) &&
    (forall i :: 0 <= i < |ranges| - 1 ==> ranges[i].end == ranges[i + 1].start) &&
    (|ranges| > 0 ==> ranges[0].start == 0 && ranges[|ranges| - 1].end == total) &&
    (|ranges| == 0 ==> total == 0)
  }

  /** The pooled source lines 261-264 settle on: the last prompt without a
      mask, or the first prompt when every prompt has one. */
  predicate PooledChoice(flags: seq<bool>, k: nat) {
    k < |flags| &&
    ((!flags[k] && forall j :: k < j < |flags| ==> flags[j]) ||
     (k == 0 && forall j :: 0 <= j < |flags| ==> flags[j]))
  }

  /** Lines 232-294 with the tensors reduced to token counts (`lens`, the
      `embeds.shape[1]` of each prompt) and mask presence. */
  method ConcatRegional(lens: seq<nat>, masks: Option<seq<bool>>, sdxl: bool) returns (r: Result<Joined, ConcatError>)
    ensures r.Err? <==> (masks.Some? && |masks.value| != |lens|) || |lens| == 0
    ensures r.Err? ==> r.error == if masks.Some? && |masks.value| != |lens| then MaskCountMismatch else NoPrompts
    ensures r.Ok? ==> r.value.length == Sum(lens)
    ensures r.Ok? ==> (r.value.regions.None? <==> NoneMasked(MaskFlags(masks, |lens|)))
    ensures r.Ok? && r.value.regions.Some? ==>
              Contiguous(r.value.regions.value.ranges, lens, Sum(lens)) &&
              r.value.regions.value.masked == MaskFlags(masks, |lens|)
    ensures r.Ok? ==> (r.value.pooledFrom.Some? <==> sdxl)
    ensures r.Ok? && sdxl ==> PooledChoice(MaskFlags(masks, |lens|), r.value.pooledFrom.value)
  {
    if masks.Some? && |masks.value| != |lens| {
      return Err(MaskCountMismatch);
    }
    if |lens| == 0 {
      return Err(NoPrompts);
    }
    var flags := MaskFlags(masks, |lens|);
    var allNone := NoneMasked(flags);
    var pooled: Option<nat> := None;
    var cur := 0;
    var ranges: seq<Range> := [];
    var k := 0;
    while k < |lens|
      invariant 0 <= k <= |lens| == |flags|
      invariant cur == Sum(lens[..k])
      invariant allNone ==> ranges == []
      invariant !allNone ==> Contiguous(ranges, lens[..k], cur)
      invariant sdxl && k > 0 ==> pooled.Some? && PooledChoice(flags[..k], pooled.value)
      invariant !sdxl || k == 0 ==> pooled.None?
    {
      if sdxl {
        PooledStep(flags, k, pooled);
        if pooled.None? || !flags[k] {
          pooled := Some(k);
        }
      }
      if !allNone {
        ContiguousExtend(ranges, lens, k, cur);
        ranges := ranges + [Range(cur, cur + lens[k])];
      }
      SumPrefixStep(lens, k);
      cur := cur + lens[k];
      k := k + 1;
    }
    assert lens[..k] == lens && flags[..k] == flags;
    var regions := if allNone then None else Some(TextRegions(ranges, flags));
    return Ok(Joined(cur, pooled, regions));
  }

  lemma {:induction false} SumPrefixStep(lens: seq<nat>, k: nat)
    requires k < |lens|
    ensures Sum(lens[..k + 1]) == Sum(lens[..k]) + lens[k]
  {
    assert lens[..k + 1][..k] == lens[..k];
  }

  /** Appending the next prompt's range keeps the ranges end to end. */
  lemma {:induction false} ContiguousExtend(ranges: seq<Range>, lens: seq<nat>, k: nat, cur: nat)
    requires k < |lens| && Contiguous(ranges, lens[..k], cur)
    ensures Contiguous(ranges + [Range(cur, cur + lens[k])], lens[..k + 1], cur + lens[k])
  {
    var r, l := ranges + [Range(cur, cur + lens[k])], lens[..k + 1];
    assert forall i :: 0 <= i < k ==> r[i] == ranges[i] && l[i] == lens[..k][i];
  }

  /** The pooled source after looking at one more prompt: that prompt when it
      has no mask or nothing was chosen yet, else the earlier choice. */
  lemma {:induction false} PooledStep(flags: seq<bool>, k: nat, pooled: Option<nat>)
    requires k < |flags|
    requires k > 0 ==> pooled.Some? && PooledChoice(flags[..k], pooled.value)
    requires k == 0 ==> pooled.None?
    ensures PooledChoice(flags[..k + 1], if pooled.None? || !flags[k] then k else pooled.value)
  {
    var f := flags[..k + 1];
    assert forall i :: 0 <= i < k ==> f[i] == flags[..k][i];
  }

  /** Contiguous ranges start where the lengths before them add up to. */
  lemma {:induction false} ContiguousStarts(ranges: seq<Range>, lens: seq<nat>, total: nat)
    requires Contiguous(ranges, lens, total)
    ensures forall i :: 0 <= i < |ranges| ==> ranges[i].start == Sum(lens[..i])
    ensures total == Sum(lens)
  {
    if |ranges| > 0 {
      var n := |ranges| - 1;
      var init, linit := ranges[..n], lens[..n];
      ContiguousPrefix(ranges, lens, total);
      ContiguousStarts(init, linit, ranges[n].start);
      StartsStep(ranges, lens, init, linit, total);
    }
  }

  /** Dropping the last range leaves ranges that end where the last one starts. */
  lemma {:induction false} ContiguousPrefix(ranges: seq<Range>, lens: seq<nat>, total: nat)
    requires Contiguous(ranges, lens, total) && |ranges| > 0
    ensures Contiguous(ranges[..|ranges| - 1], lens[..|ranges| - 1], ranges[|ranges| - 1].start)
  {
  }

  lemma {:induction false} StartsStep(ranges: seq<Range>, lens: seq<nat>, init: seq<Range>, linit: seq<nat>, total: nat)
    requires |ranges| == |lens| > 0
    requires init == ranges[..|ranges| - 1] && linit == lens[..|ranges| - 1]
    requires forall i :: 0 <= i < |init| ==> init[i].start == Sum(linit[..i])
    requires ranges[|ranges| - 1].start == Sum(linit)
    requires ranges[|ranges| - 1].end == ranges[|ranges| - 1].start + lens[|ranges| - 1] == total
    ensures forall i :: 0 <= i < |ranges| ==> ranges[i].start == Sum(lens[..i])
    ensures total == Sum(lens)
  {
    var n := |ranges| - 1;
    assert lens[..n] == linit;
    forall i | 0 <= i < |ranges|
      ensures ranges[i].start == Sum(lens[..i])
    {
      if i < n {
        assert init[i] == ranges[i] && linit[..i] == lens[..i];
      }
    }
  }

  /** The pooled source is determined by the masks alone. */
  lemma {:induction false} PooledChoiceUnique(flags: seq<bool>, k1: nat, k2: nat)
    requires PooledChoice(flags, k1) && PooledChoice(flags, k2)
    ensures k1 == k2
  {
  }
}
