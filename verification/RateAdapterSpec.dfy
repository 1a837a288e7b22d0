/** The two-stage rate adapter as a function of its history, its batch reference, and the
    phase bookkeeping that keeps the two stages in step. */
module RateAdapterSpec {
  import opened Arithmetic
  import opened ResamplerSpec

  const MAXIMUM_EXTERNAL_BLOCK_FRAMES: nat := 8192

  /** The model: one state transition per sample. */
  type Dsp<!S> = (S, real) -> (S, real)

  /** What `prepare` fixes: the ratio from host to model rate, the number of model
      samples used to prime the output stage, the host latency that takes, and the two
      block limits. */
  datatype Plan = Plan(ratio: Ratio, warmup: nat, latency: nat, maximumHostFrames: nat, maximumModelFrames: nat) {

    predicate Valid() {
      && ratio.Valid()
      && warmup == FramesRequired(ratio.Inverse(), 0, 1)
      && latency == FramesRequired(ratio, 0, warmup)
      && 1 <= maximumHostFrames <= MAXIMUM_EXTERNAL_BLOCK_FRAMES
      && ratio.stride <= 48 * ratio.step && ratio.step <= 48 * ratio.stride
      && maximumModelFrames > 0
      && maximumModelFrames >= (maximumHostFrames * ratio.step) / ratio.stride + 30
    }

    predicate Accepts(block: seq<real>) { 0 < |block| <= maximumHostFrames }
  }

  datatype Pipeline<S> = Pipeline(input: Stage, output: Stage, dsp: S)

  function Silence(n: nat): (s: seq<real>)
    ensures |s| == n
  {
    seq(n, _ => 0.0)
  }

  /** Running the model over a block. */
  function DspRun<S>(step: Dsp<S>, s: S, xs: seq<real>): (r: (S, seq<real>))
    ensures |r.1| == |xs|
  {
    if xs == [] then (s, [])
    else
      var (s1, ys) := DspRun(step, s, xs[..|xs| - 1]);
      var (s2, y) := step(s1, xs[|xs| - 1]);
      (s2, ys + [y])
  }

  /** Model frames moved by the transfer loop for a given input lead. */
  function TransferCount(r: Ratio, lead: int, maximum: nat): (n: nat)
    requires r.Valid()
    decreases if lead > 0 then lead else 0
  {
    if FramesRequired(r, lead, 1) != 0 then 0
    else
      var n := PopCount(r, lead, maximum);
      if n == 0 then 0
      else
        MulMono(1, n, r.stride);
        RequiredIsLeast(r, lead, 1, 0);
        n + TransferCount(r, lead - n * r.stride, maximum)
  }

  /** Input stage after a block arrives, and the number of model frames it then yields. */
  function Arrived(p: Stage, block: seq<real>): Stage { p.(pushed := p.pushed + block) }

  function Transferred(plan: Plan, input: Stage): nat
    requires plan.Valid()
  {
    TransferCount(plan.ratio, Lead(plan.ratio, input), plan.maximumModelFrames)
  }

  /** One host block through the adapter. */
  function ProcessBlock<S>(plan: Plan, kernel: Kernel, step: Dsp<S>, p: Pipeline<S>, block: seq<real>)
      : (r: (Pipeline<S>, seq<real>))
    requires plan.Valid()
    ensures |r.1| == |block|
  {
    var arrived := Arrived(p.input, block);
    var moved := Transferred(plan, arrived);
    var (dsp, ys) := DspRun(step, p.dsp, RingSamples(kernel, plan.ratio, arrived, moved));
    var filled := Arrived(p.output, ys);
    var produced := PopCount(plan.ratio.Inverse(), Lead(plan.ratio.Inverse(), filled), |block|);
    (Pipeline(arrived.(popped := arrived.popped + moved), filled.(popped := filled.popped + produced), dsp),
     RingSamples(kernel, plan.ratio.Inverse(), filled, produced) + Silence(|block| - produced))
  }

  /** The adapter as `prime_pipeline` leaves it. */
  function Primed<S>(plan: Plan, dsp: S): Pipeline<S> {
    Pipeline(Stage(Silence(plan.latency), plan.warmup), Stage(Silence(plan.warmup), 0), dsp)
  }

  function Flatten(blocks: seq<seq<real>>): seq<real> {
    if blocks == [] then [] else Flatten(blocks[..|blocks| - 1]) + blocks[|blocks| - 1]
  }

  predicate AcceptsAll(plan: Plan, blocks: seq<seq<real>>) {
    forall i :: 0 <= i < |blocks| ==> plan.Accepts(blocks[i])
  }

  /** A whole run from the primed state: final state and concatenated output. */
  function Run<S>(plan: Plan, kernel: Kernel, step: Dsp<S>, dsp: S, blocks: seq<seq<real>>)
      : (r: (Pipeline<S>, seq<real>))
    requires plan.Valid()
  {
    if blocks == [] then (Primed(plan, dsp), [])
    else
      var (p, out) := Run(plan, kernel, step, dsp, blocks[..|blocks| - 1]);
      var (q, more) := ProcessBlock(plan, kernel, step, p, blocks[|blocks| - 1]);
      (q, out + more)
  }

  // ---- the batch reference ---------------------------------------------------------

  /** The first `n` model-rate samples of the delayed host stream. */
  function ModelInput(plan: Plan, kernel: Kernel, x: seq<real>, n: nat): (r: seq<real>)
    requires plan.Valid()
    ensures |r| == n
  {
    seq(n, j requires 0 <= j < n => Sample(kernel, plan.ratio, Silence(plan.latency) + x, j))
  }

  /** The model's output stream: warm-up silence, then the model on everything after it. */
  function ModelRun<S>(plan: Plan, kernel: Kernel, step: Dsp<S>, dsp: S, x: seq<real>, n: nat): (r: (S, seq<real>))
    requires plan.Valid() && n >= plan.warmup
    ensures |r.1| == n
  {
    var r := DspRun(step, dsp, ModelInput(plan, kernel, x, n)[plan.warmup..]);
    (r.0, Silence(plan.warmup) + r.1)
  }

  /** Model samples that cover the first `n` host outputs. */
  function ModelFrames(plan: Plan, n: nat): (r: nat)
    requires plan.Valid()
    ensures r >= plan.warmup && r >= plan.ratio.Inverse().Position(n) + RADIUS
  {
    var p := plan.ratio.Inverse().Position(n) + RADIUS;
    if p >= plan.warmup then p else plan.warmup
  }

  /** Resample the whole delayed stream, run the model once, resample back. */
  function Batch<S>(plan: Plan, kernel: Kernel, step: Dsp<S>, dsp: S, x: seq<real>): (out: seq<real>)
    requires plan.Valid()
    ensures |out| == |x|
  {
    var model := ModelRun(plan, kernel, step, dsp, x, ModelFrames(plan, |x|)).1;
    seq(|x|, k requires 0 <= k < |x| => Sample(kernel, plan.ratio.Inverse(), model, k))
  }

  // ---- facts about the pieces ------------------------------------------------------

  lemma DspNothing<S>(step: Dsp<S>, s: S)
    ensures DspRun(step, s, []) == (s, [])
  {
  }

  lemma DspOneMore<S>(step: Dsp<S>, s: S, xs: seq<real>, x: real)
    ensures var (before, ys) := DspRun(step, s, xs);
            DspRun(step, s, xs + [x]) == (step(before, x).0, ys + [step(before, x).1])
  {
    assert (xs + [x])[..|xs|] == xs;
  }

  lemma {:induction false} DspAppend<S>(step: Dsp<S>, s: S, xs: seq<real>, ys: seq<real>)
    ensures DspRun(step, s, xs + ys)
            == (DspRun(step, DspRun(step, s, xs).0, ys).0,
                DspRun(step, s, xs).1 + DspRun(step, DspRun(step, s, xs).0, ys).1)
  {
    if ys == [] {
      assert xs + ys == xs;
      assert DspRun(step, s, xs).1 + [] == DspRun(step, s, xs).1;
    } else {
      var init := ys[..|ys| - 1];
      assert (xs + ys)[..|xs + ys| - 1] == xs + init;
      DspAppend(step, s, xs, init);
      var (s1, a) := DspRun(step, s, xs);
      var (s2, b) := DspRun(step, s1, init);
      var y := step(s2, ys[|ys| - 1]).1;
      assert (a + b) + [y] == a + (b + [y]);
    }
  }

  /** A pop that is allowed takes at least one frame and stops above margin - stride. */
  lemma PopLeaves(r: Ratio, lead: int, maximum: nat)
    requires r.Valid() && maximum > 0 && lead > r.Margin()
    ensures var n := PopCount(r, lead, maximum);
            && n > 0 && n * r.stride >= r.stride
            && lead - n * r.stride > r.Margin() - r.stride
            && (n < maximum ==> lead - n * r.stride <= r.Margin())
  {
    var n := PopCount(r, lead, maximum);
    PopCountExact(r, lead, maximum, n);
    Distribute(n, -1, r.stride);
    MulMono(1, n, r.stride);
  }

  /** Where the transfer loop stops: the lead has come down to less than one stride above
      the margin, and the last pop was allowed. */
  lemma {:induction false} TransferExact(r: Ratio, lead: int, maximum: nat)
    requires r.Valid() && maximum > 0
    ensures var n := TransferCount(r, lead, maximum);
            && lead - n * r.stride < r.Margin() + r.stride
            && (n > 0 ==> lead - n * r.stride > r.Margin() - r.stride)
    decreases if lead > 0 then lead else 0
  {
    hide PopCount;
    RequiredIsLeast(r, lead, 1, 0);
    if FramesRequired(r, lead, 1) == 0 {
      PopLeaves(r, lead, maximum);
      var n := PopCount(r, lead, maximum);
      var rest := TransferCount(r, lead - n * r.stride, maximum);
      TransferExact(r, lead - n * r.stride, maximum);
      Distribute(n, rest, r.stride);
    }
  }

  /** With room for every poppable frame the loop drains down to the margin. */
  lemma TransferDrains(r: Ratio, lead: int, maximum: nat)
    requires r.Valid() && lead - maximum * r.stride <= r.Margin() - r.stride
    requires lead > r.Margin() - r.stride
    ensures var n := TransferCount(r, lead, maximum);
            lead >= r.Margin() + r.stride ==> lead - n * r.stride <= r.Margin()
  {
    hide PopCount;
    RequiredIsLeast(r, lead, 1, 0);
    if lead >= r.Margin() + r.stride {
      PopLeaves(r, lead, maximum);
      var left := lead - PopCount(r, lead, maximum) * r.stride;
      RequiredIsLeast(r, left, 1, 0);
    }
  }
}
