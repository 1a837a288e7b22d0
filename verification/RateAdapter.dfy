/** The adapter between host rate and model rate, and the model that wraps it. Both are
    tied to the pipeline of `RateAdapterSpec`. */
module RateAdapter {
  import opened Arithmetic
  import opened ResamplerSpec
  import opened RateAdapterSpec
  import opened RateAdapterTheorems
  import opened LanczosResampler

  const RATE_TOLERANCE: real := 0.01
  const ASSUMED_LEGACY_MODEL_RATE: real := 48000.0
  const UNKNOWN_EXPECTED_RATE: real := -1.0
  const MINIMUM_RATE: real := 8000.0
  const MAXIMUM_RATE: real := 384000.0
  const BLOCK_MARGIN: nat := 32

  const MAXIMUM_INT: int := 2147483647

  datatype PrepareError = HostRateRejected | ModelRateRejected | BlockSizeRejected | CoreLimitExceeded | WarmUpFailed

  datatype Outcome = Prepared | Failed(error: PrepareError)

  /** The rates `prepare` accepts. */
  predicate SupportedRate(rate: real) {
    MINIMUM_RATE <= rate <= MAXIMUM_RATE && IntegerLike(rate)
  }

  /** Older models report no usable rate and are taken to be 48 kHz. */
  function EffectiveRate(reported: real): real {
    if reported == UNKNOWN_EXPECTED_RATE || reported <= 0.0 then ASSUMED_LEGACY_MODEL_RATE else reported
  }

  function Distance(a: real, b: real): real { if a <= b then b - a else a - b }

  function Ceiling(x: real): int { -((-x).Floor) }

  lemma RoundedInRange(rate: real)
    requires SupportedRate(rate)
    ensures 8000 <= Rounded(rate) <= 384000 && ValidRate(rate)
  {
  }

  lemma CancelFactor(a: int, b: int, g: int)
    requires g > 0 && a * g <= b * g
    ensures a <= b
  {
    if b + 1 <= a { MulMono(b + 1, a, g); }
  }

  lemma RealMono(a: real, b: real, c: real)
    requires a <= b && 0.0 <= c
    ensures a * c <= b * c
  {
  }

  lemma ReducedBound(a: int, p: int, b: int, q: int, g: int)
    requires g > 0 && a == p * g && b == q * g && a <= 48 * b
    ensures p <= 48 * q
  {
    assert (48 * q) * g == 48 * (q * g);
    CancelFactor(p, 48 * q, g);
  }

  /** Neither rate is more than 48 times the other, also in lowest terms. */
  lemma RatioInRange(hostRate: real, modelRate: real)
    requires SupportedRate(hostRate) && SupportedRate(modelRate)
    ensures Rounded(hostRate) > 0 && Rounded(modelRate) > 0
    ensures var r := RateRatio(Rounded(hostRate), Rounded(modelRate));
            r.stride <= 48 * r.step && r.step <= 48 * r.stride && Gcd(r.step, r.stride) == 1
  {
    RoundedInRange(hostRate);
    RoundedInRange(modelRate);
    var a, b := Rounded(hostRate), Rounded(modelRate);
    var g := Gcd(a, b);
    var p, q := a / g, b / g;
    ExactQuotient(a, g);
    ExactQuotient(b, g);
    ReducedBound(a, p, b, q, g);
    ReducedBound(b, q, a, p, g);
    ReducedIsCoprime(a, b);
    GcdSymmetric(p, q);
  }

  /** Two rates each within a hundredth of their rounded values. */
  lemma CrossRates(x: real, y: real, hostRate: real, modelRate: real, host: real, model: real)
    requires 0.0 <= x && 0.0 <= y && hostRate <= host + 0.01 && model <= modelRate + 0.01
    requires y * host <= x * model
    ensures y * hostRate <= x * modelRate + 0.01 * x + 0.01 * y
  {
    RealMono(hostRate, host + 0.01, y);
    RealMono(model, modelRate + 0.01, x);
  }

  /** A quotient bound from a product bound. */
  lemma ExcessBound(x: real, y: real, ratio: real, hostRate: real)
    requires 8000.0 <= hostRate
    requires y * hostRate <= x * (ratio * hostRate) + 8000.0
    ensures y <= x * ratio + 1.0
  {
    var excess := y - x * ratio;
    assert x * (ratio * hostRate) == (x * ratio) * hostRate;
    assert excess * hostRate == y * hostRate - (x * ratio) * hostRate;
    if excess > 1.0 {
      RealMono(8000.0, hostRate, excess);
    }
  }

  /** A whole number of output frames that fits the rounded rates exceeds the estimate from
      the unrounded rates by at most one. */
  lemma EstimateIsClose(hostRate: real, modelRate: real, n: nat, q: nat)
    requires SupportedRate(hostRate) && SupportedRate(modelRate) && n <= MAXIMUM_EXTERNAL_BLOCK_FRAMES
    requires q * Rounded(hostRate) <= n * Rounded(modelRate)
    ensures q as real <= n as real * (modelRate / hostRate) + 1.0
  {
    RoundedInRange(hostRate);
    RoundedInRange(modelRate);
    var a, b := Rounded(hostRate), Rounded(modelRate);
    MulMono(8000, a, q);
    MulMono(b, 384000, n);
    ProductsAsReals(q, a, n, b);
    CrossRates(n as real, q as real, hostRate, modelRate, a as real, b as real);
    var ratio := modelRate / hostRate;
    assert ratio * hostRate == modelRate;
    ExcessBound(n as real, q as real, ratio, hostRate);
  }

  lemma ProductsAsReals(q: int, a: int, n: int, b: int)
    requires q * a <= n * b
    ensures q as real * a as real <= n as real * b as real
  {
    assert (q * a) as real == q as real * a as real;
    assert (n * b) as real == n as real * b as real;
  }

  /** The estimate of model frames per block stays within the limits of the model code. */
  lemma EstimateInRange(hostRate: real, modelRate: real, n: nat)
    requires SupportedRate(hostRate) && SupportedRate(modelRate) && 1 <= n <= MAXIMUM_EXTERNAL_BLOCK_FRAMES
    ensures 1 <= Ceiling(n as real * (modelRate / hostRate)) <= 48 * n
  {
    var ratio := modelRate / hostRate;
    assert ratio * hostRate == modelRate;
    if ratio <= 0.0 { RealMono(ratio, 0.0, hostRate); }
    RealMono(MINIMUM_RATE, hostRate, ratio);
    RealMono(ratio, 48.0, n as real);
    RealMono(1.0, n as real, ratio);
  }

  /** The scratch buffers hold every frame one block can move, with room to spare. */
  lemma ScratchIsLargeEnough(hostRate: real, modelRate: real, n: nat)
    requires SupportedRate(hostRate) && SupportedRate(modelRate) && n <= MAXIMUM_EXTERNAL_BLOCK_FRAMES
    requires Rounded(hostRate) > 0 && Rounded(modelRate) > 0
    ensures var r := RateRatio(Rounded(hostRate), Rounded(modelRate));
            var estimate := Ceiling(n as real * (modelRate / hostRate));
            estimate >= 0 && estimate + BLOCK_MARGIN >= (n * r.step) / r.stride + 30
  {
    var a, b := Rounded(hostRate), Rounded(modelRate);
    var g := Gcd(a, b);
    var r := RateRatio(a, b);
    ExactQuotient(a, g);
    ExactQuotient(b, g);
    var q := (n * r.step) / r.stride;
    MulMono(0, n, r.step);
    FloorMono(0, n * r.step, r.stride);
    ScaledProducts(q, r.stride, n, r.step, g);
    EstimateIsClose(hostRate, modelRate, n, q);
    RealMono(0.0, n as real, modelRate / hostRate);
  }

  lemma ScaledProducts(q: nat, p: int, n: nat, r: int, g: int)
    requires g > 0 && q * p <= n * r
    ensures q * (p * g) <= n * (r * g)
  {
    MulMono(q * p, n * r, g);
    assert (q * p) * g == q * (p * g);
    assert (n * r) * g == n * (r * g);
  }

  /** The host-to-model ratio in lowest terms and the numbers derived from it. */
  function PlanFor(hostRate: real, modelRate: real, maximumHostFrames: nat): (plan: Plan)
    requires SupportedRate(hostRate) && SupportedRate(modelRate)
    requires 1 <= maximumHostFrames <= MAXIMUM_EXTERNAL_BLOCK_FRAMES
    ensures plan.Valid() && Gcd(plan.ratio.step, plan.ratio.stride) == 1
    ensures plan.maximumHostFrames == maximumHostFrames
    ensures plan.maximumModelFrames == Ceiling(maximumHostFrames as real * (modelRate / hostRate)) + BLOCK_MARGIN
  {
    RatioInRange(hostRate, modelRate);
    ScratchIsLargeEnough(hostRate, modelRate, maximumHostFrames);
    var ratio := RateRatio(Rounded(hostRate), Rounded(modelRate));
    var warmup := FramesRequired(ratio.Inverse(), 0, 1);
    RequiredIsLeast(ratio.Inverse(), 0, 1, 0);
    var latency := FramesRequired(ratio, 0, warmup);
    RequiredIsLeast(ratio, 0, warmup, 0);
    var estimate := Ceiling(maximumHostFrames as real * (modelRate / hostRate));
    MulMono(0, maximumHostFrames, ratio.step);
    FloorMono(0, maximumHostFrames * ratio.step, ratio.stride);
    Plan(ratio, warmup, latency, maximumHostFrames, estimate + BLOCK_MARGIN)
  }

  /** The model as foreign code: its reported rate, the state `Reset` leaves it in, and one
      transition per sample. */
  datatype ModelCode<!S> = ModelCode(expectedRate: real, reset: (real, nat) -> S, step: Dsp<S>)

  class ModelRateAdapter<S> {
    const kernel: Kernel
    const code: ModelCode<S>
    var dsp: S
    var inputResampler: MonoLanczosResampler?
    var outputResampler: MonoLanczosResampler?
    var modelInput: array<real>
    var modelOutput: array<real>
    var hostSampleRate: real
    var modelSampleRate: real
    var maximumHostBlockFrames: nat
    var maximumModelBlockFrames: nat
    var latencySamples: nat
    var active: bool

    /** The plan of the last successful `Prepare` that found different rates. */
    ghost var plan: Plan
    ghost var repr: set<object>

    ghost predicate Valid()
      reads this, repr
    {
      && this in repr && modelInput in repr && modelOutput in repr && modelInput != modelOutput
      && (active ==> Wired() && latencySamples == plan.latency)
    }

    /** Two separate stages and scratch buffers of the planned shape. */
    ghost predicate Wired()
      reads this, repr
    {
      && modelInput in repr && modelOutput in repr && modelInput != modelOutput
      && inputResampler != null && inputResampler in repr && inputResampler.inputBuffer in repr
      && outputResampler != null && outputResampler in repr && outputResampler.inputBuffer in repr
      && inputResampler != outputResampler
      && inputResampler.inputBuffer !in {outputResampler.inputBuffer, modelInput, modelOutput}
      && outputResampler.inputBuffer !in {modelInput, modelOutput}
      && plan.Valid()
      && inputResampler.Valid() && inputResampler.kernel == kernel && inputResampler.R() == plan.ratio
      && outputResampler.Valid() && outputResampler.kernel == kernel && outputResampler.R() == plan.ratio.Inverse()
      && maximumHostBlockFrames == plan.maximumHostFrames
      && maximumModelBlockFrames == plan.maximumModelFrames
      && modelInput.Length == modelOutput.Length == plan.maximumModelFrames
    }

    /** The two stages and the model state as one value. */
    ghost function Contents(): Pipeline<S>
      requires Valid() && active
      reads this, repr
    {
      Pipeline(inputResampler.stage, outputResampler.stage, dsp)
    }

    constructor (kernel: Kernel, code: ModelCode<S>, initial: S)
      ensures Valid() && fresh(repr) && !active && latencySamples == 0
      ensures this.kernel == kernel && this.code == code
    {
      this.kernel := kernel;
      this.code := code;
      dsp := initial;
      inputResampler := null;
      outputResampler := null;
      var a, b := new real[0], new real[0];
      modelInput := a;
      modelOutput := b;
      hostSampleRate, modelSampleRate := 0.0, 0.0;
      maximumHostBlockFrames, maximumModelBlockFrames := 0, 0;
      latencySamples := 0;
      active := false;
      repr := {this, a, b};
    }

    /** Running the model over the first `frames` scratch samples. */
    method RunModel(frames: nat)
      requires Valid() && frames <= modelInput.Length && frames <= modelOutput.Length
      modifies this`dsp, modelOutput
      ensures (dsp, modelOutput[..frames]) == DspRun(code.step, old(dsp), modelInput[..frames])
    {
      for frame := 0 to frames
        invariant (dsp, modelOutput[..frame]) == DspRun(code.step, old(dsp), modelInput[..frame])
      {
        assert modelInput[..frame + 1][..frame] == modelInput[..frame];
        var (next, y) := code.step(dsp, modelInput[frame]);
        dsp := next;
        modelOutput[frame] := y;
        assert modelOutput[..frame + 1] == modelOutput[..frame] + [y];
      }
    }

    /** The exact outcome of `Prepare`: only the three validations can fail. */
    function PrepareOutcome(hostRate: real, maximumHostFrames: nat): Outcome {
      if !SupportedRate(hostRate) then Failed(HostRateRejected)
      else if !SupportedRate(EffectiveRate(code.expectedRate)) then Failed(ModelRateRejected)
      else if maximumHostFrames == 0 || maximumHostFrames > MAXIMUM_EXTERNAL_BLOCK_FRAMES then Failed(BlockSizeRejected)
      else Prepared
    }

    method Prepare(hostRate: real, maximumHostFrames: nat) returns (outcome: Outcome)
      requires Valid()
      modifies repr
      ensures Valid() && fresh(repr - old(repr))
      ensures outcome == PrepareOutcome(hostRate, maximumHostFrames)
      ensures outcome.Failed? ==>
                && unchanged(this`active, this`dsp, this`plan, this`latencySamples, this`maximumHostBlockFrames)
                && (old(active) ==> Contents() == old(Contents()))
      ensures outcome.Prepared? ==>
                var modelRate := EffectiveRate(code.expectedRate);
                && maximumHostBlockFrames == maximumHostFrames
                && (active <==> Distance(hostRate, modelRate) > RATE_TOLERANCE)
                && (!active ==> latencySamples == 0 && dsp == code.reset(hostRate, maximumHostFrames))
                && (active ==>
                      && plan == PlanFor(hostRate, modelRate, maximumHostFrames)
                      && latencySamples == plan.latency
                      && Contents() == Primed(plan, code.reset(modelRate, plan.maximumModelFrames)))
    {
      hide MonoLanczosResampler.Valid, Lead, PlanFor, IntegerLike, Primed, Plan.Valid;
      if !SupportedRate(hostRate) {
        return Failed(HostRateRejected);
      }
      modelSampleRate := EffectiveRate(code.expectedRate);
      if !SupportedRate(modelSampleRate) {
        return Failed(ModelRateRejected);
      }
      if maximumHostFrames == 0 || maximumHostFrames > MAXIMUM_EXTERNAL_BLOCK_FRAMES {
        return Failed(BlockSizeRejected);
      }
      hostSampleRate := hostRate;
      maximumHostBlockFrames := maximumHostFrames;
      active := Distance(hostSampleRate, modelSampleRate) > RATE_TOLERANCE;
      latencySamples := 0;
      if !active {
        PrepareDirect();
        return Prepared;
      }
      outcome := PrepareResampling();
    }

    /** The part of `Prepare` for equal rates: no stages, no scratch. */
    method PrepareDirect()
      requires this in repr && !active
      modifies this
      ensures Valid() && !active && fresh(repr - {this})
      ensures unchanged(this`latencySamples, this`maximumHostBlockFrames)
      ensures dsp == code.reset(old(hostSampleRate), maximumHostBlockFrames)
    {
      inputResampler, outputResampler := null, null;
      var a, b := new real[0], new real[0];
      modelInput, modelOutput := a, b;
      dsp := code.reset(hostSampleRate, maximumHostBlockFrames);
      repr := {this, a, b};
    }

    /** The part of `Prepare` for different rates. */
    method PrepareResampling() returns (outcome: Outcome)
      requires this in repr && active && latencySamples == 0
      requires SupportedRate(hostSampleRate) && SupportedRate(modelSampleRate)
      requires 1 <= maximumHostBlockFrames <= MAXIMUM_EXTERNAL_BLOCK_FRAMES
      modifies this
      ensures Valid() && active && fresh(repr - {this}) && outcome == Prepared
      ensures maximumHostBlockFrames == old(maximumHostBlockFrames)
      ensures plan == PlanFor(old(hostSampleRate), old(modelSampleRate), maximumHostBlockFrames)
      ensures Contents() == Primed(plan, code.reset(old(modelSampleRate), plan.maximumModelFrames))
    {
      hide MonoLanczosResampler.Valid, Lead, FramesRequired, PlanFor, RateRatio, Rounded, ValidRate, IntegerLike, Plan.Valid, Primed;
      EstimateInRange(hostSampleRate, modelSampleRate, maximumHostBlockFrames);
      var ratio := modelSampleRate / hostSampleRate;
      var estimated := Ceiling(maximumHostBlockFrames as real * ratio);
      if estimated < 1 || estimated > MAXIMUM_INT - BLOCK_MARGIN {
        return Failed(CoreLimitExceeded);
      }
      PlanRatios(hostSampleRate, modelSampleRate, maximumHostBlockFrames);
      var toModel := new MonoLanczosResampler(kernel, hostSampleRate, modelSampleRate);
      var toHost := new MonoLanczosResampler(kernel, modelSampleRate, hostSampleRate);
      Install(toModel, toHost, estimated + BLOCK_MARGIN);
      outcome := PrimePipeline();
    }

    /** Scratch buffers, the reset model and two empty stages. */
    method Install(toModel: MonoLanczosResampler, toHost: MonoLanczosResampler, modelFrames: nat)
      requires SupportedRate(hostSampleRate) && SupportedRate(modelSampleRate)
      requires 1 <= maximumHostBlockFrames <= MAXIMUM_EXTERNAL_BLOCK_FRAMES
      requires var plan := PlanFor(hostSampleRate, modelSampleRate, maximumHostBlockFrames);
               && modelFrames == plan.maximumModelFrames
               && toModel.Valid() && toModel.kernel == kernel && toModel.R() == plan.ratio
               && toHost.Valid() && toHost.kernel == kernel && toHost.R() == plan.ratio.Inverse()
      requires toModel != toHost && toModel.inputBuffer != toHost.inputBuffer
      requires toModel.stage == toHost.stage == Stage([], 0)
      modifies this
      ensures Wired() && unchanged(this`active, this`latencySamples, this`maximumHostBlockFrames)
      ensures repr == {this, modelInput, modelOutput, toModel, toModel.inputBuffer, toHost, toHost.inputBuffer}
      ensures fresh(modelInput) && fresh(modelOutput)
      ensures plan == PlanFor(old(hostSampleRate), old(modelSampleRate), maximumHostBlockFrames)
      ensures inputResampler == toModel && outputResampler == toHost
      ensures dsp == code.reset(old(modelSampleRate), modelFrames)
    {
      hide MonoLanczosResampler.Valid, PlanFor, SupportedRate, Plan.Valid;
      var inputScratch := new real[modelFrames](_ => 0.0);
      var outputScratch := new real[modelFrames](_ => 0.0);
      plan := PlanFor(hostSampleRate, modelSampleRate, maximumHostBlockFrames);
      maximumModelBlockFrames := modelFrames;
      modelInput, modelOutput := inputScratch, outputScratch;
      dsp := code.reset(modelSampleRate, modelFrames);
      inputResampler, outputResampler := toModel, toHost;
      repr := {this, inputScratch, outputScratch, toModel, toModel.inputBuffer, toHost, toHost.inputBuffer};
    }

    /** Fill both stages with silence so that the first block can be delivered in full. */
    method PrimePipeline() returns (outcome: Outcome)
      requires this in repr && active && Wired() && latencySamples == 0
      requires inputResampler.stage == outputResampler.stage == Stage([], 0)
      modifies repr
      ensures Valid() && active && outcome == Prepared
      ensures unchanged(this`repr, this`plan, this`dsp, this`active, this`maximumHostBlockFrames)
      ensures Contents() == Primed(plan, dsp)
    {
      hide MonoLanczosResampler.Valid, Lead, RingSamples, PopCount, FramesRequired;
      PrimingSucceeds(plan);
      var modelSamplesNeeded := outputResampler.InputFramesRequiredFor(1);
      var hostLatency := inputResampler.InputFramesRequiredFor(modelSamplesNeeded);
      if hostLatency == 0 || hostLatency > MAXIMUM_INT {
        return Failed(WarmUpFailed);
      }
      if modelSamplesNeeded > maximumModelBlockFrames {
        return Failed(WarmUpFailed);
      }
      var hostSilence := new real[hostLatency](_ => 0.0);
      assert hostSilence[..hostLatency] == Silence(hostLatency);
      inputResampler.Push(hostSilence, hostLatency);
      var populated := inputResampler.Pop(modelInput, modelSamplesNeeded);
      if populated < modelSamplesNeeded {
        return Failed(WarmUpFailed);
      }
      FillZero(modelOutput, 0, populated);
      assert modelOutput[..populated] == Silence(populated);
      outputResampler.Push(modelOutput, populated);
      latencySamples := hostLatency;
      return Prepared;
    }

    /** Equal rates: the block goes straight to the model. */
    method ProcessDirect(input: array<real>, output: array<real>, frames: nat)
      requires Valid() && frames <= input.Length && frames <= output.Length
      requires output !in repr
      modifies this`dsp, output
      ensures Valid()
      ensures (dsp, output[..frames]) == DspRun(code.step, old(dsp), old(input[..frames]))
      ensures output[frames..] == old(output[frames..])
    {
      hide MonoLanczosResampler.Valid, DspRun;
      ghost var block := input[..frames];
      DspNothing(code.step, dsp);
      for frame := 0 to frames
        invariant Valid()
        invariant input[frame..frames] == block[frame..]
        invariant (dsp, output[..frame]) == DspRun(code.step, old(dsp), block[..frame])
        invariant output[frames..] == old(output[frames..])
      {
        assert input[frame..frames][0] == block[frame];
        ghost var done := output[..frame];
        DspOneMore(code.step, old(dsp), block[..frame], block[frame]);
        var (next, y) := code.step(dsp, input[frame]);
        dsp := next;
        output[frame] := y;
        assert block[..frame + 1] == block[..frame] + [block[frame]];
        assert output[..frame + 1] == done + [y];
      }
      assert block[..frames] == block;
    }

    method Process(input: array<real>, output: array<real>, frames: nat)
      requires Valid() && frames <= input.Length && frames <= output.Length
      requires input !in repr && output !in repr
      modifies repr, output
      ensures Valid() && unchanged(this`active, this`repr, this`plan, this`maximumHostBlockFrames)
      ensures !active ==> (dsp, output[..frames]) == DspRun(code.step, old(dsp), old(input[..frames]))
      ensures active ==>
                (Contents(), output[..frames])
                == ProcessBlock(plan, kernel, code.step, old(Contents()), old(input[..frames]))
      ensures output[frames..] == old(output[frames..])
    {
      if !active {
        ProcessDirect(input, output, frames);
      } else {
        ProcessResampled(input, output, frames);
      }
    }

    method ProcessResampled(input: array<real>, output: array<real>, frames: nat)
      requires Valid() && active && frames <= input.Length && frames <= output.Length
      requires input !in repr && output !in repr
      modifies repr, output
      ensures Valid() && active && unchanged(this`active, this`repr, this`plan, this`maximumHostBlockFrames)
      ensures (Contents(), output[..frames])
              == ProcessBlock(plan, kernel, code.step, old(Contents()), old(input[..frames]))
      ensures output[frames..] == old(output[frames..])
    {
      hide MonoLanczosResampler.Valid, MonoLanczosResampler.Ring, Lead, RingSamples, DspRun, PopCount, TransferCount;
      ghost var before := Contents();
      ghost var block := input[..frames];
      inputResampler.Push(input, frames);
      ghost var arrived := Arrived(before.input, block);
      TransferFrames(arrived);

      ghost var filled := outputResampler.stage;
      var produced := outputResampler.Pop(output, frames);
      if produced < frames {
        FillZero(output, produced, frames);
      }
      assert output[..frames] == RingSamples(kernel, plan.ratio.Inverse(), filled, produced) + Silence(frames - produced);
      inputResampler.RenormalizePhases();
      outputResampler.RenormalizePhases();
    }

    /** The transfer loop: pop model-rate frames, run the model on them, push the result. */
    method TransferFrames(ghost arrived: Stage)
      requires Valid() && active && Contents().input == arrived
      modifies repr
      ensures Valid() && active && unchanged(this`repr, this`plan)
      ensures inputResampler == old(inputResampler) && outputResampler == old(outputResampler)
      ensures var moved := Transferred(plan, arrived);
              var (d, ys) := DspRun(code.step, old(dsp), RingSamples(kernel, plan.ratio, arrived, moved));
              Contents() == Pipeline(arrived.(popped := arrived.popped + moved), Arrived(old(Contents()).output, ys), d)
    {
      hide MonoLanczosResampler.Valid, MonoLanczosResampler.Ring, Lead, RingSamples, DspRun, PopCount;
      ghost var before := Contents();
      ghost var moved, ys := 0, [];
      RenderedNothing(kernel, plan.ratio, code.step, before.dsp, arrived);
      while true
        invariant Valid() && active && unchanged(this`repr, this`plan, this`inputResampler, this`outputResampler)
        invariant Contents() == Pipeline(arrived.(popped := arrived.popped + moved), Arrived(before.output, ys), dsp)
        invariant (dsp, ys) == DspRun(code.step, before.dsp, RingSamples(kernel, plan.ratio, arrived, moved))
        invariant Transferred(plan, arrived)
                  == moved + TransferCount(plan.ratio, Lead(plan.ratio, inputResampler.stage), plan.maximumModelFrames)
        decreases var lead := Lead(plan.ratio, inputResampler.stage); if lead > 0 then lead else 0
      {
        var required := inputResampler.InputFramesRequiredFor(1);
        if required != 0 {
          break;
        }
        ghost var lead := Lead(plan.ratio, inputResampler.stage);
        var populated := inputResampler.Pop(modelInput, maximumModelBlockFrames);
        if populated == 0 {
          break;
        }
        LeadAfterPop(plan.ratio, arrived.(popped := arrived.popped + moved), populated);
        MulMono(1, populated, plan.ratio.stride);
        RequiredIsLeast(plan.ratio, lead, 1, 0);
        RenderedMore(kernel, plan.ratio, code.step, before.dsp, arrived, moved, populated);
        RunModel(populated);
        outputResampler.Push(modelOutput, populated);
        ghost var more := modelOutput[..populated];
        moved := moved + populated;
        ys := ys + more;
      }
    }
  }

  /** The loaded model: a block it cannot take is answered with silence. */
  class NamCoreModel<S> {
    const adapter: ModelRateAdapter<S>
    var prepared: bool

    ghost predicate Valid()
      reads this, adapter, adapter.repr
    {
      adapter.Valid() && this !in adapter.repr
    }

    constructor (kernel: Kernel, code: ModelCode<S>, initial: S)
      ensures Valid() && !prepared && fresh(adapter) && fresh(adapter.repr)
    {
      adapter := new ModelRateAdapter(kernel, code, initial);
      prepared := false;
    }

    method Prepare(hostRate: real, maximumBlockFrames: nat) returns (outcome: Outcome)
      requires Valid()
      modifies this, adapter.repr
      ensures Valid() && fresh(adapter.repr - old(adapter.repr))
      ensures outcome == adapter.PrepareOutcome(hostRate, maximumBlockFrames)
      ensures prepared <==> outcome.Prepared?
      ensures prepared ==> adapter.maximumHostBlockFrames == maximumBlockFrames
    {
      prepared := false;
      outcome := adapter.Prepare(hostRate, maximumBlockFrames);
      if outcome.Prepared? {
        prepared := true;
      }
    }

    predicate Rejects(input: array?<real>, frames: nat)
      reads this, adapter
    {
      !prepared || input == null || frames == 0 || frames > adapter.maximumHostBlockFrames
    }

    method Process(input: array?<real>, output: array?<real>, frames: nat)
      requires Valid()
      requires input != null ==> frames <= input.Length && input !in adapter.repr
      requires output != null ==> frames <= output.Length && output !in adapter.repr
      modifies adapter.repr, if output == null then {} else {output as object}
      ensures Valid() && prepared == old(prepared)
      ensures output == null || old(Rejects(input, frames)) ==>
                adapter.repr == old(adapter.repr) && unchanged(old(adapter.repr))
      ensures output != null ==> output[frames..] == old(output[frames..])
      ensures output != null && old(Rejects(input, frames)) ==> output[..frames] == Silence(frames)
      ensures output != null && !old(Rejects(input, frames)) ==>
                && adapter.active == old(adapter.active) && adapter.plan == old(adapter.plan)
                && (!adapter.active ==>
                      (adapter.dsp, output[..frames]) == DspRun(adapter.code.step, old(adapter.dsp), old(input[..frames])))
                && (adapter.active ==>
                      (adapter.Contents(), output[..frames])
                      == ProcessBlock(adapter.plan, adapter.kernel, adapter.code.step, old(adapter.Contents()), old(input[..frames])))
    {
      if !prepared || input == null || output == null || frames == 0 || frames > adapter.maximumHostBlockFrames {
        if output != null {
          FillZero(output, 0, frames);
        }
        return;
      }
      adapter.Process(input, output, frames);
    }
  }

  lemma RenderedNothing<S>(kernel: Kernel, r: Ratio, step: Dsp<S>, s: S, arrived: Stage)
    requires r.Valid()
    ensures DspRun(step, s, RingSamples(kernel, r, arrived, 0)) == (s, [])
    ensures arrived.(popped := arrived.popped + 0) == arrived
  {
  }

  /** Popping `more` frames after `moved` renders the same as popping them together. */
  lemma RenderedMore<S>(kernel: Kernel, r: Ratio, step: Dsp<S>, s: S, arrived: Stage, moved: nat, more: nat)
    requires r.Valid()
    ensures var (d, ys) := DspRun(step, s, RingSamples(kernel, r, arrived, moved));
            var next := DspRun(step, d, RingSamples(kernel, r, arrived.(popped := arrived.popped + moved), more));
            DspRun(step, s, RingSamples(kernel, r, arrived, moved + more)) == (next.0, ys + next.1)
  {
    hide RingSample;
    var a := RingSamples(kernel, r, arrived, moved);
    var b := RingSamples(kernel, r, arrived.(popped := arrived.popped + moved), more);
    assert RingSamples(kernel, r, arrived, moved + more) == a + b;
    DspAppend(step, s, a, b);
  }

  lemma PlanRatios(hostRate: real, modelRate: real, n: nat)
    requires SupportedRate(hostRate) && SupportedRate(modelRate)
    requires 1 <= n <= MAXIMUM_EXTERNAL_BLOCK_FRAMES
    ensures ValidRate(hostRate) && ValidRate(modelRate) && Rounded(hostRate) > 0 && Rounded(modelRate) > 0
    ensures PlanFor(hostRate, modelRate, n).ratio == RateRatio(Rounded(hostRate), Rounded(modelRate))
    ensures PlanFor(hostRate, modelRate, n).ratio.Inverse() == RateRatio(Rounded(modelRate), Rounded(hostRate))
    ensures PlanFor(hostRate, modelRate, n).maximumModelFrames
            == Ceiling(n as real * (modelRate / hostRate)) + BLOCK_MARGIN
  {
    RoundedInRange(hostRate);
    RoundedInRange(modelRate);
    RateRatioInverse(Rounded(hostRate), Rounded(modelRate));
  }

  lemma RateRatioInverse(a: nat, b: nat)
    requires a > 0 && b > 0
    ensures RateRatio(b, a) == RateRatio(a, b).Inverse()
  {
    GcdSymmetric(a, b);
  }

  /** None of the warm-up checks can fail: the latency is positive and small, the warm-up
      fits the scratch buffers, and the pushed silence yields all of it. */
  lemma PrimingSucceeds(plan: Plan)
    requires plan.Valid()
    ensures Lead(plan.ratio, Stage([], 0)) == Lead(plan.ratio.Inverse(), Stage([], 0)) == 0
    ensures 0 < plan.latency <= MAXIMUM_INT && plan.warmup <= plan.maximumModelFrames
    ensures PopCount(plan.ratio, Lead(plan.ratio, Stage(Silence(plan.latency), 0)), plan.warmup) == plan.warmup
    ensures [] + Silence(plan.latency) == Silence(plan.latency) && [] + Silence(plan.warmup) == Silence(plan.warmup)
  {
    hide PopCount, FramesRequired;
    var m, h := plan.ratio.step, plan.ratio.stride;
    PlanBounds(plan);
    CancelFactor(plan.latency, 687, m);
    RequiredEnablesPops(plan.ratio, 0, plan.warmup, plan.warmup);
    WarmUpFits(plan);
  }

  lemma WarmUpFits(plan: Plan)
    requires plan.Valid()
    ensures plan.warmup <= plan.maximumModelFrames
  {
    var m, h := plan.ratio.step, plan.ratio.stride;
    PlanBounds(plan);
    MulMono(1, plan.maximumHostFrames, m);
    FloorMono(m, plan.maximumHostFrames * m, h);
    Distribute(m / h, 15, h);
    CancelFactor(plan.warmup, m / h + 15, h);
  }

  method FillZero(output: array<real>, start: nat, end: nat)
    requires start <= end <= output.Length
    modifies output
    ensures output[..end] == old(output[..start]) + Silence(end - start)
    ensures output[end..] == old(output[end..])
  {
    for i := start to end
      invariant forall j :: 0 <= j < output.Length ==> output[j] == if start <= j < i then 0.0 else old(output[j])
    {
      output[i] := 0.0;
    }
  }
}
