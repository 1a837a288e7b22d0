/** Where streaming stops being batch: when the output ring is shorter than the history a
    block of the largest accepted size needs. */
module RateAdapterLimit {
  import opened Arithmetic
  import opened ResamplerSpec
  import opened RateAdapterSpec
  import opened RateAdapterTheorems
  import LanczosResampler
  import RateAdapter

  /** The witness kernel reads only the oldest of the 24 taps. */
  function OldestTap(fraction: real, tap: nat): real { if tap == 0 then 1.0 else 0.0 }

  /** The witness model numbers its output samples and ignores its input. */
  function CountUp(s: nat, x: real): (nat, real) { (s + 1, (s + 1) as real) }

  /** Sample `i` of the numbered model stream behind `warmup` frames of silence. */
  function Numbered(warmup: nat, i: int): real {
    if i < warmup then 0.0 else (i - warmup + 1) as real
  }

  lemma {:induction false} OldestTapSum(fraction: real, w: seq<real>, taps: nat)
    requires |w| == FILTER_WIDTH && taps <= RADIUS
    ensures TapSum(OldestTap, fraction, w, taps) == if taps == 0 then 0.0 else w[0]
  {
    if taps > 0 {
      OldestTapSum(fraction, w, taps - 1);
    }
  }

  lemma {:induction false} CountUpRun(s: nat, xs: seq<real>)
    ensures DspRun(CountUp, s, xs).0 == s + |xs|
    ensures forall i :: 0 <= i < |xs| ==> DspRun(CountUp, s, xs).1[i] == (s + i + 1) as real
  {
    if xs != [] {
      CountUpRun(s, xs[..|xs| - 1]);
    }
  }

  predicate IsNumbered(warmup: nat, p: seq<real>) {
    forall i :: 0 <= i < |p| ==> p[i] == Numbered(warmup, i)
  }

  /** The numbered stream, appended to by each block. */
  lemma {:induction false} RunIsNumbered(plan: Plan, kernel: Kernel, blocks: seq<seq<real>>)
    requires plan.Valid() && AcceptsAll(plan, blocks)
    ensures var p := Run(plan, kernel, CountUp, 0, blocks).0;
            p.dsp == |p.output.pushed| - plan.warmup && IsNumbered(plan.warmup, p.output.pushed)
  {
    if blocks != [] {
      var init, block := blocks[..|blocks| - 1], blocks[|blocks| - 1];
      RunIsNumbered(plan, kernel, init);
      var p := Run(plan, kernel, CountUp, 0, init).0;
      var arrived := Arrived(p.input, block);
      NeverUnderruns(plan, kernel, CountUp, 0, init);
      CountUpRun(p.dsp, RingSamples(kernel, plan.ratio, arrived, Transferred(plan, arrived)));
    }
  }

  lemma BatchIsNumbered(plan: Plan, kernel: Kernel, x: seq<real>, n: nat)
    requires plan.Valid() && n >= plan.warmup
    ensures IsNumbered(plan.warmup, ModelRun(plan, kernel, CountUp, 0, x, n).1)
  {
    CountUpRun(0, ModelInput(plan, kernel, x, n)[plan.warmup..]);
  }

  /** Reading an overwritten cell of a numbered stream gives a later number. */
  lemma DeadReadIsLater(warmup: nat, p: seq<real>, i: int)
    requires IsNumbered(warmup, p) && warmup <= BUFFER_SIZE - RADIUS
    requires -12 <= i < |p| - BUFFER_SIZE
    ensures Latest(p, i) > Numbered(warmup, i)
  {
    var j := LatestIsRecent(p, i);
    assert j >= i + BUFFER_SIZE;
  }

  /** Phase units left in the input stage when the host stream has the right length. */
  lemma ResidueIsLowest(plan: Plan, a: int, b: int, frames: int, popped: int, lead: int)
    requires plan.ratio.Valid()
    requires a * plan.ratio.step + b * plan.ratio.stride == 1
    requires lead == frames * plan.ratio.step - popped * plan.ratio.stride
    requires plan.ratio.Margin() - plan.ratio.stride < lead <= plan.ratio.Margin()
    requires (frames - 13 - a) % plan.ratio.stride == 0
    ensures lead == plan.ratio.Margin() - plan.ratio.stride + 1
  {
    var m, h := plan.ratio.step, plan.ratio.stride;
    var q := (frames - 13 - a) / h;
    assert frames == 13 + a + q * h;
    var z := q * m - popped - b;
    assert lead == 13 * m + 1 + z * h by { ResidueSum(m, h, a, b, q, popped); }
    if z >= 0 { MulMono(0, z, h); }
    if z <= -2 { MulMono(z, -2, h); }
  }

  lemma ResidueSum(m: int, h: int, a: int, b: int, q: int, popped: int)
    requires a * m + b * h == 1
    ensures (13 + a + q * h) * m - popped * h == 13 * m + 1 + (q * m - popped - b) * h
  {
    assert (13 + a + q * h) * m == 13 * m + a * m + (q * h) * m by {
      Distribute(13 + a, q * h, m);
      Distribute(13, a, m);
    }
    assert (q * h) * m == (q * m) * h;
    assert (q * m - popped - b) * h == (q * m) * h - popped * h - b * h by {
      Distribute(q * m - popped, -b, h);
      Distribute(q * m, -popped, h);
    }
  }

  /** Single frames that fix the residue, then one block of the largest accepted size. */
  function SilentFrames(singles: nat): seq<seq<real>> { Singletons(Silence(singles)) }

  function Largest(plan: Plan): (block: seq<real>)
    ensures |block| == plan.maximumHostFrames
  {
    Silence(plan.maximumHostFrames)
  }

  /** The block is large enough to be drained, and the scratch large enough to drain it. */
  lemma LargestDrains(plan: Plan, lead: int)
    requires plan.Valid() && !WindowFits(plan)
    requires plan.ratio.Margin() - plan.ratio.stride < lead < plan.ratio.Margin() + plan.ratio.stride
    ensures var arrived := lead + plan.maximumHostFrames * plan.ratio.step;
            && arrived >= plan.ratio.Margin() + plan.ratio.stride
            && arrived - plan.maximumModelFrames * plan.ratio.stride <= plan.ratio.Margin() - plan.ratio.stride
  {
    var m, h := plan.ratio.step, plan.ratio.stride;
    var total := plan.maximumHostFrames * m;
    ScratchCovers(total, h, plan.maximumModelFrames);
    PlanBounds(plan);
    hide Plan.Valid;
    Distribute(plan.latency, plan.maximumHostFrames, m);
    DrainedBelow(lead, total, plan.latency * m, plan.maximumModelFrames * h, m, h);
  }

  lemma ScratchCovers(total: nat, h: nat, frames: nat)
    requires h > 0 && frames >= total / h + 30
    ensures frames * h >= total - h + 1 + 30 * h
  {
    MulMono(total / h + 30, frames, h);
    Distribute(total / h, 30, h);
    assert total == total / h * h + total % h;
  }

  /** The same with the products as numbers of their own. */
  lemma DrainedBelow(lead: int, total: int, latency: int, scratch: int, m: int, h: int)
    requires 13 * m - h < lead < 13 * m + h && 0 < h <= 48 * m && m <= 48 * h
    requires latency + total - (13 * m - h + 1) > (BUFFER_SIZE - RADIUS) * h && latency <= 15 * m + 14 * h
    requires scratch >= total - h + 1 + 30 * h
    ensures lead + total >= 13 * m + h && lead + total - scratch <= 13 * m - h
  {
  }

  /** After the single frames and the arrival of the largest block, the transfer loop leaves
      the lowest lead there is, so the output stage has to look furthest back. */
  lemma LowestLeadReached(plan: Plan, kernel: Kernel, a: int, b: int, singles: nat)
    requires plan.Valid() && !WindowFits(plan)
    requires a * plan.ratio.step + b * plan.ratio.stride == 1
    requires singles > 0 && (plan.latency + singles + plan.maximumHostFrames - 13 - a) % plan.ratio.stride == 0
    ensures var p := Run(plan, kernel, CountUp, 0, SilentFrames(singles)).0;
            var block := Largest(plan);
            var arrived := Arrived(p.input, block);
            var ys := DspRun(CountUp, p.dsp, RingSamples(kernel, plan.ratio, arrived, Transferred(plan, arrived))).1;
            && Balanced(plan, singles, p)
            && Lead(plan.ratio.Inverse(), Arrived(p.output, ys)) > (BUFFER_SIZE - RADIUS) * plan.ratio.stride
  {
    assert AcceptsAll(plan, SilentFrames(singles));
    hide RingSample, RingSamples, Run, WindowFits, Plan.Valid, Balanced, Lead, Transferred;
    FlattenSingletons(Silence(singles));
    NeverUnderruns(plan, kernel, CountUp, 0, SilentFrames(singles));
    LowestLeadFrom(plan, kernel, a, b, singles, Run(plan, kernel, CountUp, 0, SilentFrames(singles)).0);
  }

  /** The same from any state after so many frames. */
  lemma LowestLeadFrom(plan: Plan, kernel: Kernel, a: int, b: int, singles: nat, p: Pipeline<nat>)
    requires plan.Valid() && !WindowFits(plan) && singles > 0 && Balanced(plan, singles, p)
    requires a * plan.ratio.step + b * plan.ratio.stride == 1
    requires (plan.latency + singles + plan.maximumHostFrames - 13 - a) % plan.ratio.stride == 0
    ensures var arrived := Arrived(p.input, Largest(plan));
            var ys := DspRun(CountUp, p.dsp, RingSamples(kernel, plan.ratio, arrived, Transferred(plan, arrived))).1;
            Lead(plan.ratio.Inverse(), Arrived(p.output, ys)) > (BUFFER_SIZE - RADIUS) * plan.ratio.stride
  {
    hide RingSample;
    var m, h := plan.ratio.step, plan.ratio.stride;
    var block := Largest(plan);
    BlockShapeHolds(plan, singles, p, block);
    var arrived := Arrived(p.input, block);
    var moved := Transferred(plan, arrived);
    LargestDrains(plan, InputLead(plan, p));
    TransferDrains(plan.ratio, Lead(plan.ratio, arrived), plan.maximumModelFrames);
    var lead := Lead(plan.ratio, arrived) - moved * h;
    Distribute(arrived.popped, moved, h);
    ResidueIsLowest(plan, a, b, plan.latency + singles + plan.maximumHostFrames, arrived.popped + moved, lead);
  }

  ghost predicate Reduced(r: Ratio)
    requires r.Valid()
  {
    Gcd(r.step, r.stride) == 1
  }

  /** A number of single frames with any wanted residue. */
  lemma SinglesFor(target: int, h: int) returns (singles: nat)
    requires h > 0
    ensures singles > 0 && (singles - target) % h == 0
  {
    singles := 1 + (target - 1) % h;
    var q := (target - 1) / h;
    assert singles - target == (-q) * h;
    MultipleOf(h, -q);
  }

  /** With a lead beyond the ring, a stage that carries the numbered stream delivers a
      number from the wrong place. */
  lemma DeadOutputDiffers(plan: Plan, filled: Stage, model: seq<real>)
    requires plan.Valid()
    requires IsNumbered(plan.warmup, filled.pushed) && IsNumbered(plan.warmup, model)
    requires Lead(plan.ratio.Inverse(), filled) > (BUFFER_SIZE - RADIUS) * plan.ratio.stride
    requires plan.ratio.Inverse().Position(filled.popped) + RADIUS <= |model|
    ensures RingSample(OldestTap, plan.ratio.Inverse(), filled.pushed, filled.popped)
            != Sample(OldestTap, plan.ratio.Inverse(), model, filled.popped)
  {
    var r, k := plan.ratio.Inverse(), filled.popped;
    MulMono(0, k, r.stride);
    FloorMono(0, k * r.stride, r.step);
    LiveByLead(r, filled);
    WarmupIsShort(plan);
    OldestTapDiffers(plan.warmup, filled.pushed, model, r.Fraction(k), r.Position(k));
  }

  lemma OldestTapDiffers(warmup: nat, pushed: seq<real>, model: seq<real>, fraction: real, position: int)
    requires IsNumbered(warmup, pushed) && IsNumbered(warmup, model) && warmup <= BUFFER_SIZE - RADIUS
    requires 0 <= position && position + RADIUS <= |model| && position - RADIUS < |pushed| - BUFFER_SIZE
    ensures TapSum(OldestTap, fraction, RingWindow(pushed, position), RADIUS)
            != TapSum(OldestTap, fraction, Window(model, position), RADIUS)
  {
    OldestTapSum(fraction, RingWindow(pushed, position), RADIUS);
    OldestTapSum(fraction, Window(model, position), RADIUS);
    assert RingWindow(pushed, position)[0] == Latest(pushed, position - RADIUS);
    assert Window(model, position)[0] == At(model, position - RADIUS) == Numbered(warmup, position - RADIUS);
    DeadReadIsLater(warmup, pushed, position - RADIUS);
  }

  lemma WarmupIsShort(plan: Plan)
    requires plan.Valid()
    ensures plan.warmup <= BUFFER_SIZE - RADIUS
  {
    PlanBounds(plan);
    if plan.warmup > 62 { MulMono(63, plan.warmup, plan.ratio.stride); }
  }

  /** When the largest block does not fit, some run is not the batch rendering. */
  lemma LargestBlockDiffers(plan: Plan) returns (blocks: seq<seq<real>>)
    requires plan.Valid() && Reduced(plan.ratio) && !WindowFits(plan)
    ensures AcceptsAll(plan, blocks)
    ensures Run(plan, OldestTap, CountUp, 0, blocks).1 != Batch(plan, OldestTap, CountUp, 0, Flatten(blocks))
  {
    hide RingSample, Sample;
    var a, b := Bezout(plan.ratio.step, plan.ratio.stride);
    var singles := SinglesFor(13 + a - plan.latency - plan.maximumHostFrames, plan.ratio.stride);
    var init, block := SilentFrames(singles), Largest(plan);
    blocks := init + [block];
    assert blocks[..|blocks| - 1] == init;
    LowestLeadReached(plan, OldestTap, a, b, singles);
    var (p, out) := Run(plan, OldestTap, CountUp, 0, init);
    var arrived := Arrived(p.input, block);
    var frames := RingSamples(OldestTap, plan.ratio, arrived, Transferred(plan, arrived));
    var ys := DspRun(CountUp, p.dsp, frames).1;
    var filled := Arrived(p.output, ys);
    RunIsNumbered(plan, OldestTap, init);
    CountUpRun(p.dsp, frames);
    BlockIsDelivered(plan, OldestTap, CountUp, singles, p, block);
    RunLength(plan, OldestTap, CountUp, 0, init);
    FlattenSingletons(Silence(singles));
    FirstOfLastBlock(plan, p, out, block, filled, singles, Flatten(blocks));
  }

  lemma {:induction false} RunLength<S>(plan: Plan, kernel: Kernel, step: Dsp<S>, dsp: S, blocks: seq<seq<real>>)
    requires plan.Valid()
    ensures |Run(plan, kernel, step, dsp, blocks).1| == |Flatten(blocks)|
  {
    if blocks != [] {
      RunLength(plan, kernel, step, dsp, blocks[..|blocks| - 1]);
    }
  }

  lemma FirstOfLastBlock(plan: Plan, p: Pipeline<nat>, out: seq<real>, block: seq<real>, filled: Stage, n: nat, x: seq<real>)
    requires plan.Valid() && Balanced(plan, n, p) && plan.Accepts(block) && |out| == n && |x| == n + |block|
    requires var arrived := Arrived(p.input, block);
             filled == Arrived(p.output, DspRun(CountUp, p.dsp, RingSamples(OldestTap, plan.ratio, arrived, Transferred(plan, arrived))).1)
    requires IsNumbered(plan.warmup, filled.pushed)
    requires Lead(plan.ratio.Inverse(), filled) > (BUFFER_SIZE - RADIUS) * plan.ratio.stride
    ensures (out + ProcessBlock(plan, OldestTap, CountUp, p, block).1)[n] != Batch(plan, OldestTap, CountUp, 0, x)[n]
  {
    hide RingSample, Sample, Lead;
    var r := plan.ratio.Inverse();
    BlockIsDelivered(plan, OldestTap, CountUp, n, p, block);
    var more := ProcessBlock(plan, OldestTap, CountUp, p, block).1;
    assert more[0] == RingSamples(OldestTap, r, filled, |block|)[0];
    var frames := ModelFrames(plan, |x|);
    var model := ModelRun(plan, OldestTap, CountUp, 0, x, frames).1;
    BatchIsNumbered(plan, OldestTap, x, frames);
    MulMono(n, |x|, r.stride);
    FloorMono(n * r.stride, |x| * r.stride, r.step);
    DeadOutputDiffers(plan, filled, model);
  }

  /** Streaming equals batch for every kernel, model and run of accepted blocks exactly when
      the output ring fits the largest block. */
  lemma StreamingIffWindowFits(plan: Plan)
    requires plan.Valid() && Reduced(plan.ratio)
    ensures WindowFits(plan) <==>
              forall kernel: Kernel, step: Dsp<nat>, dsp: nat, blocks: seq<seq<real>> ::
                AcceptsAll(plan, blocks) ==>
                  Run(plan, kernel, step, dsp, blocks).1 == Batch(plan, kernel, step, dsp, Flatten(blocks))
  {
    if WindowFits(plan) {
      forall kernel: Kernel, step: Dsp<nat>, dsp: nat, blocks: seq<seq<real>> | AcceptsAll(plan, blocks)
        ensures Run(plan, kernel, step, dsp, blocks).1 == Batch(plan, kernel, step, dsp, Flatten(blocks))
      {
        StreamingIsBatch(plan, kernel, step, dsp, blocks);
      }
    } else {
      var blocks := LargestBlockDiffers(plan);
      assert AcceptsAll(plan, blocks);
      var kernel: Kernel := OldestTap;
      var step: Dsp<nat> := CountUp;
      assert Run(plan, kernel, step, 0, blocks).1 != Batch(plan, kernel, step, 0, Flatten(blocks));
    }
  }

  /** An accepted setting that does not fit: an 8 kHz host driving a 384 kHz model in blocks of
      8192 frames. */
  lemma WidestRatioDoesNotFit()
    ensures RateAdapter.SupportedRate(8000.0) && RateAdapter.SupportedRate(384000.0)
    ensures var plan := RateAdapter.PlanFor(8000.0, 384000.0, 8192);
            Reduced(plan.ratio) && !WindowFits(plan)
  {
    WidestRatio();
    assert (8000.5).Floor == 8000 && (384000.5).Floor == 384000;
    RateAdapter.PlanRatios(8000.0, 384000.0, 8192);
    var plan := RateAdapter.PlanFor(8000.0, 384000.0, 8192);
    hide RateAdapter.PlanFor;
    assert plan.ratio == Ratio(48, 1);
    WidestDoesNotFit(plan);
  }

  lemma WidestRatio()
    ensures LanczosResampler.RateRatio(8000, 384000) == Ratio(48, 1)
  {
    assert Gcd(8000, 384000) == Gcd(384000, 8000) == Gcd(8000, 0) == 8000;
  }

  lemma WidestDoesNotFit(plan: Plan)
    requires plan.Valid() && plan.ratio == Ratio(48, 1) && plan.maximumHostFrames == 8192
    ensures !WindowFits(plan)
  {
  }

  /** So the stream an accepted setting delivers can differ from the batch rendering. */
  lemma AcceptedSettingDiffers() returns (blocks: seq<seq<real>>)
    ensures RateAdapter.SupportedRate(8000.0) && RateAdapter.SupportedRate(384000.0)
    ensures var plan := RateAdapter.PlanFor(8000.0, 384000.0, 8192);
            && AcceptsAll(plan, blocks)
            && Run(plan, OldestTap, CountUp, 0, blocks).1 != Batch(plan, OldestTap, CountUp, 0, Flatten(blocks))
  {
    WidestRatioDoesNotFit();
    hide RateAdapter.PlanFor, WindowFits, Run, Batch;
    blocks := LargestBlockDiffers(RateAdapter.PlanFor(8000.0, 384000.0, 8192));
  }

  /** Model rates up to fifteen times the host rate fit for every accepted block limit. */
  lemma ModestRatiosFit(plan: Plan)
    requires plan.Valid() && plan.ratio.step <= 15 * plan.ratio.stride
    ensures WindowFits(plan)
  {
    PlanBounds(plan);
    Distribute(plan.latency, plan.maximumHostFrames, plan.ratio.step);
    MulMono(plan.maximumHostFrames, MAXIMUM_EXTERNAL_BLOCK_FRAMES, plan.ratio.step);
  }
}
