/** What holds of the rate adapter over every run: the two leads are conserved, the output
    stage never runs dry, and the output is the batch rendering of the host stream. */
module RateAdapterTheorems {
  import opened Arithmetic
  import opened ResamplerSpec
  import opened RateAdapterSpec

  function InputLead<S>(plan: Plan, p: Pipeline<S>): int { Lead(plan.ratio, p.input) }

  function OutputLead<S>(plan: Plan, p: Pipeline<S>): int { Lead(plan.ratio.Inverse(), p.output) }

  /** Frame counts after `n` host frames: the input has the latency ahead of the output,
      and every model frame taken from the input was given to the output. */
  predicate Counts<S>(plan: Plan, n: nat, p: Pipeline<S>) {
    && |p.input.pushed| == plan.latency + n
    && p.output.popped == n
    && |p.output.pushed| == p.input.popped
    && p.input.popped >= plan.warmup
  }

  /** The block-boundary invariant. */
  predicate Balanced<S>(plan: Plan, n: nat, p: Pipeline<S>) {
    var m, h := plan.ratio.step, plan.ratio.stride;
    && Counts(plan, n, p)
    && InputLead(plan, p) + OutputLead(plan, p) == plan.latency * m
    && plan.ratio.Margin() - h < InputLead(plan, p)
    && InputLead(plan, p) < plan.ratio.Margin() + (if n == 0 then m + 1 else h)
  }

  /** Phase units are conserved: they follow from the frame counts alone. */
  lemma LeadsConserved<S>(plan: Plan, n: nat, p: Pipeline<S>)
    requires Counts(plan, n, p)
    ensures InputLead(plan, p) + OutputLead(plan, p) == plan.latency * plan.ratio.step
  {
    Distribute(plan.latency, n, plan.ratio.step);
  }

  /** How large the warm-up and the latency are in phase units. */
  lemma PlanBounds(plan: Plan)
    requires plan.Valid()
    ensures var m, h := plan.ratio.step, plan.ratio.stride;
            var w := plan.warmup * h;
            && 13 * h + m < w <= 14 * h + m && 14 * h <= w && plan.warmup >= 14
            && 13 * m + w < plan.latency * m <= 14 * m + w
  {
    var m, h := plan.ratio.step, plan.ratio.stride;
    var r := plan.ratio.Inverse();
    RequiredIsLeast(r, 0, 1, plan.warmup);
    RequiredIsLeast(r, 0, 1, 13);
    assert r.Margin() == 13 * h;
    assert plan.warmup >= 14 by {
      if plan.warmup <= 13 { MulMono(plan.warmup, 13, h); }
    }
    RequiredIsLeast(r, 0, 1, plan.warmup - 1);
    Distribute(plan.warmup, -1, h);
    MulMono(14, plan.warmup, h);
    RequiredIsLeast(plan.ratio, 0, plan.warmup, plan.latency);
    assert plan.latency > 0;
    RequiredIsLeast(plan.ratio, 0, plan.warmup, plan.latency - 1);
    Distribute(plan.latency, -1, m);
  }

  lemma PrimedBalanced<S>(plan: Plan, dsp: S)
    requires plan.Valid()
    ensures Balanced(plan, 0, Primed(plan, dsp))
  {
    PlanBounds(plan);
    LeadsConserved(plan, 0, Primed(plan, dsp));
  }

  /** Facts about one block, in phase units. */
  ghost predicate BlockShape<S>(plan: Plan, n: nat, p: Pipeline<S>, block: seq<real>)
    requires plan.Valid()
  {
    var m, h := plan.ratio.step, plan.ratio.stride;
    var arrived := Arrived(p.input, block);
    var moved := Transferred(plan, arrived);
    var after := arrived.(popped := arrived.popped + moved);
    && Lead(plan.ratio, arrived) == InputLead(plan, p) + |block| * m
    && Lead(plan.ratio, after) == Lead(plan.ratio, arrived) - moved * h
    && plan.ratio.Margin() - h < Lead(plan.ratio, after) < plan.ratio.Margin() + h
    && forall ys: seq<real> :: |ys| == moved ==>
         Lead(plan.ratio.Inverse(), Arrived(p.output, ys))
         == (plan.latency + |block|) * m - Lead(plan.ratio, after)
  }

  lemma BlockShapeHolds<S>(plan: Plan, n: nat, p: Pipeline<S>, block: seq<real>)
    requires plan.Valid() && Balanced(plan, n, p) && plan.Accepts(block)
    ensures BlockShape(plan, n, p, block)
  {
    var m, h := plan.ratio.step, plan.ratio.stride;
    var arrived := Arrived(p.input, block);
    var moved := Transferred(plan, arrived);
    var after := arrived.(popped := arrived.popped + moved);
    hide Lead;
    LeadAfterPush(plan.ratio, p.input, block);
    LeadAfterPop(plan.ratio, arrived, moved);
    MulMono(1, |block|, m);
    TransferExact(plan.ratio, Lead(plan.ratio, arrived), plan.maximumModelFrames);
    forall ys: seq<real> | |ys| == moved
      ensures Lead(plan.ratio.Inverse(), Arrived(p.output, ys))
              == (plan.latency + |block|) * m - Lead(plan.ratio, after)
    {
      LeadAfterPush(plan.ratio.Inverse(), p.output, ys);
      Distribute(plan.latency, |block|, m);
    }
  }

  /** Frames the output stage delivers for a block. */
  function Produced<S>(plan: Plan, kernel: Kernel, step: Dsp<S>, p: Pipeline<S>, block: seq<real>): nat
    requires plan.Valid()
  {
    var arrived := Arrived(p.input, block);
    var ys := DspRun(step, p.dsp, RingSamples(kernel, plan.ratio, arrived, Transferred(plan, arrived))).1;
    PopCount(plan.ratio.Inverse(), Lead(plan.ratio.Inverse(), Arrived(p.output, ys)), |block|)
  }

  /** One block keeps the balance and is delivered in full: the zero-fill is dead. */
  lemma BlockIsDelivered<S>(plan: Plan, kernel: Kernel, step: Dsp<S>, n: nat, p: Pipeline<S>, block: seq<real>)
    requires plan.Valid() && Balanced(plan, n, p) && plan.Accepts(block)
    ensures Produced(plan, kernel, step, p, block) == |block|
    ensures Balanced(plan, n + |block|, ProcessBlock(plan, kernel, step, p, block).0)
  {
    var m, h := plan.ratio.step, plan.ratio.stride;
    BlockShapeHolds(plan, n, p, block);
    PlanBounds(plan);
    var arrived := Arrived(p.input, block);
    var moved := Transferred(plan, arrived);
    var after := arrived.(popped := arrived.popped + moved);
    var ys := DspRun(step, p.dsp, RingSamples(kernel, plan.ratio, arrived, moved)).1;
    var lead := Lead(plan.ratio.Inverse(), Arrived(p.output, ys));
    Distribute(plan.latency, |block|, m);
    Distribute(|block|, -1, m);
    assert lead - (|block| - 1) * m == plan.latency * m + m - Lead(plan.ratio, after);
    PopCountExact(plan.ratio.Inverse(), lead, |block|, |block|);
    var q := ProcessBlock(plan, kernel, step, p, block).0;
    assert Counts(plan, n + |block|, q);
    LeadsConserved(plan, n + |block|, q);
  }

  // ---- live history ----------------------------------------------------------------

  /** The output ring is long enough for the largest block: a condition on the rates and
      the block limit only. */
  predicate WindowFits(plan: Plan) {
    var m, h := plan.ratio.step, plan.ratio.stride;
    (plan.latency + plan.maximumHostFrames) * m - (plan.ratio.Margin() - h + 1)
    <= (BUFFER_SIZE - RADIUS) * h
  }

  /** The next `n` outputs of a stage have their whole window in the ring. */
  predicate AllLive(r: Ratio, s: Stage, n: nat)
    requires r.Valid()
  {
    forall k {:trigger LiveWindow(r, s, k)} :: s.popped <= k < s.popped + n ==> LiveWindow(r, s, k)
  }

  lemma StageIsLive(r: Ratio, s: Stage, n: nat)
    requires r.Valid()
    requires Lead(r, s) <= (BUFFER_SIZE - RADIUS) * r.step
    requires n > 0 ==> Lead(r, s) - (n - 1) * r.stride > r.Margin()
    ensures AllLive(r, s, n)
  {
    forall k | s.popped <= k < s.popped + n
      ensures LiveWindow(r, s, k)
    {
      hide Lead;
      var at := s.(popped := k);
      LeadAfterPop(r, s, k - s.popped);
      MulMono(0, k - s.popped, r.stride);
      MulMono(k - s.popped, n - 1, r.stride);
      LiveByLead(r, at);
      LeadCoversWindow(r, at);
    }
  }

  /** The input stage never reads overwritten history, whatever the accepted rates. */
  lemma InputIsLive<S>(plan: Plan, n: nat, p: Pipeline<S>, block: seq<real>)
    requires plan.Valid() && Balanced(plan, n, p) && plan.Accepts(block)
    ensures AllLive(plan.ratio, Arrived(p.input, block), Transferred(plan, Arrived(p.input, block)))
  {
    hide Lead, LiveWindow, Transferred;
    var m, h := plan.ratio.step, plan.ratio.stride;
    var arrived := Arrived(p.input, block);
    var moved := Transferred(plan, arrived);
    BlockShapeHolds(plan, n, p, block);
    MulMono(|block|, MAXIMUM_EXTERNAL_BLOCK_FRAMES, m);
    Distribute(moved, -1, h);
    StageIsLive(plan.ratio, arrived, moved);
  }

  /** Neither does the output stage, when its ring fits the block limit. */
  lemma OutputIsLive<S>(plan: Plan, n: nat, p: Pipeline<S>, block: seq<real>, ys: seq<real>)
    requires plan.Valid() && Balanced(plan, n, p) && plan.Accepts(block) && WindowFits(plan)
    requires |ys| == Transferred(plan, Arrived(p.input, block))
    ensures AllLive(plan.ratio.Inverse(), Arrived(p.output, ys), |block|)
  {
    hide Lead, LiveWindow, Transferred;
    var m, h := plan.ratio.step, plan.ratio.stride;
    BlockShapeHolds(plan, n, p, block);
    PlanBounds(plan);
    Distribute(plan.latency, |block|, m);
    Distribute(plan.latency, plan.maximumHostFrames, m);
    MulMono(|block|, plan.maximumHostFrames, m);
    Distribute(|block|, -1, m);
    StageIsLive(plan.ratio.Inverse(), Arrived(p.output, ys), |block|);
  }

  // ---- streaming refines batch -----------------------------------------------------

  /** Model inputs whose window has arrived do not depend on later host samples. */
  lemma ModelInputStable(plan: Plan, kernel: Kernel, x: seq<real>, y: seq<real>, n: nat)
    requires plan.Valid()
    requires n > 0 ==> plan.ratio.Position(n - 1) + RADIUS <= plan.latency + |x|
    ensures ModelInput(plan, kernel, x + y, n) == ModelInput(plan, kernel, x, n)
  {
    var r := plan.ratio;
    forall j | 0 <= j < n
      ensures ModelInput(plan, kernel, x + y, n)[j] == ModelInput(plan, kernel, x, n)[j]
    {
      MulMono(j, n - 1, r.stride);
      FloorMono(j * r.stride, (n - 1) * r.stride, r.step);
      SampleOfPrefix(kernel, r, Silence(plan.latency) + (x + y), Silence(plan.latency) + x, j);
    }
  }

  /** Running the model further appends to what it had produced. */
  lemma ModelRunExtends<S>(plan: Plan, kernel: Kernel, step: Dsp<S>, dsp: S, x: seq<real>, n: nat, more: nat)
    requires plan.Valid() && n >= plan.warmup
    ensures var before := ModelRun(plan, kernel, step, dsp, x, n);
            var next := DspRun(step, before.0, ModelInput(plan, kernel, x, n + more)[n..]);
            ModelRun(plan, kernel, step, dsp, x, n + more) == (next.0, before.1 + next.1)
  {
    hide Sample;
    var all := ModelInput(plan, kernel, x, n + more);
    assert ModelInput(plan, kernel, x, n) == all[..n];
    assert all[plan.warmup..] == all[..n][plan.warmup..] + all[n..];
    DspAppend(step, dsp, all[..n][plan.warmup..], all[n..]);
    var a := DspRun(step, dsp, all[..n][plan.warmup..]).1;
    var b := DspRun(step, ModelRun(plan, kernel, step, dsp, x, n).0, all[n..]).1;
    assert Silence(plan.warmup) + (a + b) == (Silence(plan.warmup) + a) + b;
  }

  /** An output whose window has been rendered does not depend on how much further the
      model was run. */
  lemma OutputStable<S>(plan: Plan, kernel: Kernel, step: Dsp<S>, dsp: S, x: seq<real>, k: nat, n: nat, more: nat)
    requires plan.Valid() && n >= plan.warmup
    requires plan.ratio.Inverse().Position(k) + RADIUS <= n
    ensures Sample(kernel, plan.ratio.Inverse(), ModelRun(plan, kernel, step, dsp, x, n + more).1, k)
            == Sample(kernel, plan.ratio.Inverse(), ModelRun(plan, kernel, step, dsp, x, n).1, k)
  {
    hide Sample;
    ModelRunExtends(plan, kernel, step, dsp, x, n, more);
    SampleOfPrefix(kernel, plan.ratio.Inverse(), ModelRun(plan, kernel, step, dsp, x, n + more).1,
                   ModelRun(plan, kernel, step, dsp, x, n).1, k);
  }

  /** A batch output can be computed from any model run that covers its window. */
  lemma BatchAt<S>(plan: Plan, kernel: Kernel, step: Dsp<S>, dsp: S, x: seq<real>, k: nat, n: nat)
    requires plan.Valid() && n >= plan.warmup && k < |x|
    requires plan.ratio.Inverse().Position(k) + RADIUS <= n
    ensures Batch(plan, kernel, step, dsp, x)[k]
            == Sample(kernel, plan.ratio.Inverse(), ModelRun(plan, kernel, step, dsp, x, n).1, k)
  {
    var r := plan.ratio.Inverse();
    var full := ModelFrames(plan, |x|);
    MulMono(k, |x|, r.stride);
    FloorMono(k * r.stride, |x| * r.stride, r.step);
    if n <= full {
      OutputStable(plan, kernel, step, dsp, x, k, n, full - n);
    } else {
      OutputStable(plan, kernel, step, dsp, x, k, full, n - full);
    }
  }

  /** The run invariant: the stages hold exactly the delayed host stream and the model's
      rendering of it, and the output so far is the batch output. */
  ghost predicate Renders<S>(plan: Plan, kernel: Kernel, step: Dsp<S>, dsp: S, x: seq<real>, p: Pipeline<S>,
                             out: seq<real>)
    requires plan.Valid()
  {
    && Balanced(plan, |x|, p)
    && p.input.pushed == Silence(plan.latency) + x
    && ModelRun(plan, kernel, step, dsp, x, p.input.popped) == (p.dsp, p.output.pushed)
    && p.input.popped > 0
    && plan.ratio.Position(p.input.popped - 1) + RADIUS <= plan.latency + |x|
    && (|x| > 0 ==> plan.ratio.Inverse().Position(|x| - 1) + RADIUS <= p.input.popped)
    && out == Batch(plan, kernel, step, dsp, x)
  }

  lemma PrimedRenders<S>(plan: Plan, kernel: Kernel, step: Dsp<S>, dsp: S)
    requires plan.Valid()
    ensures Renders(plan, kernel, step, dsp, [], Primed(plan, dsp), [])
  {
    hide Sample;
    PrimedBalanced(plan, dsp);
    PlanBounds(plan);
    assert Silence(plan.latency) + [] == Silence(plan.latency);
    assert ModelInput(plan, kernel, [], plan.warmup)[plan.warmup..] == [];
    assert Silence(plan.warmup) + [] == Silence(plan.warmup);
    Distribute(plan.warmup, -1, plan.ratio.stride);
    LeadCoversWindow(plan.ratio, Stage(Silence(plan.latency), plan.warmup - 1));
  }

  /** What the input stage yields for a block is the next part of the batch model input. */
  lemma TransferredFrames(plan: Plan, kernel: Kernel, x: seq<real>, block: seq<real>, p: Stage, moved: nat)
    requires plan.Valid() && p.pushed == Silence(plan.latency) + x
    requires AllLive(plan.ratio, Arrived(p, block), moved)
    ensures RingSamples(kernel, plan.ratio, Arrived(p, block), moved)
            == ModelInput(plan, kernel, x + block, p.popped + moved)[p.popped..]
  {
    hide RingSample, Sample, LiveWindow;
    var arrived := Arrived(p, block);
    assert arrived.pushed == Silence(plan.latency) + (x + block);
    forall j | 0 <= j < moved
      ensures RingSamples(kernel, plan.ratio, arrived, moved)[j]
              == ModelInput(plan, kernel, x + block, p.popped + moved)[p.popped + j]
    {
      assert LiveWindow(plan.ratio, arrived, p.popped + j);
      LiveSample(kernel, plan.ratio, arrived, p.popped + j);
    }
  }

  /** What the output stage delivers for a block is the next part of the batch output. */
  lemma DeliveredFrames<S>(plan: Plan, kernel: Kernel, step: Dsp<S>, dsp: S, x: seq<real>, filled: Stage, n: nat)
    requires plan.Valid() && filled.popped + n == |x| && |filled.pushed| >= plan.warmup
    requires filled.pushed == ModelRun(plan, kernel, step, dsp, x, |filled.pushed|).1
    requires AllLive(plan.ratio.Inverse(), filled, n)
    ensures RingSamples(kernel, plan.ratio.Inverse(), filled, n) == Batch(plan, kernel, step, dsp, x)[filled.popped..]
  {
    hide RingSample, Sample, ModelRun;
    var r := plan.ratio.Inverse();
    forall j | 0 <= j < n
      ensures RingSamples(kernel, r, filled, n)[j] == Batch(plan, kernel, step, dsp, x)[filled.popped + j]
    {
      var k := filled.popped + j;
      assert LiveWindow(r, filled, k);
      LiveSample(kernel, r, filled, k);
      BatchAt(plan, kernel, step, dsp, x, k, |filled.pushed|);
    }
  }

  /** Earlier batch outputs are not changed by a later block. */
  lemma BatchExtends<S>(plan: Plan, kernel: Kernel, step: Dsp<S>, dsp: S, x: seq<real>, y: seq<real>, n: nat)
    requires plan.Valid() && n >= plan.warmup && n > 0
    requires plan.ratio.Position(n - 1) + RADIUS <= plan.latency + |x|
    requires |x| > 0 ==> plan.ratio.Inverse().Position(|x| - 1) + RADIUS <= n
    ensures Batch(plan, kernel, step, dsp, x + y)[..|x|] == Batch(plan, kernel, step, dsp, x)
  {
    hide Sample, Batch;
    var r := plan.ratio.Inverse();
    ModelInputStable(plan, kernel, x, y, n);
    forall k | 0 <= k < |x|
      ensures Batch(plan, kernel, step, dsp, x + y)[k] == Batch(plan, kernel, step, dsp, x)[k]
    {
      MulMono(k, |x| - 1, r.stride);
      FloorMono(k * r.stride, (|x| - 1) * r.stride, r.step);
      BatchAt(plan, kernel, step, dsp, x + y, k, n);
      BatchAt(plan, kernel, step, dsp, x, k, n);
    }
  }

  /** One accepted block keeps the run invariant. */
  lemma BlockRenders<S>(plan: Plan, kernel: Kernel, step: Dsp<S>, dsp: S, x: seq<real>, p: Pipeline<S>,
                        out: seq<real>, block: seq<real>)
    requires plan.Valid() && WindowFits(plan) && plan.Accepts(block)
    requires Renders(plan, kernel, step, dsp, x, p, out)
    ensures var (q, more) := ProcessBlock(plan, kernel, step, p, block);
            Renders(plan, kernel, step, dsp, x + block, q, out + more)
  {
    hide RingSample, Sample, Lead, Transferred, Batch;
    var n, x' := |x|, x + block;
    var arrived := Arrived(p.input, block);
    var moved := Transferred(plan, arrived);
    var frames := RingSamples(kernel, plan.ratio, arrived, moved);
    var (dsp', ys) := DspRun(step, p.dsp, frames);
    var filled := Arrived(p.output, ys);
    var (q, more) := ProcessBlock(plan, kernel, step, p, block);
    var taken := p.input.popped;

    BlockIsDelivered(plan, kernel, step, n, p, block);
    InputIsLive(plan, n, p, block);
    OutputIsLive(plan, n, p, block, ys);
    assert arrived.pushed == Silence(plan.latency) + x';

    TransferredFrames(plan, kernel, x, block, p.input, moved);
    ModelInputStable(plan, kernel, x, block, taken);
    ModelRunExtends(plan, kernel, step, dsp, x', taken, moved);
    assert ModelRun(plan, kernel, step, dsp, x', taken + moved) == (dsp', filled.pushed);

    DeliveredFrames(plan, kernel, step, dsp, x', filled, |block|);
    BatchExtends(plan, kernel, step, dsp, x, block, taken);
    assert more == RingSamples(kernel, plan.ratio.Inverse(), filled, |block|);
    assert out + more == Batch(plan, kernel, step, dsp, x');

    assert LiveWindow(plan.ratio.Inverse(), filled, |x'| - 1);
    assert moved > 0 ==> LiveWindow(plan.ratio, arrived, taken + moved - 1);
  }

  lemma {:induction false} RunRenders<S>(plan: Plan, kernel: Kernel, step: Dsp<S>, dsp: S, blocks: seq<seq<real>>)
    requires plan.Valid() && WindowFits(plan) && AcceptsAll(plan, blocks)
    ensures var (p, out) := Run(plan, kernel, step, dsp, blocks);
            Renders(plan, kernel, step, dsp, Flatten(blocks), p, out)
  {
    if blocks == [] {
      PrimedRenders(plan, kernel, step, dsp);
    } else {
      var init, block := blocks[..|blocks| - 1], blocks[|blocks| - 1];
      RunRenders(plan, kernel, step, dsp, init);
      var (p, out) := Run(plan, kernel, step, dsp, init);
      BlockRenders(plan, kernel, step, dsp, Flatten(init), p, out, block);
    }
  }

  // ---- main results ----------------------------------------------------------------

  /** Whatever the rates and the cut into blocks: every block is delivered in full, and the
      two leads add up to the latency at every block boundary. */
  lemma {:induction false} NeverUnderruns<S>(plan: Plan, kernel: Kernel, step: Dsp<S>, dsp: S, blocks: seq<seq<real>>)
    requires plan.Valid() && AcceptsAll(plan, blocks)
    ensures Balanced(plan, |Flatten(blocks)|, Run(plan, kernel, step, dsp, blocks).0)
    ensures blocks != [] ==>
              var before := Run(plan, kernel, step, dsp, blocks[..|blocks| - 1]).0;
              Produced(plan, kernel, step, before, blocks[|blocks| - 1]) == |blocks[|blocks| - 1]|
  {
    if blocks == [] {
      PrimedBalanced(plan, dsp);
    } else {
      var init, block := blocks[..|blocks| - 1], blocks[|blocks| - 1];
      NeverUnderruns(plan, kernel, step, dsp, init);
      var p := Run(plan, kernel, step, dsp, init).0;
      BlockIsDelivered(plan, kernel, step, |Flatten(init)|, p, block);
    }
  }

  /** The concatenated output of any run is the batch rendering of the whole host stream. */
  lemma StreamingIsBatch<S>(plan: Plan, kernel: Kernel, step: Dsp<S>, dsp: S, blocks: seq<seq<real>>)
    requires plan.Valid() && WindowFits(plan) && AcceptsAll(plan, blocks)
    ensures Run(plan, kernel, step, dsp, blocks).1 == Batch(plan, kernel, step, dsp, Flatten(blocks))
  {
    RunRenders(plan, kernel, step, dsp, blocks);
  }

  /** The batch rendering sample by sample: inner products over the warm-up silence and what the
      model makes of its input from the warm-up on, which are inner products over the delayed
      host stream. */
  lemma BatchIsInnerProducts<S>(plan: Plan, kernel: Kernel, step: Dsp<S>, dsp: S, x: seq<real>, k: nat)
    requires plan.Valid() && k < |x|
    ensures var r, n := plan.ratio.Inverse(), ModelFrames(plan, |x|);
            var model := Silence(plan.warmup) + DspRun(step, dsp, ModelInput(plan, kernel, x, n)[plan.warmup..]).1;
            Batch(plan, kernel, step, dsp, x)[k] == InnerProduct(kernel, r.Fraction(k), model, r.Position(k))
  {
    hide Sample, InnerProduct, ModelFrames, DspRun, ModelInput, Ratio.Position, Ratio.Fraction;
    SampleIsInnerProduct(kernel, plan.ratio.Inverse(), ModelRun(plan, kernel, step, dsp, x, ModelFrames(plan, |x|)).1, k);
  }

  lemma ModelInputIsInnerProducts(plan: Plan, kernel: Kernel, x: seq<real>, n: nat, j: nat)
    requires plan.Valid() && j < n
    ensures ModelInput(plan, kernel, x, n)[j]
            == InnerProduct(kernel, plan.ratio.Fraction(j), Silence(plan.latency) + x, plan.ratio.Position(j))
  {
    hide Sample, InnerProduct, Ratio.Position, Ratio.Fraction;
    SampleIsInnerProduct(kernel, plan.ratio, Silence(plan.latency) + x, j);
  }

  /** So two cuts of the same host stream cannot be told apart. */
  lemma CutDoesNotMatter<S>(plan: Plan, kernel: Kernel, step: Dsp<S>, dsp: S, a: seq<seq<real>>, b: seq<seq<real>>)
    requires plan.Valid() && WindowFits(plan) && AcceptsAll(plan, a) && AcceptsAll(plan, b)
    requires Flatten(a) == Flatten(b)
    ensures Run(plan, kernel, step, dsp, a).1 == Run(plan, kernel, step, dsp, b).1
  {
    StreamingIsBatch(plan, kernel, step, dsp, a);
    StreamingIsBatch(plan, kernel, step, dsp, b);
  }

  /** One host frame at a time. */
  function Singletons(x: seq<real>): (blocks: seq<seq<real>>)
    ensures |blocks| == |x|
    ensures forall i :: 0 <= i < |x| ==> blocks[i] == [x[i]]
  {
    seq(|x|, i requires 0 <= i < |x| => [x[i]])
  }

  lemma {:induction false} FlattenSingletons(x: seq<real>)
    ensures Flatten(Singletons(x)) == x
  {
    if x != [] {
      var init := x[..|x| - 1];
      FlattenSingletons(init);
      assert Singletons(x)[..|x| - 1] == Singletons(init);
      assert init + [x[|x| - 1]] == x;
    }
  }

  lemma {:induction false} RunPrefix<S>(plan: Plan, kernel: Kernel, step: Dsp<S>, dsp: S, a: seq<seq<real>>, b: seq<seq<real>>)
    requires plan.Valid()
    ensures Run(plan, kernel, step, dsp, a).1 <= Run(plan, kernel, step, dsp, a + b).1
  {
    if b == [] {
      assert a + b == a;
    } else {
      assert (a + b)[..|a + b| - 1] == a + b[..|b| - 1];
      RunPrefix(plan, kernel, step, dsp, a, b[..|b| - 1]);
    }
  }

  /** The batch rendering is causal: output `k` needs no host sample after `k`. */
  lemma BatchIsCausal<S>(plan: Plan, kernel: Kernel, step: Dsp<S>, dsp: S, x: seq<real>, y: seq<real>)
    requires plan.Valid()
    ensures Batch(plan, kernel, step, dsp, x + y)[..|x|] == Batch(plan, kernel, step, dsp, x)
  {
    SmallBlocksFit(plan);
    BatchIgnoresLimit(plan, kernel, step, dsp, x);
    BatchIgnoresLimit(plan, kernel, step, dsp, x + y);
    BatchOfFittingPlan(plan.(maximumHostFrames := 1), kernel, step, dsp, x, y);
  }

  /** Batch rendering does not look at the block limit. */
  lemma BatchIgnoresLimit<S>(plan: Plan, kernel: Kernel, step: Dsp<S>, dsp: S, x: seq<real>)
    requires plan.Valid() && plan.(maximumHostFrames := 1).Valid()
    ensures Batch(plan.(maximumHostFrames := 1), kernel, step, dsp, x) == Batch(plan, kernel, step, dsp, x)
  {
    hide Sample;
    var n := ModelFrames(plan, |x|);
    assert ModelInput(plan.(maximumHostFrames := 1), kernel, x, n) == ModelInput(plan, kernel, x, n);
  }

  /** Single-frame blocks always fit the output ring. */
  lemma SmallBlocksFit(plan: Plan)
    requires plan.Valid()
    ensures plan.(maximumHostFrames := 1).Valid() && WindowFits(plan.(maximumHostFrames := 1))
  {
    var m, h := plan.ratio.step, plan.ratio.stride;
    MulMono(1, plan.maximumHostFrames, m);
    FloorMono(m, plan.maximumHostFrames * m, h);
    PlanBounds(plan);
    Distribute(plan.latency, 1, m);
  }

  lemma BatchOfFittingPlan<S>(plan: Plan, kernel: Kernel, step: Dsp<S>, dsp: S, x: seq<real>, y: seq<real>)
    requires plan.Valid() && WindowFits(plan)
    ensures Batch(plan, kernel, step, dsp, x + y)[..|x|] == Batch(plan, kernel, step, dsp, x)
  {
    hide Batch, Run;
    FlattenSingletons(x);
    FlattenSingletons(x + y);
    assert Singletons(x + y) == Singletons(x) + Singletons(y);
    StreamingIsBatch(plan, kernel, step, dsp, Singletons(x));
    StreamingIsBatch(plan, kernel, step, dsp, Singletons(x) + Singletons(y));
    RunPrefix(plan, kernel, step, dsp, Singletons(x), Singletons(y));
  }
}
