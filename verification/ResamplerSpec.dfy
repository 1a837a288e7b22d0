/** What a rational-phase Lanczos resampler computes, stated on whole streams: which
    samples one output depends on, and how many outputs a given lead allows. */
module ResamplerSpec {
  import opened Arithmetic

  const RADIUS: nat := 12
  const FILTER_WIDTH: nat := 24
  const BUFFER_SIZE: nat := 131072

  /** Interpolation coefficient for a fraction in (0, 1] and a tap below FILTER_WIDTH. */
  type Kernel = (real, nat) -> real

  /** A push advances the input phase by `step`, which is also the phase denominator;
      a pop advances the output phase by `stride`. */
  datatype Ratio = Ratio(step: int, stride: int) {
    predicate Valid() { step > 0 && stride > 0 }

    function Inverse(): Ratio { Ratio(stride, step) }

    /** A pop is allowed while the lead exceeds this many phase units. */
    function Margin(): int { step * (RADIUS + 1) }

    /** Index of the input sample at or just before output number `k`. */
    function Position(k: nat): int
      requires Valid()
    {
      (k * stride) / step
    }

    /** Distance from output `k` to the input sample after it, in (0, 1]. */
    function Fraction(k: nat): real
      requires Valid()
    {
      1.0 - ((k * stride) % step) as real / step as real
    }
  }

  /** The history of one stage: everything pushed into it and how often it was popped. */
  datatype Stage = Stage(pushed: seq<real>, popped: nat)

  /** Phase distance between the write position and the next output. */
  function Lead(r: Ratio, s: Stage): int {
    |s.pushed| * r.step - s.popped * r.stride
  }

  /** The stream extended with silence on both sides. */
  function At(p: seq<real>, i: int): real {
    if 0 <= i < |p| then p[i] else 0.0
  }

  /** The 24 samples around stream position `position`. */
  function Window(p: seq<real>, position: int): (w: seq<real>)
    ensures |w| == FILTER_WIDTH
  {
    seq(FILTER_WIDTH, i requires 0 <= i < FILTER_WIDTH => At(p, position - RADIUS + i))
  }

  /** Weighted sum over the first `taps` tap pairs: one before, one after the position. */
  function TapSum(kernel: Kernel, fraction: real, w: seq<real>, taps: nat): real
    requires |w| == FILTER_WIDTH && taps <= RADIUS
  {
    if taps == 0 then 0.0
    else
      TapSum(kernel, fraction, w, taps - 1)
      + (kernel(fraction, taps - 1) * w[taps - 1]
         + kernel(fraction, RADIUS + taps - 1) * w[RADIUS + taps - 1])
  }

  /** Output number `k` of resampling the whole stream `p`. */
  function Sample(kernel: Kernel, r: Ratio, p: seq<real>, k: nat): real
    requires r.Valid()
  {
    TapSum(kernel, r.Fraction(k), Window(p, r.Position(k)), RADIUS)
  }

  // ---- what a sample is ------------------------------------------------------------

  function Sum(term: nat -> real, n: nat): real { if n == 0 then 0.0 else Sum(term, n - 1) + term(n - 1) }

  lemma {:induction false} PairsAddUp(kernel: Kernel, fraction: real, w: seq<real>, term: nat -> real, taps: nat)
    requires |w| == FILTER_WIDTH && taps <= RADIUS
    requires forall i :: 0 <= i < FILTER_WIDTH ==> term(i) == kernel(fraction, i) * w[i]
    ensures TapSum(kernel, fraction, w, taps) == Sum(term, taps) + Sum(term, RADIUS + taps) - Sum(term, RADIUS)
  {
    if taps > 0 {
      PairsAddUp(kernel, fraction, w, term, taps - 1);
      assert term(taps - 1) == kernel(fraction, taps - 1) * w[taps - 1];
      assert term(RADIUS + taps - 1) == kernel(fraction, RADIUS + taps - 1) * w[RADIUS + taps - 1];
    }
  }

  /** The 24 coefficients times the 24 samples from twelve before the position on, in the order
      of the stream. */
  function InnerProduct(kernel: Kernel, fraction: real, p: seq<real>, position: int): real {
    Sum((i: nat) => kernel(fraction, i) * At(p, position - RADIUS + i), FILTER_WIDTH)
  }

  /** One output is one inner product. */
  lemma SampleIsInnerProduct(kernel: Kernel, r: Ratio, p: seq<real>, k: nat)
    requires r.Valid()
    ensures Sample(kernel, r, p, k) == InnerProduct(kernel, r.Fraction(k), p, r.Position(k))
  {
    hide TapSum, Sum, Ratio.Position, Ratio.Fraction;
    var term := (i: nat) => kernel(r.Fraction(k), i) * At(p, r.Position(k) - RADIUS + i);
    PairsAddUp(kernel, r.Fraction(k), Window(p, r.Position(k)), term, RADIUS);
  }

  /** Output `k` lies at stream position `k * stride / step`: `Position` is its whole part and
      the fraction what is missing to the next whole. */
  lemma PositionAndFraction(r: Ratio, k: nat)
    requires r.Valid()
    ensures 0.0 < r.Fraction(k) <= 1.0
    ensures r.Position(k) as real + (1.0 - r.Fraction(k)) == (k * r.stride) as real / r.step as real
  {
    var a := k * r.stride;
    var q, rem, d := a / r.step, a % r.step, r.step as real;
    assert a == q * r.step + rem;
    assert a as real == q as real * d + rem as real;
    assert 0.0 <= rem as real / d < 1.0;
    Divided(a as real, q as real, rem as real, d);
  }

  lemma Divided(a: real, q: real, rem: real, d: real)
    requires d > 0.0 && a == q * d + rem
    ensures a / d == q + rem / d
  {
  }

  /** The value most recently written to the ring cell of stream index `i`. */
  function Latest(p: seq<real>, i: int): real {
    if p == [] then 0.0
    else if (|p| - 1) % BUFFER_SIZE == i % BUFFER_SIZE then p[|p| - 1]
    else Latest(p[..|p| - 1], i)
  }

  /** The same window as the ring holds it: late reads find newer samples. */
  function RingWindow(p: seq<real>, position: int): (w: seq<real>)
    ensures |w| == FILTER_WIDTH
  {
    seq(FILTER_WIDTH, i requires 0 <= i < FILTER_WIDTH => Latest(p, position - RADIUS + i))
  }

  function RingSample(kernel: Kernel, r: Ratio, p: seq<real>, k: nat): real
    requires r.Valid()
  {
    TapSum(kernel, r.Fraction(k), RingWindow(p, r.Position(k)), RADIUS)
  }

  /** The next `n` samples a stage delivers. */
  function RingSamples(kernel: Kernel, r: Ratio, s: Stage, n: nat): (out: seq<real>)
    requires r.Valid()
    ensures |out| == n
  {
    seq(n, i requires 0 <= i < n => RingSample(kernel, r, s.pushed, s.popped + i))
  }

  /** All 24 taps of output `k` are still in the ring, and already written. */
  predicate LiveWindow(r: Ratio, s: Stage, k: nat)
    requires r.Valid()
  {
    |s.pushed| - BUFFER_SIZE <= r.Position(k) - RADIUS && r.Position(k) + RADIUS <= |s.pushed|
  }

  /** How many pops a lead allows, up to `maximum`. */
  function PopCount(r: Ratio, lead: int, maximum: nat): (n: nat)
    ensures n <= maximum
    decreases maximum
  {
    if maximum == 0 || lead <= r.Margin() then 0
    else 1 + PopCount(r, lead - r.stride, maximum - 1)
  }

  /** Pushes needed before `outputs` outputs are safely available. */
  function FramesRequired(r: Ratio, lead: int, outputs: nat): int
    requires r.Valid()
  {
    var missing := r.Margin() - (lead - outputs * r.stride);
    if missing <= 0 then 0 else missing / r.step + 1
  }

  // ----------------------------------------------------------------------------------

  /** The answer is zero exactly when the lead left after `outputs` strides covers the
      margin, and otherwise it is the least number of pushes that exceeds it. */
  lemma RequiredIsLeast(r: Ratio, lead: int, outputs: nat, k: nat)
    requires r.Valid()
    ensures FramesRequired(r, lead, outputs) == 0 <==> lead - outputs * r.stride >= r.Margin()
    ensures FramesRequired(r, lead, outputs) >= 0
    ensures FramesRequired(r, lead, outputs) > 0 ==>
              (k >= FramesRequired(r, lead, outputs)
               <==> lead + k * r.step - outputs * r.stride > r.Margin())
  {
    var missing := r.Margin() - (lead - outputs * r.stride);
    if missing > 0 {
      FloorMono(0, missing, r.step);
      FloorBelow(missing, r.step, k);
    }
  }

  /** A push raises the lead by one step a sample. */
  lemma LeadAfterPush(r: Ratio, s: Stage, block: seq<real>)
    ensures Lead(r, s.(pushed := s.pushed + block)) == Lead(r, s) + |block| * r.step
  {
    Distribute(|s.pushed|, |block|, r.step);
  }

  /** A pop lowers the lead by one stride a sample. */
  lemma LeadAfterPop(r: Ratio, s: Stage, n: nat)
    ensures Lead(r, s.(popped := s.popped + n)) == Lead(r, s) - n * r.stride
  {
    Distribute(s.popped, n, r.stride);
  }

  /** Exactly which count `PopCount` is: every counted pop had more than the margin, and
      if it stopped early the margin was reached. */
  lemma {:induction false} PopCountExact(r: Ratio, lead: int, maximum: nat, n: nat)
    requires r.Valid() && n <= maximum
    ensures n == PopCount(r, lead, maximum) <==>
              && (n > 0 ==> lead - (n - 1) * r.stride > r.Margin())
              && (n < maximum ==> lead - n * r.stride <= r.Margin())
    decreases maximum
  {
    if maximum == 0 || lead <= r.Margin() {
      if n > 0 {
        MulMono(0, n - 1, r.stride);
      }
    } else if n == 0 {
    } else {
      PopCountExact(r, lead - r.stride, maximum - 1, n - 1);
      assert (n - 1) * r.stride == n * r.stride - r.stride;
      assert n > 1 ==> (n - 2) * r.stride == (n - 1) * r.stride - r.stride;
    }
  }

  /** Pushing what `FramesRequired` asks for makes all the outputs available. */
  lemma RequiredEnablesPops(r: Ratio, lead: int, outputs: nat, maximum: nat)
    requires r.Valid() && outputs <= maximum
    ensures PopCount(r, lead + FramesRequired(r, lead, outputs) * r.step, maximum) >= outputs
  {
    var k := FramesRequired(r, lead, outputs);
    RequiredIsLeast(r, lead, outputs, if k >= 0 then k else 0);
    var lead' := lead + k * r.step;
    var n := PopCount(r, lead', maximum);
    PopCountExact(r, lead', maximum, n);
    assert (outputs - 1) * r.stride == outputs * r.stride - r.stride;
    if n < outputs {
      MulMono(n, outputs - 1, r.stride);
    }
  }

  /** A ring cell depends on its stream index only modulo the ring size. */
  lemma {:induction false} LatestCongruent(p: seq<real>, i: int, j: int)
    requires i % BUFFER_SIZE == j % BUFFER_SIZE
    ensures Latest(p, i) == Latest(p, j)
  {
    if p != [] {
      LatestCongruent(p[..|p| - 1], i, j);
    }
  }

  /** A cell whose index is among the last BUFFER_SIZE pushed still holds that sample. */
  lemma {:induction false} LatestIsLive(p: seq<real>, i: int)
    requires |p| - BUFFER_SIZE <= i < |p|
    ensures Latest(p, i) == At(p, i)
  {
    if p != [] && i != |p| - 1 {
      var q := p[..|p| - 1];
      LatestIsLive(q, i);
    }
  }

  /** Every cell of the ring holds one of the last BUFFER_SIZE samples of the stream. */
  lemma LatestIsRecent(p: seq<real>, i: int) returns (j: int)
    ensures |p| - BUFFER_SIZE <= j < |p| && j % BUFFER_SIZE == i % BUFFER_SIZE
    ensures Latest(p, i) == At(p, j)
  {
    j := |p| - 1 - (|p| - 1 - i) % BUFFER_SIZE;
    LatestCongruent(p, i, j);
    LatestIsLive(p, j);
  }

  /** A live window read through the ring is the window of the stream. */
  lemma LiveSample(kernel: Kernel, r: Ratio, s: Stage, k: nat)
    requires r.Valid() && LiveWindow(r, s, k)
    ensures RingSample(kernel, r, s.pushed, k) == Sample(kernel, r, s.pushed, k)
  {
    var f := r.Position(k);
    forall i | 0 <= i < FILTER_WIDTH
      ensures RingWindow(s.pushed, f)[i] == Window(s.pushed, f)[i]
    {
      LatestIsLive(s.pushed, f - RADIUS + i);
    }
    assert RingWindow(s.pushed, f) == Window(s.pushed, f);
  }

  /** Outputs are causal: samples at or after position + RADIUS do not matter. */
  lemma SampleOfPrefix(kernel: Kernel, r: Ratio, p: seq<real>, q: seq<real>, k: nat)
    requires r.Valid()
    requires forall i :: 0 <= i < r.Position(k) + RADIUS ==> At(p, i) == At(q, i)
    ensures Sample(kernel, r, p, k) == Sample(kernel, r, q, k)
  {
    var f := r.Position(k);
    forall i | 0 <= i < FILTER_WIDTH
      ensures Window(p, f)[i] == Window(q, f)[i]
    {
      assert At(p, f - RADIUS + i) == At(q, f - RADIUS + i);
    }
    assert Window(p, f) == Window(q, f);
  }

  /** The taps of output `k` lie before the write position whenever a pop is allowed. */
  lemma LeadCoversWindow(r: Ratio, s: Stage)
    requires r.Valid() && Lead(r, s) > r.Margin()
    ensures r.Position(s.popped) + RADIUS < |s.pushed|
  {
    var w, f := |s.pushed|, r.Position(s.popped);
    FloorBelow(s.popped * r.stride, r.step, w - RADIUS);
    assert (w - RADIUS) * r.step == w * r.step - RADIUS * r.step;
  }

  /** The oldest tap is still in the ring exactly when the lead is small enough. */
  lemma LiveByLead(r: Ratio, s: Stage)
    requires r.Valid()
    ensures |s.pushed| - BUFFER_SIZE <= r.Position(s.popped) - RADIUS
            <==> Lead(r, s) <= (BUFFER_SIZE - RADIUS) * r.step
  {
    var c := |s.pushed| - BUFFER_SIZE + RADIUS;
    FloorBelow(s.popped * r.stride, r.step, c);
    assert c * r.step == |s.pushed| * r.step - (BUFFER_SIZE - RADIUS) * r.step;
  }
}
