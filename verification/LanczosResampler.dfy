/** The allocation-free mono resampler: a mirrored ring buffer, integer phases, and a
    24-tap interpolated read. Every method is tied to `ResamplerSpec`. */
module LanczosResampler {
  import opened Arithmetic
  import opened ResamplerSpec

  /** Rounding of a positive rate to the nearest integer, halves up. */
  function Rounded(rate: real): int { (rate + 0.5).Floor }

  predicate IntegerLike(rate: real) {
    var error := rate - Rounded(rate) as real;
    -0.01 <= error <= 0.01
  }

  predicate ValidRate(rate: real) {
    0.0 < rate <= 2147483647.0 && IntegerLike(rate)
  }

  /** The increments are the rates in lowest terms. */
  lemma RatioIsReduced(inputRate: nat, outputRate: nat)
    requires inputRate > 0 && outputRate > 0
    ensures var r, divisor := RateRatio(inputRate, outputRate), Gcd(inputRate, outputRate);
            && r.step * divisor == outputRate && r.stride * divisor == inputRate
            && Gcd(r.step, r.stride) == 1
  {
    var r, divisor := RateRatio(inputRate, outputRate), Gcd(inputRate, outputRate);
    ExactQuotient(inputRate, divisor);
    ExactQuotient(outputRate, divisor);
    ReducedIsCoprime(inputRate, outputRate);
    GcdSymmetric(r.step, r.stride);
  }

  /** The phase increments of a stage from `inputRate` to `outputRate`. */
  function RateRatio(inputRate: nat, outputRate: nat): (r: Ratio)
    requires inputRate > 0 && outputRate > 0
    ensures r.Valid()
  {
    var divisor := Gcd(inputRate, outputRate);
    ExactQuotient(inputRate, divisor);
    ExactQuotient(outputRate, divisor);
    Ratio(outputRate / divisor, inputRate / divisor)
  }

  /** Writing one more sample into the ring, both halves. */
  lemma LatestAfterPush(p: seq<real>, value: real, c: int)
    ensures Latest(p + [value], c)
            == if |p| % BUFFER_SIZE == c % BUFFER_SIZE then value else Latest(p, c)
  {
    assert (p + [value])[..|p|] == p;
  }

  /** Splitting off the whole part of a fraction of phases. */
  lemma WholePart(n: int, d: int, t: int)
    requires d > 0
    ensures (n * d + t) as real / d as real == n as real + t as real / d as real
  {
    var x := (n * d + t) as real / d as real;
    assert (n * d + t) as real == (n as real) * (d as real) + t as real;
    assert x * d as real == (n * d + t) as real;
    assert (n as real + t as real / d as real) * d as real == (n as real) * (d as real) + t as real;
  }

  lemma NegatedPart(t: int, d: int)
    requires d > 0
    ensures (-t) as real / d as real == -(t as real / d as real)
  {
  }

  /** Floor and fraction of a ring position, from those of the stream position `f + rem / d`. */
  lemma FloorOfShift(turns: int, f: int, w: int, writePosition: nat, rem: int, d: int, distance: real)
    requires 0 <= rem < d && w == turns * BUFFER_SIZE + writePosition
    requires distance == (w - f) as real - rem as real / d as real
    ensures var p := writePosition as real - distance;
            && p.Floor == f - turns * BUFFER_SIZE && p.Floor % BUFFER_SIZE == f % BUFFER_SIZE
            && p - p.Floor as real == rem as real / d as real
  {
    ProperFraction(rem, d);
    var x, shift := rem as real / d as real, f - turns * BUFFER_SIZE;
    assert writePosition as real - distance == shift as real + x;
    FloorOfWhole(shift, x);
    assert shift == f + (-turns) * BUFFER_SIZE;
  }

  lemma FloorOfWhole(n: int, x: real)
    requires 0.0 <= x < 1.0
    ensures (n as real + x).Floor == n
  {
  }

  lemma ProperFraction(t: int, d: int)
    requires 0 <= t < d
    ensures 0.0 <= t as real / d as real < 1.0
  {
  }

  /** Masking an index into the ring, and lifting it into the mirrored half when the
      taps before it would fall below zero. */
  function WrapIndex(index: int): (r: int)
    ensures RADIUS < r <= RADIUS + BUFFER_SIZE
    ensures r % BUFFER_SIZE == index % BUFFER_SIZE
  {
    var masked := (index + BUFFER_SIZE) % BUFFER_SIZE;
    if masked <= RADIUS then masked + BUFFER_SIZE else masked
  }

  class MonoLanczosResampler {
    const kernel: Kernel
    const phaseInputIncrement: int
    const phaseOutputIncrement: int
    const phaseDenominator: int
    const inputBuffer: array<real>
    var writePosition: nat
    var phaseInput: int
    var phaseOutput: int

    /** Everything pushed since `Clear` and how often the stage was popped. */
    ghost var stage: Stage

    ghost function R(): Ratio { Ratio(phaseInputIncrement, phaseOutputIncrement) }

    ghost predicate Ring(p: seq<real>)
      reads inputBuffer
    {
      && inputBuffer.Length == 2 * BUFFER_SIZE
      && forall c :: 0 <= c < 2 * BUFFER_SIZE ==> inputBuffer[c] == Latest(p, c)
    }

    ghost predicate Valid()
      reads this, inputBuffer
    {
      && R().Valid() && phaseDenominator == phaseInputIncrement
      && writePosition == |stage.pushed| % BUFFER_SIZE
      && Ring(stage.pushed)
      && phaseInput - phaseOutput == Lead(R(), stage)
    }

    constructor (kernel: Kernel, inputRate: real, outputRate: real)
      requires ValidRate(inputRate) && ValidRate(outputRate)
      requires Rounded(inputRate) > 0 && Rounded(outputRate) > 0
      ensures Valid() && fresh(inputBuffer) && stage == Stage([], 0)
      ensures this.kernel == kernel && R() == RateRatio(Rounded(inputRate), Rounded(outputRate))
    {
      this.kernel := kernel;
      // set_phases
      var ratio := RateRatio(Rounded(inputRate), Rounded(outputRate));
      phaseInputIncrement := ratio.step;
      phaseDenominator := ratio.step;
      phaseOutputIncrement := ratio.stride;
      // clear
      inputBuffer := new real[2 * BUFFER_SIZE](_ => 0.0);
      writePosition := 0;
      phaseInput := 0;
      phaseOutput := 0;
      stage := Stage([], 0);
    }

    method InputFramesRequiredFor(outputFrames: nat) returns (frames: nat)
      requires Valid()
      ensures frames == FramesRequired(R(), Lead(R(), stage), outputFrames)
    {
      var outputAdvance := phaseOutputIncrement * outputFrames;
      var units := phaseInput - phaseOutput - outputAdvance;
      var distance := units as real / phaseDenominator as real;
      var required := RADIUS as real + 1.0 - distance;
      RequiredInUnits(units, phaseDenominator);
      RequiredIsLeast(R(), Lead(R(), stage), outputFrames, 0);
      if required <= 0.0 {
        return 0;
      }
      return (required + 1.0).Floor;
    }

    method Push(input: array<real>, frames: nat)
      requires Valid() && frames <= input.Length && input != inputBuffer
      modifies this, inputBuffer
      ensures Valid()
      ensures stage == old(stage).(pushed := old(stage).pushed + input[..frames])
    {
      hide Lead, Latest;
      ghost var before := stage;
      assert before.pushed + input[..0] == before.pushed;
      for frame := 0 to frames
        invariant Valid()
        invariant stage == before.(pushed := before.pushed + input[..frame])
      {
        WriteSample(input[frame]);
        assert before.pushed + input[..frame + 1] == (before.pushed + input[..frame]) + [input[frame]];
      }
    }

    /** One iteration of the push loop: the same value into both halves of the ring. */
    method WriteSample(value: real)
      requires Valid()
      modifies this, inputBuffer
      ensures Valid()
      ensures stage == old(stage).(pushed := old(stage).pushed + [value])
    {
      hide Lead;
      ghost var before := stage;
      inputBuffer[writePosition] := value;
      inputBuffer[writePosition + BUFFER_SIZE] := value;
      writePosition := (writePosition + 1) % BUFFER_SIZE;
      phaseInput := phaseInput + phaseInputIncrement;
      stage := before.(pushed := before.pushed + [value]);
      LeadAfterPush(R(), before, [value]);
      forall c | 0 <= c < 2 * BUFFER_SIZE
        ensures inputBuffer[c] == Latest(stage.pushed, c)
      {
        LatestAfterPush(before.pushed, value, c);
      }
    }

    method Pop(output: array<real>, maximumFrames: nat) returns (populated: nat)
      requires Valid() && maximumFrames <= output.Length && output != inputBuffer
      modifies this, output
      ensures Valid()
      ensures populated == PopCount(R(), Lead(R(), old(stage)), maximumFrames)
      ensures output[..populated] == RingSamples(kernel, R(), old(stage), populated)
      ensures output[populated..] == old(output[populated..])
      ensures stage == old(stage).(popped := old(stage).popped + populated)
    {
      hide Lead, RingSample;
      ghost var before := stage;
      ghost var lead := Lead(R(), stage);
      populated := 0;
      var minimumDistance := phaseDenominator * (RADIUS + 1);
      while populated < maximumFrames && phaseInput - phaseOutput > minimumDistance
        invariant Valid() && populated <= maximumFrames
        invariant stage == before.(popped := before.popped + populated)
        invariant PopCount(R(), lead, maximumFrames)
                  == populated + PopCount(R(), Lead(R(), stage), maximumFrames - populated)
        invariant forall j :: 0 <= j < populated ==>
                    output[j] == RingSample(kernel, R(), before.pushed, before.popped + j)
        invariant forall j :: populated <= j < output.Length ==> output[j] == old(output[j])
        decreases maximumFrames - populated
      {
        var distance := (phaseInput - phaseOutput) as real / phaseDenominator as real;
        output[populated] := ReadSample(distance);
        LeadAfterPop(R(), stage, 1);
        phaseOutput := phaseOutput + phaseOutputIncrement;
        populated := populated + 1;
        stage := stage.(popped := stage.popped + 1);
      }
      assert output[..populated] == RingSamples(kernel, R(), before, populated);
    }

    /** The 24 ring cells around `base` are the ring window of any congruent position. */
    lemma RingReads(base: int, position: int)
      requires Ring(stage.pushed)
      requires RADIUS < base <= RADIUS + BUFFER_SIZE && base % BUFFER_SIZE == position % BUFFER_SIZE
      ensures forall i :: 0 <= i < FILTER_WIDTH ==>
                inputBuffer[base - RADIUS + i] == RingWindow(stage.pushed, position)[i]
    {
      forall i | 0 <= i < FILTER_WIDTH
        ensures inputBuffer[base - RADIUS + i] == RingWindow(stage.pushed, position)[i]
      {
        LatestCongruent(stage.pushed, base - RADIUS + i, position - RADIUS + i);
      }
    }

    /** The interpolated value `distanceBack` samples behind the write position. */
    method ReadSample(distanceBack: real) returns (sum: real)
      requires Valid()
      requires distanceBack == (phaseInput - phaseOutput) as real / phaseDenominator as real
      ensures sum == RingSample(kernel, R(), stage.pushed, stage.popped)
    {
      hide Lead, TapSum, RingWindow;
      PositionOfDistance(R(), stage, writePosition);
      var bufferPosition := writePosition as real - distanceBack;
      var bufferIndex := bufferPosition.Floor;
      var fractional := 1.0 - (bufferPosition - bufferIndex as real);
      bufferIndex := WrapIndex(bufferIndex);
      RingReads(bufferIndex, R().Position(stage.popped));
      sum := Interpolate(fractional, bufferIndex, RingWindow(stage.pushed, R().Position(stage.popped)));
    }

    /** The tap loop of a read: twelve taps before `bufferIndex` and twelve from it on. */
    method Interpolate(fractional: real, bufferIndex: int, ghost window: seq<real>) returns (sum: real)
      requires inputBuffer.Length == 2 * BUFFER_SIZE && |window| == FILTER_WIDTH
      requires RADIUS < bufferIndex <= RADIUS + BUFFER_SIZE
      requires forall i :: 0 <= i < FILTER_WIDTH ==> inputBuffer[bufferIndex - RADIUS + i] == window[i]
      ensures sum == TapSum(kernel, fractional, window, RADIUS)
    {
      sum := 0.0;
      for tap := 0 to RADIUS
        invariant sum == TapSum(kernel, fractional, window, tap)
      {
        var coefficientBefore := kernel(fractional, tap);
        var secondTap := RADIUS + tap;
        var coefficientAfter := kernel(fractional, secondTap);
        var beforeIndex := bufferIndex - RADIUS + tap;
        var afterIndex := bufferIndex + tap;
        assert inputBuffer[bufferIndex - RADIUS + tap] == window[tap];
        assert inputBuffer[bufferIndex - RADIUS + (RADIUS + tap)] == window[RADIUS + tap];
        sum := sum + (coefficientBefore * inputBuffer[beforeIndex] + coefficientAfter * inputBuffer[afterIndex]);
      }
    }

    method RenormalizePhases()
      requires Valid()
      modifies this`phaseInput, this`phaseOutput
      ensures Valid() && phaseOutput == 0
    {
      phaseInput := phaseInput - phaseOutput;
      phaseOutput := 0;
    }

    method Clear()
      requires Valid()
      modifies this, inputBuffer
      ensures Valid() && stage == Stage([], 0)
    {
      forall c | 0 <= c < inputBuffer.Length {
        inputBuffer[c] := 0.0;
      }
      writePosition := 0;
      phaseInput := 0;
      phaseOutput := 0;
      stage := Stage([], 0);
    }
  }

  /** The real-valued formula of `input_frames_required_for` in whole phase units. */
  lemma RequiredInUnits(units: int, d: int)
    requires d > 0
    ensures var missing := d * (RADIUS + 1) - units;
            var required := RADIUS as real + 1.0 - units as real / d as real;
            && (required <= 0.0 <==> missing <= 0)
            && (required + 1.0).Floor == missing / d + 1
  {
    var missing := d * (RADIUS + 1) - units;
    var required := RADIUS as real + 1.0 - units as real / d as real;
    WholePart(RADIUS + 1, d, -units);
    assert (-units) as real / d as real == -(units as real / d as real);
    assert required == missing as real / d as real;
    WholePart(missing / d, d, missing % d);
    ProperFraction(missing % d, d);
    assert required == (missing / d) as real + (missing % d) as real / d as real;
    if missing > 0 {
      FloorMono(0, missing, d);
      if missing / d == 0 {
        assert (missing % d) as real / d as real > 0.0;
      }
    } else {
      assert missing as real / d as real <= 0.0;
    }
  }

  /** Where the read position falls in the ring, and with which fraction. */
  lemma PositionOfDistance(r: Ratio, s: Stage, writePosition: nat)
    requires r.Valid() && writePosition == |s.pushed| % BUFFER_SIZE
    ensures var p := writePosition as real - Lead(r, s) as real / r.step as real;
            && p.Floor % BUFFER_SIZE == r.Position(s.popped) % BUFFER_SIZE
            && 1.0 - (p - p.Floor as real) == r.Fraction(s.popped)
  {
    var a := s.popped * r.stride;
    var f, rem := a / r.step, a % r.step;
    var w, turns := |s.pushed|, |s.pushed| / BUFFER_SIZE;
    assert a == f * r.step + rem;
    assert (w - f) * r.step == w * r.step - f * r.step;
    assert Lead(r, s) == (w - f) * r.step + (-rem);
    WholePart(w - f, r.step, -rem);
    NegatedPart(rem, r.step);
    assert w == turns * BUFFER_SIZE + writePosition;
    hide Lead;
    FloorOfShift(turns, f, w, writePosition, rem, r.step, Lead(r, s) as real / r.step as real);
  }
}
