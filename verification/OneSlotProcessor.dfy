/** The processor around the model slot: fold to mono, run the slot, remove DC, broadcast. */
module OneSlotProcessor {
  import opened RateAdapterSpec
  import opened Crossfade
  import opened RetireQueue
  import opened ModelSlot
  import opened ModelSlotTheorems
  import opened ModelSlotBlock
  import opened RealtimeModelSlot
  import opened DcBlocker
  import opened ProcessorHistory

  const MAXIMUM_EXTERNAL_CHANNELS: nat := 2
  const CROSSFADE_MILLISECONDS: real := 20.0

  datatype ProcessStatus = Ok | NotPrepared | InvalidChannelCount | InvalidBuffer | BlockTooLarge

  datatype PrepareResult = Ready | InvalidSampleRate | InvalidBlockSize

  /** `std::llround` of a non-negative value. */
  function Nearest(x: real): int { (x + 0.5).Floor }

  /** Twenty milliseconds, but at least one frame. */
  function CrossfadeFrames(sampleRate: real): (frames: nat)
    requires sampleRate > 0.0
    ensures var wanted := sampleRate * CROSSFADE_MILLISECONDS / 1000.0;
            if wanted < 1.5 then frames == 1 else -0.5 <= frames as real - wanted <= 0.5
  {
    var rounded := Nearest(sampleRate * CROSSFADE_MILLISECONDS / 1000.0);
    if rounded > 1 then rounded else 1
  }

  /** Sum of one frame over the channels. */
  function FrameSum(inputs: seq<seq<real>>, frame: nat): real
    requires forall c :: 0 <= c < |inputs| ==> frame < |inputs[c]|
  {
    if inputs == [] then 0.0 else FrameSum(inputs[..|inputs| - 1], frame) + inputs[|inputs| - 1][frame]
  }

  /** External input as one stream: the trimmed mean of the channels. */
  function Folded(inputs: seq<seq<real>>, gain: real, frames: nat): (r: seq<real>)
    requires |inputs| > 0 && forall c :: 0 <= c < |inputs| ==> frames <= |inputs[c]|
    ensures |r| == frames
  {
    seq(frames, i requires 0 <= i < frames => FrameSum(inputs, i) * (gain / |inputs| as real))
  }

  /** There are at most two channels: one is scaled, two are averaged and scaled. */
  lemma FoldedSample(a: seq<real>, b: seq<real>, gain: real, frames: nat, i: nat)
    requires i < frames <= |a| && frames <= |b|
    ensures Folded([a], gain, frames)[i] == a[i] * gain
    ensures Folded([a, b], gain, frames)[i] == (a[i] + b[i]) * (gain / 2.0)
  {
    assert [a][..0] == [] && [a, b][..1] == [a];
    assert FrameSum([a], i) == a[i] && FrameSum([a, b], i) == a[i] + b[i];
    hide FrameSum;
    assert gain / 1.0 == gain;
  }

  /** However many channels carry the same signal, they fold to that signal. */
  lemma {:induction false} EqualChannelsAddUp(inputs: seq<seq<real>>, x: real, i: nat)
    requires forall c :: 0 <= c < |inputs| ==> i < |inputs[c]| && inputs[c][i] == x
    ensures FrameSum(inputs, i) == |inputs| as real * x
  {
    if inputs != [] {
      EqualChannelsAddUp(inputs[..|inputs| - 1], x, i);
    }
  }

  lemma EqualChannelsFold(inputs: seq<seq<real>>, xs: seq<real>, gain: real, frames: nat)
    requires |inputs| > 0 && frames <= |xs| && forall c :: 0 <= c < |inputs| ==> inputs[c] == xs
    ensures Folded(inputs, gain, frames) == Scaled(xs[..frames], gain)
  {
    forall i | 0 <= i < frames
      ensures Folded(inputs, gain, frames)[i] == Scaled(xs[..frames], gain)[i]
    {
      EqualChannelsAddUp(inputs, xs[i], i);
      MeanOfEqual(xs[i], gain, |inputs| as real);
      hide FrameSum;
    }
  }

  lemma MeanOfEqual(x: real, gain: real, n: real)
    requires n > 0.0
    ensures (n * x) * (gain / n) == x * gain
  {
    assert gain / n * n == gain;
  }

  /** Which channels hold a buffer. */
  predicate AllGiven(channels: seq<array?<real>>) {
    forall c :: 0 <= c < |channels| ==> channels[c] != null
  }

  predicate LongEnough(channels: seq<array?<real>>, frames: nat) {
    forall c :: 0 <= c < |channels| && channels[c] != null ==> frames <= channels[c].Length
  }

  /** The first rule that a call breaks decides its status. A missing list of channels counts
      as a list of missing channels. */
  function StatusOf(prepared: bool, inputs: seq<array?<real>>, outputs: seq<array?<real>>, frames: nat, maximum: nat)
      : ProcessStatus {
    if !prepared then NotPrepared
    else if |inputs| == 0 || |inputs| > MAXIMUM_EXTERNAL_CHANNELS || |outputs| == 0 || |outputs| > MAXIMUM_EXTERNAL_CHANNELS
    then InvalidChannelCount
    else if !AllGiven(inputs) || !AllGiven(outputs) then InvalidBuffer
    else if frames > maximum then BlockTooLarge
    else Ok
  }

  /** The first `frames` samples of each channel. */
  ghost function Channels(inputs: seq<array?<real>>, frames: nat): (r: seq<seq<real>>)
    requires AllGiven(inputs) && LongEnough(inputs, frames)
    reads set c | 0 <= c < |inputs| :: inputs[c]
    ensures |r| == |inputs| && forall c :: 0 <= c < |r| ==> |r[c]| == frames
  {
    seq(|inputs|, c requires 0 <= c < |inputs| reads set k | 0 <= k < |inputs| :: inputs[k] => inputs[c][..frames])
  }

  ghost predicate Silent(outputs: seq<array?<real>>, frames: nat)
    requires LongEnough(outputs, frames)
    reads set c | 0 <= c < |outputs| :: outputs[c]
  {
    forall c :: 0 <= c < |outputs| && outputs[c] != null ==> outputs[c][..frames] == Silence(frames)
  }

  method ClearOutputs(outputs: seq<array?<real>>, frames: nat)
    requires LongEnough(outputs, frames)
    modifies set c | 0 <= c < |outputs| :: outputs[c]
    ensures Silent(outputs, frames)
  {
    for channel := 0 to |outputs|
      invariant forall c :: 0 <= c < channel && outputs[c] != null ==> outputs[c][..frames] == Silence(frames)
    {
      if outputs[channel] != null {
        WriteScaled(outputs[channel], Silence(frames), 0.0);
        assert Scaled(Silence(frames), 0.0) == Silence(frames);
      }
    }
  }

  /** The scaled stream into the front of one buffer. */
  method WriteScaled(output: array<real>, stream: seq<real>, gain: real)
    requires |stream| <= output.Length
    modifies output
    ensures output[..|stream|] == Scaled(stream, gain) && output[|stream|..] == old(output[|stream|..])
  {
    ghost var scaled := Scaled(stream, gain);
    for frame := 0 to |stream|
      invariant forall i :: 0 <= i < frame ==> output[i] == scaled[i]
      invariant output[|stream|..] == old(output[|stream|..])
    {
      output[frame] := stream[frame] * gain;
    }
  }

  class OneSlotProcessor<!S> {
    const slot: RealtimeModelSlot<S>
    const dbToGain: real -> real
    const coefficientFor: real -> real
    var monoInput: array<real>
    var monoOutput: array<real>
    var inputTrimDb: real
    var outputTrimDb: real
    var modelBypassed: bool
    var outputMode: OutputMode
    var maximumBlockFrames: nat
    var dcCoefficient: real
    var previousDcInput: real
    var previousDcOutput: real
    var prepared: bool

    ghost function Scratch(): set<object>
      reads this, slot
    {
      {monoInput, monoOutput, slot.currentOutput, slot.previousOutput}
    }

    ghost function Repr(): set<object>
      reads this, slot
    {
      {this, slot, slot.retired, slot.retired.entries} + Scratch()
    }

    ghost predicate Valid()
      reads this, slot, slot.retired, slot.retired.entries
    {
      && slot.Valid()
      && monoInput.Length == monoOutput.Length == maximumBlockFrames
      && monoInput != monoOutput && slot.currentOutput !in {monoInput, monoOutput}
      && slot.previousOutput !in {monoInput, monoOutput}
      && (prepared ==> slot.prepared && slot.maximumBlockFrames == maximumBlockFrames)
    }

    ghost function DcMemory(): Memory
      reads this
    {
      (previousDcInput, previousDcOutput)
    }

    constructor (dbToGain: real -> real, coefficientFor: real -> real)
      ensures Valid() && !prepared && fresh(Repr())
    {
      this.dbToGain := dbToGain;
      this.coefficientFor := coefficientFor;
      slot := new RealtimeModelSlot(dbToGain);
      monoInput := new real[0];
      monoOutput := new real[0];
      inputTrimDb, outputTrimDb, modelBypassed, outputMode := 0.0, 0.0, false, Raw;
      maximumBlockFrames, dcCoefficient, previousDcInput, previousDcOutput, prepared := 0, 0.0, 0.0, 0.0, false;
    }

    /** Sizes and coefficient follow the sample rate; every model is gone and the filter at rest. */
    method Prepare(sampleRate: real, blockFrames: nat) returns (result: PrepareResult)
      requires Valid()
      modifies Repr()
      ensures Valid()
      ensures result == if sampleRate <= 0.0 then InvalidSampleRate else if blockFrames == 0 then InvalidBlockSize else Ready
      ensures result != Ready ==> unchanged(this, slot, slot.retired, slot.retired.entries)
      ensures result == Ready ==>
                && prepared && maximumBlockFrames == blockFrames && DcMemory() == AT_REST
                && dcCoefficient == coefficientFor(sampleRate)
                && slot.View() == Restarted(old(slot.View()), CrossfadeFrames(sampleRate))
    {
      hide Inv, WellFormed, Restarted, RealtimeModelSlot.View;
      if sampleRate <= 0.0 { return InvalidSampleRate; }
      if blockFrames == 0 { return InvalidBlockSize; }
      slot.NobodyInside();
      RingOfInv(slot.View());
      AssignBuffers(blockFrames);
      dcCoefficient := coefficientFor(sampleRate);
      var ok := slot.Prepare(blockFrames, CrossfadeFrames(sampleRate));
      prepared := true;
      Reset();
      return Ready;
    }

    method AssignBuffers(blockFrames: nat)
      modifies this`monoInput, this`monoOutput, this`maximumBlockFrames
      ensures monoInput.Length == monoOutput.Length == maximumBlockFrames == blockFrames
      ensures fresh(monoInput) && fresh(monoOutput) && monoInput != monoOutput
    {
      monoInput := new real[blockFrames](_ => 0.0);
      monoOutput := new real[blockFrames](_ => 0.0);
      maximumBlockFrames := blockFrames;
    }

    method Reset()
      requires Valid()
      modifies this`previousDcInput, this`previousDcOutput, monoInput, monoOutput
      ensures DcMemory() == AT_REST
      ensures monoInput[..] == Silence(monoInput.Length) && monoOutput[..] == Silence(monoOutput.Length)
    {
      previousDcInput := 0.0;
      previousDcOutput := 0.0;
      forall i | 0 <= i < monoInput.Length { monoInput[i] := 0.0; }
      forall i | 0 <= i < monoOutput.Length { monoOutput[i] := 0.0; }
    }

    /** No channel is one of the processor's own buffers. */
    ghost predicate Foreign(channels: seq<array?<real>>)
      reads this, slot
    {
      forall c :: 0 <= c < |channels| ==> channels[c] !in Scratch()
    }

    /** One frame, summed over the channels. */
    method SumFrame(inputs: seq<array<real>>, ghost values: seq<seq<real>>, frame: nat) returns (value: real)
      requires |values| == |inputs|
      requires forall c :: 0 <= c < |inputs| ==> frame < inputs[c].Length && frame < |values[c]|
      requires forall c :: 0 <= c < |inputs| ==> inputs[c][frame] == values[c][frame]
      ensures value == FrameSum(values, frame)
    {
      value := 0.0;
      for channel := 0 to |inputs|
        invariant value == FrameSum(values[..channel], frame)
      {
        value := value + inputs[channel][frame];
        assert values[..channel + 1][..channel] == values[..channel];
      }
      assert values[..|inputs|] == values;
    }

    /** The external input as one trimmed mono stream. */
    method Fold(inputs: seq<array<real>>, frames: nat)
      requires |inputs| > 0 && frames <= monoInput.Length
      requires forall c :: 0 <= c < |inputs| ==> frames <= inputs[c].Length && inputs[c] != monoInput
      modifies monoInput
      ensures monoInput[..frames] == Folded(Channels(inputs, frames), dbToGain(inputTrimDb), frames)
    {
      hide FrameSum;
      ghost var values := Channels(inputs, frames);
      ghost var folded := Folded(values, dbToGain(inputTrimDb), frames);
      var channelGain := dbToGain(inputTrimDb) / |inputs| as real;
      for frame := 0 to frames
        invariant forall i :: 0 <= i < frame ==> monoInput[i] == folded[i]
        invariant Channels(inputs, frames) == values
      {
        assert forall c :: 0 <= c < |inputs| ==> inputs[c][frame] == Channels(inputs, frames)[c][frame];
        var value := SumFrame(inputs, values, frame);
        monoInput[frame] := value * channelGain;
        assert monoInput[frame] == folded[frame];
      }
    }

    /** The filter over the block, in place. */
    method BlockDc(frames: nat)
      requires frames <= monoOutput.Length
      modifies this`previousDcInput, this`previousDcOutput, monoOutput
      ensures (DcMemory(), monoOutput[..frames])
              == DspRun(Filter(dcCoefficient), old(DcMemory()), old(monoOutput[..frames]))
    {
      hide DspRun;
      DspNothing(Filter(dcCoefficient), DcMemory());
      ghost var xs := monoOutput[..frames];
      ghost var start := DcMemory();
      var previousInput := previousDcInput;
      var previousOutput := previousDcOutput;
      var coefficient := dcCoefficient;
      for frame := 0 to frames
        invariant ((previousInput, previousOutput), monoOutput[..frame]) == DspRun(Filter(coefficient), start, xs[..frame])
        invariant monoOutput[frame..frames] == xs[frame..]
      {
        var currentInput := monoOutput[frame];
        assert currentInput == xs[frame];
        var currentOutput := currentInput - previousInput + coefficient * previousOutput;
        RecurrenceIs(coefficient, previousInput, previousOutput, currentInput, currentOutput);
        monoOutput[frame] := currentOutput;
        previousInput := currentInput;
        previousOutput := currentOutput;
        FilterStep(coefficient, start, xs[..frame], currentInput);
        assert xs[..frame + 1] == xs[..frame] + [currentInput];
        assert monoOutput[..frame + 1] == monoOutput[..frame] + [currentOutput];
      }
      assert xs[..frames] == xs;
      previousDcInput := previousInput;
      previousDcOutput := previousOutput;
    }

    /** What reaches the filter for a given mono input: the input itself when the model is
        bypassed, else the slot's fade over it. */
    ghost function Heard(mono: seq<real>): seq<real>
      requires Valid()
      reads this, slot, slot.retired, slot.retired.entries
    {
      if modelBypassed then mono else FadeBlock(slot.crossfadeFrames, slot.FadeToRender(outputMode), mono).1
    }

    /** The fade after a block that is not bypassed. */
    ghost function NextFade(mono: seq<real>): Fade<S>
      requires Valid()
      reads this, slot, slot.retired, slot.retired.entries
    {
      FadeBlock(slot.crossfadeFrames, slot.FadeToRender(outputMode), mono).0
    }

    /** The model part of a block. Bypass does not touch the slot at all. */
    method RunModel(frames: nat)
      requires Valid() && prepared && 0 < frames <= maximumBlockFrames
      modifies slot, slot.retired, slot.retired.entries, slot.currentOutput, slot.previousOutput, monoOutput
      ensures Valid() && slot.currentOutput == old(slot.currentOutput) && slot.previousOutput == old(slot.previousOutput)
      ensures monoOutput[..frames] == old(Heard(monoInput[..frames]))
      ensures modelBypassed ==> unchanged(slot, slot.retired, slot.retired.entries)
      ensures !modelBypassed ==> slot.View() == Played(Rendering(old(slot.View())), frames)
      ensures !modelBypassed ==> slot.FadeState(outputMode) == old(NextFade(monoInput[..frames]))
    {
      hide Inv, WellFormed, FadeBlock, RealtimeModelSlot.View, Played, Rendering, RealtimeModelSlot.FadeToRender;
      if modelBypassed {
        for frame := 0 to frames
          modifies monoOutput
          invariant forall i :: 0 <= i < frame ==> monoOutput[i] == monoInput[i]
        {
          monoOutput[frame] := monoInput[frame];
        }
        assert monoOutput[..frames] == monoInput[..frames];
      } else {
        slot.Process(monoInput, monoOutput, frames, outputMode);
      }
    }

    /** The same stream to every output. Outputs may be one and the same buffer. */
    method Broadcast(outputs: seq<array<real>>, frames: nat)
      requires frames <= monoOutput.Length
      requires forall c :: 0 <= c < |outputs| ==> frames <= outputs[c].Length && outputs[c] != monoOutput
      modifies set c | 0 <= c < |outputs| :: outputs[c]
      ensures forall c :: 0 <= c < |outputs| ==>
                outputs[c][..frames] == Scaled(monoOutput[..frames], dbToGain(outputTrimDb))
    {
      ghost var stream := monoOutput[..frames];
      var outputGain := dbToGain(outputTrimDb);
      for channel := 0 to |outputs|
        invariant monoOutput[..frames] == stream
        invariant forall c :: 0 <= c < channel ==> outputs[c][..frames] == Scaled(stream, outputGain)
      {
        WriteScaled(outputs[channel], monoOutput[..frames], outputGain);
      }
    }

    /** The stream one block adds to every output, as a function of the state before it. */
    ghost function Emitted(mono: seq<real>): seq<real>
      requires Valid()
      reads this, slot, slot.retired, slot.retired.entries
    {
      Scaled(DspRun(Filter(dcCoefficient), DcMemory(), Heard(mono)).1, dbToGain(outputTrimDb))
    }

    ghost function Mono(inputs: seq<array<real>>, frames: nat): seq<real>
      requires |inputs| > 0 && LongEnough(inputs, frames)
      reads this, set c | 0 <= c < |inputs| :: inputs[c]
    {
      Folded(Channels(inputs, frames), dbToGain(inputTrimDb), frames)
    }

    /** A call that is not refused is one block of a processor history. */
    lemma BlockOfHistory(mono: seq<real>)
      requires Valid()
      ensures var settings := Settings(slot.crossfadeFrames, dcCoefficient, dbToGain(outputTrimDb), modelBypassed);
              var fade := slot.FadeToRender(outputMode);
              ChainBlock(settings, Chain(fade, DcMemory()), mono)
              == (Chain(if modelBypassed then fade else NextFade(mono),
                        DspRun(Filter(dcCoefficient), DcMemory(), Heard(mono)).0),
                  Emitted(mono))
    {
      hide Inv, WellFormed, FadeBlock, DspRun, Scaled, RealtimeModelSlot.View, RealtimeModelSlot.FadeToRender;
    }

    /** A block that was not refused. */
    method ProcessBlock(inputs: seq<array<real>>, outputs: seq<array<real>>, frames: nat)
      requires Valid() && prepared && 0 < frames <= maximumBlockFrames && |inputs| > 0
      requires LongEnough(inputs, frames) && Foreign(inputs) && LongEnough(outputs, frames) && Foreign(outputs)
      modifies Repr(), set c | 0 <= c < |outputs| :: outputs[c]
      ensures Valid()
      ensures forall c :: 0 <= c < |outputs| ==> outputs[c][..frames] == old(Emitted(Mono(inputs, frames)))
      ensures DcMemory() == DspRun(Filter(dcCoefficient), old(DcMemory()), old(Heard(Mono(inputs, frames)))).0
      ensures slot.View() == if modelBypassed then old(slot.View()) else Played(Rendering(old(slot.View())), frames)
      ensures if modelBypassed then unchanged(slot) else slot.FadeState(outputMode) == old(NextFade(Mono(inputs, frames)))
    {
      hide Inv, WellFormed, FadeBlock, RealtimeModelSlot.View, Played, Rendering, RealtimeModelSlot.FadeToRender, DspRun,
           Folded, Scaled;
      Fold(inputs, frames);
      RunModel(frames);
      BlockDc(frames);
      Broadcast(outputs, frames);
    }

    /** The host's call. A refused call silences what outputs there are and changes nothing else. */
    method Process(inputs: seq<array?<real>>, outputs: seq<array?<real>>, frames: nat) returns (status: ProcessStatus)
      requires Valid() && LongEnough(inputs, frames) && LongEnough(outputs, frames)
      requires Foreign(inputs) && Foreign(outputs)
      modifies Repr(), set c | 0 <= c < |outputs| :: outputs[c]
      ensures Valid()
      ensures status == StatusOf(old(prepared), inputs, outputs, frames, old(maximumBlockFrames))
      ensures status != Ok ==> Silent(outputs, frames)
      ensures status != Ok || frames == 0 ==> unchanged(this, slot, slot.retired, slot.retired.entries)
      ensures status == Ok && frames > 0 ==>
                && (forall c :: 0 <= c < |outputs| ==> outputs[c][..frames] == old(Emitted(Mono(inputs, frames))))
                && DcMemory() == DspRun(Filter(dcCoefficient), old(DcMemory()), old(Heard(Mono(inputs, frames)))).0
                && slot.View() == (if modelBypassed then old(slot.View()) else Played(Rendering(old(slot.View())), frames))
                && (if modelBypassed then unchanged(slot)
                    else slot.FadeState(outputMode) == old(NextFade(Mono(inputs, frames))))
    {
      hide Inv, WellFormed, FadeBlock, RealtimeModelSlot.View, Played, Rendering, DspRun, Folded, Scaled,
           OneSlotProcessor.Heard, OneSlotProcessor.Emitted, OneSlotProcessor.Mono, OneSlotProcessor.NextFade, Silent;
      status := Refusal(inputs, outputs, frames);
      if status != Ok {
        ClearOutputs(outputs, frames);
      } else if frames > 0 {
        ProcessBlock(inputs, outputs, frames);
      }
    }

    /** The checks of a call, in order. */
    method Refusal(inputs: seq<array?<real>>, outputs: seq<array?<real>>, frames: nat) returns (status: ProcessStatus)
      ensures status == StatusOf(prepared, inputs, outputs, frames, maximumBlockFrames)
    {
      if !prepared { return NotPrepared; }
      if |inputs| == 0 || |inputs| > MAXIMUM_EXTERNAL_CHANNELS || |outputs| == 0 || |outputs| > MAXIMUM_EXTERNAL_CHANNELS {
        return InvalidChannelCount;
      }
      for channel := 0 to |inputs|
        invariant AllGiven(inputs[..channel])
      {
        if inputs[channel] == null { return InvalidBuffer; }
      }
      for channel := 0 to |outputs|
        invariant AllGiven(outputs[..channel])
      {
        if outputs[channel] == null { return InvalidBuffer; }
      }
      if frames > maximumBlockFrames { return BlockTooLarge; }
      return Ok;
    }
  }
}
