/** The model slot as the object its callers use. Each call here runs uninterrupted; that its
    audio side is a run of the transition system is `ModelSlotBlock`. */
module RealtimeModelSlot {
  import opened Options
  import opened RateAdapterSpec
  import opened Crossfade
  import opened RetireQueue
  import opened ModelSlot
  import opened ModelSlotTheorems
  import opened ModelSlotBlock

  const NORMALIZATION_TARGET_DB: real := -18.0

  datatype OutputMode = Raw | Normalized

  /** The model a node owns; a null model means dry. */
  datatype Loaded<!S> = NoModel | Loaded(step: Dsp<S>, state: S, loudness: Option<real>)

  function NodeOf<S>(model: Loaded<S>, latency: int, tag: nat): NodeInfo {
    NodeInfo(model.Loaded?, if model.Loaded? then latency else 0, tag)
  }

  /** What a node's model makes of a block, before normalization, and the model afterwards. */
  function Unscaled<S>(model: Loaded<S>, xs: seq<real>): (r: seq<real>)
    ensures |r| == |xs|
  {
    if model.NoModel? then xs else DspRun(model.step, model.state, xs).1
  }

  function Advanced<S>(model: Loaded<S>, xs: seq<real>): Loaded<S> {
    if model.NoModel? then model else Loaded(model.step, DspRun(model.step, model.state, xs).0, model.loudness)
  }

  /** Taking the oldest of what is left of a queue. */
  lemma OneMoreTaken(queued: seq<NodeId>, k: nat)
    requires k <= |queued|
    ensures var left := queued[k..];
            var taken := AsList(if left == [] then None else Some(left[0]));
            && queued[..k] + taken == queued[..k + |taken|] && left[|taken|..] == queued[k + |taken|..]
  {
  }

  /** The gain of a sum of decibels is the product of the gains. */
  ghost predicate Multiplicative(gain: real -> real) { forall a, b :: gain(a + b) == gain(a) * gain(b) }

  class RetiredQueue {
    const entries: array<Option<NodeId>>
    var writeIndex: nat
    var readIndex: nat

    ghost function AsRing(): Ring
      reads this, entries
    {
      Ring(entries[..], writeIndex, readIndex, PushIdle, PopIdle)
    }

    ghost predicate Valid()
      reads this, entries
    {
      WellFormed(AsRing())
    }

    constructor ()
      ensures Valid() && fresh(entries) && AsRing() == Empty() && Contents(AsRing()) == []
    {
      entries := new Option<NodeId>[CELLS](_ => None);
      writeIndex := 0;
      readIndex := 0;
      new;
      EmptyIsWellFormed();
      assert entries[..] == Empty().entries;
    }

    method Push(node: NodeId) returns (ok: bool)
      requires Valid()
      modifies this, entries
      ensures Valid() && ok == (|Contents(old(AsRing()))| < CAPACITY) == !Full(old(AsRing()))
      ensures AsRing() == if ok then PushedRing(old(AsRing()), node) else old(AsRing())
      ensures Contents(AsRing()) == Contents(old(AsRing())) + if ok then [node] else []
    {
      ghost var before := AsRing();
      RingAfterPush(before, node);
      var write := writeIndex;
      var next := (write + 1) % entries.Length;
      if next == readIndex {
        return false;
      }
      entries[write] := Some(node);
      writeIndex := next;
      assert AsRing() == PushedRing(before, node);
      return true;
    }

    method Pop() returns (node: Option<NodeId>)
      requires Valid()
      modifies this, entries
      ensures Valid()
      ensures node == if Contents(old(AsRing())) == [] then None else Some(Contents(old(AsRing()))[0])
      ensures node.None? ==> AsRing() == old(AsRing())
      ensures node.Some? ==> AsRing() == PoppedRing(old(AsRing())) && Contents(AsRing()) == Contents(old(AsRing()))[1..]
    {
      ghost var before := AsRing();
      RingAfterPop(before);
      var read := readIndex;
      if read == writeIndex {
        return None;
      }
      node := entries[read];
      entries[read] := None;
      readIndex := (read + 1) % entries.Length;
      assert AsRing() == PoppedRing(before);
    }

    method ResetIndices()
      requires Valid()
      modifies this, entries
      ensures Valid() && AsRing() == Empty()
    {
      writeIndex := 0;
      readIndex := 0;
      forall i | 0 <= i < entries.Length {
        entries[i] := None;
      }
      EmptyIsWellFormed();
      assert entries[..] == Empty().entries;
    }
  }

  class RealtimeModelSlot<!S> {
    const dbToGain: real -> real
    const retired: RetiredQueue
    var pending: Option<NodeId>
    var current: Option<NodeId>
    var fadeFrom: Option<NodeId>
    var retireWaiting: Option<NodeId>
    var currentOutput: array<real>
    var previousOutput: array<real>
    var maximumBlockFrames: nat
    var crossfadeFrames: nat
    var crossfadePosition: nat
    var fadeActive: bool
    var prepared: bool
    var reportedLatency: int
    var fadeActiveSnapshot: bool

    /** The memory of the nodes, and what was deleted and adopted so far. */
    var info: seq<NodeInfo>
    var models: seq<Loaded<S>>
    ghost var deleted: seq<NodeId>
    ghost var adopted: seq<NodeId>

    /** The object as a state of the transition system, between calls. */
    ghost function View(): Slot
      reads this, retired, retired.entries
    {
      Slot(crossfadeFrames, info, deleted, pending, current, fadeFrom, retireWaiting, crossfadePosition, fadeActive,
           retired.AsRing(), reportedLatency, fadeActiveSnapshot, Idle, PublisherIdle, adopted)
    }

    lemma NobodyInside()
      ensures Quiescent(View()) && View().ring.producer == PushIdle
    {
    }

    ghost predicate Apart()
      reads this
    {
      currentOutput != previousOutput && currentOutput.Length == previousOutput.Length == maximumBlockFrames
    }

    ghost predicate ModelsFit()
      reads this
    {
      |models| == |info| && forall n :: 0 <= n < |info| ==> (info[n].hasModel <==> models[n].Loaded?)
    }

    ghost predicate Valid()
      reads this, retired, retired.entries
    {
      Inv(View()) && Apart() && ModelsFit()
    }

    function NormalizationGain(model: Loaded<S>, mode: OutputMode): (gain: real)
      ensures mode == Raw ==> gain == 1.0
    {
      if model.NoModel? || mode != Normalized || model.loudness.None? then 1.0
      else dbToGain(NORMALIZATION_TARGET_DB - model.loudness.value)
    }

    /** Where the gain of a sum of decibels is the product of the gains, all models whose
        loudness is known come out equally loud; otherwise nothing is scaled. */
    lemma NormalizedModelsAreEquallyLoud(model: Loaded<S>, mode: OutputMode)
      requires Multiplicative(dbToGain)
      ensures model.Loaded? && model.loudness.Some? && mode == Normalized ==>
                NormalizationGain(model, mode) * dbToGain(model.loudness.value) == dbToGain(NORMALIZATION_TARGET_DB)
      ensures model.NoModel? || model.loudness.None? || mode == Raw ==> NormalizationGain(model, mode) == 1.0
    {
      if model.Loaded? && model.loudness.Some? && mode == Normalized {
        var loudness := model.loudness.value;
        assert (NORMALIZATION_TARGET_DB - loudness) + loudness == NORMALIZATION_TARGET_DB;
        assert dbToGain((NORMALIZATION_TARGET_DB - loudness) + loudness)
            == dbToGain(NORMALIZATION_TARGET_DB - loudness) * dbToGain(loudness);
      }
    }

    function ModelAt(node: Option<NodeId>): Loaded<S>
      reads this`models
    {
      if node.Some? && node.value < |models| then models[node.value] else NoModel
    }

    ghost function VoiceOf(model: Loaded<S>, mode: OutputMode): Voice<S> {
      if model.NoModel? then Dry else Wet(model.step, model.state, NormalizationGain(model, mode))
    }

    ghost function Side(node: Option<NodeId>, mode: OutputMode): Voice<S>
      reads this`models
    {
      VoiceOf(ModelAt(node), mode)
    }

    /** The fade as it stands between calls. */
    ghost function FadeState(mode: OutputMode): Fade<S>
      reads this
    {
      Fade(Side(fadeFrom, mode), Side(current, mode), crossfadePosition, fadeActive)
    }

    /** The fade the next block renders: a new one if that block adopts the pending node. */
    ghost function FadeToRender(mode: OutputMode): Fade<S>
      requires Valid()
      reads this, retired, retired.entries
    {
      var t := Rendering(View());
      Fade(Side(t.fadeFrom, mode), Side(t.current, mode), t.position, t.fadeActive)
    }

    constructor (dbToGain: real -> real)
      ensures Valid() && !prepared && View() == Prepared(1) && this.dbToGain == dbToGain
      ensures fresh(retired) && fresh(retired.entries) && fresh(currentOutput) && fresh(previousOutput)
    {
      this.dbToGain := dbToGain;
      retired := new RetiredQueue();
      pending, current, fadeFrom, retireWaiting := None, None, None, None;
      currentOutput := new real[0];
      previousOutput := new real[0];
      maximumBlockFrames, crossfadeFrames, crossfadePosition := 0, 1, 0;
      fadeActive, prepared, reportedLatency, fadeActiveSnapshot := false, false, 0, false;
      info, models, deleted, adopted := [], [], [], [];
      new;
      PreparedIsFine(1);
    }

    method Publish(model: Loaded<S>, latency: int, tag: nat) returns (ok: bool)
      requires Valid()
      modifies this
      ensures Valid() && ok == prepared == old(prepared)
      ensures !ok ==> unchanged(this, retired, retired.entries)
      ensures ok ==> models == old(models) + [model]
      ensures ok ==> info == old(info) + [NodeInfo(model.Loaded?, if model.Loaded? then latency else 0, tag)]
      ensures ok ==> View() == Published(old(View()), NodeOf(model, latency, tag))
    {
      hide Inv, WellFormed, RetiredQueue.AsRing;
      if !prepared {
        return false;
      }
      ghost var before := View();
      var node := NodeOf(model, latency, tag);
      var candidate := |info|;
      info := info + [node];
      models := models + [model];
      var replaced := pending;
      pending := Some(candidate);
      deleted := deleted + AsList(replaced);
      PublishedIsARun(before, node);
      assert View() == Published(before, node);
      return true;
    }

    method FlushWaitingRetirement()
      requires retired.Valid()
      modifies this`retireWaiting, retired, retired.entries
      ensures retired.Valid() && View() == Flushed(old(View()))
    {
      if retireWaiting.Some? {
        var ok := retired.Push(retireWaiting.value);
        if ok {
          retireWaiting := None;
        }
      }
    }

    method AcceptPendingIfPossible()
      modifies this`pending, this`current, this`fadeFrom, this`crossfadePosition, this`fadeActive,
               this`reportedLatency, this`fadeActiveSnapshot, this`adopted
      ensures View() == Accepted(old(View()))
    {
      hide WellFormed, RetiredQueue.AsRing;
      if fadeActive || retireWaiting.Some? {
        return;
      }
      var candidate := pending;
      pending := None;
      if candidate.None? {
        return;
      }
      fadeFrom := current;
      current := candidate;
      crossfadePosition := 0;
      fadeActive := true;
      adopted := adopted + [candidate.value];
      var before, after := NodeLatency(fadeFrom), NodeLatency(current);
      reportedLatency := if before >= after then before else after;
      fadeActiveSnapshot := true;
    }

    /** The latency the transition system reports for the node. */
    function NodeLatency(node: Option<NodeId>): (latency: int)
      reads this, retired, retired.entries
      ensures latency == Latency(View(), node) && latency >= 0
    {
      if node.Some? && node.value < |info| && info[node.value].hasModel && info[node.value].latency > 0
      then info[node.value].latency else 0
    }

    method Retire(node: Option<NodeId>)
      requires retired.Valid()
      modifies this`retireWaiting, retired, retired.entries
      ensures retired.Valid()
      ensures retired.AsRing() == if node.Some? && !Full(old(retired.AsRing()))
                                  then PushedRing(old(retired.AsRing()), node.value) else old(retired.AsRing())
      ensures retireWaiting == if node.Some? && Full(old(retired.AsRing())) then node else old(retireWaiting)
    {
      if node.None? {
        return;
      }
      var ok := retired.Push(node.value);
      if !ok {
        retireWaiting := node;
      }
    }

    method FinishCrossfade()
      requires retired.Valid()
      modifies this`retireWaiting, this`fadeFrom, this`crossfadePosition, this`fadeActive,
               this`reportedLatency, this`fadeActiveSnapshot, retired, retired.entries
      ensures retired.Valid() && View() == Finished(old(View()))
    {
      Retire(fadeFrom);
      fadeFrom := None;
      crossfadePosition := 0;
      fadeActive := false;
      reportedLatency := NodeLatency(current);
      fadeActiveSnapshot := false;
    }

    /** The block through the node's model, or copied when there is none. */
    method ProcessNode(node: Option<NodeId>, input: array<real>, output: array<real>, frames: nat)
      requires node.Some? ==> node.value < |models|
      requires frames <= input.Length && frames <= output.Length && input != output
      modifies this`models, output
      ensures output[..frames] == Unscaled(old(ModelAt(node)), input[..frames])
      ensures models == if old(ModelAt(node)).NoModel? then old(models)
                        else old(models)[node.value := Advanced(old(ModelAt(node)), input[..frames])]
    {
      ghost var model := ModelAt(node);
      if node.None? || models[node.value].NoModel? {
        for frame := 0 to frames
          invariant output[..frame] == input[..frame]
          invariant models == old(models)
        {
          output[frame] := input[frame];
          assert input[..frame + 1] == input[..frame] + [input[frame]];
        }
        return;
      }
      var step, state, loudness := models[node.value].step, models[node.value].state, models[node.value].loudness;
      for frame := 0 to frames
        invariant (state, output[..frame]) == DspRun(step, model.state, input[..frame])
        invariant models == old(models)
      {
        var next := step(state, input[frame]);
        state := next.0;
        output[frame] := next.1;
        assert input[..frame + 1][..frame] == input[..frame];
        assert output[..frame + 1] == output[..frame] + [next.1];
      }
      models := models[node.value := Loaded(step, state, loudness)];
    }

    /** One side of the block; the node of the other side is not concerned. */
    method ProcessSide(node: Option<NodeId>, ghost other: Option<NodeId>, mode: OutputMode,
                       input: array<real>, output: array<real>, frames: nat) returns (gain: real)
      requires ModelsFit() && (node.Some? ==> node.value < |models| && node != other)
      requires frames <= input.Length && frames <= output.Length && input != output
      modifies this`models, output
      ensures ModelsFit()
      ensures Scaled(output[..frames], gain) == VoiceRun(old(Side(node, mode)), input[..frames]).1
      ensures Side(node, mode) == VoiceRun(old(Side(node, mode)), input[..frames]).0
      ensures Side(other, mode) == old(Side(other, mode))
    {
      hide DspRun;
      ghost var xs := input[..frames];
      ghost var model := ModelAt(node);
      gain := NormalizationGain(ModelAt(node), mode);
      ProcessNode(node, input, output, frames);
      if model.NoModel? {
        assert Scaled(xs, 1.0) == xs;
      }
    }

    /** The loop without a fade. */
    method ScaleCurrent(output: array<real>, frames: nat, currentGain: real)
      requires frames <= currentOutput.Length && frames <= output.Length && output != currentOutput
      modifies output
      ensures output[..frames] == Scaled(currentOutput[..frames], currentGain)
    {
      ghost var to := Scaled(currentOutput[..frames], currentGain);
      for frame := 0 to frames
        modifies output
        invariant forall i :: 0 <= i < frame ==> output[i] == to[i]
      {
        output[frame] := currentOutput[frame] * currentGain;
        assert output[frame] == to[frame];
      }
    }

    /** The loop of a fade. */
    method MixSides(output: array<real>, frames: nat, previousGain: real, currentGain: real)
      requires frames <= currentOutput.Length && frames <= previousOutput.Length && frames <= output.Length
      requires output != currentOutput && output != previousOutput
      modifies output
      ensures forall i :: 0 <= i < frames ==>
                output[i] == Blend(Scaled(previousOutput[..frames], previousGain)[i],
                                   Scaled(currentOutput[..frames], currentGain)[i],
                                   Mix(crossfadeFrames, crossfadePosition + i))
    {
      hide Mix, Share, Blend;
      ghost var from := Scaled(previousOutput[..frames], previousGain);
      ghost var to := Scaled(currentOutput[..frames], currentGain);
      for frame := 0 to frames
        modifies output
        invariant forall i :: 0 <= i < frame ==>
                    output[i] == Blend(from[i], to[i], Mix(crossfadeFrames, crossfadePosition + i))
      {
        var previous := previousOutput[frame] * previousGain;
        var now := currentOutput[frame] * currentGain;
        assert previous == from[frame] && now == to[frame];
        output[frame] := Blend(previous, now, Mix(crossfadeFrames, crossfadePosition + frame));
      }
    }

    /** Both sides of the block, mixed; the state of the fade itself is left to the caller. */
    method RenderBlock(input: array<real>, output: array<real>, frames: nat, mode: OutputMode)
      requires Apart() && ModelsFit() && frames <= maximumBlockFrames
      requires current.Some? ==> current.value < |models|
      requires fadeFrom.Some? ==> fadeFrom.value < |models| && fadeFrom != current && fadeActive
      requires frames <= input.Length && input != currentOutput && input != previousOutput
      requires frames <= output.Length && output != currentOutput && output != previousOutput
      modifies this`models, currentOutput, previousOutput, output
      ensures ModelsFit()
      ensures output[..frames] == Mixed(crossfadeFrames, old(FadeState(mode)), old(input[..frames]))
      ensures FadeState(mode) == Moved(old(FadeState(mode)), old(input[..frames]))
    {
      hide Mix, Blend, Scaled, VoiceRun;
      ghost var xs := input[..frames];
      var currentGain := ProcessSide(current, fadeFrom, mode, input, currentOutput, frames);
      if !fadeActive {
        ScaleCurrent(output, frames, currentGain);
        return;
      }
      var previousGain := ProcessSide(fadeFrom, current, mode, input, previousOutput, frames);
      MixSides(output, frames, previousGain, currentGain);
    }

    /** Up to the point where the models run. */
    method BeginBlock(frames: nat, ghost mode: OutputMode)
      requires Valid() && frames > 0
      modifies this`pending, this`current, this`fadeFrom, this`crossfadePosition, this`fadeActive,
               this`reportedLatency, this`fadeActiveSnapshot, this`adopted, this`retireWaiting,
               retired, retired.entries
      ensures View() == Rendering(old(View())) && FadeState(mode) == old(FadeToRender(mode))
      ensures retired.Valid() && Apart() && ModelsFit()
      ensures Inv(Played(View(), frames))
      ensures current.Some? ==> current.value < |models|
      ensures fadeFrom.Some? ==> fadeFrom.value < |models| && fadeFrom != current && fadeActive
    {
      hide WellFormed, Conserved, Flushed, Accepted, Played, RetiredQueue.AsRing, RealtimeModelSlot.Side;
      ghost var before := View();
      BlockKeepsInv(before, frames);
      SidesAreLive(Rendering(before).(audio := Render(frames)), frames);
      FlushWaitingRetirement();
      AcceptPendingIfPossible();
    }

    /** The fade moves on by the block, or ends. */
    method EndBlock(frames: nat, ghost mode: OutputMode)
      requires retired.Valid()
      modifies this`retireWaiting, this`fadeFrom, this`crossfadePosition, this`fadeActive,
               this`reportedLatency, this`fadeActiveSnapshot, retired, retired.entries
      ensures View() == Played(old(View()), frames)
      ensures FadeState(mode) == AfterFrames(crossfadeFrames, old(FadeState(mode)), frames)
    {
      hide RetiredQueue.AsRing;
      if fadeActive {
        if crossfadePosition + frames >= crossfadeFrames {
          FinishCrossfade();
        } else {
          crossfadePosition := crossfadePosition + frames;
        }
      }
    }

    /** A block of an accepted size through the prepared slot. */
    method PlayBlock(input: array<real>, output: array<real>, frames: nat, mode: OutputMode)
      requires Valid() && 0 < frames <= maximumBlockFrames
      requires frames <= input.Length && input != currentOutput && input != previousOutput
      requires frames <= output.Length && output != currentOutput && output != previousOutput
      modifies this, retired, retired.entries, currentOutput, previousOutput, output
      ensures Valid() && prepared == old(prepared) && crossfadeFrames == old(crossfadeFrames)
      ensures currentOutput == old(currentOutput) && previousOutput == old(previousOutput)
      ensures View() == Played(Rendering(old(View())), frames)
      ensures FadeState(mode) == FadeBlock(crossfadeFrames, old(FadeToRender(mode)), old(input[..frames])).0
      ensures output[..frames] == FadeBlock(crossfadeFrames, old(FadeToRender(mode)), old(input[..frames])).1
    {
      hide WellFormed, Inv, Played, Flushed, Accepted, AfterFrames, Moved, Mixed, RetiredQueue.AsRing, RealtimeModelSlot.Side;
      BeginBlock(frames, mode);
      RenderBlock(input, output, frames, mode);
      EndBlock(frames, mode);
    }

    method FillSilence(output: array<real>, frames: nat)
      requires frames <= output.Length
      modifies output
      ensures output[..frames] == Silence(frames)
    {
      for frame := 0 to frames
        invariant output[..frame] == Silence(frame)
      {
        output[frame] := 0.0;
        assert output[..frame + 1] == output[..frame] + [0.0];
      }
    }

    predicate Refuses(input: array?<real>, output: array?<real>, frames: nat)
      reads this
    {
      !prepared || input == null || output == null || frames > maximumBlockFrames
    }

    method Process(input: array?<real>, output: array?<real>, frames: nat, mode: OutputMode)
      requires Valid()
      requires input != null ==> frames <= input.Length && input != currentOutput && input != previousOutput
      requires output != null ==> frames <= output.Length && output != currentOutput && output != previousOutput
      modifies this, retired, retired.entries, currentOutput, previousOutput, output
      ensures Valid() && prepared == old(prepared) && crossfadeFrames == old(crossfadeFrames)
      ensures currentOutput == old(currentOutput) && previousOutput == old(previousOutput)
      ensures old(Refuses(input, output, frames)) || frames == 0 ==> View() == old(View()) && models == old(models)
      ensures old(Refuses(input, output, frames)) && output != null ==> output[..frames] == Silence(frames)
      ensures !old(Refuses(input, output, frames)) && frames > 0 ==>
                && View() == Played(Rendering(old(View())), frames)
                && (FadeState(mode), output[..frames])
                   == FadeBlock(crossfadeFrames, old(FadeToRender(mode)), old(input[..frames]))
    {
      hide WellFormed, Inv, Rendering, Played, FadeBlock;
      if Refuses(input, output, frames) {
        if output != null {
          FillSilence(output, frames);
        }
        return;
      }
      if frames == 0 {
        return;
      }
      PlayBlock(input, output, frames, mode);
    }

    /** A collector call takes the queue as it finds it and leaves it empty. */
    method CollectRetired() returns (collected: nat)
      requires retired.Valid()
      modifies this`deleted, retired, retired.entries
      ensures old(Valid()) ==> Valid()
      ensures retired.Valid() && Contents(retired.AsRing()) == []
      ensures collected == |Contents(old(retired.AsRing()))|
      ensures deleted == old(deleted) + Contents(old(retired.AsRing()))
    {
      hide WellFormed, Inv, Contents;
      ghost var queued := Contents(retired.AsRing());
      collected := 0;
      OneMoreTaken(queued, 0);
      var node := PopAndDelete();
      while node.Some?
        invariant retired.Valid() && (old(Valid()) ==> Valid())
        invariant collected + |AsList(node)| <= |queued|
        invariant deleted == old(deleted) + queued[..collected + |AsList(node)|]
        invariant Contents(retired.AsRing()) == queued[collected + |AsList(node)|..]
        invariant node.None? ==> Contents(retired.AsRing()) == []
        decreases |queued| - collected
      {
        collected := collected + 1;
        OneMoreTaken(queued, collected);
        node := PopAndDelete();
      }
    }

    /** One iteration of the collector: a pop and the deletion of what it returned. */
    method PopAndDelete() returns (node: Option<NodeId>)
      requires retired.Valid()
      modifies this`deleted, retired, retired.entries
      ensures old(Valid()) ==> Valid()
      ensures retired.Valid()
      ensures node == if Contents(old(retired.AsRing())) == [] then None else Some(Contents(old(retired.AsRing()))[0])
      ensures deleted == old(deleted) + AsList(node)
      ensures Contents(retired.AsRing()) == Contents(old(retired.AsRing()))[|AsList(node)|..]
    {
      hide WellFormed, Inv, Contents;
      ghost var before := View();
      ghost var fine := Valid();
      node := retired.Pop();
      if node.Some? {
        deleted := deleted + [node.value];
        assert View() == Collected(before);
        if fine { CollectedIsFine(before); }
      }
    }

    /** Delete the four pointers and the queue on the calling thread. */
    method DeleteOwned()
      requires Valid()
      modifies this`deleted, this`pending, this`current, this`fadeFrom, this`retireWaiting, retired, retired.entries
      ensures pending == current == fadeFrom == retireWaiting == None
      ensures retired.Valid() && retired.AsRing() == Empty()
      ensures deleted == DeletedAll(old(View()))
    {
      assert retired.Valid();
      hide Inv, WellFormed, Contents;
      deleted := deleted + AsList(pending) + AsList(current) + AsList(fadeFrom) + AsList(retireWaiting);
      pending, current, fadeFrom, retireWaiting := None, None, None, None;
      var _ := CollectRetired();
      retired.ResetIndices();
    }

    /** Fresh scratch buffers; zero frames clears them. */
    method AssignScratch(frames: nat)
      modifies this`currentOutput, this`previousOutput, this`maximumBlockFrames
      ensures Apart() && maximumBlockFrames == frames && fresh(currentOutput) && fresh(previousOutput)
    {
      currentOutput := new real[frames](_ => 0.0);
      previousOutput := new real[frames](_ => 0.0);
      maximumBlockFrames := frames;
    }

    method ResetFields(fadeFrames: nat)
      modifies this`crossfadeFrames, this`crossfadePosition, this`fadeActive, this`prepared,
               this`reportedLatency, this`fadeActiveSnapshot
      ensures !prepared
      ensures View() == old(View()).(fadeFrames := fadeFrames, position := 0, fadeActive := false,
                                     reportedLatency := 0, fadeSnapshot := false)
    {
      hide RetiredQueue.AsRing;
      crossfadeFrames := fadeFrames;
      crossfadePosition := 0;
      fadeActive := false;
      prepared := false;
      reportedLatency := 0;
      fadeActiveSnapshot := false;
    }

    /** Everything the slot owns is deleted and it is no longer prepared. */
    method ClearNonRealtime()
      requires Valid()
      modifies this, retired, retired.entries
      ensures Valid() && !prepared && View() == Restarted(old(View()), 1)
      ensures models == old(models) && maximumBlockFrames == 0
      ensures fresh(currentOutput) && fresh(previousOutput)
    {
      hide Inv, WellFormed, Contents, DeletedAll, RetiredQueue.AsRing;
      RingOfInv(View());
      NobodyInside();
      RestartDeletesAll(View(), 1);
      DeleteOwned();
      AssignScratch(0);
      ResetFields(1);
    }

    method MarkPrepared(fadeFrames: nat)
      modifies this`crossfadeFrames, this`prepared
      ensures prepared && View() == old(View()).(fadeFrames := fadeFrames)
    {
      hide RetiredQueue.AsRing;
      crossfadeFrames := fadeFrames;
      prepared := true;
    }

    /** Whatever was published before is gone; a new slot of the given sizes starts dry. */
    method Prepare(blockFrames: nat, fadeFrames: nat) returns (ok: bool)
      requires Valid()
      modifies this, retired, retired.entries
      ensures Valid() && ok == (blockFrames > 0 && fadeFrames > 0)
      ensures models == old(models)
      ensures ok ==> View() == Restarted(old(View()), fadeFrames) && prepared && maximumBlockFrames == blockFrames
      ensures ok ==> fresh(currentOutput) && fresh(previousOutput)
      ensures !ok ==> unchanged(this, retired, retired.entries)
    {
      hide Inv, WellFormed, Contents, Restarted, RetiredQueue.AsRing;
      ok := false;
      if blockFrames == 0 { return; }
      if fadeFrames == 0 { return; }
      RingOfInv(View());
      NobodyInside();
      RestartDeletesAll(View(), fadeFrames);
      RestartedWith(View(), fadeFrames);
      ClearNonRealtime();
      AssignScratch(blockFrames);
      ok := true;
      MarkPrepared(fadeFrames);
    }

    // ---- what the next block renders -------------------------------------------------

    /** A sample of a model's side: what the model makes of the block up to there, times its gain. */
    lemma SideSample(model: Loaded<S>, mode: OutputMode, xs: seq<real>, i: nat)
      requires i < |xs|
      ensures VoiceRun(VoiceOf(model, mode), xs).1[i]
              == if model.NoModel? then xs[i]
                 else DspRun(model.step, model.state, xs).1[i] * NormalizationGain(model, mode)
    {
      hide DspRun, RealtimeModelSlot.NormalizationGain, VoiceRun;
      VoiceSample(VoiceOf(model, mode), xs, i);
    }

    predicate IsSideSample(model: Loaded<S>, mode: OutputMode, xs: seq<real>, i: nat, y: real)
      requires i < |xs|
    {
      if model.NoModel? then y == xs[i] else y == DspRun(model.step, model.state, xs).1[i] * NormalizationGain(model, mode)
    }

    lemma SideSampleIs(model: Loaded<S>, mode: OutputMode, xs: seq<real>, i: nat, y: real)
      requires i < |xs| && IsSideSample(model, mode, xs, i, y)
      ensures y == VoiceRun(VoiceOf(model, mode), xs).1[i]
    {
      SideSample(model, mode, xs, i);
      hide VoiceRun, DspRun, RealtimeModelSlot.VoiceOf, RealtimeModelSlot.NormalizationGain;
    }

    /** A sample of a block outside a fade: the current model's output times the gain of its
        loudness, or the input. */
    lemma QuietSample(mode: OutputMode, xs: seq<real>, i: nat)
      requires Valid() && i < |xs| && !Rendering(View()).fadeActive
      ensures var model := ModelAt(Rendering(View()).current);
              FadeBlock(crossfadeFrames, FadeToRender(mode), xs).1[i]
              == if model.NoModel? then xs[i]
                 else DspRun(model.step, model.state, xs).1[i] * NormalizationGain(model, mode)
    {
      hide Inv, WellFormed, Rendering, VoiceRun, RealtimeModelSlot.VoiceOf, RealtimeModelSlot.NormalizationGain, DspRun;
      SideSample(ModelAt(Rendering(View()).current), mode, xs, i);
    }

    /** A sample of a block inside a fade blends the samples of both sides. */
    lemma FadingSides(mode: OutputMode, xs: seq<real>, i: nat, p: real, c: real)
      requires Valid() && i < |xs| && Rendering(View()).fadeActive
      requires p == VoiceRun(VoiceOf(ModelAt(Rendering(View()).fadeFrom), mode), xs).1[i]
      requires c == VoiceRun(VoiceOf(ModelAt(Rendering(View()).current), mode), xs).1[i]
      ensures FadeBlock(crossfadeFrames, FadeToRender(mode), xs).1[i]
              == Blend(p, c, Mix(crossfadeFrames, Rendering(View()).position + i))
    {
      hide Inv, WellFormed, Rendering, VoiceRun, RealtimeModelSlot.VoiceOf, Blend, Mix, FadeBlock;
      FadingVoices(crossfadeFrames, FadeToRender(mode), xs, i);
    }

    /** Each of them is its model's output times the gain of its loudness, or the input. */
    lemma FadingSample(mode: OutputMode, xs: seq<real>, i: nat, p: real, c: real)
      requires Valid() && i < |xs| && Rendering(View()).fadeActive
      requires IsSideSample(ModelAt(Rendering(View()).fadeFrom), mode, xs, i, p)
      requires IsSideSample(ModelAt(Rendering(View()).current), mode, xs, i, c)
      ensures FadeBlock(crossfadeFrames, FadeToRender(mode), xs).1[i]
              == Blend(p, c, Mix(crossfadeFrames, Rendering(View()).position + i))
    {
      hide Inv, WellFormed, Rendering, VoiceRun, FadeBlock, Blend, Mix, RealtimeModelSlot.VoiceOf,
           RealtimeModelSlot.FadeToRender, RealtimeModelSlot.View, RealtimeModelSlot.ModelAt,
           RealtimeModelSlot.IsSideSample;
      SideSampleIs(ModelAt(Rendering(View()).fadeFrom), mode, xs, i, p);
      SideSampleIs(ModelAt(Rendering(View()).current), mode, xs, i, c);
      FadingSides(mode, xs, i, p, c);
    }

    /** Two models that differ by a gain of `d` decibels, and whose loudness says so, sound the
        same in normalized mode. */
    lemma NormalizedModelsSoundTheSame(a: Loaded<S>, b: Loaded<S>, d: real, xs: seq<real>)
      requires Multiplicative(dbToGain)
      requires a.Loaded? && b.Loaded? && a.loudness.Some? && b.loudness == Some(a.loudness.value + d)
      requires LouderBy(DspRun(a.step, a.state, xs).1, DspRun(b.step, b.state, xs).1, dbToGain(d))
      ensures VoiceRun(VoiceOf(a, Normalized), xs).1 == VoiceRun(VoiceOf(b, Normalized), xs).1
    {
      hide LouderBy, Multiplicative, DspRun, VoiceRun;
      GainsCompose(a.loudness.value, d);
      SameSound(VoiceOf(a, Normalized), VoiceOf(b, Normalized), dbToGain(d), xs);
    }

    lemma GainsCompose(loudness: real, d: real)
      requires Multiplicative(dbToGain)
      ensures dbToGain(NORMALIZATION_TARGET_DB - loudness) == dbToGain(d) * dbToGain(NORMALIZATION_TARGET_DB - (loudness + d))
    {
      assert dbToGain(d + (NORMALIZATION_TARGET_DB - (loudness + d)))
          == dbToGain(d) * dbToGain(NORMALIZATION_TARGET_DB - (loudness + d));
      assert d + (NORMALIZATION_TARGET_DB - (loudness + d)) == NORMALIZATION_TARGET_DB - loudness;
    }

    /** Without something to adopt the fade goes on where it stood. */
    lemma FadeGoesOn(mode: OutputMode)
      requires Valid() && (pending.None? || fadeActive)
      ensures FadeToRender(mode) == FadeState(mode)
    {
      hide WellFormed, Inv;
    }

    /** A pending node that can be adopted starts a new fade from what is current. */
    lemma AdoptionStartsFade(mode: OutputMode)
      requires Valid() && Accepts(Flushed(View()))
      ensures FadeToRender(mode) == Fade(Side(current, mode), Side(pending, mode), 0, true)
    {
      hide WellFormed, Inv;
    }
  }
}
