/** Progress of the model slot: a block is wait-free, and once the publisher is quiet the
    last publication becomes the current model with its fade over after a bounded number of
    blocks, however the collector is scheduled. */
module ModelSlotProgress {
  import opened Options
  import opened RetireQueue
  import opened ModelSlot
  import opened ModelSlotTheorems

  // ---- wait-freedom ----------------------------------------------------------------

  function PushWork(p: Producer): nat {
    match p
    case PushIdle => 0
    case PushLoaded(_, _) => 4
    case PushHasRoom(_, _) => 3
    case PushWritten(_, _) => 2
    case _ => 1
  }

  /** An upper bound on the audio steps left in the block. */
  function AudioWork(s: Slot): nat {
    match s.audio
    case Idle => 0
    case Flush(_) => 19
    case Flushing(_) => 14 + PushWork(s.ring.producer)
    case Accept(_) => 14
    case Install(_, _) => 13
    case AnnounceLatency(_) => 12
    case AnnounceFade(_) => 11
    case Render(_) => 10
    case Retire => 9
    case Retiring => 3 + PushWork(s.ring.producer)
    case Finish => 3
    case SettleLatency => 2
    case SettleFade => 1
  }

  /** Every audio step brings the end of the block closer, no other thread pushes it away,
      and a block never waits: its next step is always possible. */
  lemma BlockIsWaitFree(s: Slot, a: ModelSlot.Action)
    requires Inv(s) && ModelSlot.Enabled(s, a)
    ensures a.AudioStep? ==> AudioWork(Step(s, a)) < AudioWork(s)
    ensures !a.AudioStep? && !a.StartBlock? ==> AudioWork(Step(s, a)) == AudioWork(s)
    ensures s.audio != Idle ==> ModelSlot.Enabled(s, AudioStep)
  {
    if a.AudioStep? {
      AudioWorkDrops(s);
    }
    hide WellFormed, Conserved, AudioNext;
  }

  lemma AudioWorkDrops(s: Slot)
    requires AudioFits(s) && AudioEnabled(s)
    ensures AudioWork(AudioNext(s)) < AudioWork(s)
  {
    hide WellFormed;
    match s.audio
    case Flush(_) =>
    case Flushing(_) =>
    case Accept(_) =>
    case Render(_) =>
    case Retire =>
    case Retiring =>
    case _ =>
  }

  // ---- the ranking -----------------------------------------------------------------

  function Present(node: Option<NodeId>): nat { if node.Some? then 1 else 0 }

  /** What is left to do: adopt the pending node, play out the fade, park or queue the old. */
  function Remaining(s: Slot): nat
    requires AudioFits(s)
  {
    (if s.pending.Some? then 2 * s.fadeFrames + 2 else 0)
    + (if s.audio.Install? then 2 * s.fadeFrames + 2 else 0)
    + (if s.fadeActive && s.audio != Finish then 2 * (s.fadeFrames - s.position) else 0)
    + (if s.retireWaiting.Some? && !WaitingStale(s) then 1 else 0)
  }

  /** A started block owes one unit until it is certain to have paid it. */
  function Promise(s: Slot): nat
    requires AudioFits(s)
  {
    match s.audio
    case Flush(_) => if Remaining(s) > 0 then 1 else 0
    case Flushing(_) => if Remaining(s) > 0 && !s.ring.producer.PushFailed? then 1 else 0
    case Accept(_) => if Remaining(s) > 0 && s.retireWaiting.None? then 1 else 0
    case Install(_, _) => 1
    case AnnounceLatency(_) => 1
    case AnnounceFade(_) => 1
    case Render(_) => if s.fadeActive then 1 else 0
    case Retire => 1
    case Retiring => 1
    case _ => 0
  }

  /** The model the slot is heading for. */
  function Target(s: Slot): Option<NodeId> {
    if s.pending.Some? then s.pending else if s.audio.Install? then Some(s.audio.node) else s.current
  }

  /** No newer publication is made. */
  predicate Quiet(a: ModelSlot.Action) { !a.Exchange? }

  /** The flush of a waiting node finds the queue full. */
  predicate Stuck(s: Slot, a: ModelSlot.Action) {
    && a.AudioStep? && s.audio.Flushing? && s.ring.producer.PushLoaded?
    && Next(s.ring.producer.write) == s.ring.readIndex
  }

  /** Both kinds of payment, for the audio thread. */
  predicate Pays(s: Slot)
    requires AudioFits(s) && AudioEnabled(s) && AudioFits(AudioNext(s))
  {
    var t := AudioNext(s);
    && Remaining(t) <= Remaining(s)
    && Remaining(t) + Promise(s) <= Remaining(s) + Promise(t) + (if Stuck(s, AudioStep) then 1 else 0)
    && Target(t) == Target(s)
  }

  lemma FlushPays(s: Slot)
    requires AudioFits(s) && AudioEnabled(s) && AudioFits(AudioNext(s))
    requires s.audio.Flush? || s.audio.Flushing?
    ensures Pays(s)
  {
    hide WellFormed;
    match s.ring.producer
    case PushIdle =>
    case PushLoaded(_, _) =>
    case PushHasRoom(_, _) =>
    case PushWritten(_, _) =>
    case _ =>
  }

  lemma RetirePays(s: Slot)
    requires AudioFits(s) && AudioEnabled(s) && AudioFits(AudioNext(s))
    requires s.audio == Retire || s.audio == Retiring || s.audio == Finish
    ensures Pays(s)
  {
    hide WellFormed;
    match s.ring.producer
    case PushIdle =>
    case PushLoaded(_, _) =>
    case PushHasRoom(_, _) =>
    case PushWritten(_, _) =>
    case _ =>
  }

  lemma AudioPays(s: Slot)
    requires AudioFits(s) && AudioEnabled(s) && AudioFits(AudioNext(s))
    ensures Pays(s)
  {
    hide WellFormed;
    match s.audio
    case Flush(_) => FlushPays(s);
    case Flushing(_) => FlushPays(s);
    case Retire => RetirePays(s);
    case Retiring => RetirePays(s);
    case Finish => RetirePays(s);
    case Accept(_) =>
    case Install(_, _) =>
    case Render(_) =>
    case _ =>
  }

  /** The collector, the publisher's own bookkeeping and other allocations change nothing
      that is left to do; starting a block makes the promise. */
  lemma OthersPay(s: Slot, a: ModelSlot.Action)
    requires AudioFits(s) && ModelSlot.Enabled(s, a) && !a.AudioStep? && Quiet(a)
    requires AudioFits(Step(s, a))
    ensures Remaining(Step(s, a)) == Remaining(s) && Target(Step(s, a)) == Target(s)
    ensures Promise(Step(s, a)) == if a.StartBlock? && Remaining(s) > 0 then 1 else Promise(s)
  {
    OthersTouch(s, a);
    OthersKeepFade(s, a);
    hide WellFormed, Step;
  }

  lemma OthersKeepFade(s: Slot, a: ModelSlot.Action)
    requires ModelSlot.Enabled(s, a) && !a.AudioStep?
    ensures var t := Step(s, a);
            && t.retireWaiting == s.retireWaiting && t.position == s.position && t.fadeFrames == s.fadeFrames
            && t.ring.producer == s.ring.producer
  {
    hide WellFormed;
  }

  // ---- crowding --------------------------------------------------------------------

  /** Nodes on their way to the queue ... */
  function Heading(s: Slot): nat {
    Present(s.pending) + Present(s.current) + (if s.audio.Install? then 1 else 0)
    + (if FadeFromStale(s) then 0 else Present(s.fadeFrom))
    + (if WaitingStale(s) then 0 else Present(s.retireWaiting))
  }

  /** ... and in it. */
  function Crowd(s: Slot): nat
    requires AudioFits(s)
  {
    |Contents(s.ring)| + Heading(s)
  }

  lemma QueueLengthAfter(s: Slot, a: ModelSlot.Action)
    requires AudioFits(s) && ModelSlot.Enabled(s, a)
    ensures WellFormed(Step(s, a).ring)
    ensures |Contents(Step(s, a).ring)| + (if ModelSlot.Releases(s, a) then 1 else 0)
            == |Contents(s.ring)| + (if ModelSlot.Commits(s, a) then 1 else 0)
  {
    QueueActionApplies(s, a);
    var q := QueueAction(s, a);
    if q.Some? {
      StepRefinesQueue(s.ring, q.value);
      OutcomesAreRight(s.ring, q.value);
    }
    hide WellFormed, Contents;
  }

  /** Without new publications the crowd only shrinks, and a flush gets stuck only in a
      crowd of at least sixteen. */
  lemma CrowdShrinks(s: Slot, a: ModelSlot.Action)
    requires AudioFits(s) && ModelSlot.Enabled(s, a) && Quiet(a) && AudioFits(Step(s, a))
    ensures Crowd(Step(s, a)) <= Crowd(s)
    ensures Stuck(s, a) ==> Crowd(s) >= CAPACITY
  {
    QueueLengthAfter(s, a);
    if Stuck(s, a) {
      OutcomesAreRight(s.ring, DoPushStep);
    }
    if a.AudioStep? {
      AudioCrowd(s);
    } else {
      OthersTouch(s, a);
      OthersKeepFade(s, a);
    }
    hide WellFormed, Contents, Step, AudioNext;
  }

  lemma PushCrowd(s: Slot)
    requires AudioFits(s) && AudioEnabled(s) && (s.audio.Flushing? || s.audio == Retiring)
    ensures Heading(AudioNext(s)) + (if ModelSlot.Commits(s, AudioStep) then 1 else 0) <= Heading(s)
  {
    hide WellFormed;
    match s.ring.producer
    case PushLoaded(_, _) =>
    case PushHasRoom(_, _) =>
    case PushWritten(_, _) =>
    case PushSucceeded(_) =>
    case PushFailed(_) =>
  }

  /** A node leaves the audio thread's pointers exactly when it enters the queue. */
  lemma AudioCrowd(s: Slot)
    requires AudioFits(s) && AudioEnabled(s)
    ensures Heading(AudioNext(s)) + (if ModelSlot.Commits(s, AudioStep) then 1 else 0) <= Heading(s)
  {
    if s.audio.Flushing? || s.audio == Retiring {
      PushCrowd(s);
      hide AudioNext, AudioFits;
    } else {
      hide WellFormed;
      match s.audio
      case Flush(_) =>
      case Accept(_) =>
      case Install(_, _) =>
      case Retire =>
      case Finish =>
      case _ =>
    }
  }

  /** A drained queue is never crowded. */
  lemma DrainedIsUncrowded(s: Slot)
    requires AudioFits(s) && Contents(s.ring) == []
    ensures Crowd(s) < CAPACITY
  {
  }

  // ---- whole runs ------------------------------------------------------------------

  ghost predicate QuietRun(s: Slot, actions: seq<ModelSlot.Action>, t: Slot)
    decreases |actions|
  {
    if actions == [] then s == t
    else ModelSlot.Enabled(s, actions[0]) && Quiet(actions[0]) && QuietRun(Step(s, actions[0]), actions[1..], t)
  }

  function BlocksStarted(actions: seq<ModelSlot.Action>): nat {
    if actions == [] then 0 else (if actions[0].StartBlock? then 1 else 0) + BlocksStarted(actions[1..])
  }

  /** In an uncrowded quiet run every started block pays while anything is left to do. */
  lemma {:induction false} BlocksPay(s: Slot, actions: seq<ModelSlot.Action>, t: Slot)
    requires Inv(s) && Crowd(s) < CAPACITY && QuietRun(s, actions, t)
    ensures Inv(t) && Target(t) == Target(s) && Remaining(t) <= Remaining(s)
    ensures Remaining(t) > 0 ==> Remaining(t) + Promise(s) + BlocksStarted(actions) <= Remaining(s) + Promise(t)
    decreases |actions|
  {
    if actions != [] {
      var a := actions[0];
      InvStep(s, a);
      CrowdShrinks(s, a);
      if a.AudioStep? {
        AudioPays(s);
      } else {
        OthersPay(s, a);
      }
      BlocksPay(Step(s, a), actions[1..], t);
      hide WellFormed, Conserved, Step, Remaining, Promise, Target, Crowd;
    }
  }

  /** Eventual adoption. Once no newer publication is made and the queue is not crowded, any
      interleaving with more blocks than there was work left ends with the last published
      model current, nothing pending and the fade over. */
  lemma LastPublicationIsAdopted(s: Slot, actions: seq<ModelSlot.Action>, t: Slot)
    requires Inv(s) && Crowd(s) < CAPACITY && QuietRun(s, actions, t)
    requires BlocksStarted(actions) > Remaining(s)
    ensures t.current == Target(s) && t.pending == None && !t.audio.Install?
    ensures t.fadeActive ==> t.audio == Finish
    ensures t.retireWaiting.Some? ==> WaitingStale(t)
  {
    BlocksPay(s, actions, t);
    hide WellFormed, Conserved;
    assert Remaining(t) == 0;
  }

  /** However crowded the queue, a quiet run keeps the target and undoes no progress. */
  lemma {:induction false} QuietRunKeepsTarget(s: Slot, actions: seq<ModelSlot.Action>, t: Slot)
    requires Inv(s) && QuietRun(s, actions, t)
    ensures Inv(t) && Target(t) == Target(s) && Remaining(t) <= Remaining(s)
    decreases |actions|
  {
    if actions != [] {
      var a := actions[0];
      InvStep(s, a);
      if a.AudioStep? {
        AudioPays(s);
      } else {
        OthersPay(s, a);
      }
      QuietRunKeepsTarget(Step(s, a), actions[1..], t);
      hide WellFormed, Conserved, Step, Remaining, Promise, Target;
    }
  }

  /** So one complete drain by the collector at any time is enough, whatever was queued. */
  lemma AdoptedOnceDrained(s: Slot, before: seq<ModelSlot.Action>, drained: Slot,
                           after: seq<ModelSlot.Action>, t: Slot)
    requires Inv(s) && QuietRun(s, before, drained)
    requires WellFormed(drained.ring) && Contents(drained.ring) == []
    requires QuietRun(drained, after, t) && BlocksStarted(after) > Remaining(s)
    ensures t.current == Target(s) && t.pending == None && !t.audio.Install?
    ensures t.fadeActive ==> t.audio == Finish
    ensures t.retireWaiting.Some? ==> WaitingStale(t)
  {
    QuietRunKeepsTarget(s, before, drained);
    DrainedIsUncrowded(drained);
    LastPublicationIsAdopted(drained, after, t);
  }
}
