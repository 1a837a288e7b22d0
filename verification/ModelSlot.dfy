/** Lock-free model publication and retirement as a transition system. The audio thread, the
    publisher and the collector interleave at every atomic access; a node is named by the
    order of its allocation. */
module ModelSlot {
  import opened Options
  import opened RetireQueue

  /** What a node carries: a null model means dry. The tag identifies the publication. */
  datatype NodeInfo = NodeInfo(hasModel: bool, latency: int, tag: nat)

  /** Where the audio thread stands inside `process`. */
  datatype Audio =
    | Idle
    | Flush(frames: nat)                       // about to look at retire_waiting_
    | Flushing(frames: nat)                    // inside the push of retire_waiting_
    | Accept(frames: nat)                      // about to take the pending node
    | Install(frames: nat, node: NodeId)       // has exchanged the pending node
    | AnnounceLatency(frames: nat)             // about to store reported_latency_
    | AnnounceFade(frames: nat)                // about to store fade_active_snapshot_
    | Render(frames: nat)                      // about to run the current and the old model
    | Retire                                   // the fade is over, about to retire fade_from_
    | Retiring                                 // inside the push of fade_from_
    | Finish                                   // about to clear the fade fields
    | SettleLatency                            // about to store the settled latency
    | SettleFade                               // about to clear the snapshot

  datatype Publisher =
    | PublisherIdle
    | Holding(node: NodeId)                    // has allocated the candidate
    | Replacing(replaced: Option<NodeId>)           // has exchanged, about to delete what it got

  datatype Slot = Slot(
    fadeFrames: nat, info: seq<NodeInfo>, deleted: seq<NodeId>,
    pending: Option<NodeId>, current: Option<NodeId>, fadeFrom: Option<NodeId>, retireWaiting: Option<NodeId>,
    position: nat, fadeActive: bool, ring: Ring, reportedLatency: int, fadeSnapshot: bool,
    audio: Audio, publisher: Publisher, adopted: seq<NodeId>)

  /** The slot as `prepare` leaves a new one. */
  function Prepared(fadeFrames: nat): Slot {
    Slot(fadeFrames, [], [], None, None, None, None, 0, false, Empty(), 0, false, Idle, PublisherIdle, [])
  }

  function Latency(s: Slot, node: Option<NodeId>): int {
    if node.Some? && node.value < |s.info| && s.info[node.value].hasModel && s.info[node.value].latency > 0
    then s.info[node.value].latency else 0
  }

  function Max(a: int, b: int): int { if a >= b then a else b }

  // ---- steps -----------------------------------------------------------------------

  datatype Action =
    | StartBlock(frames: nat)    // audio: a non-empty block begins
    | AudioStep                  // audio: the next access
    | Allocate(node: NodeInfo)   // publisher: new Node
    | Exchange                   // publisher: swap it into the pending slot
    | DeleteReplaced             // publisher: delete what the exchange returned
    | StartPop                   // collector: next iteration of collect_retired
    | PopAccess                  // collector: the next access of pop
    | DeleteCollected            // collector: delete the popped node, or stop on empty

  predicate AudioEnabled(s: Slot) {
    match s.audio
    case Idle => false
    case Flushing(_) => s.ring.producer != PushIdle && (Pushing(s.ring.producer) ==> WellFormed(s.ring))
    case Retiring => s.ring.producer != PushIdle && (Pushing(s.ring.producer) ==> WellFormed(s.ring))
    case Flush(_) => s.ring.producer == PushIdle
    case Retire => s.ring.producer == PushIdle
    case _ => true
  }

  predicate Enabled(s: Slot, a: Action) {
    match a
    case StartBlock(frames) => s.audio == Idle && frames > 0
    case AudioStep => AudioEnabled(s)
    case Allocate(_) => s.publisher == PublisherIdle
    case Exchange => s.publisher.Holding?
    case DeleteReplaced => s.publisher.Replacing?
    case StartPop => s.ring.consumer == PopIdle
    case PopAccess => Popping(s.ring.consumer) && WellFormed(s.ring)
    case DeleteCollected => s.ring.consumer.PopGot? || s.ring.consumer.PopEmpty?
  }

  function AudioNext(s: Slot): Slot
    requires AudioEnabled(s)
  {
    match s.audio
    case Flush(frames) =>
      if s.retireWaiting.None? then s.(audio := Accept(frames))
      else s.(audio := Flushing(frames), ring := BeginPush(s.ring, s.retireWaiting.value))
    case Flushing(frames) =>
      if Pushing(s.ring.producer) then s.(ring := PushStep(s.ring))
      else if s.ring.producer.PushSucceeded? then
        s.(audio := Accept(frames), ring := EndPush(s.ring), retireWaiting := None)
      else s.(audio := Accept(frames), ring := EndPush(s.ring))
    case Accept(frames) =>
      if s.fadeActive || s.retireWaiting.Some? then s.(audio := Render(frames))
      else if s.pending.None? then s.(audio := Render(frames))
      else s.(audio := Install(frames, s.pending.value), pending := None)
    case Install(frames, node) =>
      s.(audio := AnnounceLatency(frames), fadeFrom := s.current, current := Some(node), position := 0,
         fadeActive := true, adopted := s.adopted + [node])
    case AnnounceLatency(frames) =>
      s.(audio := AnnounceFade(frames), reportedLatency := Max(Latency(s, s.fadeFrom), Latency(s, s.current)))
    case AnnounceFade(frames) =>
      s.(audio := Render(frames), fadeSnapshot := true)
    case Render(frames) =>
      if !s.fadeActive then s.(audio := Idle)
      else if s.position + frames >= s.fadeFrames then s.(audio := Retire)
      else s.(audio := Idle, position := s.position + frames)
    case Retire =>
      if s.fadeFrom.None? then s.(audio := Finish)
      else s.(audio := Retiring, ring := BeginPush(s.ring, s.fadeFrom.value))
    case Retiring =>
      if Pushing(s.ring.producer) then s.(ring := PushStep(s.ring))
      else if s.ring.producer.PushSucceeded? then s.(audio := Finish, ring := EndPush(s.ring))
      else s.(audio := Finish, ring := EndPush(s.ring), retireWaiting := s.fadeFrom)
    case Finish =>
      s.(audio := SettleLatency, fadeFrom := None, position := 0, fadeActive := false)
    case SettleLatency =>
      s.(audio := SettleFade, reportedLatency := Latency(s, s.current))
    case SettleFade =>
      s.(audio := Idle, fadeSnapshot := false)
  }

  function Step(s: Slot, a: Action): Slot
    requires Enabled(s, a)
  {
    match a
    case StartBlock(frames) => s.(audio := Flush(frames))
    case AudioStep => AudioNext(s)
    case Allocate(node) => s.(info := s.info + [node], publisher := Holding(|s.info|))
    case Exchange => s.(pending := Some(s.publisher.node), publisher := Replacing(s.pending))
    case DeleteReplaced =>
      s.(publisher := PublisherIdle,
         deleted := if s.publisher.replaced.Some? then s.deleted + [s.publisher.replaced.value] else s.deleted)
    case StartPop => s.(ring := BeginPop(s.ring))
    case PopAccess => s.(ring := PopStep(s.ring))
    case DeleteCollected =>
      s.(ring := EndPop(s.ring),
         deleted := if s.ring.consumer.PopGot? then s.deleted + [s.ring.consumer.node] else s.deleted)
  }

  // ---- ownership -------------------------------------------------------------------

  /** One if the reference is to node `n`, else zero. */
  function Names(node: Option<NodeId>, n: NodeId): nat { if node == Some(n) then 1 else 0 }

  /** After its push has succeeded, or after it was parked, the fade_from_ pointer is stale
      until it is cleared: the node already belongs to the queue or to retire_waiting_. */
  predicate FadeFromStale(s: Slot) {
    s.audio == Finish || (s.audio == Retiring && s.ring.producer.PushSucceeded?)
  }

  predicate WaitingStale(s: Slot) {
    s.audio.Flushing? && s.ring.producer.PushSucceeded?
  }

  /** How often node `n` is owned by the audio thread, ... */
  function AudioPlaces(s: Slot, n: NodeId): nat {
    Names(s.current, n)
    + (if FadeFromStale(s) then 0 else Names(s.fadeFrom, n))
    + (if WaitingStale(s) then 0 else Names(s.retireWaiting, n))
    + (if s.audio.Install? then Names(Some(s.audio.node), n) else 0)
  }

  /** ... is in the publisher's hands, ... */
  function PublisherPlaces(s: Slot, n: NodeId): nat {
    match s.publisher
    case PublisherIdle => 0
    case Holding(node) => Names(Some(node), n)
    case Replacing(replaced) => Names(replaced, n)
  }

  /** ... is in the collector's hands, ... */
  function CollectorPlaces(s: Slot, n: NodeId): nat {
    if s.ring.consumer.PopGot? then Names(Some(s.ring.consumer.node), n) else 0
  }

  /** ... is queued, or has been deleted. */
  function QueuedTimes(s: Slot, n: NodeId): nat
    requires WellFormed(s.ring)
  {
    Times(Contents(s.ring), n)
  }

  function Times(d: seq<NodeId>, n: NodeId): nat { multiset(d)[n] }

  function Places(s: Slot, n: NodeId): nat
    requires WellFormed(s.ring)
  {
    AudioPlaces(s, n) + PublisherPlaces(s, n) + CollectorPlaces(s, n) + Names(s.pending, n)
    + QueuedTimes(s, n) + Times(s.deleted, n)
  }

  /** Each allocated node is in exactly one place, and no other node is anywhere. */
  ghost predicate Conserved(s: Slot)
    requires WellFormed(s.ring)
  {
    forall n: NodeId :: Places(s, n) == if n < |s.info| then 1 else 0
  }

  /** How the fields and the program counters of the audio thread fit together. */
  predicate AudioFits(s: Slot) {
    && WellFormed(s.ring) && s.fadeFrames > 0
    && (s.audio.Flushing? <==> s.ring.producer != PushIdle && s.audio != Retiring)
    && (s.audio == Retiring ==> s.ring.producer != PushIdle)
    && (s.audio.Flushing? ==> s.retireWaiting == Some(s.ring.producer.node))
    && (s.audio == Retiring ==> s.fadeFrom == Some(s.ring.producer.node))
    && (s.fadeFrom.Some? ==> s.fadeActive)
    && (s.fadeActive && s.audio != Finish ==> s.retireWaiting == None)
    && (s.audio.Install? ==> !s.fadeActive && s.retireWaiting == None)
    && (s.audio.AnnounceLatency? || s.audio.AnnounceFade? ==> s.fadeActive)
    && (s.audio == Retire || s.audio == Retiring || s.audio == Finish ==> s.fadeActive)
    && (s.audio == SettleLatency || s.audio == SettleFade ==> !s.fadeActive)
    && (s.fadeActive ==> s.position < s.fadeFrames)
    && HasFrames(s.audio)
  }

  /** Empty blocks never reach the slot. */
  predicate HasFrames(a: Audio) {
    a.Flush? || a.Flushing? || a.Accept? || a.Install? || a.AnnounceLatency? || a.AnnounceFade? || a.Render? ==>
      a.frames > 0
  }

  ghost predicate Inv(s: Slot) {
    AudioFits(s) && Conserved(s)
  }

  lemma PreparedIsFine(fadeFrames: nat)
    requires fadeFrames > 0
    ensures Inv(Prepared(fadeFrames))
  {
    EmptyIsWellFormed();
  }

  /** The queue action a slot action performs, if any. */
  function QueueAction(s: Slot, a: Action): Option<RetireQueue.Action> {
    match a
    case AudioStep =>
      if s.audio.Flush? && s.retireWaiting.Some? then Some(DoBeginPush(s.retireWaiting.value))
      else if s.audio == Retire && s.fadeFrom.Some? then Some(DoBeginPush(s.fadeFrom.value))
      else if s.audio.Flushing? || s.audio == Retiring then
        if Pushing(s.ring.producer) then Some(DoPushStep) else Some(DoEndPush)
      else None
    case StartPop => Some(DoBeginPop)
    case PopAccess => Some(DoPopStep)
    case DeleteCollected => Some(DoEndPop)
    case _ => None
  }

  /** The slot drives its queue only by queue actions. */
  lemma QueueActionApplies(s: Slot, a: Action)
    requires AudioFits(s) && Enabled(s, a)
    ensures var q := QueueAction(s, a);
            if q.Some? then RetireQueue.Enabled(s.ring, q.value) && Step(s, a).ring == Apply(s.ring, q.value)
            else Step(s, a).ring == s.ring
  {
  }

  lemma AudioStillFits(s: Slot, a: Action)
    requires AudioFits(s) && Enabled(s, a)
    ensures AudioFits(Step(s, a))
  {
    QueueActionApplies(s, a);
    var q := QueueAction(s, a);
    if q.Some? {
      StepRefinesQueue(s.ring, q.value);
    }
  }

  predicate Commits(s: Slot, a: Action) {
    a.AudioStep? && (s.audio.Flushing? || s.audio == Retiring) && s.ring.producer.PushWritten?
  }

  predicate Releases(s: Slot, a: Action) { a.PopAccess? && s.ring.consumer.PopCleared? }

  /** The queue gains a node at the write-index store and loses one at the read-index store. */
  lemma QueueShare(s: Slot, a: Action, n: NodeId)
    requires AudioFits(s) && Enabled(s, a)
    ensures WellFormed(Step(s, a).ring)
    ensures QueuedTimes(Step(s, a), n) + (if Releases(s, a) then Names(Some(s.ring.consumer.node), n) else 0)
            == QueuedTimes(s, n) + (if Commits(s, a) then Names(Some(s.ring.producer.node), n) else 0)
  {
    QueueActionApplies(s, a);
    var q := QueueAction(s, a);
    hide WellFormed, Contents, Apply;
    if q.Some? {
      StepCountsNode(s.ring, q.value, n);
    }
  }

  /** The audio thread's part of the bookkeeping, for one node. */
  predicate AudioShares(s: Slot, n: NodeId)
    requires AudioEnabled(s)
  {
    var t := AudioNext(s);
    && AudioPlaces(t, n) + (if Commits(s, AudioStep) then Names(Some(s.ring.producer.node), n) else 0) + Names(t.pending, n)
       == AudioPlaces(s, n) + Names(s.pending, n)
    && t.publisher == s.publisher && t.deleted == s.deleted && t.info == s.info
    && t.ring.consumer == s.ring.consumer
  }

  /** While pushing, the audio thread gives its node away at the write-index store. */
  lemma PushShare(s: Slot, n: NodeId)
    requires AudioFits(s) && AudioEnabled(s) && (s.audio.Flushing? || s.audio == Retiring)
    ensures AudioShares(s, n)
  {
    hide WellFormed;
    match s.ring.producer
    case PushLoaded(_, _) =>
    case PushHasRoom(_, _) =>
    case PushWritten(_, _) =>
    case PushSucceeded(_) =>
    case PushFailed(_) =>
  }

  lemma QuietShare(s: Slot, n: NodeId)
    requires AudioFits(s) && AudioEnabled(s) && !s.audio.Flushing? && s.audio != Retiring
    ensures AudioShares(s, n)
  {
    hide WellFormed;
    match s.audio
    case Flush(_) =>
    case Accept(_) =>
    case Install(_, _) =>
    case Retire =>
    case Finish =>
    case _ =>
  }

  /** Otherwise it takes a node at the exchange of the pending slot, or keeps what it owns. */
  lemma AudioShare(s: Slot, n: NodeId)
    requires AudioFits(s) && AudioEnabled(s)
    ensures AudioShares(s, n)
  {
    hide WellFormed;
    match s.audio
    case Flushing(_) => PushShare(s, n);
    case Retiring => PushShare(s, n);
    case _ => QuietShare(s, n);
  }

  /** The publisher and the collector touch nothing the audio thread owns. */
  lemma AudioUntouched(s: Slot, a: Action, n: NodeId)
    requires AudioFits(s) && Enabled(s, a) && !a.AudioStep?
    ensures AudioPlaces(Step(s, a), n) == AudioPlaces(s, n)
  {
    hide WellFormed, AudioFits;
  }

  lemma AppendCounts(d: seq<NodeId>, x: NodeId, n: NodeId)
    ensures Times(d + [x], n) == Times(d, n) + Names(Some(x), n)
  {
  }

  /** A pop hands the collector its node at the read-index store. */
  lemma PopShare(s: Slot, n: NodeId)
    requires AudioFits(s) && Enabled(s, PopAccess)
    ensures CollectorPlaces(Step(s, PopAccess), n) == CollectorPlaces(s, n)
            + (if Releases(s, PopAccess) then Names(Some(s.ring.consumer.node), n) else 0)
  {
    hide WellFormed, AudioFits;
    match s.ring.consumer
    case PopLoaded(_) =>
    case PopNonEmpty(_) =>
    case PopTaken(_, _) =>
    case PopCleared(_, _) =>
  }

  /** What the publisher and the collector hold, together with the pending and the deleted. */
  function OtherPlaces(s: Slot, n: NodeId): nat {
    PublisherPlaces(s, n) + CollectorPlaces(s, n) + Names(s.pending, n) + Times(s.deleted, n)
  }

  lemma PublisherShare(s: Slot, a: Action, n: NodeId)
    requires Enabled(s, a) && (a.Allocate? || a.Exchange?)
    ensures OtherPlaces(Step(s, a), n) == OtherPlaces(s, n) + (if a.Allocate? && n == |s.info| then 1 else 0)
  {
    hide WellFormed, Times;
  }

  lemma DeleteReplacedShare(s: Slot, n: NodeId)
    requires Enabled(s, DeleteReplaced)
    ensures OtherPlaces(Step(s, DeleteReplaced), n) == OtherPlaces(s, n)
  {
    if s.publisher.replaced.Some? { AppendCounts(s.deleted, s.publisher.replaced.value, n); }
    hide WellFormed, Times;
  }

  lemma DeleteCollectedShare(s: Slot, n: NodeId)
    requires Enabled(s, DeleteCollected)
    ensures OtherPlaces(Step(s, DeleteCollected), n) == OtherPlaces(s, n)
  {
    if s.ring.consumer.PopGot? { AppendCounts(s.deleted, s.ring.consumer.node, n); }
    hide WellFormed, Times;
  }

  /** They pass nodes between their hands, the pending slot, the queue and the deleted. */
  lemma OthersShare(s: Slot, a: Action, n: NodeId)
    requires AudioFits(s) && Enabled(s, a) && !a.AudioStep?
    ensures OtherPlaces(Step(s, a), n)
            == OtherPlaces(s, n) + (if Releases(s, a) then Names(Some(s.ring.consumer.node), n) else 0)
               + (if a.Allocate? && n == |s.info| then 1 else 0)
  {
    hide WellFormed, AudioFits, Times;
    match a
    case StartBlock(_) =>
    case Allocate(_) => PublisherShare(s, a, n);
    case Exchange => PublisherShare(s, a, n);
    case DeleteReplaced => DeleteReplacedShare(s, n);
    case StartPop =>
    case PopAccess => PopShare(s, n);
    case DeleteCollected => DeleteCollectedShare(s, n);
  }

  /** No action loses, duplicates or invents a node. */
  lemma PlacesKept(s: Slot, a: Action, n: NodeId)
    requires AudioFits(s) && Enabled(s, a)
    ensures WellFormed(Step(s, a).ring)
    ensures Places(Step(s, a), n) == Places(s, n) + (if a.Allocate? && n == |s.info| then 1 else 0)
  {
    QueueShare(s, a, n);
    if a.AudioStep? {
      AudioShare(s, n);
    } else {
      AudioUntouched(s, a, n);
      OthersShare(s, a, n);
    }
    hide WellFormed, QueuedTimes, AudioNext, Step, AudioPlaces, FadeFromStale;
  }

  lemma InfoAfter(s: Slot, a: Action)
    requires AudioFits(s) && Enabled(s, a)
    ensures Step(s, a).info == if a.Allocate? then s.info + [a.node] else s.info
  {
    hide WellFormed;
  }

  lemma InvStep(s: Slot, a: Action)
    requires Inv(s) && Enabled(s, a)
    ensures Inv(Step(s, a))
  {
    AudioStillFits(s, a);
    InfoAfter(s, a);
    hide WellFormed, Places, Enabled, Step, AudioFits;
    forall n: NodeId
      ensures Places(Step(s, a), n) == if n < |Step(s, a).info| then 1 else 0
    {
      PlacesKept(s, a, n);
    }
  }
}
