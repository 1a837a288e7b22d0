/** What holds of the model slot under every interleaving of its three threads, including
    stop-the-world calls of `prepare`. */
module ModelSlotTheorems {
  import opened Options
  import opened RetireQueue
  import opened ModelSlot

  /** The audio thread is stopped and nobody is inside a slot call. */
  predicate Quiescent(s: Slot) {
    s.audio == Idle && s.publisher == PublisherIdle && s.ring.consumer == PopIdle
  }

  function AsList(node: Option<NodeId>): seq<NodeId> { if node.Some? then [node.value] else [] }

  /** What `prepare` deletes on the caller's thread, after what was deleted before. */
  function DeletedAll(s: Slot): seq<NodeId>
    requires WellFormed(s.ring)
  {
    s.deleted + AsList(s.pending) + AsList(s.current) + AsList(s.fadeFrom) + AsList(s.retireWaiting) + Contents(s.ring)
  }

  /** `prepare`: delete everything and start over. */
  function Restarted(s: Slot, fadeFrames: nat): Slot
    requires WellFormed(s.ring)
  {
    Prepared(fadeFrames).(info := s.info, adopted := s.adopted, deleted := DeletedAll(s))
  }

  datatype Event = Act(action: ModelSlot.Action) | Restart(fadeFrames: nat)

  predicate Possible(s: Slot, e: Event) {
    match e
    case Act(a) => ModelSlot.Enabled(s, a)
    case Restart(fadeFrames) => Quiescent(s) && fadeFrames > 0 && WellFormed(s.ring)
  }

  function After(s: Slot, e: Event): Slot
    requires Possible(s, e)
  {
    match e
    case Act(a) => Step(s, a)
    case Restart(fadeFrames) => Restarted(s, fadeFrames)
  }

  ghost predicate Runs(s: Slot, events: seq<Event>, t: Slot)
    decreases |events|
  {
    if events == [] then s == t else Possible(s, events[0]) && Runs(After(s, events[0]), events[1..], t)
  }

  // ---- ownership -------------------------------------------------------------------

  lemma ListCounts(a: seq<NodeId>, b: seq<NodeId>, n: NodeId)
    ensures Times(a + b, n) == Times(a, n) + Times(b, n)
  {
  }

  lemma AsListCounts(node: Option<NodeId>, n: NodeId)
    ensures Times(AsList(node), n) == Names(node, n)
  {
  }

  /** Between calls every place but the two hands may hold nodes; `prepare` empties them. */
  lemma RestartCounts(s: Slot, fadeFrames: nat, n: NodeId)
    requires AudioFits(s) && Quiescent(s)
    ensures Times(Restarted(s, fadeFrames).deleted, n) == Places(s, n)
  {
    var a := s.deleted + AsList(s.pending);
    var b := a + AsList(s.current);
    var c := b + AsList(s.fadeFrom);
    var d := c + AsList(s.retireWaiting);
    ListCounts(s.deleted, AsList(s.pending), n);
    ListCounts(a, AsList(s.current), n);
    ListCounts(b, AsList(s.fadeFrom), n);
    ListCounts(c, AsList(s.retireWaiting), n);
    ListCounts(d, Contents(s.ring), n);
    AsListCounts(s.pending, n);
    AsListCounts(s.current, n);
    AsListCounts(s.fadeFrom, n);
    AsListCounts(s.retireWaiting, n);
    assert Restarted(s, fadeFrames).deleted == d + Contents(s.ring);
    hide WellFormed, Contents, Times;
  }

  lemma EmptyPlaces(s: Slot, fadeFrames: nat, n: NodeId)
    requires WellFormed(s.ring)
    ensures var t := Restarted(s, fadeFrames);
            WellFormed(t.ring) && Places(t, n) == Times(t.deleted, n)
  {
    EmptyIsWellFormed();
  }

  /** `prepare` leaves no live node: whatever was allocated is deleted exactly once. */
  lemma RestartDeletesAll(s: Slot, fadeFrames: nat)
    requires Inv(s) && Quiescent(s) && fadeFrames > 0
    ensures Inv(Restarted(s, fadeFrames))
    ensures forall n :: 0 <= n < |s.info| ==> Times(Restarted(s, fadeFrames).deleted, n) == 1
  {
    EmptyIsWellFormed();
    forall n: NodeId
      ensures Times(Restarted(s, fadeFrames).deleted, n) == Places(s, n)
      ensures Places(Restarted(s, fadeFrames), n) == Times(Restarted(s, fadeFrames).deleted, n)
    {
      RestartCounts(s, fadeFrames, n);
      EmptyPlaces(s, fadeFrames, n);
    }
    hide Places, Times;
  }

  lemma InvAfter(s: Slot, e: Event)
    requires Inv(s) && Possible(s, e)
    ensures Inv(After(s, e))
  {
    match e
    case Act(a) => InvStep(s, a);
    case Restart(fadeFrames) => RestartDeletesAll(s, fadeFrames);
  }

  /** Over every run each allocated node is in exactly one place, and the pointers of the
      audio thread fit its program counter. */
  lemma {:induction false} OwnershipIsConserved(s: Slot, events: seq<Event>, t: Slot)
    requires Inv(s) && Runs(s, events, t)
    ensures Inv(t)
    decreases |events|
  {
    if events != [] {
      InvAfter(s, events[0]);
      OwnershipIsConserved(After(s, events[0]), events[1..], t);
    }
  }

  lemma TwiceCounted(d: seq<NodeId>, i: nat, j: nat)
    requires i < j < |d| && d[i] == d[j]
    ensures Times(d, d[i]) >= 2
  {
    assert d == d[..i + 1] + d[i + 1..];
    assert d[i] in d[..i + 1] && d[i] in d[i + 1..];
  }

  /** So no node is ever deleted twice, and none that was not allocated. */
  lemma DeletedAtMostOnce(s: Slot)
    requires Inv(s)
    ensures forall i, j :: 0 <= i < j < |s.deleted| ==> s.deleted[i] != s.deleted[j]
    ensures forall n :: n in s.deleted ==> n < |s.info|
  {
    forall n | n in s.deleted
      ensures n < |s.info|
    {
      assert Places(s, n) >= Times(s.deleted, n) > 0;
    }
    forall i, j | 0 <= i < j < |s.deleted| && s.deleted[i] == s.deleted[j]
      ensures false
    {
      assert Places(s, s.deleted[i]) <= 1;
      TwiceCounted(s.deleted, i, j);
    }
  }

  /** A remark on the shape of its steps: the audio thread neither allocates nor deletes. */
  lemma AudioNeverDeletes(s: Slot)
    requires AudioFits(s) && AudioEnabled(s)
    ensures AudioNext(s).deleted == s.deleted && AudioNext(s).info == s.info
  {
    hide WellFormed;
  }

  /** Parking a node never overwrites one that is still waiting. */
  lemma RetireNeverOverwrites(s: Slot)
    requires Inv(s) && AudioEnabled(s)
    ensures AudioNext(s).retireWaiting != s.retireWaiting ==>
              s.retireWaiting == None || AudioNext(s).retireWaiting == None
  {
    hide WellFormed;
  }

  /** Nodes whose memory the audio thread reads in its next step. */
  function Dereferenced(s: Slot): set<NodeId> {
    match s.audio
    case Install(_, node) => {node}
    case AnnounceLatency(_) => Pointees(s.fadeFrom) + Pointees(s.current)
    case Render(_) => Pointees(s.current) + (if s.fadeActive then Pointees(s.fadeFrom) else {})
    case SettleLatency => Pointees(s.current)
    case _ => {}
  }

  function Pointees(node: Option<NodeId>): set<NodeId> { if node.Some? then {node.value} else {} }

  /** No use after free: what the audio thread reads is allocated, not deleted, and in nobody
      else's hands. */
  lemma DereferencedIsLive(s: Slot, n: NodeId)
    requires Inv(s) && n in Dereferenced(s)
    ensures n < |s.info| && n !in s.deleted && n !in Contents(s.ring)
    ensures PublisherPlaces(s, n) == CollectorPlaces(s, n) == 0
  {
    assert AudioPlaces(s, n) >= 1;
    assert Places(s, n) >= 1;
    assert Times(s.deleted, n) == 0 && Times(Contents(s.ring), n) == 0;
  }

  /** All that the publisher, the collector and the start of a block do to the fields the
      audio thread shares. */
  lemma OthersTouch(s: Slot, a: ModelSlot.Action)
    requires ModelSlot.Enabled(s, a) && !a.AudioStep?
    ensures var t := Step(s, a);
            && t.adopted == s.adopted && t.current == s.current && t.fadeFrom == s.fadeFrom
            && t.fadeActive == s.fadeActive && t.fadeSnapshot == s.fadeSnapshot && t.reportedLatency == s.reportedLatency
            && t.info == (if a.Allocate? then s.info + [a.node] else s.info)
            && t.audio == (if a.StartBlock? then Flush(a.frames) else s.audio)
            && t.pending == (if a.Exchange? then Some(s.publisher.node) else s.pending)
            && t.publisher == (match a
                               case Allocate(_) => Holding(|s.info|)
                               case Exchange => Replacing(s.pending)
                               case DeleteReplaced => PublisherIdle
                               case _ => s.publisher)
  {
    hide WellFormed;
  }

  // ---- order of adoption -----------------------------------------------------------

  /** Everything adopted so far is older than node `n`. */
  predicate Newer(s: Slot, n: NodeId) {
    n < |s.info| && forall i :: 0 <= i < |s.adopted| ==> s.adopted[i] < n
  }

  /** Publications are adopted in the order they were allocated, and what is on its way is
      newer than everything adopted. */
  predicate Ordered(s: Slot) {
    && (forall i, j :: 0 <= i < j < |s.adopted| ==> s.adopted[i] < s.adopted[j])
    && (forall i :: 0 <= i < |s.adopted| ==> s.adopted[i] < |s.info|)
    && (s.current.Some? ==> s.adopted != [] && s.current.value == s.adopted[|s.adopted| - 1])
    && (s.audio.Install? ==> Newer(s, s.audio.node))
    && (s.pending.Some? ==> Newer(s, s.pending.value))
    && (s.publisher.Holding? ==> Newer(s, s.publisher.node) && s.publisher.node == |s.info| - 1)
    && (s.audio.Install? && s.pending.Some? ==> s.audio.node < s.pending.value)
    && (s.audio.Install? && s.publisher.Holding? ==> s.audio.node < s.publisher.node)
    && (s.pending.Some? && s.publisher.Holding? ==> s.pending.value < s.publisher.node)
  }

  /** Only taking and installing the pending node concerns the order of adoption. */
  lemma OrderUntouched(s: Slot)
    requires AudioEnabled(s) && !s.audio.Accept? && !s.audio.Install?
    ensures var t := AudioNext(s);
            && t.adopted == s.adopted && t.current == s.current && t.pending == s.pending
            && t.publisher == s.publisher && t.info == s.info && !t.audio.Install?
  {
    hide WellFormed;
    match s.audio
    case Flush(_) =>
    case Flushing(_) =>
    case Render(_) =>
    case Retire =>
    case Retiring =>
    case _ =>
  }

  lemma OrderedAfterAudio(s: Slot)
    requires Ordered(s) && AudioEnabled(s)
    ensures Ordered(AudioNext(s))
  {
    if s.audio.Install? {
      hide AudioNext, Ordered;
    } else if !s.audio.Accept? {
      OrderUntouched(s);
      hide AudioNext;
    }
  }

  lemma OrderedAfter(s: Slot, e: Event)
    requires AudioFits(s) && Ordered(s) && Possible(s, e)
    ensures Ordered(After(s, e))
  {
    match e
    case Act(a) =>
      if a.AudioStep? {
        OrderedAfterAudio(s);
      } else {
        OthersTouch(s, a);
      }
      hide WellFormed, AudioFits, AudioNext, Step;
    case Restart(_) =>
  }

  /** Over every run the adopted publications strictly increase: the newest wins, none is
      adopted twice and none comes back. */
  lemma {:induction false} AdoptedInOrder(s: Slot, events: seq<Event>, t: Slot)
    requires Inv(s) && Ordered(s) && Runs(s, events, t)
    ensures Ordered(t) && s.adopted <= t.adopted
    decreases |events|
  {
    if events != [] {
      InvAfter(s, events[0]);
      OrderedAfter(s, events[0]);
      AdoptedInOrder(After(s, events[0]), events[1..], t);
      AdoptedGrows(s, events[0]);
    }
  }

  lemma AdoptedGrows(s: Slot, e: Event)
    requires AudioFits(s) && Possible(s, e)
    ensures s.adopted <= After(s, e).adopted
  {
    hide WellFormed;
  }

  // ---- what other threads can observe ----------------------------------------------

  /** The steps of a block in which the fade fields and their snapshots may differ. */
  predicate BetweenStores(a: Audio) {
    a.AnnounceLatency? || a.AnnounceFade? || a == SettleLatency || a == SettleFade
  }

  function SettledLatency(s: Slot): int {
    if s.fadeActive then Max(Latency(s, s.fadeFrom), Latency(s, s.current)) else Latency(s, s.current)
  }

  /** Outside those steps the two snapshots agree with the audio thread's own fields: during
      a fade the larger latency of the two models, otherwise that of the current one. */
  predicate Announced(s: Slot) {
    && (s.fadeFrom.Some? ==> s.fadeFrom.value < |s.info|)
    && (s.current.Some? ==> s.current.value < |s.info|)
    && (!BetweenStores(s.audio) ==> s.fadeSnapshot == s.fadeActive)
    && (!BetweenStores(s.audio) || s.audio.AnnounceFade? || s.audio == SettleFade ==>
          s.reportedLatency == SettledLatency(s))
  }

  lemma AnnouncedAfterAudio(s: Slot)
    requires Inv(s) && Announced(s) && AudioEnabled(s)
    ensures Announced(AudioNext(s))
  {
    if s.audio.Install? { assert Places(s, s.audio.node) >= AudioPlaces(s, s.audio.node) >= 1; }
    hide WellFormed, Places;
    match s.audio
    case Install(_, _) =>
    case AnnounceLatency(_) =>
    case AnnounceFade(_) =>
    case Finish =>
    case SettleLatency =>
    case SettleFade =>
    case _ => FadeUntouched(s);
  }

  lemma FadeUntouched(s: Slot)
    requires AudioEnabled(s) && !s.audio.Install? && !BetweenStores(s.audio) && s.audio != Finish
    ensures var t := AudioNext(s);
            && t.fadeFrom == s.fadeFrom && t.current == s.current && t.fadeActive == s.fadeActive && t.info == s.info
            && t.fadeSnapshot == s.fadeSnapshot && t.reportedLatency == s.reportedLatency
            && !BetweenStores(t.audio)
  {
    hide WellFormed;
    match s.audio
    case Flush(_) =>
    case Flushing(_) =>
    case Render(_) =>
    case Retire =>
    case Retiring =>
    case _ =>
  }

  lemma AnnouncedAfter(s: Slot, e: Event)
    requires Inv(s) && Announced(s) && Possible(s, e)
    ensures Announced(After(s, e))
  {
    match e
    case Act(a) =>
      if a.AudioStep? {
        AnnouncedAfterAudio(s);
      } else {
        OthersTouch(s, a);
        if a.Allocate? {
        }
      }
      hide WellFormed, AudioNext, Step;
    case Restart(_) =>
  }

  lemma {:induction false} AnnouncedAlways(s: Slot, events: seq<Event>, t: Slot)
    requires Inv(s) && Announced(s) && Runs(s, events, t)
    ensures Announced(t)
    decreases |events|
  {
    if events != [] {
      InvAfter(s, events[0]);
      AnnouncedAfter(s, events[0]);
      AnnouncedAlways(After(s, events[0]), events[1..], t);
    }
  }

  /** What the snapshots mean: outside a fade the reported latency is that of the current node's
      model, inside one the larger of the two, and nothing where there is no model or a negative
      report. */
  lemma AnnouncedLatency(s: Slot)
    requires Announced(s) && !BetweenStores(s.audio)
    ensures s.reportedLatency >= 0 && s.fadeSnapshot == s.fadeActive
    ensures s.current.Some? && s.info[s.current.value].hasModel ==> s.reportedLatency >= s.info[s.current.value].latency
    ensures s.fadeActive && s.fadeFrom.Some? && s.info[s.fadeFrom.value].hasModel ==>
              s.reportedLatency >= s.info[s.fadeFrom.value].latency
    ensures s.reportedLatency > 0 ==>
              || (s.current.Some? && s.info[s.current.value].hasModel && s.reportedLatency == s.info[s.current.value].latency)
              || (s.fadeActive && s.fadeFrom.Some? && s.info[s.fadeFrom.value].hasModel
                  && s.reportedLatency == s.info[s.fadeFrom.value].latency)
  {
  }

  /** A prepared slot satisfies all of it, so every run from one does: each node is in one
      place, none is deleted twice, publications are adopted in order, and the snapshots
      agree with the audio thread's fields. */
  lemma PreparedSlotStaysSafe(fadeFrames: nat, events: seq<Event>, t: Slot)
    requires fadeFrames > 0 && Runs(Prepared(fadeFrames), events, t)
    ensures Inv(t) && Ordered(t) && Announced(t)
    ensures forall i, j :: 0 <= i < j < |t.deleted| ==> t.deleted[i] != t.deleted[j]
  {
    PreparedIsFine(fadeFrames);
    OwnershipIsConserved(Prepared(fadeFrames), events, t);
    AdoptedInOrder(Prepared(fadeFrames), events, t);
    AnnouncedAlways(Prepared(fadeFrames), events, t);
    DeletedAtMostOnce(t);
  }
}
