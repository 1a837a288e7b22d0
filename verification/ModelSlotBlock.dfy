/** One call of `process` that no other thread interrupts, as a single transition: it is a run
    of audio steps, so all that holds of runs holds of it. */
module ModelSlotBlock {
  import opened Options
  import opened RetireQueue
  import opened ModelSlot
  import opened ModelSlotTheorems

  predicate Full(q: Ring) { Next(q.writeIndex) == q.readIndex }

  /** A whole push on a queue that has room. */
  function PushedRing(q: Ring, node: NodeId): Ring {
    if q.writeIndex >= |q.entries| then q
    else q.(entries := q.entries[q.writeIndex := Some(node)], writeIndex := Next(q.writeIndex))
  }

  lemma RingAfterPush(q: Ring, node: NodeId)
    requires WellFormed(q) && q.producer == PushIdle
    ensures Full(q) <==> |Contents(q)| == CAPACITY
    ensures !Full(q) ==> WellFormed(PushedRing(q, node)) && Contents(PushedRing(q, node)) == Contents(q) + [node]
  {
    NextCell(q);
    if !Full(q) {
      var a := Apply(q, DoBeginPush(node));
      StepRefinesQueue(q, DoBeginPush(node));
      var b := Apply(a, DoPushStep);
      StepRefinesQueue(a, DoPushStep);
      var c := Apply(b, DoPushStep);
      StepRefinesQueue(b, DoPushStep);
      var d := Apply(c, DoPushStep);
      StepRefinesQueue(c, DoPushStep);
      StepRefinesQueue(d, DoEndPush);
      assert Apply(d, DoEndPush) == PushedRing(q, node);
      hide WellFormed, Contents;
    }
  }

  /** A whole pop on a queue that is not empty. */
  function PoppedRing(q: Ring): Ring
    requires q.readIndex < |q.entries|
  {
    q.(entries := q.entries[q.readIndex := None], readIndex := Next(q.readIndex))
  }

  lemma RingAfterPop(q: Ring)
    requires WellFormed(q) && q.consumer == PopIdle
    ensures q.readIndex == q.writeIndex <==> Contents(q) == []
    ensures Contents(q) != [] ==>
              && q.entries[q.readIndex] == Some(Contents(q)[0])
              && WellFormed(PoppedRing(q)) && Contents(PoppedRing(q)) == Contents(q)[1..]
  {
    NextCell(q);
    if Contents(q) != [] {
      var a := Apply(q, DoBeginPop);
      StepRefinesQueue(q, DoBeginPop);
      var b := Apply(a, DoPopStep);
      StepRefinesQueue(a, DoPopStep);
      var c := Apply(b, DoPopStep);
      StepRefinesQueue(b, DoPopStep);
      var d := Apply(c, DoPopStep);
      StepRefinesQueue(c, DoPopStep);
      var e := Apply(d, DoPopStep);
      StepRefinesQueue(d, DoPopStep);
      OutcomesAreRight(d, DoPopStep);
      StepRefinesQueue(e, DoEndPop);
      assert Apply(e, DoEndPop) == PoppedRing(q);
      hide WellFormed, Contents;
    }
  }

  /** Retry the waiting retirement. */
  function Flushed(s: Slot): Slot {
    if s.retireWaiting.None? || Full(s.ring) then s
    else s.(ring := PushedRing(s.ring, s.retireWaiting.value), retireWaiting := None)
  }

  predicate Accepts(s: Slot) { !s.fadeActive && s.retireWaiting.None? && s.pending.Some? }

  /** Adopt the pending node at the block boundary. */
  function Accepted(s: Slot): Slot {
    if !Accepts(s) then s
    else
      var t := s.(pending := None, fadeFrom := s.current, current := s.pending, position := 0, fadeActive := true,
                  adopted := s.adopted + [s.pending.value]);
      t.(reportedLatency := Max(Latency(t, t.fadeFrom), Latency(t, t.current)), fadeSnapshot := true)
  }

  /** Queue the old node, or park it when the queue is full. */
  function Retired(s: Slot): Slot {
    if s.fadeFrom.None? then s
    else if Full(s.ring) then s.(retireWaiting := s.fadeFrom)
    else s.(ring := PushedRing(s.ring, s.fadeFrom.value))
  }

  function Settled(s: Slot): Slot {
    s.(fadeFrom := None, position := 0, fadeActive := false, reportedLatency := Latency(s, s.current), fadeSnapshot := false)
  }

  /** The fade is over. */
  function Finished(s: Slot): Slot {
    Settled(Retired(s))
  }

  function Played(s: Slot, frames: nat): Slot {
    if !s.fadeActive then s
    else if s.position + frames >= s.fadeFrames then Finished(s)
    else s.(position := s.position + frames)
  }

  /** The slot at the point of the block where the models run. */
  function Rendering(s: Slot): Slot {
    Accepted(Flushed(s))
  }

  // ---- it is a run of the transition system ----------------------------------------

  function AudioSteps(n: nat): (events: seq<Event>)
    ensures |events| == n
  {
    seq(n, _ => Act(AudioStep))
  }

  /** `t` is reached from `s` by `n` audio steps and nothing else. */
  ghost predicate AudioRun(s: Slot, n: nat, t: Slot)
    decreases n
  {
    if n == 0 then s == t else AudioEnabled(s) && AudioRun(AudioNext(s), n - 1, t)
  }

  lemma {:induction false} AudioRunsJoin(s: Slot, m: nat, t: Slot, n: nat, u: Slot)
    requires AudioRun(s, m, t) && AudioRun(t, n, u)
    ensures AudioRun(s, m + n, u)
    decreases m
  {
    if m > 0 {
      AudioRunsJoin(AudioNext(s), m - 1, t, n, u);
    }
  }

  lemma {:induction false} AudioRunIsARun(s: Slot, n: nat, t: Slot)
    requires AudioRun(s, n, t)
    ensures ModelSlotTheorems.Runs(s, AudioSteps(n), t)
    decreases n
  {
    if n > 0 {
      AudioRunIsARun(AudioNext(s), n - 1, t);
      assert AudioSteps(n)[0] == Act(AudioStep) && AudioSteps(n)[1..] == AudioSteps(n - 1);
      hide AudioNext, WellFormed;
    }
  }

  /** Between two program points of the audio thread, a push that runs through. */
  lemma PushRun(s: Slot, loaded: Slot, node: NodeId) returns (n: nat, t: Slot)
    requires WellFormed(s.ring) && s.ring.producer == PushIdle
    requires loaded.audio.Flushing? || loaded.audio == Retiring
    requires loaded.ring == BeginPush(s.ring, node)
    ensures AudioRun(loaded, n, t)
    ensures Full(s.ring) ==> t == loaded.(ring := s.ring.(producer := PushFailed(node)))
    ensures !Full(s.ring) ==> t == loaded.(ring := PushedRing(s.ring, node).(producer := PushSucceeded(node)))
  {
    StepIsWellFormed(s.ring, DoBeginPush(node));
    StepIsWellFormed(loaded.ring, DoPushStep);
    var one := AudioNext(loaded);
    assert one == loaded.(ring := PushStep(loaded.ring));
    assert AudioRun(one, 0, one);
    if Full(s.ring) {
      n, t := 1, one;
    } else {
      StepIsWellFormed(one.ring, DoPushStep);
      var two := AudioNext(one);
      assert two == loaded.(ring := PushStep(one.ring));
      var three := AudioNext(two);
      assert three == loaded.(ring := PushStep(two.ring));
      hide WellFormed, AudioNext;
      assert AudioRun(three, 0, three);
      assert AudioRun(two, 1, three);
      assert AudioRun(one, 2, three);
      n, t := 3, three;
    }
  }

  lemma FlushRun(s: Slot, frames: nat) returns (n: nat)
    requires WellFormed(s.ring) && s.ring.producer == PushIdle
    ensures AudioRun(s.(audio := Flush(frames)), n, Flushed(s).(audio := Accept(frames)))
  {
    var start := s.(audio := Flush(frames));
    var goal := Flushed(s).(audio := Accept(frames));
    assert AudioRun(goal, 0, goal);
    var next := AudioNext(start);
    if s.retireWaiting.None? {
      n := 1;
    } else {
      var m, t := PushRun(s, next, s.retireWaiting.value);
      assert AudioNext(t) == goal;
      assert AudioRun(t, 1, goal);
      AudioRunsJoin(next, m, t, 1, goal);
      n := m + 2;
    }
  }

  lemma AcceptRun(s: Slot, frames: nat) returns (n: nat)
    ensures AudioRun(s.(audio := Accept(frames)), n, Accepted(s).(audio := Render(frames)))
  {
    hide WellFormed;
    var start := s.(audio := Accept(frames));
    var goal := Accepted(s).(audio := Render(frames));
    assert AudioRun(goal, 0, goal);
    var one := AudioNext(start);
    if !Accepts(s) {
      n := 1;
    } else {
      var two := AudioNext(one);
      var three := AudioNext(two);
      assert AudioNext(three) == goal;
      hide AudioNext, Accepted;
      assert AudioRun(three, 1, goal);
      assert AudioRun(two, 2, goal);
      assert AudioRun(one, 3, goal);
      n := 4;
    }
  }

  lemma RetireRun(s: Slot) returns (n: nat)
    requires WellFormed(s.ring) && s.ring.producer == PushIdle
    ensures AudioRun(s.(audio := Retire), n, Retired(s).(audio := Finish))
  {
    var start := s.(audio := Retire);
    var goal := Retired(s).(audio := Finish);
    assert AudioRun(goal, 0, goal);
    var next := AudioNext(start);
    if s.fadeFrom.None? {
      n := 1;
    } else {
      var m, t := PushRun(s, next, s.fadeFrom.value);
      assert AudioNext(t) == goal;
      assert AudioRun(t, 1, goal);
      AudioRunsJoin(next, m, t, 1, goal);
      n := m + 2;
    }
  }

  lemma FinishRun(s: Slot) returns (n: nat)
    requires WellFormed(s.ring) && s.ring.producer == PushIdle
    ensures AudioRun(s.(audio := Retire), n, Finished(s).(audio := Idle))
  {
    var m := RetireRun(s);
    hide WellFormed, AudioRun, Retired;
    assert Finished(s).(audio := Idle) == Settled(Retired(s)).(audio := Idle);
    AudioRunsJoin(s.(audio := Retire), m, Retired(s).(audio := Finish), 3, Finished(s).(audio := Idle));
    n := m + 3;
  }

  lemma PlayRun(s: Slot, frames: nat) returns (n: nat)
    requires WellFormed(s.ring) && s.ring.producer == PushIdle
    ensures AudioRun(s.(audio := Render(frames)), n, Played(s, frames).(audio := Idle))
  {
    var start := s.(audio := Render(frames));
    var goal := Played(s, frames).(audio := Idle);
    if s.fadeActive && s.position + frames >= s.fadeFrames {
      var m := FinishRun(s);
      assert AudioNext(start) == s.(audio := Retire);
      n := m + 1;
    } else {
      assert AudioRun(goal, 0, goal);
      n := 1;
    }
  }

  lemma RenderRun(s: Slot, frames: nat) returns (n: nat)
    requires AudioFits(s) && s.audio == Idle
    ensures AudioRun(s.(audio := Flush(frames)), n, Rendering(s).(audio := Render(frames)))
  {
    var a := FlushRun(s, frames);
    var b := AcceptRun(Flushed(s), frames);
    hide AudioNext, WellFormed, AudioRun, Flushed, Accepted;
    AudioRunsJoin(s.(audio := Flush(frames)), a, Flushed(s).(audio := Accept(frames)), b,
                  Rendering(s).(audio := Render(frames)));
    n := a + b;
  }

  /** An uninterrupted block keeps the invariant, both where the models run and at its end. */
  lemma BlockKeepsInv(s: Slot, frames: nat)
    requires Inv(s) && s.audio == Idle && frames > 0
    ensures Inv(Rendering(s).(audio := Render(frames)))
    ensures Played(Rendering(s), frames).audio == Idle && Inv(Played(Rendering(s), frames))
  {
    var start := s.(audio := Flush(frames));
    var middle := Rendering(s).(audio := Render(frames));
    InvStep(s, StartBlock(frames));
    assert Step(s, StartBlock(frames)) == start;
    var m := RenderRun(s, frames);
    hide AudioNext, WellFormed, AudioRun, Conserved, Accepted;
    AudioRunIsARun(start, m, middle);
    OwnershipIsConserved(start, AudioSteps(m), middle);
    var n := PlayRun(Rendering(s), frames);
    AudioRunIsARun(middle, n, Played(Rendering(s), frames).(audio := Idle));
    OwnershipIsConserved(middle, AudioSteps(n), Played(Rendering(s), frames).(audio := Idle));
  }

  /** The whole block as one run of the transition system. */
  lemma BlockIsARun(s: Slot, frames: nat) returns (n: nat)
    requires Inv(s) && s.audio == Idle && frames > 0
    ensures ModelSlotTheorems.Runs(s, [Act(StartBlock(frames))] + AudioSteps(n), Played(Rendering(s), frames))
  {
    BlockKeepsInv(s, frames);
    var start := s.(audio := Flush(frames));
    assert Step(s, StartBlock(frames)) == start;
    var goal := Played(Rendering(s), frames).(audio := Idle);
    var m := RenderRun(s, frames);
    var k := PlayRun(Rendering(s), frames);
    hide AudioNext, WellFormed, AudioRun, Conserved, Accepted, Played, Rendering;
    AudioRunsJoin(start, m, Rendering(s).(audio := Render(frames)), k, goal);
    AudioRunIsARun(start, m + k, goal);
    n := m + k;
    assert ([Act(StartBlock(frames))] + AudioSteps(n))[1..] == AudioSteps(n);
  }

  /** A whole call of `publish`. */
  function Published(s: Slot, node: NodeInfo): Slot {
    s.(info := s.info + [node], pending := Some(|s.info|), deleted := s.deleted + AsList(s.pending))
  }

  lemma PublishedIsARun(s: Slot, node: NodeInfo)
    requires Inv(s) && s.publisher == PublisherIdle
    ensures ModelSlotTheorems.Runs(s, [Act(Allocate(node)), Act(Exchange), Act(DeleteReplaced)], Published(s, node))
    ensures Inv(Published(s, node))
  {
    var events := [Act(Allocate(node)), Act(Exchange), Act(DeleteReplaced)];
    var one := Step(s, Allocate(node));
    var two := Step(one, Exchange);
    var three := Step(two, DeleteReplaced);
    hide WellFormed, Inv, Step, Published;
    assert events[1..] == [Act(Exchange), Act(DeleteReplaced)] && events[1..][1..] == [Act(DeleteReplaced)];
    assert ModelSlotTheorems.Runs(three, [], three);
    assert ModelSlotTheorems.Runs(two, [Act(DeleteReplaced)], three);
    assert ModelSlotTheorems.Runs(one, [Act(Exchange), Act(DeleteReplaced)], three);
    OwnershipIsConserved(s, events, three);
  }

  lemma RestartedWith(s: Slot, fadeFrames: nat)
    requires WellFormed(s.ring)
    ensures Restarted(s, 1).(fadeFrames := fadeFrames) == Restarted(s, fadeFrames)
  {
  }

  lemma RingOfInv(s: Slot)
    requires Inv(s)
    ensures WellFormed(s.ring)
  {
  }

  /** One whole pop of the collector and the deletion of what it returned. */
  function Collected(s: Slot): Slot
    requires WellFormed(s.ring)
  {
    s.(ring := PoppedRing(s.ring), deleted := s.deleted + if Contents(s.ring) == [] then [] else [Contents(s.ring)[0]])
  }

  lemma CollectedIsFine(s: Slot)
    requires Inv(s) && s.ring.consumer == PopIdle && Contents(s.ring) != []
    ensures Inv(Collected(s))
  {
    RingAfterPop(s.ring);
    NextCell(s.ring);
    InvStep(s, StartPop);
    var a := Step(s, StartPop);
    InvStep(a, PopAccess);
    var b := Step(a, PopAccess);
    assert b.ring.consumer == PopNonEmpty(s.ring.readIndex);
    InvStep(b, PopAccess);
    var c := Step(b, PopAccess);
    InvStep(c, PopAccess);
    var d := Step(c, PopAccess);
    InvStep(d, PopAccess);
    var e := Step(d, PopAccess);
    assert e.ring.consumer == PopGot(Contents(s.ring)[0]);
    InvStep(e, DeleteCollected);
    assert Step(e, DeleteCollected) == Collected(s);
    hide Inv;
  }

  /** Where the models run, the two sides of a fade are different live nodes. */
  lemma SidesAreLive(s: Slot, frames: nat)
    requires Inv(s) && s.audio == Render(frames)
    ensures s.current.Some? ==> s.current.value < |s.info| && s.current.value !in s.deleted
    ensures s.fadeFrom.Some? ==> s.fadeFrom.value < |s.info| && s.fadeFrom.value !in s.deleted
    ensures s.fadeFrom.Some? ==> s.fadeFrom != s.current
  {
    if s.current.Some? { DereferencedIsLive(s, s.current.value); }
    if s.fadeFrom.Some? {
      DereferencedIsLive(s, s.fadeFrom.value);
      assert AudioPlaces(s, s.fadeFrom.value) <= Places(s, s.fadeFrom.value) <= 1;
    }
  }
}
