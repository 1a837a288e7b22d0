/** The load worker and the model slot together: requests, loading, publication, audio and
    collection interleave freely, with the worker as the only publisher. A node's tag is the
    generation of the request it was loaded for. */
module EndToEnd {
  import opened Options
  import opened RetireQueue
  import opened ModelSlot
  import opened ModelSlotTheorems
  import opened ModelSlotProgress
  import LoadWorker

  /** `failed` collects the generations whose load failed, `sources` for each node the path its
      model was loaded from. */
  datatype System = System(slot: Slot, worker: LoadWorker.Worker, failed: set<nat>, sources: seq<string>)

  datatype Happening = InSlot(action: ModelSlot.Action) | InWorker(step: LoadWorker.Step)

  /** Nodes that were exchanged into the pending slot so far. */
  function Exchanged(y: System): int { if y.slot.publisher.Holding? then |y.slot.info| - 1 else |y.slot.info| }

  /** The task being published has reached the pending slot. */
  predicate HandedOver(y: System) {
    && y.worker.position.Publishing? && Exchanged(y) == |y.slot.info| > 0
    && y.slot.info[|y.slot.info| - 1].tag == y.worker.position.task.generation
  }

  predicate IsPublisherAction(a: ModelSlot.Action) { a.Allocate? || a.Exchange? || a.DeleteReplaced? }

  /** `publish` runs inside the worker's critical section, once for each task, with the model
      that was loaded for it; a publication that throws has not allocated its node. */
  predicate MayHappen(y: System, e: Happening) {
    match e
    case InSlot(a) =>
      && ModelSlot.Enabled(y.slot, a)
      && (IsPublisherAction(a) ==> y.worker.position.Publishing?)
      && (a.Allocate? ==>
            && !HandedOver(y) && a.node.tag == y.worker.position.task.generation
            && a.node.hasModel == !y.worker.position.task.detach)
    case InWorker(s) =>
      && LoadWorker.Enabled(y.worker, s)
      && (s.PublishEnds? ==> y.slot.publisher == PublisherIdle && s.ok == HandedOver(y))
  }

  function Happened(y: System, e: Happening): System
    requires MayHappen(y, e)
  {
    match e
    case InSlot(a) =>
      y.(slot := Step(y.slot, a), sources := if a.Allocate? then y.sources + [y.worker.position.task.path] else y.sources)
    case InWorker(s) =>
      y.(worker := LoadWorker.Next(y.worker, s),
         failed := if s.LoadEnds? && LoadWorker.Next(y.worker, s).position.failed
                   then y.failed + {y.worker.position.task.generation} else y.failed)
  }

  ghost predicate History(y: System, events: seq<Happening>, z: System)
    decreases |events|
  {
    if events == [] then y == z else MayHappen(y, events[0]) && History(Happened(y, events[0]), events[1..], z)
  }

  // ---- the joint invariant ---------------------------------------------------------

  predicate TagsIncrease(info: seq<NodeInfo>) {
    forall i, j :: 0 <= i < j < |info| ==> info[i].tag < info[j].tag
  }

  predicate TagsUpTo(info: seq<NodeInfo>, bound: nat) {
    forall i :: 0 <= i < |info| ==> info[i].tag <= bound
  }

  predicate NoneFailed(info: seq<NodeInfo>, failed: set<nat>) {
    forall i :: 0 <= i < |info| ==> info[i].tag !in failed
  }

  /** The worker has a task for which no node exists yet. */
  predicate NodeToCome(y: System) {
    LoadWorker.Busy(y.worker) && !y.slot.publisher.Holding? && !HandedOver(y)
  }

  predicate LoadSucceeded(p: LoadWorker.Position) { p.Publishing? || p.InFlight? || (p.Loaded? && !p.failed) }

  /** Tags follow the worker's generations, and none belongs to a failed load. */
  predicate Tagged(y: System) {
    && TagsIncrease(y.slot.info) && TagsUpTo(y.slot.info, y.worker.consumed) && NoneFailed(y.slot.info, y.failed)
    && (NodeToCome(y) ==> forall i :: 0 <= i < |y.slot.info| ==> y.slot.info[i].tag < y.worker.consumed)
    && (forall g :: g in y.failed ==> g <= y.worker.consumed)
    && (LoadSucceeded(y.worker.position) ==> y.worker.consumed !in y.failed)
  }

  /** The publisher acts only inside the worker's publication, on the task at hand. */
  predicate PublisherFits(y: System) {
    && (y.slot.publisher != PublisherIdle ==> y.worker.position.Publishing?)
    && (y.slot.publisher.Holding? ==>
          && |y.slot.info| > 0 && y.slot.publisher.node == |y.slot.info| - 1
          && y.slot.info[|y.slot.info| - 1].tag == y.worker.position.task.generation)
    && (y.slot.publisher.Replacing? ==> HandedOver(y))
  }

  /** The slot is heading for the last node that was exchanged, and a published status names
      that node's generation. */
  predicate Heads(y: System) {
    && Target(y.slot) == (if Exchanged(y) == 0 then None else Some(Exchanged(y) - 1))
    && (y.worker.status.state == LoadWorker.Published ==>
          |y.slot.info| > 0 && y.slot.info[|y.slot.info| - 1].tag == y.worker.status.completed)
  }

  ghost predicate Joint(y: System) {
    ModelSlot.Inv(y.slot) && Ordered(y.slot) && LoadWorker.Inv(y.worker) && Tagged(y) && PublisherFits(y) && Heads(y)
  }

  lemma TargetAfter(s: Slot, a: ModelSlot.Action)
    requires ModelSlot.Inv(s) && ModelSlot.Enabled(s, a)
    ensures Target(Step(s, a)) == if a.Exchange? then Some(s.publisher.node) else Target(s)
  {
    InvStep(s, a);
    if a.AudioStep? {
      AudioPays(s);
    } else if !a.Exchange? {
      OthersPay(s, a);
    }
    hide WellFormed, ModelSlot.Conserved, AudioFits, AudioNext;
  }

  /** All that a slot step does to the fields the worker cares about. */
  lemma PublisherAfter(s: Slot, a: ModelSlot.Action)
    requires ModelSlot.Enabled(s, a)
    ensures Step(s, a).info == if a.Allocate? then s.info + [a.node] else s.info
    ensures Step(s, a).publisher == match a
                                    case Allocate(_) => Holding(|s.info|)
                                    case Exchange => Replacing(s.pending)
                                    case DeleteReplaced => PublisherIdle
                                    case _ => s.publisher
  {
    if a.AudioStep? {
      AudioLeavesPublisher(s);
    } else {
      OthersTouch(s, a);
    }
    hide Step;
  }

  lemma TaggedAfterSlot(y: System, a: ModelSlot.Action)
    requires LoadWorker.Inv(y.worker) && Tagged(y) && PublisherFits(y) && MayHappen(y, InSlot(a))
    ensures Tagged(Happened(y, InSlot(a)))
  {
    PublisherAfter(y.slot, a);
    hide Step, ModelSlot.Enabled;
  }

  lemma PublisherFitsAfterSlot(y: System, a: ModelSlot.Action)
    requires LoadWorker.Inv(y.worker) && PublisherFits(y) && MayHappen(y, InSlot(a))
    ensures PublisherFits(Happened(y, InSlot(a)))
  {
    PublisherAfter(y.slot, a);
    hide Step;
  }

  lemma HeadsAfterSlot(y: System, a: ModelSlot.Action)
    requires ModelSlot.Inv(y.slot) && LoadWorker.Inv(y.worker) && PublisherFits(y) && Heads(y) && MayHappen(y, InSlot(a))
    ensures Heads(Happened(y, InSlot(a)))
  {
    PublisherAfter(y.slot, a);
    TargetAfter(y.slot, a);
    hide Step, Target, ModelSlot.Inv;
  }

  /** A slot step keeps what the two share. */
  lemma SlotStepKeeps(y: System, a: ModelSlot.Action)
    requires Joint(y) && MayHappen(y, InSlot(a))
    ensures Joint(Happened(y, InSlot(a)))
  {
    InvStep(y.slot, a);
    OrderedAfter(y.slot, Act(a));
    TaggedAfterSlot(y, a);
    PublisherFitsAfterSlot(y, a);
    HeadsAfterSlot(y, a);
    hide WellFormed, ModelSlot.Inv, Ordered, Step, Tagged, PublisherFits, Heads;
  }

  lemma AudioLeavesPublisher(s: Slot)
    requires AudioEnabled(s)
    ensures AudioNext(s).publisher == s.publisher && AudioNext(s).info == s.info
  {
    hide WellFormed;
  }

  lemma WorkerStepKeeps(y: System, s: LoadWorker.Step)
    requires Joint(y) && MayHappen(y, InWorker(s))
    ensures Joint(Happened(y, InWorker(s)))
  {
    LoadWorker.InvStep(y.worker, s);
    hide ModelSlot.Inv, Ordered, Target;
  }

  lemma JointStep(y: System, e: Happening)
    requires Joint(y) && MayHappen(y, e)
    ensures Joint(Happened(y, e))
  {
    match e
    case InSlot(a) => SlotStepKeeps(y, a);
    case InWorker(s) => WorkerStepKeeps(y, s);
  }

  /** A prepared slot and a new worker. */
  function Start(fadeFrames: nat): System { System(Prepared(fadeFrames), LoadWorker.Fresh(), {}, []) }

  lemma StartIsJoint(fadeFrames: nat)
    requires fadeFrames > 0
    ensures Joint(Start(fadeFrames))
  {
    PreparedIsFine(fadeFrames);
    LoadWorker.FreshIsFine();
  }

  // ---- last request wins -----------------------------------------------------------

  /** The generations that became current, oldest first. */
  function CurrentGenerations(s: Slot): (g: seq<nat>)
    requires forall i :: 0 <= i < |s.adopted| ==> s.adopted[i] < |s.info|
    ensures |g| == |s.adopted|
  {
    seq(|s.adopted|, i requires 0 <= i < |s.adopted| => s.info[s.adopted[i]].tag)
  }

  lemma InfoGrows(y: System, e: Happening)
    requires AudioFits(y.slot) && MayHappen(y, e)
    ensures y.slot.info <= Happened(y, e).slot.info && y.slot.adopted <= Happened(y, e).slot.adopted
    ensures y.failed <= Happened(y, e).failed
  {
    if e.InSlot? {
      InfoAfter(y.slot, e.action);
      AdoptedGrows(y.slot, Act(e.action));
      hide Step, WellFormed;
    }
  }

  /** Over any history of both halves the generations that become current strictly increase,
      and what became current stays recorded. */
  lemma {:induction false} LastRequestWins(y: System, events: seq<Happening>, z: System)
    requires Joint(y) && History(y, events, z)
    ensures Joint(z)
    ensures CurrentGenerations(y.slot) <= CurrentGenerations(z.slot)
    ensures forall i, j :: 0 <= i < j < |z.slot.adopted| ==>
              CurrentGenerations(z.slot)[i] < CurrentGenerations(z.slot)[j] <= z.worker.latest
    ensures y.failed <= z.failed
    decreases |events|
  {
    if events != [] {
      var next := Happened(y, events[0]);
      JointStep(y, events[0]);
      InfoGrows(y, events[0]);
      LastRequestWins(next, events[1..], z);
      assert CurrentGenerations(y.slot) <= CurrentGenerations(next.slot);
    }
    hide ModelSlot.Inv, Happened, MayHappen, History, LoadWorker.Busy, Target, PublisherFits, Heads;
  }

  /** What is handed over was requested last: no newer request exists at that moment. */
  lemma PublishedIsNewest(y: System)
    requires Joint(y) && MayHappen(y, InSlot(Exchange))
    ensures y.slot.info[y.slot.publisher.node].tag == y.worker.latest == y.worker.latestRequest.generation
    ensures y.slot.info[y.slot.publisher.node].tag !in y.failed
  {
  }

  /** A failed load leaves no trace: no node of its generation is ever published, and so none is
      pending, current, fading or adopted. That the worker's own steps leave the slot alone is a
      remark on their shape. */
  lemma FailedLoadChangesNothing(y: System, events: seq<Happening>, z: System, generation: nat)
    requires Joint(y) && History(y, events, z) && generation in y.failed
    ensures Joint(z)
    ensures forall s: LoadWorker.Step :: MayHappen(y, InWorker(s)) ==> Happened(y, InWorker(s)).slot == y.slot
    ensures generation in z.failed
    ensures forall n :: 0 <= n < |z.slot.info| ==> z.slot.info[n].tag != generation
    ensures forall i :: 0 <= i < |z.slot.adopted| ==> CurrentGenerations(z.slot)[i] != generation
  {
    LastRequestWins(y, events, z);
    hide ModelSlot.Inv, History;
  }

  // ---- and is heard ----------------------------------------------------------------

  /** The slot's part of a history. */
  function SlotActions(events: seq<Happening>): seq<ModelSlot.Action> {
    if events == [] then []
    else (if events[0].InSlot? then [events[0].action] else []) + SlotActions(events[1..])
  }

  predicate NoRequest(e: Happening) { e.InWorker? ==> !e.step.Request? }

  /** With no task ahead nothing is published. */
  lemma SettledStep(y: System, e: Happening)
    requires Joint(y) && LoadWorker.TasksAhead(y.worker) == 0 && MayHappen(y, e) && NoRequest(e)
    ensures var next := Happened(y, e);
            && Joint(next) && LoadWorker.TasksAhead(next.worker) == 0 && next.worker.latest == y.worker.latest
            && next.slot.info == y.slot.info
            && (if e.InSlot? then Quiet(e.action) && ModelSlot.Enabled(y.slot, e.action) && next.slot == Step(y.slot, e.action)
                else next.slot == y.slot)
  {
    JointStep(y, e);
    match e
    case InWorker(s) => LoadWorker.TasksAheadDropByFinishing(y.worker, s);
    case InSlot(a) => PublisherAfter(y.slot, a);
    hide Joint, Step, ModelSlot.Enabled;
  }

  lemma QuietRunStep(s: Slot, a: ModelSlot.Action, actions: seq<ModelSlot.Action>, t: Slot)
    requires ModelSlot.Enabled(s, a) && Quiet(a) && QuietRun(Step(s, a), actions, t)
    ensures QuietRun(s, [a] + actions, t)
  {
    assert ([a] + actions)[1..] == actions;
    hide ModelSlot.Enabled, Step;
  }

  /** Once the newest request is settled and no other is made, the slot is left to audio and
      collection. */
  lemma {:induction false} SettledHistoryIsQuiet(y: System, events: seq<Happening>, z: System)
    requires Joint(y) && LoadWorker.TasksAhead(y.worker) == 0 && History(y, events, z)
    requires forall i :: 0 <= i < |events| ==> NoRequest(events[i])
    ensures Joint(z) && z.slot.info == y.slot.info && z.worker.latest == y.worker.latest
    ensures LoadWorker.TasksAhead(z.worker) == 0
    ensures QuietRun(y.slot, SlotActions(events), z.slot)
    decreases |events|
  {
    hide Joint, Step, ModelSlot.Enabled, MayHappen, Happened, LoadWorker.TasksAhead, NoRequest;
    if events != [] {
      var e := events[0];
      var next := Happened(y, e);
      SettledStep(y, e);
      SettledHistoryIsQuiet(next, events[1..], z);
      if e.InSlot? {
        QuietRunStep(y.slot, e.action, SlotActions(events[1..]), z.slot);
      } else {
        assert SlotActions(events) == SlotActions(events[1..]);
      }
    }
  }

  /** A slot that has adopted everything plays the node that was exchanged last. */
  lemma CurrentIsLast(y: System, s: Slot)
    requires Joint(y) && y.worker.status.state == LoadWorker.Published
    requires s.info == y.slot.info && s.current == Target(y.slot)
    ensures s.current.Some? && s.current.value < |s.info| && s.info[s.current.value].tag == y.worker.latest
  {
    hide ModelSlot.Inv, Ordered, Target, Tagged;
  }

  /** The promise to the user. Once the newest request has been published, no other is made
      and the collector has emptied the queue once, enough blocks make its model the current
      one with the fade over, whatever else the threads do meanwhile. */
  lemma NewestRequestIsHeard(y: System, before: seq<Happening>, drained: System, after: seq<Happening>, z: System)
    requires Joint(y) && y.worker.status.state == LoadWorker.Published
    requires History(y, before, drained) && History(drained, after, z)
    requires forall i :: 0 <= i < |before| ==> NoRequest(before[i])
    requires forall i :: 0 <= i < |after| ==> NoRequest(after[i])
    requires WellFormed(drained.slot.ring) && Contents(drained.slot.ring) == []
    requires BlocksStarted(SlotActions(after)) > Remaining(y.slot)
    ensures z.worker.latest == y.worker.latest
    ensures z.slot.current.Some? && z.slot.current.value < |z.slot.info|
    ensures z.slot.info[z.slot.current.value].tag == y.worker.latest
    ensures z.slot.pending == None && (z.slot.fadeActive ==> z.slot.audio == Finish)
  {
    PublishedHasNothingAhead(y);
    hide ModelSlot.Inv, Ordered, WellFormed, Contents, QuietRun, History, Target, Tagged, PublisherFits, Heads,
         LoadWorker.Inv, LoadWorker.TasksAhead, NoRequest, Remaining, BlocksStarted;
    SettledHistoryIsQuiet(y, before, drained);
    SettledHistoryIsQuiet(drained, after, z);
    AdoptedOnceDrained(y.slot, SlotActions(before), drained.slot, SlotActions(after), z.slot);
    CurrentIsLast(y, z.slot);
  }

  lemma PublishedHasNothingAhead(y: System)
    requires LoadWorker.Inv(y.worker) && y.worker.status.state == LoadWorker.Published
    ensures LoadWorker.TasksAhead(y.worker) == 0
  {
  }
}
