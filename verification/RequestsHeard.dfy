/** From requests to sound: which path a node's model was loaded from, and that the model that
    becomes current is the one that was asked for last. */
module RequestsHeard {
  import opened Options
  import opened RetireQueue
  import opened ModelSlot
  import opened ModelSlotTheorems
  import opened ModelSlotProgress
  import opened EndToEnd
  import LoadWorker

  /** The worker's part of a history, with the requests made of it. */
  function WorkerPart(events: seq<Happening>): seq<LoadWorker.Step> {
    if events == [] then []
    else (if events[0].InWorker? then [events[0].step] else []) + WorkerPart(events[1..])
  }

  /** What was asked for over a history. */
  function AskedFor(events: seq<Happening>): seq<LoadWorker.Asked> { LoadWorker.Requests(WorkerPart(events)) }

  /** A node is of the request its tag numbers: loaded from its path, or dry for a detach. */
  predicate IsOf(info: NodeInfo, source: string, asked: seq<LoadWorker.Asked>) {
    && 1 <= info.tag <= |asked|
    && source == asked[info.tag - 1].path && info.hasModel == !asked[info.tag - 1].detach
  }

  predicate AllOf(y: System, asked: seq<LoadWorker.Asked>) {
    && |y.sources| == |y.slot.info|
    && forall n :: 0 <= n < |y.sources| ==> IsOf(y.slot.info[n], y.sources[n], asked)
  }

  /** What one happening adds to the requests. */
  function AskedBy(y: System, e: Happening): seq<LoadWorker.Asked> {
    if e.InWorker? && e.step.Request? && !y.worker.stopping then [LoadWorker.Asked(e.step.path, e.step.detach)] else []
  }

  lemma SlotStepBelongs(y: System, a: ModelSlot.Action, asked: seq<LoadWorker.Asked>)
    requires LoadWorker.Inv(y.worker) && MayHappen(y, InSlot(a)) && LoadWorker.Remembers(y.worker, asked) && AllOf(y, asked)
    ensures AllOf(Happened(y, InSlot(a)), asked)
  {
    PublisherAfter(y.slot, a);
    if a.Allocate? { AllocatedIsOf(y, a, asked); }
    var next := Happened(y, InSlot(a));
    assert next.slot.info == if a.Allocate? then y.slot.info + [a.node] else y.slot.info;
    assert next.sources == if a.Allocate? then y.sources + [y.worker.position.task.path] else y.sources;
    hide Happened, MayHappen, LoadWorker.Inv, LoadWorker.Remembers, IsOf;
    forall n | 0 <= n < |next.sources|
      ensures IsOf(next.slot.info[n], next.sources[n], asked)
    {
      if n < |y.sources| { assert IsOf(y.slot.info[n], y.sources[n], asked); }
    }
  }

  lemma AllocatedIsOf(y: System, a: ModelSlot.Action, asked: seq<LoadWorker.Asked>)
    requires LoadWorker.Remembers(y.worker, asked) && MayHappen(y, InSlot(a)) && a.Allocate?
    ensures IsOf(a.node, y.worker.position.task.path, asked)
  {
    hide ModelSlot.Enabled;
  }

  lemma MoreAsked(y: System, asked: seq<LoadWorker.Asked>, more: seq<LoadWorker.Asked>)
    requires AllOf(y, asked)
    ensures AllOf(y, asked + more)
  {
    forall n | 0 <= n < |y.sources|
      ensures IsOf(y.slot.info[n], y.sources[n], asked + more)
    {
      assert IsOf(y.slot.info[n], y.sources[n], asked);
    }
  }

  ghost predicate Belongs(y: System, asked: seq<LoadWorker.Asked>) {
    LoadWorker.Inv(y.worker) && LoadWorker.Remembers(y.worker, asked) && AllOf(y, asked)
  }

  lemma StepBelongs(y: System, e: Happening, asked: seq<LoadWorker.Asked>)
    requires Belongs(y, asked) && MayHappen(y, e)
    ensures Belongs(Happened(y, e), asked + AskedBy(y, e))
    ensures Happened(y, e).worker.stopping == (y.worker.stopping || (e.InWorker? && e.step.Stop?))
  {
    match e
    case InSlot(a) =>
      SlotStepBelongs(y, a, asked);
      assert asked + [] == asked;
      hide Step, ModelSlot.Enabled, LoadWorker.Inv, LoadWorker.Remembers, AllOf;
    case InWorker(s) =>
      MoreAsked(y, asked, AskedBy(y, e));
      LoadWorker.InvStep(y.worker, s);
      LoadWorker.RemembersStep(y.worker, s, asked);
      LoadWorker.StoppingStays(y.worker, s);
      assert asked + [] == asked;
      hide LoadWorker.Inv, LoadWorker.Remembers, LoadWorker.Enabled, LoadWorker.Next, IsOf;
  }

  function AskedFrom(y: System, events: seq<Happening>): seq<LoadWorker.Asked> {
    if y.worker.stopping then [] else AskedFor(events)
  }

  lemma {:induction false} HistoryBelongs(y: System, events: seq<Happening>, z: System, asked: seq<LoadWorker.Asked>)
    requires Belongs(y, asked) && History(y, events, z)
    ensures Belongs(z, asked + AskedFrom(y, events))
    decreases |events|
  {
    hide Belongs, MayHappen, Happened, AskedBy;
    if events == [] {
      assert asked + AskedFrom(y, events) == asked;
    } else {
      hide AskedFrom;
      var next, more := Happened(y, events[0]), AskedBy(y, events[0]);
      StepBelongs(y, events[0], asked);
      RequestsInFront(y, events);
      HistoryBelongs(next, events[1..], z, asked + more);
      Grouped(asked, more, AskedFrom(next, events[1..]));
    }
  }

  lemma Grouped(a: seq<LoadWorker.Asked>, b: seq<LoadWorker.Asked>, c: seq<LoadWorker.Asked>)
    ensures a + b + c == a + (b + c)
  {
  }

  lemma RequestsInFront(y: System, events: seq<Happening>)
    requires events != [] && MayHappen(y, events[0])
    requires Happened(y, events[0]).worker.stopping
             == (y.worker.stopping || (events[0].InWorker? && events[0].step.Stop?))
    ensures AskedFrom(y, events) == AskedBy(y, events[0]) + AskedFrom(Happened(y, events[0]), events[1..])
  {
    hide Step, LoadWorker.Next, LoadWorker.Enabled, ModelSlot.Enabled;
    if events[0].InWorker? {
      assert ([events[0].step] + WorkerPart(events[1..]))[1..] == WorkerPart(events[1..]);
    } else {
      assert WorkerPart(events) == WorkerPart(events[1..]);
    }
  }

  /** Whatever the interleaving, every node that was ever allocated is of the request its tag
      numbers: its model was loaded from that path, and it is dry exactly if that was a detach. */
  lemma NodesAreOfTheirRequests(fadeFrames: nat, events: seq<Happening>, z: System)
    requires History(Start(fadeFrames), events, z)
    ensures var asked := AskedFor(events);
            && z.worker.latest == |asked| && |z.sources| == |z.slot.info|
            && forall n :: 0 <= n < |z.slot.info| ==>
                 && 1 <= z.slot.info[n].tag <= |asked|
                 && z.sources[n] == asked[z.slot.info[n].tag - 1].path
                 && z.slot.info[n].hasModel == !asked[z.slot.info[n].tag - 1].detach
  {
    LoadWorker.FreshIsFine();
    HistoryBelongs(Start(fadeFrames), events, z, []);
    assert [] + AskedFor(events) == AskedFor(events);
    hide History, AskedFor;
  }

  lemma {:induction false} NothingAsked(events: seq<Happening>)
    requires forall i :: 0 <= i < |events| ==> NoRequest(events[i])
    ensures AskedFor(events) == []
    decreases |events|
  {
    if events != [] {
      NothingAsked(events[1..]);
      if events[0].InWorker? {
        assert NoRequest(events[0]);
        assert ([events[0].step] + WorkerPart(events[1..]))[1..] == WorkerPart(events[1..]);
      } else {
        assert WorkerPart(events) == WorkerPart(events[1..]);
      }
    }
  }

  /** The promise in the user's terms. From the start, whatever was asked for and however the
      threads interleaved: once the newest request has been published and no other is made, one
      drain and enough blocks make current the model of the path that was asked for last, or
      nothing if that was a detach. */
  lemma NewestPathIsHeard(fadeFrames: nat, past: seq<Happening>, y: System, before: seq<Happening>, drained: System,
                          after: seq<Happening>, z: System)
    requires fadeFrames > 0 && History(Start(fadeFrames), past, y) && y.worker.status.state == LoadWorker.Published
    requires History(y, before, drained) && History(drained, after, z)
    requires forall i :: 0 <= i < |before| ==> NoRequest(before[i])
    requires forall i :: 0 <= i < |after| ==> NoRequest(after[i])
    requires WellFormed(drained.slot.ring) && Contents(drained.slot.ring) == []
    requires Joint(y) ==> BlocksStarted(SlotActions(after)) > Remaining(y.slot)
    ensures var asked := AskedFor(past);
            && asked != [] && z.slot.current.Some? && z.slot.current.value < |z.slot.info| == |z.sources|
            && z.slot.info[z.slot.current.value].tag == |asked|
            && z.sources[z.slot.current.value] == asked[|asked| - 1].path
            && z.slot.info[z.slot.current.value].hasModel == !asked[|asked| - 1].detach
  {
    var asked := AskedFor(past);
    hide LoadWorker.Inv, ModelSlot.Inv, WellFormed, Contents, Remaining, BlocksStarted, AskedFor, History, Ordered, Tagged,
         PublisherFits, Heads, LoadWorker.Fresh, NoRequest, Joint;
    StartIsJoint(fadeFrames);
    LastRequestWins(Start(fadeFrames), past, y);
    NewestRequestIsHeard(y, before, drained, after, z);
    LastRequestWins(y, before, drained);
    SystemAfter(fadeFrames, past, y);
    NothingAsked(before);
    NothingAsked(after);
    assert asked + [] == asked;
    HistoryBelongs(y, before, drained, asked);
    HistoryBelongs(drained, after, z, asked);
  }

  lemma SystemAfter(fadeFrames: nat, events: seq<Happening>, z: System)
    requires History(Start(fadeFrames), events, z)
    ensures Belongs(z, AskedFor(events))
  {
    LoadWorker.FreshIsFine();
    HistoryBelongs(Start(fadeFrames), events, z, []);
    assert [] + AskedFor(events) == AskedFor(events);
  }
}
