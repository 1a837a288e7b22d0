/** The coalescing model loader: requests bump a generation under a mutex, one worker loads
    outside it, and only the newest generation is published. Each step is one critical
    section, or one action of the worker outside the mutex. */
module LoadWorker {
  datatype LoadState = Idle | Queued | Loading | Published | Error | Stopped

  datatype Status = Status(state: LoadState, requested: nat, completed: nat, path: string, hasError: bool)

  datatype Task = Task(generation: nat, path: string, detach: bool)

  /** Where the worker thread stands in `run`. */
  datatype Position =
    | Waiting                              // in wait_for, the mutex free
    | Polling                              // woken by the timeout, about to collect
    | InFlight(task: Task)                 // loading, outside the mutex
    | Loaded(task: Task, failed: bool)     // about to take the mutex again
    | Publishing(task: Task)               // generation checked, holding the mutex
    | Collecting                           // published, about to collect
    | Leaving                              // left the loop, about to report
    | Done

  datatype Worker = Worker(latest: nat, latestRequest: Task, status: Status, stopping: bool,
                           consumed: nat, position: Position)

  datatype Step =
    | Request(path: string, detach: bool)
    | Stop                     // the destructor
    | Wake                     // wait_for returns
    | Poll
    | LoadEnds(fails: bool)
    | Commit                   // take the mutex and check the generation
    | PublishEnds(ok: bool)    // publish_prepared_model returned or threw
    | Collect
    | Report                   // the stopped status

  function Fresh(): Worker { Worker(0, Task(0, "", false), Status(Idle, 0, 0, "", false), false, 0, Waiting) }

  predicate MutexFree(w: Worker) { !w.position.Publishing? }

  predicate Refused(w: Worker) { w.stopping || w.status.state == Stopped }

  predicate Enabled(w: Worker, s: Step) {
    match s
    case Request(_, _) => MutexFree(w)
    case Stop => MutexFree(w)
    case Wake => w.position == Waiting
    case Poll => w.position == Polling
    case LoadEnds(_) => w.position.InFlight?
    case Commit => w.position.Loaded?
    case PublishEnds(_) => w.position.Publishing?
    case Collect => w.position == Collecting
    case Report => w.position == Leaving
  }

  /** A refused request throws and changes nothing. */
  function AfterRequest(w: Worker, path: string, detach: bool): Worker {
    if Refused(w) then w
    else
      w.(latest := w.latest + 1, latestRequest := Task(w.latest + 1, path, detach),
         status := w.status.(state := Queued, requested := w.latest + 1, path := path, hasError := false))
  }

  function AfterWake(w: Worker): Worker {
    if w.stopping then w.(position := Leaving)
    else if w.latest == w.consumed then w.(position := Polling)
    else
      w.(consumed := w.latestRequest.generation, position := InFlight(w.latestRequest),
         status := w.status.(state := Loading, requested := w.latestRequest.generation, path := w.latestRequest.path,
                             hasError := false))
  }

  function AfterCommit(w: Worker): Worker
    requires w.position.Loaded?
  {
    var task := w.position.task;
    if task.generation != w.latest then w.(position := Waiting)
    else if w.position.failed then
      w.(position := Waiting, status := w.status.(state := Error, completed := task.generation, hasError := true))
    else w.(position := Publishing(task))
  }

  function Next(w: Worker, s: Step): Worker
    requires Enabled(w, s)
  {
    match s
    case Request(path, detach) => AfterRequest(w, path, detach)
    case Stop => w.(stopping := true)
    case Wake => AfterWake(w)
    case Poll => w.(position := Waiting)
    case LoadEnds(fails) => w.(position := Loaded(w.position.task, fails && !w.position.task.detach))
    case Commit => AfterCommit(w)
    case PublishEnds(ok) =>
      w.(position := Collecting,
         status := w.status.(state := if ok then Published else Error, completed := w.position.task.generation, hasError := !ok))
    case Collect => w.(position := Waiting)
    case Report => w.(position := Done, status := w.status.(state := Stopped))
  }

  /** The steps that call `settled.notify_all`. */
  predicate NotifiesWaiters(w: Worker, s: Step)
    requires Enabled(w, s)
  {
    (s.Commit? && w.position.task.generation == w.latest && w.position.failed) || s.PublishEnds? || s.Report?
  }

  /** The steps that call `wake.notify_all`. */
  predicate NotifiesWorker(w: Worker, s: Step) { (s.Request? && !Refused(w)) || s.Stop? }

  // ---- exact status ----------------------------------------------------------------

  /** The worker holds a task it has not finished with. */
  predicate Busy(w: Worker) { w.position.InFlight? || w.position.Loaded? || w.position.Publishing? }

  /** What each reported state means in terms of the generations. */
  predicate StatusIsExact(w: Worker) {
    && (w.status.state == Stopped <==> w.position == Done)
    && (w.position != Done ==>
          && (w.status.state == Queued <==> w.latest > w.consumed)
          && (w.status.state == Loading <==> w.latest == w.consumed && Busy(w))
          && (w.status.state == Published || w.status.state == Error <==> w.status.completed == w.latest > 0)
          && (w.status.state == Idle <==> w.latest == 0)
          && w.status.hasError == (w.status.state == Error))
    && w.status.requested == w.latest && w.status.path == w.latestRequest.path
    && w.status.completed <= w.consumed <= w.latest
  }

  predicate Inv(w: Worker) {
    && StatusIsExact(w) && w.latestRequest.generation == w.latest
    && (Busy(w) && w.position.task.generation == w.latest ==> w.position.task == w.latestRequest)
    && (Busy(w) ==> w.position.task.generation == w.consumed > w.status.completed)
    && (w.position.Publishing? ==> w.position.task.generation == w.latest)
    && (w.position == Leaving || w.position == Done ==> w.stopping)
  }

  lemma InvStep(w: Worker, s: Step)
    requires Inv(w) && Enabled(w, s)
    ensures Inv(Next(w, s))
    ensures w.latest <= Next(w, s).latest && w.status.completed <= Next(w, s).status.completed
  {
  }

  ghost predicate Runs(w: Worker, steps: seq<Step>, t: Worker)
    decreases |steps|
  {
    if steps == [] then w == t else Enabled(w, steps[0]) && Runs(Next(w, steps[0]), steps[1..], t)
  }

  /** Over every run the status says exactly what the generations say, and the completed
      generation never goes back. */
  lemma {:induction false} StatusStaysExact(w: Worker, steps: seq<Step>, t: Worker)
    requires Inv(w) && Runs(w, steps, t)
    ensures Inv(t) && w.latest <= t.latest && w.status.completed <= t.status.completed
    decreases |steps|
  {
    if steps != [] {
      InvStep(w, steps[0]);
      StatusStaysExact(Next(w, steps[0]), steps[1..], t);
    }
  }

  lemma FreshIsFine()
    ensures Inv(Fresh())
  {
  }

  // ---- settling --------------------------------------------------------------------

  /** What a caller of `wait_until_settled` waits for. */
  predicate Settled(w: Worker, generation: nat) {
    w.status.completed >= generation || w.status.state == Stopped
  }

  /** No waiter sleeps through the step that satisfies it, and no request through which the
      worker should wake. */
  lemma NoLostWakeup(w: Worker, s: Step, generation: nat)
    requires Inv(w) && Enabled(w, s)
    ensures !Settled(w, generation) && Settled(Next(w, s), generation) ==> NotifiesWaiters(w, s)
    ensures !(w.stopping || w.latest > w.consumed) && (Next(w, s).stopping || Next(w, s).latest > Next(w, s).consumed)
            ==> NotifiesWorker(w, s)
  {
  }

  /** Tasks the worker has to finish before the newest request is settled: the one it holds,
      and the queued one. */
  function TasksAhead(w: Worker): (n: nat)
    ensures n <= 2
  {
    (if Busy(w) then 1 else 0) + (if w.latest > w.consumed then 1 else 0)
  }

  /** The steps that finish a task: stale, failed or published. */
  predicate Finishes(w: Worker, s: Step)
    requires Enabled(w, s)
  {
    (s.Commit? && (w.position.task.generation != w.latest || w.position.failed)) || s.PublishEnds?
  }

  function Finished(w: Worker, steps: seq<Step>): nat
    requires Runs(w, steps, End(w, steps))
    decreases |steps|
  {
    if steps == [] then 0
    else (if Finishes(w, steps[0]) then 1 else 0) + Finished(Next(w, steps[0]), steps[1..])
  }

  /** The state at the end of a run. */
  function End(w: Worker, steps: seq<Step>): Worker
    decreases |steps|
  {
    if steps == [] then w else if Enabled(w, steps[0]) then End(Next(w, steps[0]), steps[1..]) else w
  }

  lemma TasksAheadDropByFinishing(w: Worker, s: Step)
    requires Inv(w) && Enabled(w, s) && !s.Request?
    ensures TasksAhead(w) == TasksAhead(Next(w, s)) + (if Finishes(w, s) then 1 else 0)
  {
  }

  lemma NothingAheadIsSettled(w: Worker, generation: nat)
    requires Inv(w) && generation <= w.latest
    ensures TasksAhead(w) == 0 ==> Settled(w, generation)
    ensures generation == w.latest && w.status.state != Stopped && TasksAhead(w) > 0 ==> !Settled(w, generation)
  {
  }

  /** Without new requests every waiter is settled once the worker has finished the tasks that
      were ahead, and those are never more than two. */
  lemma {:induction false} SettlesAfterTwoLoads(w: Worker, steps: seq<Step>, generation: nat)
    requires Inv(w) && Runs(w, steps, End(w, steps)) && generation <= w.latest
    requires forall i :: 0 <= i < |steps| ==> !steps[i].Request?
    ensures Inv(End(w, steps)) && End(w, steps).latest == w.latest
    ensures Finished(w, steps) + TasksAhead(End(w, steps)) == TasksAhead(w) <= 2
    ensures Finished(w, steps) >= TasksAhead(w) ==> Settled(End(w, steps), generation)
    decreases |steps|
  {
    if steps == [] {
      NothingAheadIsSettled(w, generation);
    } else {
      var next := Next(w, steps[0]);
      InvStep(w, steps[0]);
      TasksAheadDropByFinishing(w, steps[0]);
      assert next.latest == w.latest;
      SettlesAfterTwoLoads(next, steps[1..], generation);
      NothingAheadIsSettled(End(w, steps), generation);
    }
  }

  /** Worker steps until a task is finished or the worker has reported that it stopped. */
  function Distance(w: Worker): nat {
    match w.position
    case Waiting => 4
    case InFlight(_) => 3
    case Loaded(_, _) => 2
    case Publishing(_) => 1
    case Polling => 5
    case Collecting => 5
    case Leaving => 1
    case Done => 0
  }

  /** The worker step that is possible next, if the worker is still there. */
  function Ahead(w: Worker, outcome: bool): Step {
    match w.position
    case Waiting => Wake
    case Polling => Poll
    case InFlight(_) => LoadEnds(outcome)
    case Loaded(_, _) => Commit
    case Publishing(_) => PublishEnds(outcome)
    case Collecting => Collect
    case _ => Report
  }

  /** The worker is never stuck: while a task is ahead, or it should stop, each of its steps is
      possible and brings it closer to finishing one; requests meanwhile do not set it back. */
  lemma WorkerAdvances(w: Worker, s: Step, outcome: bool)
    requires Inv(w) && (TasksAhead(w) > 0 || w.stopping)
    ensures w.position != Done ==> Enabled(w, Ahead(w, outcome))
    ensures w.position != Done && !Finishes(w, Ahead(w, outcome)) ==> Distance(Next(w, Ahead(w, outcome))) < Distance(w)
    ensures Enabled(w, s) && (s.Request? || s.Stop?) ==> Distance(Next(w, s)) == Distance(w)
  {
  }

  // ---- a bound ---------------------------------------------------------------------

  /** Worker steps until nothing is ahead: the distance to finishing one task, and six for
      each task, whose end may set the worker back to polling. */
  function Work(w: Worker): (n: nat)
    ensures n <= 17
  {
    6 * TasksAhead(w) + Distance(w)
  }

  /** The steps of the worker thread. */
  function WorkerSteps(steps: seq<Step>): nat {
    if steps == [] then 0 else (if steps[0].Request? || steps[0].Stop? then 0 else 1) + WorkerSteps(steps[1..])
  }

  lemma WorkDrops(w: Worker, s: Step)
    requires Inv(w) && Enabled(w, s) && !s.Request? && TasksAhead(w) > 0
    ensures Work(Next(w, s)) + (if s.Stop? then 0 else 1) <= Work(w)
  {
  }

  /** Without new requests, a waiter that is not settled at the end of a run was not settled
      before, and the worker has taken no more steps than there was work. */
  lemma {:induction false} SettlesWithinItsWork(w: Worker, steps: seq<Step>, generation: nat)
    requires Inv(w) && Runs(w, steps, End(w, steps)) && generation <= w.latest
    requires forall i :: 0 <= i < |steps| ==> !steps[i].Request?
    ensures !Settled(End(w, steps), generation) ==> !Settled(w, generation) && WorkerSteps(steps) < Work(w) <= 17
    decreases |steps|
  {
    NothingAheadIsSettled(w, generation);
    if steps != [] {
      var next := Next(w, steps[0]);
      InvStep(w, steps[0]);
      TasksAheadDropByFinishing(w, steps[0]);
      assert next.latest == w.latest;
      SettlesWithinItsWork(next, steps[1..], generation);
      if !Settled(w, generation) { WorkDrops(w, steps[0]); }
      hide StatusIsExact;
    }
  }

  // ---- which request a task is -----------------------------------------------------

  datatype Asked = Asked(path: string, detach: bool)

  /** What was asked for, in order, before the destructor asked the worker to stop. */
  function Requests(steps: seq<Step>): seq<Asked> {
    if steps == [] || steps[0].Stop? then []
    else (if steps[0].Request? then [Asked(steps[0].path, steps[0].detach)] else []) + Requests(steps[1..])
  }

  predicate IsOf(task: Task, asked: seq<Asked>) {
    && 1 <= task.generation <= |asked|
    && task.path == asked[task.generation - 1].path && task.detach == asked[task.generation - 1].detach
  }

  predicate Remembers(w: Worker, asked: seq<Asked>) {
    && w.latest == |asked|
    && (asked == [] ==> w.status.path == "")
    && (asked != [] ==>
          && IsOf(w.latestRequest, asked) && w.latestRequest.generation == |asked| && w.status.path == asked[|asked| - 1].path)
    && (Busy(w) ==> IsOf(w.position.task, asked))
  }

  lemma RemembersStep(w: Worker, s: Step, asked: seq<Asked>)
    requires Inv(w) && Enabled(w, s) && Remembers(w, asked)
    ensures Remembers(Next(w, s), AskedAfter(w, s, asked))
  {
  }

  /** What a run adds to the requests. */
  function AskedIn(w: Worker, steps: seq<Step>): seq<Asked> { if w.stopping then [] else Requests(steps) }

  lemma {:induction false} RunRemembers(w: Worker, steps: seq<Step>, t: Worker, asked: seq<Asked>)
    requires Inv(w) && Runs(w, steps, t) && Remembers(w, asked)
    ensures Inv(t) && Remembers(t, asked + AskedIn(w, steps))
    decreases |steps|
  {
    hide Inv, Enabled, Next, Remembers;
    if steps == [] {
      assert asked + AskedIn(w, steps) == asked;
    } else {
      InvStep(w, steps[0]);
      RemembersStep(w, steps[0], asked);
      AskedInFront(w, steps, asked);
      hide AskedIn;
      RunRemembers(Next(w, steps[0]), steps[1..], t, AskedAfter(w, steps[0], asked));
    }
  }

  function AskedAfter(w: Worker, s: Step, asked: seq<Asked>): seq<Asked> {
    if s.Request? && !w.stopping then asked + [Asked(s.path, s.detach)] else asked
  }

  lemma AskedInFront(w: Worker, steps: seq<Step>, asked: seq<Asked>)
    requires steps != [] && Enabled(w, steps[0])
    ensures AskedAfter(w, steps[0], asked) + AskedIn(Next(w, steps[0]), steps[1..]) == asked + AskedIn(w, steps)
  {
    StoppingStays(w, steps[0]);
    hide Enabled, Next;
  }

  lemma StoppingStays(w: Worker, s: Step)
    requires Enabled(w, s)
    ensures Next(w, s).stopping == (w.stopping || s.Stop?)
  {
  }

  /** The run up to `t`, with the requests left to be read off it. */
  lemma FreshRunRemembers(steps: seq<Step>, t: Worker)
    requires Runs(Fresh(), steps, t)
    ensures Remembers(t, Requests(steps))
  {
    FreshIsFine();
    assert Remembers(Fresh(), []) && AskedIn(Fresh(), steps) == Requests(steps);
    hide Inv, Runs, Requests, AskedIn, Remembers, Fresh;
    RunRemembers(Fresh(), steps, t, []);
    assert [] + AskedIn(Fresh(), steps) == AskedIn(Fresh(), steps);
  }

  /** Over every run the generations number the requests: a task that is loaded or published is
      the request of its number, path and all, and the status names the path of the newest. */
  lemma RequestsAreRemembered(steps: seq<Step>, t: Worker)
    requires Runs(Fresh(), steps, t)
    ensures var asked := Requests(steps);
            && t.latest == |asked|
            && t.status.path == (if asked == [] then "" else asked[|asked| - 1].path)
            && (asked != [] ==> t.latestRequest == Task(|asked|, asked[|asked| - 1].path, asked[|asked| - 1].detach))
            && (Busy(t) ==>
                  var g := t.position.task.generation;
                  1 <= g <= |asked| && t.position.task == Task(g, asked[g - 1].path, asked[g - 1].detach))
  {
    FreshRunRemembers(steps, t);
    hide Runs, Requests, Fresh;
  }
}
