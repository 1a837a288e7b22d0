/** The load worker as an object: each method is one critical section or one action of the
    worker thread, and is a step of `LoadWorker`. */
module ModelLoadWorker {
  import opened LoadWorker

  datatype RequestResult = Accepted(generation: nat) | EmptyPath | WorkerStopping

  class ModelLoadWorker {
    var latestGeneration: nat
    var latestRequest: Task
    var status: Status
    var stopping: bool

    /** A local variable of `run`, and where `run` stands. */
    var consumedGeneration: nat
    var position: Position

    ghost function View(): Worker
      reads this
    {
      Worker(latestGeneration, latestRequest, status, stopping, consumedGeneration, position)
    }

    ghost predicate Valid()
      reads this
    {
      Inv(View())
    }

    constructor ()
      ensures Valid() && View() == Fresh()
    {
      latestGeneration := 0;
      latestRequest := Task(0, "", false);
      status := Status(Idle, 0, 0, "", false);
      stopping := false;
      consumedGeneration := 0;
      position := Waiting;
    }

    /** The shared part of both requests. */
    method Submit(path: string, detach: bool) returns (result: RequestResult)
      requires Valid() && MutexFree(View())
      modifies this`latestGeneration, this`latestRequest, this`status
      ensures Valid() && View() == Next(old(View()), Request(path, detach))
      ensures result == if Refused(old(View())) then WorkerStopping else Accepted(latestGeneration)
      ensures result.Accepted? ==>
                && result.generation == old(latestGeneration) + 1 && !Settled(View(), result.generation)
                && latestRequest == Task(result.generation, path, detach)
                && status.state == Queued && status.path == path
    {
      InvStep(View(), Request(path, detach));
      if stopping || status.state == Stopped {
        return WorkerStopping;
      }
      latestGeneration := latestGeneration + 1;
      latestRequest := Task(latestGeneration, path, detach);
      status := status.(state := Queued, requested := latestGeneration, path := path, hasError := false);
      return Accepted(latestGeneration);
    }

    method RequestModel(path: string) returns (result: RequestResult)
      requires Valid() && MutexFree(View())
      modifies this`latestGeneration, this`latestRequest, this`status
      ensures Valid() && (result == EmptyPath <==> path == "")
      ensures View() == if path == "" then old(View()) else Next(old(View()), Request(path, false))
      ensures result.Accepted? ==> latestRequest == Task(result.generation, path, false) && status.path == path
    {
      if |path| == 0 {
        return EmptyPath;
      }
      result := Submit(path, false);
    }

    method RequestDetach() returns (result: RequestResult)
      requires Valid() && MutexFree(View())
      modifies this`latestGeneration, this`latestRequest, this`status
      ensures Valid() && View() == Next(old(View()), Request("", true))
      ensures result.Accepted? ==> latestRequest == Task(result.generation, "", true) && status.path == ""
    {
      result := Submit("", true);
    }

    /** The locked half of the destructor. */
    method BeginStop()
      requires Valid() && MutexFree(View())
      modifies this`stopping
      ensures Valid() && View() == Next(old(View()), Stop)
    {
      InvStep(View(), Stop);
      stopping := true;
    }

    /** The first locked block of an iteration, once wait_for has returned. */
    method TakeTask()
      requires Valid() && position == Waiting
      modifies this`consumedGeneration, this`position, this`status
      ensures Valid() && View() == Next(old(View()), Wake)
      ensures position.InFlight? ==> position.task == latestRequest
    {
      InvStep(View(), Wake);
      if stopping {
        position := Leaving;
        return;
      }
      if latestGeneration == consumedGeneration {
        position := Polling;
        return;
      }
      var task := latestRequest;
      consumedGeneration := task.generation;
      status := status.(state := Loading, requested := task.generation, path := task.path, hasError := false);
      position := InFlight(task);
    }

    /** The unlocked load. A detach request loads nothing and cannot fail. */
    method LoadTask(loaderFails: bool)
      requires Valid() && position.InFlight?
      modifies this`position
      ensures Valid() && View() == Next(old(View()), LoadEnds(loaderFails))
    {
      InvStep(View(), LoadEnds(loaderFails));
      var task := position.task;
      var failed := false;
      if !task.detach {
        failed := loaderFails;
      }
      position := Loaded(task, failed);
    }

    /** The second locked block: drop a stale result, report an error, or publish. */
    method CommitTask(publishFails: bool)
      requires Valid() && position.Loaded?
      modifies this`position, this`status
      ensures Valid()
      ensures var committed := Next(old(View()), Commit);
              View() == if committed.position.Publishing? then Next(committed, PublishEnds(!publishFails)) else committed
    {
      ghost var committed := Next(View(), Commit);
      InvStep(View(), Commit);
      if committed.position.Publishing? { InvStep(committed, PublishEnds(!publishFails)); }
      var task, failed := position.task, position.failed;
      position := Waiting;
      if task.generation != latestGeneration {
        return;
      }
      if failed {
        status := status.(state := Error, completed := task.generation, hasError := true);
        return;
      }
      if !publishFails {
        status := status.(state := Published, completed := task.generation, hasError := false);
      } else {
        status := status.(state := Error, completed := task.generation, hasError := true);
      }
      position := Collecting;
    }

    /** One uninterrupted iteration of the loop. Left alone, the worker loads the newest
        request and reports exactly how that went. */
    method RunOnce(loaderFails: bool, publishFails: bool)
      requires Valid() && position == Waiting && !stopping
      modifies this`consumedGeneration, this`position, this`status
      ensures Valid() && position == Waiting
      ensures latestGeneration == old(consumedGeneration) ==> View() == old(View())
      ensures latestGeneration > old(consumedGeneration) ==>
                && status.completed == consumedGeneration == latestGeneration && status.path == latestRequest.path
                && status.state == if publishFails || (loaderFails && !latestRequest.detach) then Error else Published
    {
      TakeTask();
      if position == Polling {
        position := Waiting;
        return;
      }
      LoadTask(loaderFails);
      CommitTask(publishFails);
      if position == Collecting {
        position := Waiting;
      }
    }

    /** After the loop. */
    method ReportStopped()
      requires Valid() && position == Leaving
      modifies this`position, this`status
      ensures Valid() && View() == Next(old(View()), Report)
      ensures forall generation: nat :: Settled(View(), generation)
    {
      InvStep(View(), Report);
      position := Done;
      status := status.(state := Stopped);
    }
  }
}
