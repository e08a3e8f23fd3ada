/** The queues that the main thread of a worker shares with its threads. */
module WorkerQueues {
  import opened Basics
  import opened Sums
  import opened Statistics
  import opened Scheduler
  import opened Workers

  const UINT32_RANGE: nat := 0x1_0000_0000

  /** The tasks of a reply in the order in which they are queued. */
  ghost function Flattened(jobs: seq<Job>): seq<nat> {
    if jobs == [] then []
    else Flattened(jobs[..|jobs| - 1]) + Repeated(jobs[|jobs| - 1].taskId, jobs[|jobs| - 1].num)
  }

  lemma {:induction false} FlattenedAppend(jobs: seq<Job>, job: Job)
    ensures Flattened(jobs + [job]) == Flattened(jobs) + Repeated(job.taskId, job.num)
  {
    assert (jobs + [job])[..|jobs|] == jobs;
  }

  lemma {:induction false} FlattenedHead(jobs: seq<Job>)
    requires jobs != []
    ensures Flattened(jobs) == Repeated(jobs[0].taskId, jobs[0].num) + Flattened(jobs[1..])
    decreases |jobs|
  {
    var front, last := jobs[..|jobs| - 1], jobs[|jobs| - 1];
    if front == [] {
      assert jobs[1..] == [];
    } else {
      FlattenedHead(front);
      assert front[1..] + [last] == jobs[1..];
      FlattenedAppend(front[1..], last);
    }
  }

  /** A reply is queued instance by instance: as many for every task as were handed out. */
  lemma {:induction false} FlattenedHolds(jobs: seq<Job>, t: nat)
    ensures Total(Flattened(jobs), IsTask(t)) == Total(jobs, JobsFor(t))
    ensures |Flattened(jobs)| == Total(jobs, JobSize())
    decreases |jobs|
  {
    if jobs != [] {
      var front, last := jobs[..|jobs| - 1], jobs[|jobs| - 1];
      FlattenedHolds(front, t);
      TotalConcat(Flattened(front), Repeated(last.taskId, last.num), IsTask(t));
      TotalRepeated(last.taskId, last.num, t);
    }
  }

  /** The steps of create_tasks without a step of another thread in between. */
  ghost function AllCreated(w: WorkerState): WorkerState
    requires w.phase.Creating?
    decreases if w.phase.Creating? then |w.phase.jobs| else 0
  {
    if w.phase.jobs == [] then w
    else if |w.phase.jobs| == 1 then AfterCreate(w)
    else AllCreated(AfterCreate(w))
  }

  lemma {:induction false} AllCreatedIs(w: WorkerState)
    requires w.phase.Creating? && w.phase.jobs != []
    ensures AllCreated(w) == w.(tasks := w.tasks + Flattened(w.phase.jobs),
                                instancesToGet := w.instancesToGet - Total(w.phase.jobs, JobSize()),
                                phase := Looping)
    decreases |w.phase.jobs|
  {
    var jobs := w.phase.jobs;
    var first := Repeated(jobs[0].taskId, jobs[0].num);
    FlattenedHead(jobs);
    TotalHead(jobs, JobSize());
    if |jobs| == 1 {
      assert jobs[1..] == [];
      assert first + [] == first;
    } else {
      AllCreatedIs(AfterCreate(w));
      assert w.tasks + first + Flattened(jobs[1..]) == w.tasks + (first + Flattened(jobs[1..]));
    }
  }

  /** Unsigned arithmetic of the counter. */
  function Wrapped(x: int): nat {
    x % UINT32_RANGE
  }

  lemma {:induction false} WrappedTwice(x: int, y: int)
    ensures Wrapped(Wrapped(x) + y) == Wrapped(x + y)
  {
    assert x == x / UINT32_RANGE * UINT32_RANGE + Wrapped(x);
  }

  class TaskQueues {
    var tasks: seq<nat>
    var tasksDone: seq<Done>
    var instancesToGet: nat

    /** The queues are those of the worker state `w`. */
    ghost predicate Holds(w: WorkerState)
      reads this
    {
      tasks == w.tasks && tasksDone == w.tasksDone && instancesToGet == w.instancesToGet
    }

    /** The queues of a worker that has just been activated. */
    constructor (numThreads: nat)
      requires numThreads < UINT32_RANGE
      ensures Holds(AfterReceive(NewWorker(numThreads), ActivateMsg))
    {
      tasks, tasksDone, instancesToGet := [], [], numThreads;
    }

    /** The counter is unsigned: it wraps if a reply exceeds it. */
    method CreateTasks(jobs: seq<Job>)
      requires JobsOk(jobs)
      modifies this`tasks, this`instancesToGet
      ensures tasks == old(tasks) + Flattened(jobs)
      ensures instancesToGet ==
        if jobs == [] then old(instancesToGet) else Wrapped(old(instancesToGet) - Total(jobs, JobSize()))
    {
      for j := 0 to |jobs|
        invariant tasks == old(tasks) + Flattened(jobs[..j])
        invariant instancesToGet ==
          if j == 0 then old(instancesToGet) else Wrapped(old(instancesToGet) - Total(jobs[..j], JobSize()))
      {
        assert 0 < jobs[j].num;
        assert jobs[..j + 1] == jobs[..j] + [jobs[j]];
        FlattenedAppend(jobs[..j], jobs[j]);
        TotalAppend(jobs[..j], jobs[j], JobSize());
        ghost var before, counter := tasks, instancesToGet;
        for i := 0 to jobs[j].num
          invariant tasks == before + Repeated(jobs[j].taskId, i) && instancesToGet == counter
        {
          tasks := tasks + [jobs[j].taskId];
        }
        WrappedTwice(old(instancesToGet) - Total(jobs[..j], JobSize()), 0 - jobs[j].num);
        instancesToGet := Wrapped(instancesToGet - jobs[j].num);
      }
      assert jobs[..|jobs|] == jobs;
    }

    /** A reply of the server is queued as its steps say; the counter does not wrap, because the
        reply is covered by the request. */
    method CreateCovered(jobs: seq<Job>, ghost w: WorkerState)
      requires w.phase == Creating(jobs) && RequestCovered(w) && |w.threads| < UINT32_RANGE && Holds(w)
      modifies this`tasks, this`instancesToGet
      ensures Holds(AllCreated(w))
      ensures instancesToGet + Total(jobs, JobSize()) == old(instancesToGet)
    {
      CreateTasks(jobs);
      AllCreatedIs(w);
    }

    /** What get_task takes under the lock: the first task of the queue, if there is one. */
    method GetTask(ghost w: WorkerState, ghost i: nat) returns (t: Option<nat>)
      requires Holds(w) && i < |w.threads| && w.threads[i].Idle? && ThreadsAlive(w.phase)
      modifies this`tasks
      ensures t.None? <==> old(tasks) == []
      ensures t.Some? ==> Holds(AfterThread(w, i, Pop)) && AfterThread(w, i, Pop).threads[i] == Popped(t.value)
      ensures t.None? ==> Holds(w)
    {
      if tasks == [] { return None; }
      t := Some(tasks[0]);
      tasks := tasks[1..];
    }

    /** A thread has executed a task; its counter does not wrap, because the thread was busy. */
    method FinishTask(result: Done, ghost w: WorkerState, ghost i: nat)
      requires Holds(w) && ThreadEnabled(w, i, Finish(result))
      requires ThreadsCounted(w) && |w.threads| < UINT32_RANGE
      modifies this`tasksDone, this`instancesToGet
      ensures Holds(AfterThread(w, i, Finish(result)))
      ensures instancesToGet == old(instancesToGet) + 1
    {
      TotalCovers(w.threads, i, HasTask());
      tasksDone := tasksDone + [result];
      instancesToGet := Wrapped(instancesToGet + 1);
    }

    /** return_task for the first task that is done: the messages it sends before it returns, or
        before it throws. */
    method ReturnFirst(ghost l: Link, ghost failed: Phase) returns (sent: seq<UpMessage>, thrown: bool)
      requires tasksDone != [] && Holds(l.worker)
      modifies this`tasksDone
      ensures Holds(AfterReturn(l, failed).worker)
      ensures AfterReturn(l, failed).toServer == l.toServer + sent + Closing(old(tasksDone)[0], failed)
      ensures thrown <==> old(tasksDone)[0].instancesProcessed == 0
    {
      var r := tasksDone[0];
      tasksDone := tasksDone[1..];
      sent, thrown := [], false;
      if r.solved { sent := sent + [FoundSolutionMsg]; }
      if r.instancesProcessed == 0 {
        thrown := true;
      } else {
        sent := sent + [DoneProcessingMsg(r)];
      }
    }
  }
}
