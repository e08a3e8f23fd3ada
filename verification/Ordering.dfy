/** What is submitted and accepted is kept, and in which order and numbers tasks move through a run. */
module Ordering {
  import opened Basics
  import opened Sums
  import opened Statistics
  import opened Scheduler
  import opened Workers
  import opened Input
  import opened Protocol
  import opened HonestResults
  import opened Reporting
  import opened Termination

  // The newest file first

  lemma {:induction false} JobsAreNewest(s: System, after: ServerState, reply: seq<Job>, k: nat, j: nat, t: nat)
    requires Inv(s) && Replied(s.server, after, reply, k) && j < |reply| && t < |s.server.tasks|
    requires t > reply[j].taskId && !TaskOut(s, t)
    ensures exists i :: 0 <= i < j && reply[i].taskId == t
  {
    OutIff(s, t);
    assert Queued(s.server.order, t);
    var i :| 0 <= i < |s.server.order| && s.server.order[i] == t;
    assert reply[j].taskId == s.server.order[j];
    assert i < j;
    assert reply[i].taskId == s.server.order[i];
  }

  /** The server answers a request of instances. */
  predicate IsAnswer(s: System, a: Action) {
    a.Process? && IsNext(s, a.link) && s.links[a.link].toServer[0].GetInstancesMsg?
  }

  /** The server hands out the newest file first: every job of a reply is of a file of which something is
      left to hand out, and all such files that are newer have a job in front of it. */
  lemma {:induction false} NewestFirst(run: seq<System>, steps: seq<Action>, k: nat, j: nat, t: nat)
    requires IsRun(run, steps) && k < |steps| && IsAnswer(run[k], steps[k]) && j < |steps[k].reply|
    ensures var reply := steps[k].reply;
      && reply[j].taskId < |run[k].server.tasks| && !TaskOut(run[k], reply[j].taskId)
      && (reply[j].taskId < t < |run[k].server.tasks| && !TaskOut(run[k], t) ==>
            exists i :: 0 <= i < j && reply[i].taskId == t)
  {
    StepOf(run, steps, k);
    var s, a := run[k], steps[k];
    var num := s.links[a.link].toServer[0].num;
    RunKeepsInv(run, steps, k);
    assert Replied(s.server, a.after, a.reply, num);
    assert a.reply[j].taskId == s.server.order[j];
    assert Queued(s.server.order, s.server.order[j]);
    OutIff(s, a.reply[j].taskId);
    if a.reply[j].taskId < t < |s.server.tasks| && !TaskOut(s, t) {
      JobsAreNewest(s, a.after, a.reply, num, j, t);
    }
  }

  /** A reply is as large as the request, unless it leaves nothing to hand out. */
  lemma {:induction false} RepliesAreFull(run: seq<System>, steps: seq<Action>, k: nat, t: nat)
    requires IsRun(run, steps) && k < |steps| && IsAnswer(run[k], steps[k]) && !run[k].server.solutionFound
    ensures var requested := run[k].links[steps[k].link].toServer[0].num;
      && Total(steps[k].reply, JobSize()) <= requested
      && (Total(steps[k].reply, JobSize()) < requested && t < |run[k + 1].server.tasks| ==> TaskOut(run[k + 1], t))
  {
    StepOf(run, steps, k);
    var s, a := run[k], steps[k];
    RunKeepsInv(run, steps, k + 1);
    assert Replied(s.server, a.after, a.reply, s.links[a.link].toServer[0].num);
    AllTasksOutIff(run[k + 1]);
  }

  // The size of a request

  /** A worker requests exactly as many instances as it has threads that neither have a task nor have one
      waiting for them in the queue. */
  lemma {:induction false} RequestFillsThreads(run: seq<System>, steps: seq<Action>, k: nat, i: nat)
    requires IsRun(run, steps) && k < |steps| && steps[k] == WorkerStep(i, Request)
    ensures i < |run[k].links| && i < |run[k + 1].links|
    ensures var l, l' := run[k].links[i], run[k + 1].links[i];
      var free := |l.worker.threads| - |l.worker.tasks| - Total(l.worker.threads, HasTask());
      && 0 < free && l'.toServer == l.toServer + [GetInstancesMsg(free)]
  {
    StepOf(run, steps, k);
    RunKeepsInv(run, steps, k);
    assert LinkOk(run[k].links[i]);
  }

  // The queue of a worker

  /** The instances that a step puts into the queue of its worker. */
  function PutIn(l: Link, a: WorkerAction): seq<nat> {
    if a.CreateNext? && l.worker.phase.Creating? && l.worker.phase.jobs != []
    then var job := l.worker.phase.jobs[0]; Repeated(job.taskId, job.num) else []
  }

  /** The task that a step has put at a thread, seen after the step. */
  function TakenIn(l': Link, a: WorkerAction): seq<nat> {
    if a.ThreadStep? && a.action.Pop? && a.thread < |l'.worker.threads| && l'.worker.threads[a.thread].Popped?
    then [l'.worker.threads[a.thread].task] else []
  }

  /** The same for worker `i` and any step of the system. */
  function PutNow(s: System, a: Action, i: nat): seq<nat> {
    if a.WorkerStep? && a.link == i && i < |s.links| then PutIn(s.links[i], a.action) else []
  }

  function TakenNow(s': System, a: Action, i: nat): seq<nat> {
    if a.WorkerStep? && a.link == i && i < |s'.links| then TakenIn(s'.links[i], a.action) else []
  }

  /** The instances that worker `i` has put into its queue in the first `k` steps, and the tasks that its
      threads have taken, in that order. */
  ghost function PutBy(run: seq<System>, steps: seq<Action>, i: nat, k: nat): seq<nat>
    requires IsRun(run, steps) && k < |run|
  {
    if k == 0 then [] else PutBy(run, steps, i, k - 1) + PutNow(run[k - 1], steps[k - 1], i)
  }

  ghost function TakenBy(run: seq<System>, steps: seq<Action>, i: nat, k: nat): seq<nat>
    requires IsRun(run, steps) && k < |run|
  {
    if k == 0 then [] else TakenBy(run, steps, i, k - 1) + TakenNow(run[k], steps[k - 1], i)
  }

  lemma StepKeepsQueue(l: Link, a: WorkerAction)
    requires Enabled(l, a) && !a.CreateNext? && !(a.ThreadStep? && a.action.Pop?)
    ensures After(l, a).worker.tasks == l.worker.tasks
  {
  }

  lemma CreateIsFifo(l: Link)
    requires Enabled(l, CreateNext)
    ensures After(l, CreateNext).worker.tasks == l.worker.tasks + PutIn(l, CreateNext)
  {
  }

  lemma PopIsFifo(l: Link, j: nat)
    requires Enabled(l, ThreadStep(j, Pop))
    ensures l.worker.tasks == TakenIn(After(l, ThreadStep(j, Pop)), ThreadStep(j, Pop))
                              + After(l, ThreadStep(j, Pop)).worker.tasks
  {
  }

  lemma {:induction false} StepIsFifo(l: Link, a: WorkerAction)
    requires Enabled(l, a)
    ensures l.worker.tasks + PutIn(l, a) == TakenIn(After(l, a), a) + After(l, a).worker.tasks
  {
    if a.CreateNext? {
      CreateIsFifo(l);
    } else if a.ThreadStep? && a.action.Pop? {
      PopIsFifo(l, a.thread);
    } else {
      StepKeepsQueue(l, a);
    }
  }

  function QueueOf(s: System, i: nat): seq<nat> {
    if i < |s.links| then s.links[i].worker.tasks else []
  }

  lemma {:induction false} OthersKeepQueue(s: System, a: Action, i: nat)
    requires CanStep(s, a) && !(a.WorkerStep? && a.link == i)
    ensures QueueOf(AfterStep(s, a), i) == QueueOf(s, i)
  {
    if !a.AcceptWorker? { LinksStayUnlessAccepted(s, a); }
    if !a.WorkerStep? && i < |s.links| { ServerOnlyMessages(s, a, i); }
  }

  /** Some instance got lost in the queue, was made up, or overtook another. */
  ghost predicate OutOfOrder(run: seq<System>, steps: seq<Action>, i: nat, k: nat)
    requires IsRun(run, steps) && k < |run|
  {
    PutBy(run, steps, i, k) != TakenBy(run, steps, i, k) + QueueOf(run[k], i)
  }

  lemma {:induction false} SystemIsFifo(s: System, a: Action, i: nat)
    requires CanStep(s, a)
    ensures QueueOf(s, i) + PutNow(s, a, i) == TakenNow(AfterStep(s, a), a, i) + QueueOf(AfterStep(s, a), i)
  {
    if a.WorkerStep? && a.link == i {
      StepIsFifo(s.links[i], a.action);
    } else {
      OthersKeepQueue(s, a, i);
    }
  }

  lemma {:induction false} StepOfIsFifo(run: seq<System>, steps: seq<Action>, i: nat, k: nat)
    requires IsRun(run, steps) && k < |steps|
    ensures QueueOf(run[k], i) + PutNow(run[k], steps[k], i)
         == TakenNow(run[k + 1], steps[k], i) + QueueOf(run[k + 1], i)
  {
    StepOf(run, steps, k);
    SystemIsFifo(run[k], steps[k], i);
  }

  lemma HistoryNext(run: seq<System>, steps: seq<Action>, i: nat, k: nat)
    requires IsRun(run, steps) && k < |steps|
    ensures PutBy(run, steps, i, k + 1) == PutBy(run, steps, i, k) + PutNow(run[k], steps[k], i)
    ensures TakenBy(run, steps, i, k + 1) == TakenBy(run, steps, i, k) + TakenNow(run[k + 1], steps[k], i)
  {
  }

  lemma {:induction false} FifoAfterStep(run: seq<System>, steps: seq<Action>, i: nat, k: nat, k': nat)
    requires IsRun(run, steps) && k < k' == k + 1 < |run| && !OutOfOrder(run, steps, i, k)
    ensures !OutOfOrder(run, steps, i, k')
  {
    HistoryNext(run, steps, i, k);
    StepOfIsFifo(run, steps, i, k);
    FifoNext(PutBy(run, steps, i, k), TakenBy(run, steps, i, k), QueueOf(run[k], i),
             PutNow(run[k], steps[k], i), TakenNow(run[k + 1], steps[k], i), QueueOf(run[k + 1], i));
  }

  lemma FifoAtFirst(run: seq<System>, steps: seq<Action>, i: nat)
    requires IsRun(run, steps)
    ensures !OutOfOrder(run, steps, i, 0)
  {
  }

  lemma {:induction false} NothingIsOutOfOrder(run: seq<System>, steps: seq<Action>, i: nat, k: nat)
    requires IsRun(run, steps) && k < |run|
    ensures !OutOfOrder(run, steps, i, k)
  {
    if k == 0 {
      FifoAtFirst(run, steps, i);
    } else {
      var j := k - 1;
      NothingIsOutOfOrder(run, steps, i, j);
      FifoAfterStep(run, steps, i, j, k);
    }
  }

  /** The queue of a worker is first in, first out: what was put into it is what was taken out of it, and then
      what it holds. */
  lemma {:induction false} QueueIsFifo(run: seq<System>, steps: seq<Action>, i: nat, k: nat)
    requires IsRun(run, steps) && k < |run|
    ensures PutBy(run, steps, i, k) == TakenBy(run, steps, i, k) + QueueOf(run[k], i)
  {
    NothingIsOutOfOrder(run, steps, i, k);
  }

  // What is submitted and accepted

  /** Task `t` is that of the file, with the required number of instances. */
  predicate IsTaskOf(s: System, t: nat, required: nat, file: seq<Line>) {
    t < |s.server.tasks| && t < |s.files| && s.server.tasks[t].required == required && s.files[t] == file
  }

  predicate SameRequired(before: ServerState, after: ServerState) {
    && |after.tasks| == |before.tasks|
    && forall t | 0 <= t < |before.tasks| :: after.tasks[t].required == before.tasks[t].required
  }

  lemma ReturnKeepsRequired(s: ServerState, msg: Done)
    requires msg.taskId < |s.tasks| && 0 < msg.instancesProcessed
    requires msg.instancesProcessed <= s.tasks[msg.taskId].processing && msg.instancesProcessed <= s.inProcessing
    ensures SameRequired(s, DoneProcessing(s, msg))
  {
  }

  lemma ReplyKeepsRequired(s: ServerState, s': ServerState, jobs: seq<Job>, k: nat)
    requires GetInstances(s, s', jobs, k)
    ensures SameRequired(s, s')
  {
  }

  lemma {:induction false} ProcessKeepsRequired(s: System, p: nat, after: ServerState, reply: seq<Job>)
    requires CanStep(s, Process(p, after, reply))
    ensures SameRequired(s.server, AfterProcess(s, p, after, reply).server)
  {
    match s.links[p].toServer[0]
    case DoneProcessingMsg(msg) => if Subtracts(s.server, msg) { ReturnKeepsRequired(s.server, msg); }
    case GetInstancesMsg(k) => ReplyKeepsRequired(s.server, after, reply, k);
    case _ =>
  }

  lemma {:induction false} StepKeepsTask(s: System, a: Action, t: nat, required: nat, file: seq<Line>)
    requires CanStep(s, a) && IsTaskOf(s, t, required, file)
    ensures IsTaskOf(AfterStep(s, a), t, required, file)
  {
    if a.Process? { ProcessKeepsRequired(s, a.link, a.after, a.reply); }
  }

  lemma {:induction false} TaskNext(run: seq<System>, steps: seq<Action>, k: nat, k': nat, t: nat, required: nat,
                                    file: seq<Line>)
    requires IsRun(run, steps) && k < k' == k + 1 < |run| && IsTaskOf(run[k], t, required, file)
    ensures IsTaskOf(run[k'], t, required, file)
  {
    StepOf(run, steps, k);
    StepKeepsTask(run[k], steps[k], t, required, file);
  }

  lemma {:induction false} SubmittedFirst(run: seq<System>, steps: seq<Action>, j: nat, k: nat)
    requires IsRun(run, steps) && j < k == j + 1 < |run| && steps[j].SubmitFile?
    ensures IsTaskOf(run[k], |run[j].files|, steps[j].required, steps[j].file)
  {
    RunKeepsInv(run, steps, j);
    StepOf(run, steps, j);
  }

  /** Every file that is submitted becomes the next task, and stays it with its number of instances. */
  lemma {:induction false} SubmittedIsKept(run: seq<System>, steps: seq<Action>, j: nat, k: nat)
    requires IsRun(run, steps) && j < k < |run| && steps[j].SubmitFile?
    ensures IsTaskOf(run[k], |run[j].files|, steps[j].required, steps[j].file)
    decreases k
  {
    if k == j + 1 {
      SubmittedFirst(run, steps, j, k);
    } else {
      var k0 := k - 1;
      SubmittedIsKept(run, steps, j, k0);
      TaskNext(run, steps, k0, k, |run[j].files|, steps[j].required, steps[j].file);
    }
  }

  predicate HasThreads(s: System, i: nat, n: nat) {
    i < |s.links| && |s.links[i].worker.threads| == n
  }

  lemma LinkKeepsThreads(l: Link, a: WorkerAction)
    requires Enabled(l, a)
    ensures |After(l, a).worker.threads| == |l.worker.threads|
  {
  }

  lemma {:induction false} ThreadsNext(run: seq<System>, steps: seq<Action>, k: nat, i: nat, n: nat)
    requires IsRun(run, steps) && k < |steps| && HasThreads(run[k], i, n)
    ensures HasThreads(run[k + 1], i, n)
  {
    StepOf(run, steps, k);
    var s, a := run[k], steps[k];
    if a.WorkerStep? {
      if a.link == i { LinkKeepsThreads(s.links[i], a.action); }
    } else {
      ServerOnlyMessages(s, a, i);
    }
  }

  /** Every worker keeps the number of threads with which it was accepted. */
  lemma {:induction false} ThreadsAreKept(run: seq<System>, steps: seq<Action>, j: nat, k: nat)
    requires IsRun(run, steps) && j < k < |run| && steps[j].AcceptWorker?
    ensures HasThreads(run[k], |run[j].links|, steps[j].numThreads)
    decreases k
  {
    if k == j + 1 {
      StepOf(run, steps, j);
      AcceptedHasThreads(run[j], steps[j]);
    } else {
      ThreadsAreKept(run, steps, j, k - 1);
      ThreadsNext(run, steps, k - 1, |run[j].links|, steps[j].numThreads);
    }
  }

  lemma AcceptedHasThreads(s: System, a: Action)
    requires CanStep(s, a) && a.AcceptWorker?
    ensures HasThreads(AfterStep(s, a), |s.links|, a.numThreads)
  {
  }
}
