/** The worker process: its main loop, its threads, and the queues between them. */
module Workers {
  import opened Sums
  import opened Statistics
  import opened Scheduler

  datatype UpMessage =
    | FoundSolutionMsg
    | DoneProcessingMsg(info: Done)
    | GetInstancesMsg(num: nat)
    | DisconnectMsg

  datatype DownMessage =
    | ActivateMsg
    | SendInstancesMsg(jobs: seq<Job>)
    | TerminateMsg

  /** A thread holds a task from the moment it takes it out of the queue. ExitedWith: it saw that
      the worker stops before it started to execute the task. */
  datatype Thread = Idle | Popped(task: nat) | Executing(task: nat) | Exited | ExitedWith(task: nat)

  /** Where the main thread is.
      - Inactive: it waits for ACTIVATE_WORKER
      - Looping: at the head of the main loop
      - Awaiting: it has requested `num` instances and waits for SEND_INSTANCES
      - Creating: in create_tasks, with the jobs that are left
      - Joining: the loop has ended, it waits for the threads
      - Draining: it returns the tasks that are done
      - Gone: it has sent DISCONNECT
      - Aborted: an exception has ended the process */
  datatype Phase =
    | Inactive
    | Looping
    | Awaiting(num: nat)
    | Creating(jobs: seq<Job>)
    | Joining
    | Draining
    | Gone
    | Aborted

  /** `lost` collects the instances that the main thread drops; `staleRead` records that the main
      loop processed a SEND_INSTANCES message it had only probed. */
  datatype WorkerState = WorkerState(
    phase: Phase, running: bool, instancesToGet: int, tasks: seq<nat>, threads: seq<Thread>,
    tasksDone: seq<Done>, lost: seq<Job>, staleRead: bool)

  /** A worker with its two channels; `attached` says that it is in the server's work_units. */
  datatype Link = Link(worker: WorkerState, toServer: seq<UpMessage>, toWorker: seq<DownMessage>, attached: bool)

  datatype ThreadAction =
    | Pop
    | CheckRunning
    | ExitIdle
    | Finish(result: Done)

  datatype WorkerAction =
    | ReceiveActivation
    | ReceiveReply
    | Probe
    | Request
    | ReturnOne
    | LeaveLoop
    | CreateNext
    | CreateFails
    | JoinThreads
    | Drain
    | ThreadStep(thread: nat, action: ThreadAction)

  function Repeated(task: nat, n: nat): (r: seq<nat>)
    ensures |r| == n && forall i | 0 <= i < n :: r[i] == task
  {
    seq(n, _ => task)
  }

  predicate ThreadsAlive(phase: Phase) {
    phase.Looping? || phase.Awaiting? || phase.Creating? || phase.Joining?
  }

  predicate ThreadEnabled(w: WorkerState, i: nat, a: ThreadAction) {
    && i < |w.threads| && ThreadsAlive(w.phase)
    && match a
       case Pop => w.threads[i].Idle? && w.tasks != []
       case CheckRunning => w.threads[i].Popped?
       case ExitIdle => w.threads[i].Idle? && !w.running
       case Finish(r) =>
         && w.threads[i].Executing? && r.taskId == w.threads[i].task
         && r.instancesProcessed <= 1 && (r.solved ==> r.instancesProcessed == 1)
  }

  function AfterThread(w: WorkerState, i: nat, a: ThreadAction): WorkerState
    requires ThreadEnabled(w, i, a)
  {
    match a
    case Pop =>
      w.(threads := w.threads[i := Popped(w.tasks[0])], tasks := w.tasks[1..])
    case CheckRunning =>
      var t := w.threads[i].task;
      w.(threads := w.threads[i := if w.running then Executing(t) else ExitedWith(t)])
    case ExitIdle =>
      w.(threads := w.threads[i := Exited])
    case Finish(r) =>
      w.(threads := w.threads[i := Idle], tasksDone := w.tasksDone + [r], instancesToGet := w.instancesToGet + 1)
  }

  /** The messages of return_task; a task that was not processed ends in an exception. */
  function MessagesFor(r: Done): seq<UpMessage> {
    var found := if r.solved then [FoundSolutionMsg] else [];
    if r.instancesProcessed > 0 then found + [DoneProcessingMsg(r)] else found
  }

  /** The exception ends the process, or, after the threads were joined, its main part. */
  function Closing(r: Done, failed: Phase): seq<UpMessage> {
    if r.instancesProcessed == 0 && failed == Gone then [DisconnectMsg] else []
  }

  predicate Enabled(l: Link, a: WorkerAction) {
    var w := l.worker;
    match a
    case ReceiveActivation => w.phase.Inactive? && l.toWorker != []
    case ReceiveReply => w.phase.Awaiting? && l.toWorker != []
    case Probe => w.phase.Looping? && w.running && l.toWorker != []
    case Request => w.phase.Looping? && w.running && w.instancesToGet > 0
    case ReturnOne => w.phase.Looping? && w.running && w.tasksDone != []
    case LeaveLoop => w.phase.Looping? && !w.running
    case CreateNext => w.phase.Creating? && w.phase.jobs != []
    case CreateFails => w.phase.Creating?
    case JoinThreads =>
      w.phase.Joining? && forall i | 0 <= i < |w.threads| :: w.threads[i].Exited? || w.threads[i].ExitedWith?
    case Drain => w.phase.Draining?
    case ThreadStep(i, action) => ThreadEnabled(w, i, action)
  }

  function AfterReceive(w: WorkerState, m: DownMessage): WorkerState {
    match m
    case ActivateMsg =>
      if w.phase.Inactive? then w.(phase := Looping, instancesToGet := |w.threads|) else w
    case TerminateMsg =>
      w.(running := false)
    case SendInstancesMsg(jobs) =>
      if !w.running || w.phase.Inactive? then
        w.(phase := if w.phase.Awaiting? then Looping else w.phase, lost := w.lost + jobs)
      else
        w.(phase := if jobs == [] then Looping else Creating(jobs))
  }

  /** One job of create_tasks: its instances go to the end of the queue. */
  function AfterCreate(w: WorkerState): WorkerState
    requires w.phase.Creating? && w.phase.jobs != []
  {
    var job, rest := w.phase.jobs[0], w.phase.jobs[1..];
    w.(tasks := w.tasks + Repeated(job.taskId, job.num),
       instancesToGet := w.instancesToGet - job.num,
       phase := if rest == [] then Looping else Creating(rest))
  }

  /** return_task for the first task that is done. */
  function AfterReturn(l: Link, failed: Phase): Link
    requires l.worker.tasksDone != []
  {
    var w, r := l.worker, l.worker.tasksDone[0];
    var w' := w.(tasksDone := w.tasksDone[1..]);
    Link(if r.instancesProcessed > 0 then w' else w'.(phase := failed, lost := w.lost + [Job(r.taskId, 1)]),
         l.toServer + MessagesFor(r) + Closing(r, failed),
         l.toWorker, l.attached)
  }

  function After(l: Link, a: WorkerAction): Link
    requires Enabled(l, a)
  {
    var w := l.worker;
    match a
    case ReceiveActivation =>
      l.(worker := AfterReceive(w, l.toWorker[0]), toWorker := l.toWorker[1..])
    case ReceiveReply =>
      l.(worker := AfterReceive(w, l.toWorker[0]), toWorker := l.toWorker[1..])
    case Probe =>
      // the message is looked at, but not received
      (match l.toWorker[0]
       case ActivateMsg => l
       case TerminateMsg => l.(worker := w.(running := false))
       case SendInstancesMsg(_) => l.(worker := w.(staleRead := true)))
    case Request =>
      l.(worker := w.(phase := Awaiting(w.instancesToGet)),
         toServer := l.toServer + [GetInstancesMsg(w.instancesToGet)])
    case ReturnOne => AfterReturn(l, Aborted)
    case LeaveLoop => l.(worker := w.(phase := Joining))
    case CreateNext => l.(worker := AfterCreate(w))
    case CreateFails => l.(worker := w.(phase := Aborted, lost := w.lost + w.phase.jobs))
    case JoinThreads => l.(worker := w.(phase := Draining))
    case Drain =>
      if w.tasksDone != [] then AfterReturn(l, Gone)
      else l.(worker := w.(phase := Gone), toServer := l.toServer + [DisconnectMsg])
    case ThreadStep(i, action) => l.(worker := AfterThread(w, i, action))
  }

  /** A worker that has just been accepted. */
  function NewWorker(numThreads: nat): WorkerState {
    WorkerState(Inactive, true, 0, [], seq(numThreads, _ => Idle), [], [], false)
  }

  // The instances of a task that a link holds

  function IsTask(t: nat): nat -> nat {
    (x: nat) => if x == t then 1 else 0
  }

  function ThreadHas(t: nat): Thread -> nat {
    (th: Thread) => if (th.Popped? || th.Executing? || th.ExitedWith?) && th.task == t then 1 else 0
  }

  function DoneFor(t: nat): Done -> nat {
    (d: Done) => if d.taskId == t then 1 else 0
  }

  ghost function UpFor(t: nat): UpMessage -> nat {
    (m: UpMessage) => if m.DoneProcessingMsg? && m.info.taskId == t then m.info.instancesProcessed else 0
  }

  ghost function DownFor(t: nat): DownMessage -> nat {
    (m: DownMessage) => if m.SendInstancesMsg? then Total(m.jobs, JobsFor(t)) else 0
  }

  function JobsLeft(phase: Phase): seq<Job> {
    if phase.Creating? then phase.jobs else []
  }

  /** The instances of task `t` at a worker: still to be queued, queued, at a thread, done, lost. */
  ghost function HeldAt(w: WorkerState, t: nat): nat {
    Total(JobsLeft(w.phase), JobsFor(t)) + Total(w.tasks, IsTask(t)) + Total(w.threads, ThreadHas(t))
    + Total(w.tasksDone, DoneFor(t)) + Total(w.lost, JobsFor(t))
  }

  /** The instances of task `t` at a worker and in its two channels. */
  ghost function Held(l: Link, t: nat): nat {
    HeldAt(l.worker, t) + Total(l.toServer, UpFor(t)) + Total(l.toWorker, DownFor(t))
  }

  lemma {:induction false} TotalRepeated(task: nat, n: nat, t: nat)
    ensures Total(Repeated(task, n), IsTask(t)) == if task == t then n else 0
  {
    if n > 0 {
      TotalRepeated(task, n - 1, t);
      assert Repeated(task, n)[..n - 1] == Repeated(task, n - 1);
    }
  }

  /** Threads only move instances between the queue, themselves and the tasks that are done. */
  lemma {:induction false} ThreadKeepsHeld(w: WorkerState, i: nat, a: ThreadAction, t: nat)
    requires ThreadEnabled(w, i, a)
    ensures HeldAt(AfterThread(w, i, a), t) == HeldAt(w, t)
  {
    var w' := AfterThread(w, i, a);
    TotalUpdate(w.threads, i, w'.threads[i], ThreadHas(t));
    match a
    case Pop => TotalHead(w.tasks, IsTask(t));
    case CheckRunning =>
    case ExitIdle =>
    case Finish(r) => TotalAppend(w.tasksDone, r, DoneFor(t));
  }

  lemma {:induction false} ReceiveKeepsHeld(w: WorkerState, m: DownMessage, t: nat)
    requires w.phase.Inactive? || w.phase.Awaiting?
    ensures HeldAt(AfterReceive(w, m), t) == HeldAt(w, t) + DownFor(t)(m)
  {
    if m.SendInstancesMsg? {
      TotalConcat(w.lost, m.jobs, JobsFor(t));
    }
  }

  lemma {:induction false} CreateKeepsHeld(w: WorkerState, t: nat)
    requires w.phase.Creating? && w.phase.jobs != []
    ensures HeldAt(AfterCreate(w), t) == HeldAt(w, t)
  {
    var job := w.phase.jobs[0];
    TotalHead(w.phase.jobs, JobsFor(t));
    TotalConcat(w.tasks, Repeated(job.taskId, job.num), IsTask(t));
    TotalRepeated(job.taskId, job.num, t);
  }

  lemma {:induction false} MessagesHold(r: Done, failed: Phase, t: nat)
    ensures Total(MessagesFor(r), UpFor(t)) == if r.taskId == t then r.instancesProcessed else 0
    ensures Total(Closing(r, failed), UpFor(t)) == 0
  {
    var found := if r.solved then [FoundSolutionMsg] else [];
    TotalZero(found, UpFor(t));
    TotalAppend(found, DoneProcessingMsg(r), UpFor(t));
    TotalZero(Closing(r, failed), UpFor(t));
  }

  lemma {:induction false} ReturnedTotal(l: Link, failed: Phase, t: nat)
    requires l.worker.tasksDone != []
    ensures var r := l.worker.tasksDone[0];
      Total(AfterReturn(l, failed).toServer, UpFor(t)) ==
      Total(l.toServer, UpFor(t)) + (if r.taskId == t then r.instancesProcessed else 0)
  {
    var r := l.worker.tasksDone[0];
    MessagesHold(r, failed, t);
    TotalConcat(l.toServer, MessagesFor(r), UpFor(t));
    TotalConcat(l.toServer + MessagesFor(r), Closing(r, failed), UpFor(t));
  }

  lemma {:induction false} ReturnedWorkerHolds(l: Link, failed: Phase, t: nat)
    requires l.worker.tasksDone != [] && !l.worker.phase.Creating? && !failed.Creating?
    ensures var r := l.worker.tasksDone[0];
      HeldAt(AfterReturn(l, failed).worker, t) + (if r.taskId == t && r.instancesProcessed > 0 then 1 else 0)
      == HeldAt(l.worker, t)
  {
    TotalHead(l.worker.tasksDone, DoneFor(t));
    TotalAppend(l.worker.lost, Job(l.worker.tasksDone[0].taskId, 1), JobsFor(t));
  }

  lemma {:induction false} ReturnKeepsHeld(l: Link, failed: Phase, t: nat)
    requires l.worker.tasksDone != [] && l.worker.tasksDone[0].instancesProcessed <= 1
    requires !l.worker.phase.Creating? && !failed.Creating?
    ensures Held(AfterReturn(l, failed), t) == Held(l, t)
  {
    ReturnedWorkerHolds(l, failed, t);
    ReturnedTotal(l, failed, t);
  }

  lemma {:induction false} ReceiveStepKeepsHeld(l: Link, t: nat)
    requires l.toWorker != [] && (l.worker.phase.Inactive? || l.worker.phase.Awaiting?)
    ensures Held(l.(worker := AfterReceive(l.worker, l.toWorker[0]), toWorker := l.toWorker[1..]), t) == Held(l, t)
  {
    TotalHead(l.toWorker, DownFor(t));
    ReceiveKeepsHeld(l.worker, l.toWorker[0], t);
  }

  lemma {:induction false} DrainKeepsHeld(l: Link, t: nat)
    requires Enabled(l, Drain)
    requires forall i | 0 <= i < |l.worker.tasksDone| :: l.worker.tasksDone[i].instancesProcessed <= 1
    ensures Held(After(l, Drain), t) == Held(l, t)
  {
    if l.worker.tasksDone != [] {
      ReturnKeepsHeld(l, Gone, t);
    } else {
      TotalAppend(l.toServer, DisconnectMsg, UpFor(t));
    }
  }

  /** No step of a worker creates or destroys an instance of a task. */
  lemma {:induction false} StepKeepsHeld(l: Link, a: WorkerAction, t: nat)
    requires Enabled(l, a)
    requires forall i | 0 <= i < |l.worker.tasksDone| :: l.worker.tasksDone[i].instancesProcessed <= 1
    ensures Held(After(l, a), t) == Held(l, t)
  {
    match a
    case ReceiveActivation => ReceiveStepKeepsHeld(l, t);
    case ReceiveReply => ReceiveStepKeepsHeld(l, t);
    case Probe =>
    case Request => TotalAppend(l.toServer, GetInstancesMsg(l.worker.instancesToGet), UpFor(t));
    case ReturnOne => ReturnKeepsHeld(l, Aborted, t);
    case LeaveLoop =>
    case CreateNext => CreateKeepsHeld(l.worker, t);
    case CreateFails => TotalConcat(l.worker.lost, l.worker.phase.jobs, JobsFor(t));
    case JoinThreads =>
    case Drain => DrainKeepsHeld(l, t);
    case ThreadStep(i, action) => ThreadKeepsHeld(l.worker, i, action, t);
  }

  // The invariant of a worker and its channels

  function HasTask(): Thread -> nat {
    (th: Thread) => if th.Popped? || th.Executing? || th.ExitedWith? then 1 else 0
  }

  function IsRequest(): UpMessage -> nat {
    (m: UpMessage) => if m.GetInstancesMsg? then 1 else 0
  }

  function IsReply(): DownMessage -> nat {
    (m: DownMessage) => if m.SendInstancesMsg? then 1 else 0
  }

  function IsActivation(): DownMessage -> nat {
    (m: DownMessage) => if m.ActivateMsg? then 1 else 0
  }

  /** Every thread is accounted for: it waits to be supplied, a task waits for it in the queue, or
      it has one. */
  ghost predicate ThreadsCounted(w: WorkerState) {
    if w.phase.Inactive? then
      w.instancesToGet == 0 && w.tasks == [] && w.tasksDone == []
      && forall i | 0 <= i < |w.threads| :: w.threads[i].Idle?
    else
      w.instancesToGet + |w.tasks| + Total(w.threads, HasTask()) == |w.threads|
  }

  predicate JobsOk(jobs: seq<Job>) {
    forall i | 0 <= i < |jobs| :: jobs[i].num > 0
  }

  /** What is still to be queued fits into the instances that were requested, so the subtraction in
      create_tasks never wraps. */
  ghost predicate RequestCovered(w: WorkerState) {
    && 0 <= w.instancesToGet <= |w.threads|
    && (w.phase.Awaiting? ==> w.phase.num <= w.instancesToGet)
    && (w.phase.Creating? ==>
          w.phase.jobs != [] && JobsOk(w.phase.jobs) && Total(w.phase.jobs, JobSize()) <= w.instancesToGet)
  }

  /** There is one open request or reply while the worker waits, and none otherwise. */
  ghost predicate OneRequest(l: Link) {
    Total(l.toServer, IsRequest()) + Total(l.toWorker, IsReply()) == if l.worker.phase.Awaiting? then 1 else 0
  }

  /** The open request or reply is the one the worker waits for. */
  ghost predicate RequestMatches(l: Link) {
    && (forall i | 0 <= i < |l.toServer| && l.toServer[i].GetInstancesMsg? && l.worker.phase.Awaiting? ::
          l.toServer[i].num == l.worker.phase.num)
    && (forall i | 0 <= i < |l.toWorker| && l.toWorker[i].SendInstancesMsg? && l.worker.phase.Awaiting? ::
          JobsOk(l.toWorker[i].jobs) && Total(l.toWorker[i].jobs, JobSize()) <= l.worker.phase.num)
  }

  /** A worker is activated at most once. */
  ghost predicate OneActivation(l: Link) {
    Total(l.toWorker, IsActivation()) <= if l.worker.phase.Inactive? then 1 else 0
  }

  predicate OnlyReports(msgs: seq<UpMessage>) {
    forall i | 0 <= i < |msgs| && msgs[i].DoneProcessingMsg? :: msgs[i].info.instancesProcessed == 1
  }

  /** Only processed instances are reported. */
  ghost predicate ReportsOk(l: Link) {
    && (forall i | 0 <= i < |l.worker.tasksDone| ::
          var r := l.worker.tasksDone[i];
          r.instancesProcessed <= 1 && (r.solved ==> r.instancesProcessed == 1))
    && OnlyReports(l.toServer)
  }

  ghost predicate LinkOk(l: Link) {
    && ThreadsCounted(l.worker) && RequestCovered(l.worker) && |l.worker.threads| <= UINT32_MAX
    && OneRequest(l) && RequestMatches(l) && OneActivation(l) && ReportsOk(l)
    && !l.worker.staleRead
  }

  lemma {:induction false} NewWorkerOk(numThreads: nat, toWorker: seq<DownMessage>)
    requires numThreads <= UINT32_MAX && (toWorker == [] || toWorker == [ActivateMsg])
    ensures LinkOk(Link(NewWorker(numThreads), [], toWorker, true))
    ensures forall t: nat :: Held(Link(NewWorker(numThreads), [], toWorker, true), t) == 0
  {
    var w := NewWorker(numThreads);
    forall t: nat
      ensures Held(Link(w, [], toWorker, true), t) == 0
    {
      TotalZero(w.threads, ThreadHas(t));
      TotalZero(toWorker, DownFor(t));
    }
  }

  lemma {:induction false} ThreadKeepsCounted(w: WorkerState, i: nat, a: ThreadAction)
    requires ThreadEnabled(w, i, a) && ThreadsCounted(w) && RequestCovered(w)
    ensures ThreadsCounted(AfterThread(w, i, a)) && RequestCovered(AfterThread(w, i, a))
  {
    var w' := AfterThread(w, i, a);
    TotalUpdate(w.threads, i, w'.threads[i], HasTask());
  }

  lemma {:induction false} ReceiveKeepsCounted(w: WorkerState, m: DownMessage)
    requires ThreadsCounted(w) && RequestCovered(w) && (w.phase.Inactive? || w.phase.Awaiting?)
    requires w.phase.Inactive? ==> !m.SendInstancesMsg?
    requires m.SendInstancesMsg? && w.phase.Awaiting? ==> JobsOk(m.jobs) && Total(m.jobs, JobSize()) <= w.phase.num
    ensures ThreadsCounted(AfterReceive(w, m)) && RequestCovered(AfterReceive(w, m))
  {
    if w.phase.Inactive? { TotalZero(w.threads, HasTask()); }
  }

  lemma {:induction false} CreateKeepsCounted(w: WorkerState)
    requires ThreadsCounted(w) && RequestCovered(w) && w.phase.Creating?
    ensures ThreadsCounted(AfterCreate(w)) && RequestCovered(AfterCreate(w))
  {
    TotalHead(w.phase.jobs, JobSize());
  }

  lemma {:induction false} ReceiveKeepsOk(l: Link)
    requires LinkOk(l) && l.toWorker != [] && (l.worker.phase.Inactive? || l.worker.phase.Awaiting?)
    ensures LinkOk(l.(worker := AfterReceive(l.worker, l.toWorker[0]), toWorker := l.toWorker[1..]))
  {
    TotalHead(l.toWorker, IsReply());
    TotalHead(l.toWorker, IsActivation());
    ReceiveKeepsCounted(l.worker, l.toWorker[0]);
    assert forall i | 0 <= i < |l.toWorker| - 1 :: l.toWorker[1..][i] == l.toWorker[i + 1];
  }

  lemma {:induction false} MessagesAreReports(r: Done, failed: Phase)
    requires r.instancesProcessed <= 1
    ensures Total(MessagesFor(r), IsRequest()) == 0 && OnlyReports(MessagesFor(r))
    ensures Total(Closing(r, failed), IsRequest()) == 0 && OnlyReports(Closing(r, failed))
  {
    TotalZero(MessagesFor(r), IsRequest());
    TotalZero(Closing(r, failed), IsRequest());
  }

  /** What return_task sends holds no request. */
  lemma {:induction false} ReturnKeepsRequests(l: Link, failed: Phase)
    requires OneRequest(l) && l.worker.tasksDone != [] && l.worker.tasksDone[0].instancesProcessed <= 1
    requires !l.worker.phase.Awaiting? && !failed.Awaiting?
    ensures OneRequest(AfterReturn(l, failed))
  {
    var r := l.worker.tasksDone[0];
    MessagesAreReports(r, failed);
    TotalConcat(l.toServer, MessagesFor(r), IsRequest());
    TotalConcat(l.toServer + MessagesFor(r), Closing(r, failed), IsRequest());
  }

  lemma OnlyReportsConcat(msgs: seq<UpMessage>, more: seq<UpMessage>)
    requires OnlyReports(msgs) && OnlyReports(more)
    ensures OnlyReports(msgs + more)
  {
  }

  lemma {:induction false} ReturnKeepsReports(l: Link, failed: Phase)
    requires ReportsOk(l) && l.worker.tasksDone != []
    ensures ReportsOk(AfterReturn(l, failed))
  {
    var r := l.worker.tasksDone[0];
    MessagesAreReports(r, failed);
    OnlyReportsConcat(l.toServer, MessagesFor(r));
    OnlyReportsConcat(l.toServer + MessagesFor(r), Closing(r, failed));
  }

  lemma {:induction false} ReturnKeepsOk(l: Link, failed: Phase)
    requires LinkOk(l) && l.worker.tasksDone != [] && (failed == Aborted || failed == Gone)
    requires l.worker.phase.Looping? || l.worker.phase.Draining?
    ensures LinkOk(AfterReturn(l, failed))
  {
    ReturnKeepsRequests(l, failed);
    ReturnKeepsReports(l, failed);
    var l' := AfterReturn(l, failed);
    assert RequestMatches(l') by { assert !l'.worker.phase.Awaiting?; }
    assert OneActivation(l');
  }

  lemma {:induction false} RequestKeepsOk(l: Link)
    requires LinkOk(l) && Enabled(l, Request)
    ensures LinkOk(After(l, Request))
  {
    TotalAppend(l.toServer, GetInstancesMsg(l.worker.instancesToGet), IsRequest());
    forall i | 0 <= i < |l.toServer|
      ensures !l.toServer[i].GetInstancesMsg?
    {
      ZeroTotal(l.toServer, IsRequest(), i);
    }
    forall i | 0 <= i < |l.toWorker|
      ensures !l.toWorker[i].SendInstancesMsg?
    {
      ZeroTotal(l.toWorker, IsReply(), i);
    }
  }

  /** The main loop only ever finds TERMINATE when it probes its channel: it never processes a
      SEND_INSTANCES message that it has not received. */
  lemma {:induction false} ProbeFindsTerminate(l: Link)
    requires LinkOk(l) && Enabled(l, Probe)
    ensures l.toWorker[0] == TerminateMsg
  {
    ZeroTotal(l.toWorker, IsReply(), 0);
    ZeroTotal(l.toWorker, IsActivation(), 0);
  }

  lemma {:induction false} DrainKeepsOk(l: Link)
    requires LinkOk(l) && Enabled(l, Drain)
    ensures LinkOk(After(l, Drain))
  {
    if l.worker.tasksDone != [] {
      ReturnKeepsOk(l, Gone);
    } else {
      TotalAppend(l.toServer, DisconnectMsg, IsRequest());
    }
  }

  lemma {:induction false} ThreadKeepsOk(l: Link, i: nat, a: ThreadAction)
    requires LinkOk(l) && ThreadEnabled(l.worker, i, a)
    ensures LinkOk(l.(worker := AfterThread(l.worker, i, a)))
  {
    ThreadKeepsCounted(l.worker, i, a);
  }

  lemma {:induction false} CreateKeepsOk(l: Link)
    requires LinkOk(l) && Enabled(l, CreateNext)
    ensures LinkOk(After(l, CreateNext))
  {
    CreateKeepsCounted(l.worker);
  }

  /** Every step of a worker keeps its invariant. */
  lemma {:induction false} StepKeepsOk(l: Link, a: WorkerAction)
    requires LinkOk(l) && Enabled(l, a)
    ensures LinkOk(After(l, a))
  {
    match a
    case ReceiveActivation => ReceiveKeepsOk(l);
    case ReceiveReply => ReceiveKeepsOk(l);
    case Probe => ProbeFindsTerminate(l);
    case Request => RequestKeepsOk(l);
    case ReturnOne => ReturnKeepsOk(l, Aborted);
    case LeaveLoop =>
    case CreateNext => CreateKeepsOk(l);
    case CreateFails =>
    case JoinThreads =>
    case Drain => DrainKeepsOk(l);
    case ThreadStep(i, action) => ThreadKeepsOk(l, i, action);
  }
}
