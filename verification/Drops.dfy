/** Instances that a worker never returns, and what they mean for a run. */
module Drops {
  import opened Sums
  import opened Statistics
  import opened Scheduler
  import opened Workers
  import opened Protocol
  import opened HonestResults
  import opened Runs

  /** The instances of task `t` that a worker will never return: those it has lost, and those that
      are queued or at a thread when its threads have ended. */
  ghost function DroppedAt(w: WorkerState, t: nat): nat {
    Total(w.lost, JobsFor(t))
    + (if w.phase.Draining? || w.phase.Gone? || w.phase.Aborted?
       then Total(w.tasks, IsTask(t)) + Total(w.threads, ThreadHas(t)) else 0)
  }

  lemma {:induction false} ReturnKeepsDropped(l: Link, failed: Phase, t: nat)
    requires l.worker.tasksDone != [] && (failed.Gone? || failed.Aborted?)
    ensures DroppedAt(AfterReturn(l, failed).worker, t) >= DroppedAt(l.worker, t)
  {
    TotalAppend(l.worker.lost, Job(l.worker.tasksDone[0].taskId, 1), JobsFor(t));
  }

  lemma {:induction false} ReceiveKeepsDropped(w: WorkerState, m: DownMessage, t: nat)
    requires w.phase.Inactive? || w.phase.Awaiting?
    ensures DroppedAt(AfterReceive(w, m), t) >= DroppedAt(w, t)
  {
    if m.SendInstancesMsg? { TotalConcat(w.lost, m.jobs, JobsFor(t)); }
  }

  /** What a worker has dropped stays dropped. */
  lemma {:induction false} StepKeepsDropped(l: Link, a: WorkerAction, t: nat)
    requires Enabled(l, a)
    ensures DroppedAt(After(l, a).worker, t) >= DroppedAt(l.worker, t)
  {
    match a
    case ReceiveActivation => ReceiveKeepsDropped(l.worker, l.toWorker[0], t);
    case ReceiveReply => ReceiveKeepsDropped(l.worker, l.toWorker[0], t);
    case ReturnOne => ReturnKeepsDropped(l, Aborted, t);
    case CreateFails => TotalConcat(l.worker.lost, l.worker.phase.jobs, JobsFor(t));
    case Drain => if l.worker.tasksDone != [] { ReturnKeepsDropped(l, Gone, t); }
    case _ =>
  }

  ghost predicate HasDropped(s: System, i: nat, t: nat) {
    i < |s.links| && DroppedAt(s.links[i].worker, t) > 0
  }

  /** The server never touches the state of a worker. */
  lemma ServerKeepsWorkers(s: System, a: Action, i: nat)
    requires CanStep(s, a) && !a.WorkerStep? && i < |s.links|
    ensures i < |AfterStep(s, a).links| && AfterStep(s, a).links[i].worker == s.links[i].worker
  {
  }

  lemma {:induction false} DroppedPersists(s: System, a: Action, i: nat, t: nat)
    requires CanStep(s, a) && HasDropped(s, i, t)
    ensures HasDropped(AfterStep(s, a), i, t)
  {
    if a.WorkerStep? {
      if a.link == i { StepKeepsDropped(s.links[i], a.action, t); }
    } else {
      ServerKeepsWorkers(s, a, i);
    }
  }

  /** A dropped instance is still counted, so not all instances have been returned. */
  lemma {:induction false} DroppedIsCounted(s: System, i: nat, t: nat)
    requires Inv(s) && HasDropped(s, i, t)
    ensures s.server.inProcessing > 0
  {
    TotalCovers(s.links, i, HeldBy(t));
    assert Total(s.links, HeldBy(t)) == ProcessingOf(s.server, t);
    TotalCovers(s.server.tasks, t, Processing());
  }

  lemma {:induction false} DroppedDelaysReport(s: System, a: Action, i: nat, t: nat)
    requires Inv(s) && Honest(s) && CanStep(s, a) && HonestStep(s, a) && HasDropped(s, i, t) && !s.server.statisticSend
    ensures !AfterStep(s, a).server.statisticSend
  {
    var s' := AfterStep(s, a);
    StepKeepsAll(s, a);
    DroppedPersists(s, a, i, t);
    DroppedIsCounted(s', i, t);
    NewReportIsComplete(s, a);
  }

  lemma NewReportIsComplete(s: System, a: Action)
    requires CanStep(s, a) && !s.server.statisticSend
    ensures AfterStep(s, a).server.statisticSend ==> AfterStep(s, a).server.inProcessing == 0
  {
  }

  lemma {:induction false} DroppedBlocksStep(s: System, a: Action, i: nat, t: nat)
    requires Inv(s) && Honest(s) && CanStep(s, a) && HonestStep(s, a) && HasDropped(s, i, t) && s.reports == []
    ensures HasDropped(AfterStep(s, a), i, t) && AfterStep(s, a).reports == []
  {
    DroppedPersists(s, a, i, t);
    DroppedDelaysReport(s, a, i, t);
    StepKeepsAll(s, a);
  }

  /** A dropped instance before the report. */
  ghost predicate Blocked(s: System, i: nat, t: nat) {
    HasDropped(s, i, t) && s.reports == []
  }

  lemma {:induction false} DroppedBlocksNext(run: seq<System>, steps: seq<Action>, k: nat, i: nat, t: nat)
    requires IsRun(run, steps) && k < |steps| && Blocked(run[k], i, t)
    ensures Blocked(run[k + 1], i, t)
  {
    RunKeepsInv(run, steps, k);
    StepOf(run, steps, k);
    DroppedBlocksStep(run[k], steps[k], i, t);
  }

  lemma {:induction false} DroppedStaysBlocked(run: seq<System>, steps: seq<Action>, k: nat, m: nat, i: nat, t: nat)
    requires IsRun(run, steps) && k <= m < |run| && Blocked(run[k], i, t)
    ensures Blocked(run[m], i, t)
    decreases m
  {
    if k < m {
      DroppedStaysBlocked(run, steps, k, m - 1, i, t);
      DroppedBlocksNext(run, steps, m - 1, i, t);
    }
  }

  /** An instance that a worker drops before the statistics were sent keeps the server from ever
      sending them, and from ever stopping. */
  lemma {:induction false} DroppedBlocksTheEnd(run: seq<System>, steps: seq<Action>, k: nat, m: nat, i: nat, t: nat)
    requires IsRun(run, steps) && k <= m < |run|
    requires HasDropped(run[k], i, t) && run[k].reports == []
    ensures HasDropped(run[m], i, t) && run[m].reports == [] && run[m].server.running
  {
    DroppedStaysBlocked(run, steps, k, m, i, t);
    OneReport(run, steps, m);
  }

  // When instances are dropped

  /** A worker that no TERMINATE has reached or is about to reach, and that has not dropped anything
      unless it has failed. */
  predicate Undisturbed(l: Link) {
    && l.worker.running
    && (forall i | 0 <= i < |l.toWorker| :: !l.toWorker[i].TerminateMsg?)
    && (!l.worker.phase.Aborted? ==>
          && l.worker.lost == []
          && (l.worker.phase.Inactive? || (ThreadsAlive(l.worker.phase) && !l.worker.phase.Joining?)))
  }

  lemma {:induction false} StepKeepsUndisturbed(l: Link, a: WorkerAction)
    requires LinkOk(l) && Undisturbed(l) && Enabled(l, a)
    ensures Undisturbed(After(l, a))
  {
    if a.ReceiveActivation? { ZeroTotal(l.toWorker, IsReply(), 0); }
  }

  predicate CalmUntilTermination(s: System) {
    !s.server.terminatedWorkers ==> forall i | 0 <= i < |s.links| :: Undisturbed(s.links[i])
  }

  lemma ProcessKeepsCalm(s: System, i: nat, after: ServerState, reply: seq<Job>)
    requires CanStep(s, Process(i, after, reply)) && CalmUntilTermination(s)
    ensures CalmUntilTermination(AfterProcess(s, i, after, reply))
  {
  }

  lemma {:induction false} ServerKeepsCalm(s: System, a: Action)
    requires CanStep(s, a) && CalmUntilTermination(s) && !a.WorkerStep?
    ensures CalmUntilTermination(AfterStep(s, a))
  {
    if a.Process? { ProcessKeepsCalm(s, a.link, a.after, a.reply); }
  }

  lemma {:induction false} StepKeepsCalm(s: System, a: Action)
    requires Inv(s) && CanStep(s, a) && CalmUntilTermination(s)
    ensures CalmUntilTermination(AfterStep(s, a))
  {
    if a.WorkerStep? {
      if !s.server.terminatedWorkers { StepKeepsUndisturbed(s.links[a.link], a.action); }
    } else {
      ServerKeepsCalm(s, a);
    }
  }

  lemma {:induction false} NextIsCalm(run: seq<System>, steps: seq<Action>, k: nat)
    requires IsRun(run, steps) && k < |steps| && CalmUntilTermination(run[k])
    ensures CalmUntilTermination(run[k + 1])
  {
    StepOf(run, steps, k);
    RunKeepsInv(run, steps, k);
    StepKeepsCalm(run[k], steps[k]);
  }

  lemma {:induction false} RunIsCalm(run: seq<System>, steps: seq<Action>, k: nat)
    requires IsRun(run, steps) && k < |run|
    ensures CalmUntilTermination(run[k])
  {
    if k > 0 {
      RunIsCalm(run, steps, k - 1);
      NextIsCalm(run, steps, k - 1);
    }
  }

  /** Only a worker that has failed drops instances before the server sends TERMINATE. */
  lemma {:induction false} DroppedOnlyAfterTermination(run: seq<System>, steps: seq<Action>, k: nat, i: nat, t: nat)
    requires IsRun(run, steps) && k < |run| && HasDropped(run[k], i, t)
    ensures run[k].server.terminatedWorkers || run[k].links[i].worker.phase.Aborted?
  {
    RunIsCalm(run, steps, k);
  }
}
