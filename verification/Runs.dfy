/** What every run of the server and its workers guarantees. */
module Runs {
  import opened Sums
  import opened Statistics
  import opened Scheduler
  import opened Workers
  import opened Results
  import opened Protocol
  import opened HonestResults

  // The books of a run

  /** The instances that a message returns for task `t`. */
  function ReturnedFor(t: nat): Done -> nat {
    (d: Done) => if d.taskId == t then d.instancesProcessed else 0
  }

  lemma {:induction false} StartedIsReturned(received: seq<Done>, t: nat)
    requires EveryMessageCounts(received)
    ensures StatisticsOf(received, t).numInstancesStarted == Total(received, ReturnedFor(t))
  {
    if received != [] { StartedIsReturned(received[..|received| - 1], t); }
  }

  /** In every state of every run, every instance of a task that was handed out was either returned
      or is held by a worker or a message; and never more are handed out than required. */
  lemma {:induction false} HandedOutIsAccountedFor(run: seq<System>, steps: seq<Action>, k: nat, t: nat)
    requires IsRun(run, steps) && k < |run| && t < |run[k].server.tasks|
    ensures var s := run[k];
      && Total(s.handedOut, JobsFor(t)) == Total(s.received, ReturnedFor(t)) + Total(s.links, HeldBy(t))
      && (s.server.tasks[t].required > 0 ==> Total(s.handedOut, JobsFor(t)) <= s.server.tasks[t].required)
  {
    RunKeepsInv(run, steps, k);
    var s := run[k];
    assert TaskHistory(s.server.tasks[t], t, s.handedOut, s.received);
    assert Total(s.links, HeldBy(t)) == ProcessingOf(s.server, t);
    assert TaskOk(s.server.tasks[t]);
    StartedIsReturned(s.received, t);
  }

  /** No assertion of the server fails in any run, neither about the size of a formula nor about the
      instances in processing, and no subtraction wraps. */
  lemma {:induction false} ServerNeverFails(run: seq<System>, steps: seq<Action>, k: nat)
    requires IsRun(run, steps) && k < |run|
    ensures !run[k].assertFailed
    ensures forall i: nat | IsNext(run[k], i) && run[k].links[i].toServer[0].DoneProcessingMsg? ::
      var msg := run[k].links[i].toServer[0].info; SizesAgree(run[k].server, msg) && Subtracts(run[k].server, msg)
  {
    RunKeepsInv(run, steps, k);
    forall i: nat | IsNext(run[k], i) && run[k].links[i].toServer[0].DoneProcessingMsg?
      ensures NextSizesAgree(run[k], i) && Subtracts(run[k].server, run[k].links[i].toServer[0].info)
    {
      DoneIsCounted(run[k], i);
      HonestSizesAgree(run[k], i);
    }
  }

  /** Every worker accounts for its threads in every run, what is still to be queued fits into its
      counter, and it never processes a reply that it has only probed. */
  lemma {:induction false} WorkersNeverWrap(run: seq<System>, steps: seq<Action>, k: nat, i: nat)
    requires IsRun(run, steps) && k < |run| && i < |run[k].links|
    ensures var w := run[k].links[i].worker;
      && (!w.phase.Inactive? ==> w.instancesToGet + |w.tasks| + Total(w.threads, HasTask()) == |w.threads|)
      && (w.phase.Creating? ==> 0 < Total(w.phase.jobs, JobSize()) <= w.instancesToGet)
      && 0 <= w.instancesToGet <= UINT32_MAX
      && !w.staleRead
  {
    RunKeepsInv(run, steps, k);
    var w := run[k].links[i].worker;
    assert LinkOk(run[k].links[i]);
    if w.phase.Creating? { TotalCovers(w.phase.jobs, 0, JobSize()); }
  }

  // The report

  /** The statistics are sent at most once, and the server stops only after that. */
  lemma {:induction false} OneReport(run: seq<System>, steps: seq<Action>, k: nat)
    requires IsRun(run, steps) && k < |run|
    ensures |run[k].reports| <= 1
    ensures !run[k].server.running ==> |run[k].reports| == 1
  {
    RunKeepsInv(run, steps, k);
  }

  /** An unsolved run is complete when the statistics are sent: of a task with n > 0 required
      instances exactly n were handed out and n were returned; a task with n = 0 was handed out in
      exactly one job, and all its instances were returned. */
  ghost predicate Complete(sn: Snapshot, t: nat)
    requires t < |sn.server.tasks|
  {
    var n := sn.server.tasks[t].required;
    && Total(sn.received, ReturnedFor(t)) == Total(sn.handedOut, JobsFor(t)) > 0
    && (n > 0 ==> Total(sn.handedOut, JobsFor(t)) == n)
    && (n == 0 ==> Total(sn.handedOut, JobCount(t)) == 1)
  }

  lemma {:induction false} UnsolvedRunIsComplete(run: seq<System>, steps: seq<Action>, k: nat, t: nat)
    requires IsRun(run, steps) && k < |run| && run[k].reports != []
    requires !run[k].reports[0].server.solutionFound && t < |run[k].reports[0].server.tasks|
    ensures Complete(run[k].reports[0], t)
  {
    RunKeepsInv(run, steps, k);
    var sn := run[k].reports[0];
    assert SnapshotOk(sn);
    assert TaskHistory(sn.server.tasks[t], t, sn.handedOut, sn.received);
    AllReturnedIsComplete(sn.server, t);
    StartedIsReturned(sn.received, t);
  }

  /** What the manager computes from the report of a run is what all the messages that the server
      has received by then add up to, in one go. */
  lemma {:induction false} ReportedIsFlat(run: seq<System>, steps: seq<Action>, k: nat)
    requires IsRun(run, steps) && k < |run| && run[k].reports != []
    ensures var sn := run[k].reports[0];
      IsFlat(Reported(StatisticsToSend(sn.server.tasks)), sn.received)
  {
    RunKeepsInv(run, steps, k);
    var sn := run[k].reports[0];
    assert SnapshotOk(sn);
    var n := |sn.server.tasks|;
    assert StatisticsList(sn.server.tasks) == AllStatistics(sn.received, n) by {
      forall t | 0 <= t < n
        ensures StatisticsList(sn.server.tasks)[t] == AllStatistics(sn.received, n)[t]
      {
        assert TaskHistory(sn.server.tasks[t], t, sn.handedOut, sn.received);
      }
    }
    TwoLevelsAreFlat(sn.received, n);
  }

  lemma {:induction false} ReportIsHonest(run: seq<System>, steps: seq<Action>, k: nat)
    requires IsRun(run, steps) && k < |run| && run[k].reports != []
    ensures var s, sn := run[k], run[k].reports[0];
      && Consistent(sn.received, VarsIn(s.files), ClausesIn(s.files))
      && StatisticsList(sn.server.tasks) == AllStatistics(sn.received, |sn.server.tasks|)
  {
    RunKeepsInv(run, steps, k);
    var sn := run[k].reports[0];
    assert SnapshotOk(sn);
    HonestIsConsistent(run[k].files, sn.received);
    forall t | 0 <= t < |sn.server.tasks|
      ensures StatisticsList(sn.server.tasks)[t] == AllStatistics(sn.received, |sn.server.tasks|)[t]
    {
      assert TaskHistory(sn.server.tasks[t], t, sn.handedOut, sn.received);
    }
  }

  /** In a report of any run the averages per variable and per clause are 0/0 if and only if no
      returned run of some task has flipped anything. */
  lemma {:induction false} ReportUndefinedIff(run: seq<System>, steps: seq<Action>, k: nat)
    requires IsRun(run, steps) && k < |run| && run[k].reports != []
    ensures var sn := run[k].reports[0];
      var total := Reported(StatisticsToSend(sn.server.tasks));
      && (total.avgFlipsPerVar.None? <==> NoFlipTask(sn.received, |sn.server.tasks|))
      && (total.avgFlipsPerClause.None? <==> NoFlipTask(sn.received, |sn.server.tasks|))
  {
    var s, sn := run[k], run[k].reports[0];
    ReportIsHonest(run, steps, k);
    PerVarUndefinedIff(sn.received, |sn.server.tasks|, VarsIn(s.files), ClausesIn(s.files));
  }

  /** Otherwise they are the instance-weighted means of the ratios of the tasks, with the sizes of the
      submitted files. */
  lemma {:induction false} ReportRatios(run: seq<System>, steps: seq<Action>, k: nat)
    requires IsRun(run, steps) && k < |run| && run[k].reports != []
    requires !NoFlipTask(run[k].reports[0].received, |run[k].reports[0].server.tasks|)
    ensures EveryMessageCounts(run[k].reports[0].received)
    ensures var s, sn := run[k], run[k].reports[0];
      var total, n := Reported(StatisticsToSend(sn.server.tasks)), |sn.server.tasks|;
      && MeanIs(total.avgFlipsPerVar, total.numInstancesStarted, SharesByTask(sn.received, n, VarsIn(s.files)))
      && MeanIs(total.avgFlipsPerClause, total.numInstancesStarted, SharesByTask(sn.received, n, ClausesIn(s.files)))
  {
    var s, sn := run[k], run[k].reports[0];
    ReportIsHonest(run, steps, k);
    ReportGivesTotals(sn.received, |sn.server.tasks|);
    RatiosByTask(sn.received, |sn.server.tasks|, VarsIn(s.files), ClausesIn(s.files));
  }

  // The solution

  /** If the server believes that a solution was found, one of the submitted files has an assignment
      that satisfies all its clause lines, or is not modelled. */
  lemma {:induction false} FoundSolutionIsReal(run: seq<System>, steps: seq<Action>, k: nat)
    requires IsRun(run, steps) && k < |run| && run[k].server.solutionFound
    requires forall t | 0 <= t < |run[k].files| :: Modelled(run[k].files[t])
    ensures exists t :: 0 <= t < |run[k].files| && Satisfiable(run[k].files[t])
  {
    RunKeepsInv(run, steps, k);
    var t :| 0 <= t < |run[k].files| && SolutionIsReal(run[k].files[t]);
    assert Modelled(run[k].files[t]);
  }

  /** No run over modelled files without a solution ever finds one. */
  lemma {:induction false} UnsatisfiableIsNeverSolved(run: seq<System>, steps: seq<Action>, k: nat)
    requires IsRun(run, steps) && k < |run|
    requires forall t | 0 <= t < |run[k].files| :: Modelled(run[k].files[t]) && !Satisfiable(run[k].files[t])
    ensures !run[k].server.solutionFound
  {
    if run[k].server.solutionFound { FoundSolutionIsReal(run, steps, k); }
  }

  // The end

  /** DISCONNECT is the last message of a worker, a worker that has left has sent it, and when it was taken
      there is none left. */
  predicate LeavesLast(l: Link) {
    && (forall i | 0 <= i < |l.toServer| && l.toServer[i].DisconnectMsg? ::
          i == |l.toServer| - 1 && l.worker.phase.Gone?)
    && (!l.attached ==> l.worker.phase.Gone? && l.toServer == [])
    && (l.attached && l.worker.phase.Gone? ==> l.toServer != [] && l.toServer[|l.toServer| - 1].DisconnectMsg?)
  }

  predicate NoDisconnect(ms: seq<UpMessage>) {
    forall i | 0 <= i < |ms| :: !ms[i].DisconnectMsg?
  }

  lemma {:induction false} ReturnLeavesLast(l: Link, failed: Phase)
    requires LeavesLast(l) && l.worker.tasksDone != [] && !l.worker.phase.Gone?
    ensures LeavesLast(AfterReturn(l, failed))
  {
    var r := l.worker.tasksDone[0];
    var before := l.toServer + MessagesFor(r);
    assert NoDisconnect(l.toServer) && NoDisconnect(MessagesFor(r));
    assert NoDisconnect(before);
  }

  lemma {:induction false} WorkerLeavesLast(l: Link, a: WorkerAction)
    requires LeavesLast(l) && Enabled(l, a)
    ensures LeavesLast(After(l, a))
  {
    match a
    case ReturnOne => ReturnLeavesLast(l, Aborted);
    case Drain => if l.worker.tasksDone != [] { ReturnLeavesLast(l, Gone); }
    case _ =>
  }

  predicate AllLeaveLast(s: System) {
    forall i | 0 <= i < |s.links| :: LeavesLast(s.links[i])
  }

  lemma TakenLeavesLast(l: Link)
    requires LeavesLast(l) && l.attached && l.toServer != []
    ensures var l' := l.(toServer := l.toServer[1..]);
      LeavesLast(if l.toServer[0].DisconnectMsg? then l'.(attached := false) else l')
  {
  }

  lemma {:induction false} ProcessLeavesLast(s: System, i: nat, after: ServerState, reply: seq<Job>)
    requires IsNext(s, i) && AllLeaveLast(s)
    ensures AllLeaveLast(AfterProcess(s, i, after, reply))
  {
    var s' := AfterProcess(s, i, after, reply);
    TakenLeavesLast(s.links[i]);
    forall j | 0 <= j < |s.links|
      ensures LeavesLast(s'.links[j])
    {
      assert LeavesLast(s.links[j]);
    }
  }

  lemma {:induction false} ServerLeavesLast(s: System, a: Action)
    requires CanStep(s, a) && AllLeaveLast(s) && !a.WorkerStep?
    ensures AllLeaveLast(AfterStep(s, a))
  {
    if a.Process? { ProcessLeavesLast(s, a.link, a.after, a.reply); }
  }

  lemma {:induction false} RunLeavesLast(run: seq<System>, steps: seq<Action>, k: nat)
    requires IsRun(run, steps) && k < |run|
    ensures AllLeaveLast(run[k])
  {
    if k > 0 {
      var s, a := run[k - 1], steps[k - 1];
      StepOf(run, steps, k - 1);
      RunLeavesLast(run, steps, k - 1);
      if a.WorkerStep? { WorkerLeavesLast(s.links[a.link], a.action); } else { ServerLeavesLast(s, a); }
    }
  }

  /** When the server has stopped, the statistics were sent, there is nothing left to hand out, every
      worker has ended, and every message of every worker was read: no returned instance is lost. */
  lemma {:induction false} StoppedIsFinished(run: seq<System>, steps: seq<Action>, k: nat)
    requires IsRun(run, steps) && k < |run| && !run[k].server.running
    ensures |run[k].reports| == 1 && (run[k].server.order == [] || run[k].server.solutionFound)
    ensures forall i | 0 <= i < |run[k].links| ::
      !run[k].links[i].attached && run[k].links[i].worker.phase.Gone? && run[k].links[i].toServer == []
  {
    RunKeepsInv(run, steps, k);
    RunLeavesLast(run, steps, k);
  }
}
