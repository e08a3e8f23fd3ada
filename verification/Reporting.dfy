/** When the statistics are sent: exactly when everything that was handed out has come back. */
module Reporting {
  import opened Sums
  import opened Statistics
  import opened Scheduler
  import opened Workers
  import opened Input
  import opened Protocol
  import opened HonestResults
  import opened Runs
  import opened Solutions

  /** Every instance of the task that was handed out was returned. */
  ghost predicate TaskBack(s: System, t: nat) {
    Total(s.received, ReturnedFor(t)) == Total(s.handedOut, JobsFor(t))
  }

  /** Nothing is left to hand out of the task: all its instances are out, or its only job. */
  ghost predicate TaskOut(s: System, t: nat)
    requires t < |s.server.tasks|
  {
    var n := s.server.tasks[t].required;
    if n > 0 then Total(s.handedOut, JobsFor(t)) == n else Total(s.handedOut, JobCount(t)) == 1
  }

  /** There is a task, everything that was handed out is back, and a solved result is among it or
      nothing is left to hand out. */
  ghost predicate AllBack(s: System) {
    && s.server.tasks != []
    && (forall t: nat | t < |s.server.tasks| :: TaskBack(s, t))
    && (SolvedReceived(s) || forall t: nat | t < |s.server.tasks| :: TaskOut(s, t))
  }

  // What the books say about the server

  lemma {:induction false} BackIff(s: System, t: nat)
    requires Inv(s) && t < |s.server.tasks|
    ensures TaskBack(s, t) <==> s.server.tasks[t].processing == 0
  {
    assert TaskHistory(s.server.tasks[t], t, s.handedOut, s.received);
    StartedIsReturned(s.received, t);
  }

  lemma {:induction false} OutIff(s: System, t: nat)
    requires Inv(s) && t < |s.server.tasks|
    ensures TaskOut(s, t) <==> !s.server.tasks[t].isScheduled
  {
    assert TaskHistory(s.server.tasks[t], t, s.handedOut, s.received);
    assert TaskOk(s.server.tasks[t]);
  }

  lemma {:induction false} NothingProcessingIff(s: ServerState)
    requires Valid(s)
    ensures s.inProcessing == 0 <==> forall t: nat | t < |s.tasks| :: s.tasks[t].processing == 0
  {
    if s.inProcessing == 0 {
      forall t: nat | t < |s.tasks| ensures s.tasks[t].processing == 0 { ZeroTotal(s.tasks, Processing(), t); }
    } else if forall t: nat | t < |s.tasks| :: s.tasks[t].processing == 0 {
      TotalZero(s.tasks, Processing());
    }
  }

  lemma {:induction false} QueueEmptyIff(s: ServerState)
    requires Valid(s)
    ensures s.order == [] <==> forall t: nat | t < |s.tasks| :: !s.tasks[t].isScheduled
  {
    if s.order != [] {
      assert Queued(s.order, s.order[0]);
    } else {
      forall t: nat | t < |s.tasks| ensures !s.tasks[t].isScheduled { assert !Queued(s.order, t); }
    }
  }

  lemma {:induction false} AllTasksBackIff(s: System)
    requires Inv(s)
    ensures s.server.inProcessing == 0 <==> forall t: nat | t < |s.server.tasks| :: TaskBack(s, t)
  {
    NothingProcessingIff(s.server);
    forall t: nat | t < |s.server.tasks|
      ensures TaskBack(s, t) <==> s.server.tasks[t].processing == 0
    {
      BackIff(s, t);
    }
  }

  lemma {:induction false} AllTasksOutIff(s: System)
    requires Inv(s)
    ensures s.server.order == [] <==> forall t: nat | t < |s.server.tasks| :: TaskOut(s, t)
  {
    QueueEmptyIff(s.server);
    forall t: nat | t < |s.server.tasks|
      ensures TaskOut(s, t) <==> !s.server.tasks[t].isScheduled
    {
      OutIff(s, t);
    }
  }

  /** A result that a message carries is counted as in processing. */
  lemma {:induction false} ComingIsProcessing(s: System, i: nat, p: nat)
    requires Inv(s) && i < |s.links| && p < |s.links[i].toServer| && s.links[i].toServer[p].DoneProcessingMsg?
    ensures s.server.inProcessing > 0
  {
    var t := s.links[i].toServer[p].info.taskId;
    assert LinkOk(s.links[i]) && OnlyReports(s.links[i].toServer);
    TotalCovers(s.links[i].toServer, p, UpFor(t));
    TotalCovers(s.links, i, HeldBy(t));
    assert Total(s.links, HeldBy(t)) == ProcessingOf(s.server, t);
    TotalCovers(s.server.tasks, t, Processing());
  }

  /** When nothing is in processing, a solution is known exactly if a solved result was received. */
  lemma {:induction false} SolvedIff(s: System)
    requires Inv(s) && Announced(s) && s.server.inProcessing == 0
    ensures s.server.solutionFound <==> SolvedReceived(s)
  {
    if SolvedComing(s) {
      var i :| 0 <= i < |s.links| && SolvedIsNext(s.links[i]);
      ComingIsProcessing(s, i, 0);
    }
  }

  lemma {:induction false} AllBackIff(s: System)
    requires Inv(s) && Announced(s)
    ensures AllBack(s) <==> s.server.tasks != [] && AllReturned(s.server)
  {
    AllTasksBackIff(s);
    AllTasksOutIff(s);
    if s.server.inProcessing == 0 { SolvedIff(s); }
  }

  // The test is made in time

  /** What the test of process_w2s_DONE_PROCESSING waits for has come, but the statistics were not sent. */
  predicate Missed(s: System) {
    s.server.tasks != [] && AllReturned(s.server) && !s.server.statisticSend
  }

  lemma {:induction false} SubmitNotMissed(s: System, required: nat, file: seq<Line>)
    requires Honest(s) && !Missed(s) && CanStep(s, SubmitFile(required, file))
    ensures !Missed(AfterStep(s, SubmitFile(required, file)))
  {
    if s.server.solutionFound {
      var t :| 0 <= t < |s.files| && SolutionIsReal(s.files[t]);
      assert s.server.tasks != [];
    }
  }

  /** An announcement is followed by its result, which is still in processing. */
  lemma {:induction false} FoundNotMissed(s: System, i: nat)
    requires Inv(s) && Announced(s) && IsNext(s, i) && s.links[i].toServer[0].FoundSolutionMsg?
    ensures s.server.inProcessing > 0
  {
    assert Paired(s.links[i].toServer);
    assert |s.links[i].toServer| > 1 && IsSolvedResult(s.links[i].toServer[1]);
    ComingIsProcessing(s, i, 1);
  }

  /** A reply that hands something out puts it in processing. */
  lemma {:induction false} ReplyNotMissed(s: ServerState, s': ServerState, jobs: seq<Job>, k: nat)
    requires Valid(s) && Replied(s, s', jobs, k) && s'.inProcessing == 0
    ensures s.inProcessing == 0 && s'.order == s.order
  {
    NothingProcessingIff(s');
    if jobs != [] {
      TotalCovers(jobs, 0, JobsFor(jobs[0].taskId));
    }
    NothingProcessingIff(s);
    assert forall t: nat | t < |s.tasks| :: s'.tasks[t].processing == 0;
    assert s.order[0..] == s.order;
  }

  lemma {:induction false} ProcessNotMissed(s: System, i: nat, after: ServerState, reply: seq<Job>)
    requires Inv(s) && Announced(s) && !Missed(s) && CanStep(s, Process(i, after, reply))
    requires !AfterProcess(s, i, after, reply).assertFailed
    ensures !Missed(AfterProcess(s, i, after, reply))
  {
    match s.links[i].toServer[0]
    case FoundSolutionMsg => FoundNotMissed(s, i);
    case GetInstancesMsg(k) =>
      if !s.server.solutionFound && after.inProcessing == 0 { ReplyNotMissed(s.server, after, reply, k); }
    case _ =>
  }

  lemma {:induction false} StepNotMissed(s: System, a: Action)
    requires Inv(s) && Honest(s) && Announced(s) && !Missed(s) && CanStep(s, a) && !AfterStep(s, a).assertFailed
    ensures !Missed(AfterStep(s, a))
  {
    match a
    case SubmitFile(required, file) => SubmitNotMissed(s, required, file);
    case Process(i, after, reply) => ProcessNotMissed(s, i, after, reply);
    case _ =>
  }

  lemma {:induction false} NextNotMissed(run: seq<System>, steps: seq<Action>, k: nat)
    requires IsRun(run, steps) && k < |steps| && !Missed(run[k])
    ensures !Missed(run[k + 1])
  {
    RunKeepsInv(run, steps, k);
    RunKeepsInv(run, steps, k + 1);
    SolutionKnownIff(run, steps, k);
    StepOf(run, steps, k);
    StepNotMissed(run[k], steps[k]);
  }

  lemma {:induction false} RunNotMissed(run: seq<System>, steps: seq<Action>, k: nat)
    requires IsRun(run, steps) && k < |run|
    ensures !Missed(run[k])
  {
    if k > 0 {
      RunNotMissed(run, steps, k - 1);
      NextNotMissed(run, steps, k - 1);
    }
  }

  // All runs

  /** The statistics stay sent, and are only sent when the test succeeds. */
  lemma ProcessSends(s: System, i: nat, after: ServerState, reply: seq<Job>)
    requires CanStep(s, Process(i, after, reply))
    ensures var s' := AfterProcess(s, i, after, reply);
      && (s.server.statisticSend ==> s'.server.statisticSend)
      && (!s.server.statisticSend && s'.server.statisticSend ==> s'.server.tasks != [] && AllReturned(s'.server))
  {
  }

  lemma {:induction false} SendingStep(s: System, a: Action)
    requires CanStep(s, a)
    ensures s.server.statisticSend ==> AfterStep(s, a).server.statisticSend
    ensures !s.server.statisticSend && AfterStep(s, a).server.statisticSend ==>
      AfterStep(s, a).server.tasks != [] && AllReturned(AfterStep(s, a).server)
  {
    if a.Process? { ProcessSends(s, a.link, a.after, a.reply); }
  }

  lemma {:induction false} SentNext(run: seq<System>, steps: seq<Action>, k: nat)
    requires IsRun(run, steps) && k < |steps|
    ensures run[k].server.statisticSend ==> run[k + 1].server.statisticSend
  {
    StepOf(run, steps, k);
    SendingStep(run[k], steps[k]);
  }

  lemma {:induction false} StaysSent(run: seq<System>, steps: seq<Action>, j: nat, k: nat)
    requires IsRun(run, steps) && j <= k < |run| && run[j].server.statisticSend
    ensures run[k].server.statisticSend
    decreases k
  {
    if j < k {
      StaysSent(run, steps, j, k - 1);
      SentNext(run, steps, k - 1);
    }
  }

  lemma {:induction false} SentWhenBack(run: seq<System>, steps: seq<Action>, k: nat) returns (j: nat)
    requires IsRun(run, steps) && k < |run| && run[k].server.statisticSend
    ensures j <= k && AllBack(run[j])
  {
    if run[k - 1].server.statisticSend {
      j := SentWhenBack(run, steps, k - 1);
    } else {
      j := k;
      StepOf(run, steps, k - 1);
      SendingStep(run[k - 1], steps[k - 1]);
      RunKeepsInv(run, steps, k);
      SolutionKnownIff(run, steps, k);
      AllBackIff(run[k]);
    }
  }

  /** In every run the statistics have been sent if and only if at some time everything that was handed
      out was back, and a solved result was among it or nothing was left to hand out. */
  lemma {:induction false} ReportIffAllBack(run: seq<System>, steps: seq<Action>, k: nat)
    requires IsRun(run, steps) && k < |run|
    ensures run[k].reports != [] <==> exists j :: 0 <= j <= k && AllBack(run[j])
  {
    RunKeepsInv(run, steps, k);
    if run[k].server.statisticSend {
      var j := SentWhenBack(run, steps, k);
    }
    forall j: nat | j <= k && AllBack(run[j])
      ensures run[k].server.statisticSend
    {
      RunKeepsInv(run, steps, j);
      SolutionKnownIff(run, steps, j);
      AllBackIff(run[j]);
      RunNotMissed(run, steps, j);
      StaysSent(run, steps, j, k);
    }
  }
}
