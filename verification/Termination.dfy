/** How the system starts and stops: ACTIVATE_WORKER and TERMINATE reach their workers, a worker that has
    taken TERMINATE winds up, and the server stops when the last worker has left. */
module Termination {
  import opened Sums
  import opened Statistics
  import opened Scheduler
  import opened Workers
  import opened Input
  import opened Protocol
  import opened HonestResults
  import opened Runs

  // TERMINATE

  /** The worker has taken TERMINATE, or it is in its channel. */
  predicate Told(l: Link) {
    !l.worker.running || exists i :: 0 <= i < |l.toWorker| && l.toWorker[i].TerminateMsg?
  }

  lemma {:induction false} StepKeepsTold(l: Link, a: WorkerAction)
    requires Enabled(l, a)
    ensures Told(l) ==> Told(After(l, a))
    ensures Told(After(l, a)) ==> Told(l)
  {
    if (a.ReceiveActivation? || a.ReceiveReply?) && l.worker.running {
      var rest := l.toWorker[1..];
      assert forall i | 0 < i < |l.toWorker| :: l.toWorker[i] == rest[i - 1];
    }
  }

  /** A link after a message of the server that is not TERMINATE, or none. */
  predicate SameChannel(l: Link, l': Link) {
    && l'.worker == l.worker
    && (l'.toWorker == l.toWorker
        || (|l'.toWorker| == |l.toWorker| + 1 && l'.toWorker[..|l.toWorker|] == l.toWorker
            && !l'.toWorker[|l.toWorker|].TerminateMsg?))
  }

  lemma {:induction false} SameChannelTold(l: Link, l': Link)
    requires SameChannel(l, l')
    ensures Told(l') <==> Told(l)
  {
    if i :| 0 <= i < |l.toWorker| && l.toWorker[i].TerminateMsg? { assert l'.toWorker[i] == l.toWorker[i]; }
  }

  lemma {:induction false} SentIsTold(l: Link)
    requires l.attached || Told(l)
    ensures Told(Sent(l, TerminateMsg))
  {
    var l' := Sent(l, TerminateMsg);
    if l.attached {
      assert l'.toWorker[|l.toWorker|].TerminateMsg?;
    }
  }

  lemma ProcessKeepsChannels(s: System, p: nat, after: ServerState, reply: seq<Job>, i: nat)
    requires CanStep(s, Process(p, after, reply)) && i < |s.links|
    requires AfterProcess(s, p, after, reply).server.terminatedWorkers == s.server.terminatedWorkers
    ensures i < |AfterProcess(s, p, after, reply).links|
    ensures SameChannel(s.links[i], AfterProcess(s, p, after, reply).links[i])
  {
  }

  /** Without a broadcast of TERMINATE the server only adds other messages. */
  lemma {:induction false} ServerKeepsChannels(s: System, a: Action, i: nat)
    requires CanStep(s, a) && !a.WorkerStep? && i < |s.links|
    requires AfterStep(s, a).server.terminatedWorkers == s.server.terminatedWorkers
    ensures i < |AfterStep(s, a).links| && SameChannel(s.links[i], AfterStep(s, a).links[i])
  {
    if a.Process? { ProcessKeepsChannels(s, a.link, a.after, a.reply, i); }
  }

  /** The broadcast reaches every attached worker. */
  lemma {:induction false} BroadcastIsTold(s: System, a: Action, i: nat)
    requires CanStep(s, a) && !s.server.terminatedWorkers && AfterStep(s, a).server.terminatedWorkers
    requires i < |AfterStep(s, a).links| && (AfterStep(s, a).links[i].attached || (i < |s.links| && Told(s.links[i])))
    ensures Told(AfterStep(s, a).links[i])
  {
    SentIsTold(if a.Process? then Taken(s.links, a.link)[i] else s.links[i]);
  }

  lemma {:induction false} StepKeepsAllTold(s: System, a: Action, i: nat)
    requires CanStep(s, a) && i < |s.links| && Told(s.links[i])
    ensures i < |AfterStep(s, a).links| && Told(AfterStep(s, a).links[i])
  {
    if a.WorkerStep? {
      if a.link == i { StepKeepsTold(s.links[i], a.action); }
    } else {
      LinksStay(s, a);
      if AfterStep(s, a).server.terminatedWorkers == s.server.terminatedWorkers {
        ServerKeepsChannels(s, a, i);
        SameChannelTold(s.links[i], AfterStep(s, a).links[i]);
      } else {
        BroadcastIsTold(s, a, i);
      }
    }
  }

  lemma LinksStay(s: System, a: Action)
    requires CanStep(s, a)
    ensures |AfterStep(s, a).links| >= |s.links|
    ensures s.server.terminatedWorkers ==> AfterStep(s, a).server.terminatedWorkers
  {
  }

  lemma {:induction false} ToldNext(run: seq<System>, steps: seq<Action>, k: nat, i: nat)
    requires IsRun(run, steps) && k < |steps| && i < |run[k].links| && Told(run[k].links[i])
    ensures i < |run[k + 1].links| && Told(run[k + 1].links[i])
  {
    StepOf(run, steps, k);
    StepKeepsAllTold(run[k], steps[k], i);
  }

  lemma {:induction false} ToldStays(run: seq<System>, steps: seq<Action>, j: nat, k: nat, i: nat)
    requires IsRun(run, steps) && j <= k < |run| && i < |run[j].links| && Told(run[j].links[i])
    ensures i < |run[k].links| && Told(run[k].links[i])
    decreases k
  {
    if j < k {
      ToldStays(run, steps, j, k - 1, i);
      ToldNext(run, steps, k - 1, i);
    }
  }

  /** TERMINATE is never lost: every worker that is attached when it is sent has taken it, or has it in
      its channel, in every later state of every run. */
  lemma {:induction false} TerminateIsNeverLost(run: seq<System>, steps: seq<Action>, j: nat, k: nat, i: nat)
    requires IsRun(run, steps) && j < k < |run|
    requires !run[j].server.terminatedWorkers && run[j + 1].server.terminatedWorkers
    requires i < |run[j + 1].links| && run[j + 1].links[i].attached
    ensures i < |run[k].links| && Told(run[k].links[i])
  {
    StepOf(run, steps, j);
    BroadcastIsTold(run[j], steps[j], i);
    ToldStays(run, steps, j + 1, k, i);
  }

  // A worker that stops

  predicate HasEnded(t: Thread) {
    t.Exited? || t.ExitedWith?
  }

  /** Where a worker can be before and after it has taken TERMINATE. When it disconnects, its threads have
      ended, and unless it has lost an instance, it has returned every result. */
  predicate Steady(w: WorkerState) {
    && (w.phase.Creating? ==> w.running)
    && (w.phase.Joining? || w.phase.Draining? || w.phase.Gone? ==> !w.running)
    && (w.phase.Draining? || w.phase.Gone? ==> forall i | 0 <= i < |w.threads| :: HasEnded(w.threads[i]))
    && (w.phase.Gone? && w.lost == [] ==> w.tasksDone == [])
  }

  predicate AllSteady(s: System) {
    forall i | 0 <= i < |s.links| :: Steady(s.links[i].worker)
  }

  lemma {:induction false} StepKeepsSteady(l: Link, a: WorkerAction)
    requires Steady(l.worker) && Enabled(l, a)
    ensures Steady(After(l, a).worker)
  {
  }

  /** The server takes messages of a worker and sends it others, and does nothing else with it. */
  predicate OnlyMessages(l: Link, l': Link) {
    && l'.worker == l.worker && l.toWorker <= l'.toWorker
    && (l'.toServer == l.toServer || (l.toServer != [] && l'.toServer == l.toServer[1..]))
  }

  /** The links after the server has taken a message of worker `p`, and perhaps sent TERMINATE. */
  lemma TakenOnlyMessages(s: System, p: nat, server: ServerState, i: nat)
    requires IsNext(s, p) && i < |s.links|
    ensures OnlyMessages(s.links[i], WithTermination(s.server, server, Taken(s.links, p))[i])
  {
  }

  lemma DoneOnlyMessages(s: System, p: nat, msg: Done, i: nat)
    requires IsNext(s, p) && i < |s.links|
    ensures |AfterDone(s, p, msg).links| == |s.links| && OnlyMessages(s.links[i], AfterDone(s, p, msg).links[i])
  {
  }

  lemma {:induction false} ProcessOnlyMessages(s: System, p: nat, after: ServerState, reply: seq<Job>, i: nat)
    requires CanStep(s, Process(p, after, reply)) && i < |s.links|
    ensures |AfterProcess(s, p, after, reply).links| == |s.links|
    ensures OnlyMessages(s.links[i], AfterProcess(s, p, after, reply).links[i])
  {
    match s.links[p].toServer[0]
    case FoundSolutionMsg => TakenOnlyMessages(s, p, FoundSolution(s.server), i);
    case DoneProcessingMsg(msg) => DoneOnlyMessages(s, p, msg, i);
    case _ =>
  }

  lemma {:induction false} ServerOnlyMessages(s: System, a: Action, i: nat)
    requires CanStep(s, a) && !a.WorkerStep? && i < |s.links|
    ensures i < |AfterStep(s, a).links| && OnlyMessages(s.links[i], AfterStep(s, a).links[i])
  {
    if a.Process? { ProcessOnlyMessages(s, a.link, a.after, a.reply, i); }
  }

  lemma LinksStayUnlessAccepted(s: System, a: Action)
    requires CanStep(s, a) && !a.AcceptWorker?
    ensures |AfterStep(s, a).links| == |s.links|
  {
  }

  lemma {:induction false} AllSteadyNext(s: System, a: Action)
    requires CanStep(s, a) && AllSteady(s)
    ensures AllSteady(AfterStep(s, a))
  {
    if !a.AcceptWorker? { LinksStayUnlessAccepted(s, a); }
    forall i: nat | i < |AfterStep(s, a).links|
      ensures Steady(AfterStep(s, a).links[i].worker)
    {
      if a.WorkerStep? {
        if a.link == i { StepKeepsSteady(s.links[i], a.action); }
      } else if i < |s.links| {
        ServerOnlyMessages(s, a, i);
      }
    }
  }

  lemma {:induction false} RunIsSteady(run: seq<System>, steps: seq<Action>, k: nat)
    requires IsRun(run, steps) && k < |run|
    ensures AllSteady(run[k])
  {
    if k > 0 {
      RunIsSteady(run, steps, k - 1);
      StepOf(run, steps, k - 1);
      AllSteadyNext(run[k - 1], steps[k - 1]);
    }
  }

  /** `s` is what is left of `t` after some of its first elements were taken. */
  predicate IsSuffix<T(==)>(s: seq<T>, t: seq<T>) {
    |s| <= |t| && s == t[|t| - |s|..]
  }

  function Executes(): Thread -> nat {
    (t: Thread) => if t.Executing? then 1 else 0
  }

  /** From one state to a later one the worker runs again, or has queued a task, started to execute one, or
      requested one. */
  ghost predicate Stirs(l: Link, l': Link) {
    || l'.worker.running
    || !IsSuffix(l'.worker.tasks, l.worker.tasks)
    || Total(l'.worker.threads, Executes()) > Total(l.worker.threads, Executes())
    || Total(l'.toServer, IsRequest()) > Total(l.toServer, IsRequest())
  }

  lemma DoesNotStir(l: Link)
    requires !l.worker.running
    ensures !Stirs(l, l)
  {
  }

  lemma {:induction false} NeverStirs(l: Link, l': Link, l'': Link)
    requires !Stirs(l, l') && !Stirs(l', l'')
    ensures !Stirs(l, l'')
  {
  }

  lemma {:induction false} ReturnIsQuiet(l: Link, failed: Phase)
    requires LinkOk(l) && l.worker.tasksDone != []
    ensures Total(AfterReturn(l, failed).toServer, IsRequest()) == Total(l.toServer, IsRequest())
  {
    var r := l.worker.tasksDone[0];
    MessagesAreReports(r, failed);
    TotalConcat(l.toServer, MessagesFor(r), IsRequest());
    TotalConcat(l.toServer + MessagesFor(r), Closing(r, failed), IsRequest());
  }

  lemma {:induction false} ThreadIsQuiet(w: WorkerState, i: nat, a: ThreadAction)
    requires ThreadEnabled(w, i, a) && !w.running
    ensures var w' := AfterThread(w, i, a);
      !w'.running && IsSuffix(w'.tasks, w.tasks) && Total(w'.threads, Executes()) <= Total(w.threads, Executes())
  {
    TotalUpdate(w.threads, i, AfterThread(w, i, a).threads[i], Executes());
  }

  lemma {:induction false} QuietStep(l: Link, a: WorkerAction)
    requires LinkOk(l) && Steady(l.worker) && !l.worker.running && Enabled(l, a)
    ensures !Stirs(l, After(l, a))
  {
    match a
    case ReturnOne => ReturnIsQuiet(l, Aborted);
    case Drain =>
      if l.worker.tasksDone != [] {
        ReturnIsQuiet(l, Gone);
      } else {
        TotalAppend(l.toServer, DisconnectMsg, IsRequest());
      }
    case ThreadStep(i, action) => ThreadIsQuiet(l.worker, i, action);
    case _ =>
  }

  lemma {:induction false} QuietNext(run: seq<System>, steps: seq<Action>, k: nat, i: nat)
    requires IsRun(run, steps) && k < |steps| && i < |run[k].links| && !run[k].links[i].worker.running
    ensures i < |run[k + 1].links| && !Stirs(run[k].links[i], run[k + 1].links[i])
  {
    StepOf(run, steps, k);
    var s, a := run[k], steps[k];
    RunKeepsInv(run, steps, k);
    RunIsSteady(run, steps, k);
    assert LinkOk(s.links[i]) && Steady(s.links[i].worker);
    if a.WorkerStep? {
      if a.link == i { QuietStep(s.links[i], a.action); }
    } else {
      ServerOnlyMessages(s, a, i);
      if s.links[i].toServer != [] { TotalHead(s.links[i].toServer, IsRequest()); }
    }
  }

  lemma {:induction false} QuietFurther(run: seq<System>, steps: seq<Action>, l: Link, k: nat, i: nat)
    requires IsRun(run, steps) && k < |steps| && i < |run[k].links| && !Stirs(l, run[k].links[i])
    ensures i < |run[k + 1].links| && !Stirs(l, run[k + 1].links[i])
  {
    QuietNext(run, steps, k, i);
    NeverStirs(l, run[k].links[i], run[k + 1].links[i]);
  }

  /** A worker that has taken TERMINATE only winds up. */
  lemma {:induction false} TerminatedIsQuiet(run: seq<System>, steps: seq<Action>, j: nat, k: nat, i: nat)
    requires IsRun(run, steps) && j <= k < |run| && i < |run[j].links| && !run[j].links[i].worker.running
    ensures i < |run[k].links| && !Stirs(run[j].links[i], run[k].links[i])
    decreases k
  {
    if j == k {
      DoesNotStir(run[j].links[i]);
    } else {
      TerminatedIsQuiet(run, steps, j, k - 1, i);
      QuietFurther(run, steps, run[j].links[i], k - 1, i);
    }
  }

  /** A worker that has disconnected has stopped, all its threads have ended, and unless it has lost an
      instance, it has returned every result; its DISCONNECT is taken or its last message. */
  lemma {:induction false} LeavesInOrder(run: seq<System>, steps: seq<Action>, k: nat, i: nat)
    requires IsRun(run, steps) && k < |run| && i < |run[k].links| && run[k].links[i].worker.phase.Gone?
    ensures var l, w := run[k].links[i], run[k].links[i].worker;
      && !w.running && (forall j | 0 <= j < |w.threads| :: HasEnded(w.threads[j]))
      && (w.lost == [] ==> w.tasksDone == [])
      && (l.attached <==> l.toServer != [] && l.toServer[|l.toServer| - 1].DisconnectMsg?)
  {
    RunIsSteady(run, steps, k);
    RunLeavesLast(run, steps, k);
    assert Steady(run[k].links[i].worker) && LeavesLast(run[k].links[i]);
  }

  /** A worker that has probed a message stops. */
  lemma {:induction false} ProbeStops(run: seq<System>, steps: seq<Action>, k: nat, i: nat)
    requires IsRun(run, steps) && k < |steps| && steps[k] == WorkerStep(i, Probe)
    ensures i < |run[k].links| && run[k].links[i].worker.running
    ensures i < |run[k + 1].links| && !run[k + 1].links[i].worker.running
  {
    StepOf(run, steps, k);
    RunKeepsInv(run, steps, k);
    ProbeFindsTerminate(run[k].links[i]);
  }

  // Workers that come too late

  /** A worker that does not know of the end is attached, and has not sent DISCONNECT. */
  predicate Unaware(l: Link) {
    !Told(l) && l.attached
  }

  lemma {:induction false} LateStep(s: System, a: Action, i: nat)
    requires CanStep(s, a) && s.server.terminatedWorkers && i < |s.links|
    requires AllLeaveLast(s) && AllSteady(s) && Unaware(s.links[i]) && s.server.running
    ensures i < |AfterStep(s, a).links| && Unaware(AfterStep(s, a).links[i]) && AfterStep(s, a).server.running
  {
    LinksStay(s, a);
    assert LeavesLast(s.links[i]) && Steady(s.links[i].worker);
    if a.WorkerStep? {
      if a.link == i { StepKeepsTold(s.links[i], a.action); }
    } else {
      ServerKeepsChannels(s, a, i);
      SameChannelTold(s.links[i], AfterStep(s, a).links[i]);
      LateStaysAttached(s, a, i);
    }
  }

  predicate StaysAttached(s: System, i: nat) {
    i < |s.links| && s.links[i].attached && s.server.running
  }

  lemma ProcessKeepsAttached(s: System, p: nat, after: ServerState, reply: seq<Job>, i: nat)
    requires CanStep(s, Process(p, after, reply)) && StaysAttached(s, i)
    requires s.links[i].toServer != [] ==> !s.links[i].toServer[0].DisconnectMsg?
    ensures StaysAttached(AfterProcess(s, p, after, reply), i)
  {
  }

  lemma {:induction false} LateStaysAttached(s: System, a: Action, i: nat)
    requires CanStep(s, a) && StaysAttached(s, i)
    requires s.links[i].toServer != [] ==> !s.links[i].toServer[0].DisconnectMsg?
    ensures StaysAttached(AfterStep(s, a), i)
  {
    if a.Process? { ProcessKeepsAttached(s, a.link, a.after, a.reply, i); }
  }

  lemma {:induction false} LateNext(run: seq<System>, steps: seq<Action>, k: nat, i: nat)
    requires IsRun(run, steps) && k < |steps| && run[k].server.terminatedWorkers && i < |run[k].links|
    requires Unaware(run[k].links[i]) && run[k].server.running
    ensures run[k + 1].server.terminatedWorkers && i < |run[k + 1].links|
    ensures Unaware(run[k + 1].links[i]) && run[k + 1].server.running
  {
    RunLeavesLast(run, steps, k);
    RunIsSteady(run, steps, k);
    StepOf(run, steps, k);
    LinksStay(run[k], steps[k]);
    LateStep(run[k], steps[k], i);
  }

  /** A worker that is accepted after TERMINATE was sent never learns of it and never leaves, and so the
      server never stops. */
  lemma {:induction false} LateWorkerRunsForever(run: seq<System>, steps: seq<Action>, j: nat, k: nat, i: nat)
    requires IsRun(run, steps) && j < k < |run| && run[j].server.terminatedWorkers
    requires steps[j].AcceptWorker? && i == |run[j].links|
    ensures run[k].server.terminatedWorkers && i < |run[k].links|
    ensures Unaware(run[k].links[i]) && run[k].server.running
    decreases k
  {
    if k == j + 1 {
      StepOf(run, steps, j);
    } else {
      LateWorkerRunsForever(run, steps, j, k - 1, i);
      LateNext(run, steps, k - 1, i);
    }
  }

  // ACTIVATE_WORKER

  /** The worker was activated, or the message is in its channel. */
  predicate Activated(l: Link) {
    !l.worker.phase.Inactive? || exists i :: 0 <= i < |l.toWorker| && l.toWorker[i].ActivateMsg?
  }

  lemma {:induction false} StepKeepsActivated(l: Link, a: WorkerAction)
    requires Enabled(l, a) && Activated(l)
    ensures Activated(After(l, a))
  {
    if a.ReceiveActivation? {
      var i :| 0 <= i < |l.toWorker| && l.toWorker[i].ActivateMsg?;
      if i > 0 { assert l.toWorker[1..][i - 1] == l.toWorker[i]; }
    }
  }

  lemma {:induction false} LongerKeepsActivated(l: Link, l': Link)
    requires Activated(l) && l'.worker == l.worker && l.toWorker <= l'.toWorker
    ensures Activated(l')
  {
    if l.worker.phase.Inactive? {
      var i :| 0 <= i < |l.toWorker| && l.toWorker[i].ActivateMsg?;
      assert l'.toWorker[i] == l.toWorker[i];
    }
  }

  predicate AllActivated(s: System) {
    s.server.tasks != [] ==> forall i | 0 <= i < |s.links| :: Activated(s.links[i])
  }

  /** The first file activates all workers that there are. */
  lemma {:induction false} SubmitActivates(s: System, required: nat, file: seq<Line>)
    requires CanStep(s, SubmitFile(required, file)) && AllLeaveLast(s) && AllActivated(s)
    ensures AllActivated(AfterStep(s, SubmitFile(required, file)))
  {
    var s' := AfterStep(s, SubmitFile(required, file));
    forall i: nat | i < |s'.links|
      ensures Activated(s'.links[i])
    {
      assert LeavesLast(s.links[i]);
      if s.server.tasks == [] && s.links[i].attached {
        assert s'.links[i].toWorker[|s.links[i].toWorker|].ActivateMsg?;
      }
    }
  }

  lemma {:induction false} AcceptActivates(s: System, numThreads: nat)
    requires CanStep(s, AcceptWorker(numThreads)) && AllActivated(s)
    ensures AllActivated(AfterStep(s, AcceptWorker(numThreads)))
  {
    var s' := AfterStep(s, AcceptWorker(numThreads));
    assert forall i | 0 <= i < |s.links| :: s'.links[i] == s.links[i];
    if s.server.tasks != [] { assert s'.links[|s.links|].toWorker[0].ActivateMsg?; }
  }

  lemma ProcessAddsNoTask(s: System, p: nat, after: ServerState, reply: seq<Job>)
    requires CanStep(s, Process(p, after, reply)) && s.server.tasks == []
    ensures AfterProcess(s, p, after, reply).server.tasks == []
  {
  }

  /** Only a submission adds a task. */
  lemma {:induction false} NoTaskWithoutFile(s: System, a: Action)
    requires CanStep(s, a) && !a.SubmitFile? && s.server.tasks == []
    ensures AfterStep(s, a).server.tasks == []
  {
    if a.Process? { ProcessAddsNoTask(s, a.link, a.after, a.reply); }
  }

  lemma {:induction false} StepActivates(s: System, a: Action)
    requires CanStep(s, a) && AllLeaveLast(s) && AllActivated(s)
    ensures AllActivated(AfterStep(s, a))
  {
    if a.SubmitFile? {
      SubmitActivates(s, a.required, a.file);
    } else if a.AcceptWorker? {
      AcceptActivates(s, a.numThreads);
    } else {
      if s.server.tasks == [] { NoTaskWithoutFile(s, a); }
      LinksStayUnlessAccepted(s, a);
      forall i: nat | i < |AfterStep(s, a).links| && s.server.tasks != []
        ensures Activated(AfterStep(s, a).links[i])
      {
        if a.WorkerStep? {
          if a.link == i { StepKeepsActivated(s.links[i], a.action); }
        } else {
          ServerOnlyMessages(s, a, i);
          LongerKeepsActivated(s.links[i], AfterStep(s, a).links[i]);
        }
      }
    }
  }

  /** As soon as there is a file, every worker was activated or is about to be, in every run. */
  lemma {:induction false} EveryWorkerIsActivated(run: seq<System>, steps: seq<Action>, k: nat)
    requires IsRun(run, steps) && k < |run|
    ensures AllActivated(run[k])
  {
    if k > 0 {
      EveryWorkerIsActivated(run, steps, k - 1);
      RunLeavesLast(run, steps, k - 1);
      StepOf(run, steps, k - 1);
      StepActivates(run[k - 1], steps[k - 1]);
    }
  }

  // The server

  /** After a solution or the report the workers have been told. */
  predicate EndIsTold(s: System) {
    s.server.solutionFound || s.server.statisticSend ==> s.server.terminatedWorkers
  }

  lemma StepTellsEnd(s: System, a: Action)
    requires CanStep(s, a) && EndIsTold(s)
    ensures EndIsTold(AfterStep(s, a))
  {
  }

  /** There are workers, all of them have left, the statistics were sent, and nothing is left to do. */
  predicate LastHasLeft(s: System) {
    s.links != [] && Finished(s)
  }

  /** The server runs exactly until the last worker has left. */
  predicate RunsUntilLast(s: System) {
    s.server.running <==> !LastHasLeft(s)
  }

  lemma {:induction false} ProcessRunsUntilLast(s: System, i: nat, after: ServerState, reply: seq<Job>)
    requires RunsUntilLast(s) && CanStep(s, Process(i, after, reply)) && !AfterProcess(s, i, after, reply).assertFailed
    ensures RunsUntilLast(AfterProcess(s, i, after, reply))
  {
    var s' := AfterProcess(s, i, after, reply);
    if !s.links[i].toServer[0].DisconnectMsg? { assert s'.links[i].attached; }
  }

  lemma {:induction false} StepRunsUntilLast(s: System, a: Action)
    requires RunsUntilLast(s) && CanStep(s, a) && !AfterStep(s, a).assertFailed
    ensures RunsUntilLast(AfterStep(s, a))
  {
    var s' := AfterStep(s, a);
    match a
    case Process(i, after, reply) => ProcessRunsUntilLast(s, i, after, reply);
    case AcceptWorker(_) => assert s'.links[|s.links|].attached;
    case ManagerTerminate =>
      var i :| 0 <= i < |s.links| && s.links[i].attached;
      assert s'.links[i].attached;
    case SubmitFile(_, _) => SameAttached(s, s');
    case WorkerStep(_, _) => SameAttached(s, s');
  }

  lemma {:induction false} SameAttached(s: System, s': System)
    requires |s'.links| == |s.links| && forall i | 0 <= i < |s.links| :: s'.links[i].attached == s.links[i].attached
    ensures NoneAttached(s'.links) <==> NoneAttached(s.links)
  {
  }

  lemma {:induction false} EndNext(run: seq<System>, steps: seq<Action>, k: nat)
    requires IsRun(run, steps) && k < |steps| && EndIsTold(run[k]) && RunsUntilLast(run[k])
    ensures EndIsTold(run[k + 1]) && RunsUntilLast(run[k + 1])
  {
    RunKeepsInv(run, steps, k + 1);
    StepOf(run, steps, k);
    StepTellsEnd(run[k], steps[k]);
    StepRunsUntilLast(run[k], steps[k]);
  }

  /** In every run TERMINATE is sent with the first solution or report at the latest, and the server stops
      if and only if all workers have left, the statistics were sent and nothing is left to hand out. */
  lemma {:induction false} StopsIffLastHasLeft(run: seq<System>, steps: seq<Action>, k: nat)
    requires IsRun(run, steps) && k < |run|
    ensures EndIsTold(run[k])
    ensures !run[k].server.running <==> LastHasLeft(run[k])
  {
    if k > 0 {
      StopsIffLastHasLeft(run, steps, k - 1);
      EndNext(run, steps, k - 1);
    }
  }
}
