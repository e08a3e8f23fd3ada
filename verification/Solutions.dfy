/** What becomes of a solution: its announcement, its result, and what is handed out afterwards. */
module Solutions {
  import opened Sums
  import opened Statistics
  import opened Scheduler
  import opened Workers
  import opened Protocol
  import opened HonestResults

  predicate IsSolvedResult(m: UpMessage) {
    m.DoneProcessingMsg? && m.info.solved
  }

  /** FOUND_SOLUTION stands directly in front of every result that it announces. */
  predicate Paired(ms: seq<UpMessage>) {
    && (forall p | 0 < p < |ms| :: IsSolvedResult(ms[p]) <==> ms[p - 1].FoundSolutionMsg?)
    && (ms != [] ==> !ms[|ms| - 1].FoundSolutionMsg?)
  }

  /** The next message of the worker is a solved result, whose announcement was taken before. */
  predicate SolvedIsNext(l: Link) {
    l.toServer != [] && IsSolvedResult(l.toServer[0])
  }

  predicate SolvedReceived(s: System) {
    exists i :: 0 <= i < |s.received| && s.received[i].solved
  }

  predicate SolvedComing(s: System) {
    exists i :: 0 <= i < |s.links| && SolvedIsNext(s.links[i])
  }

  predicate AllPaired(s: System) {
    forall i | 0 <= i < |s.links| :: Paired(s.links[i].toServer)
  }

  /** The server knows of a solution exactly if it has received a solved result or is about to. */
  predicate Announced(s: System) {
    AllPaired(s) && (s.server.solutionFound <==> SolvedReceived(s) || SolvedComing(s))
  }

  // The steps of a worker

  /** What a worker sends keeps the pairs, and is not a result without its announcement. */
  lemma PairedAppend(ms: seq<UpMessage>, more: seq<UpMessage>)
    requires Paired(ms) && Paired(more) && (more != [] ==> !IsSolvedResult(more[0]))
    ensures Paired(ms + more)
    ensures ms + more != [] && IsSolvedResult((ms + more)[0]) <==> ms != [] && IsSolvedResult(ms[0])
  {
  }

  lemma {:induction false} SentIsPaired(r: Done, failed: Phase)
    requires r.solved ==> r.instancesProcessed > 0
    ensures var sent := MessagesFor(r) + Closing(r, failed);
      Paired(sent) && (sent != [] ==> !IsSolvedResult(sent[0]))
  {
    if r.solved {
      assert MessagesFor(r) + Closing(r, failed) == [FoundSolutionMsg, DoneProcessingMsg(r)];
    }
  }

  lemma {:induction false} ReturnKeepsPaired(l: Link, failed: Phase)
    requires LinkOk(l) && Paired(l.toServer) && l.worker.tasksDone != []
    ensures Paired(AfterReturn(l, failed).toServer) && (SolvedIsNext(AfterReturn(l, failed)) <==> SolvedIsNext(l))
  {
    var r := l.worker.tasksDone[0];
    var sent := MessagesFor(r) + Closing(r, failed);
    SentIsPaired(r, failed);
    PairedAppend(l.toServer, sent);
    assert AfterReturn(l, failed).toServer == l.toServer + sent;
  }

  lemma {:induction false} StepKeepsPaired(l: Link, a: WorkerAction)
    requires LinkOk(l) && Paired(l.toServer) && Enabled(l, a)
    ensures Paired(After(l, a).toServer) && (SolvedIsNext(After(l, a)) <==> SolvedIsNext(l))
  {
    match a
    case Request => PairedAppend(l.toServer, [GetInstancesMsg(l.worker.instancesToGet)]);
    case ReturnOne => ReturnKeepsPaired(l, Aborted);
    case Drain =>
      if l.worker.tasksDone != [] {
        ReturnKeepsPaired(l, Gone);
      } else {
        PairedAppend(l.toServer, [DisconnectMsg]);
      }
    case _ =>
  }

  lemma {:induction false} ComingSame(s: System, s': System)
    requires |s'.links| == |s.links|
    requires forall i | 0 <= i < |s.links| :: SolvedIsNext(s'.links[i]) <==> SolvedIsNext(s.links[i])
    ensures SolvedComing(s') <==> SolvedComing(s)
  {
    if SolvedComing(s) {
      var i :| 0 <= i < |s.links| && SolvedIsNext(s.links[i]);
      assert SolvedIsNext(s'.links[i]);
    }
  }

  lemma {:induction false} WorkerKeepsAnnounced(s: System, i: nat, a: WorkerAction)
    requires Inv(s) && Announced(s) && CanStep(s, WorkerStep(i, a))
    ensures Announced(AfterStep(s, WorkerStep(i, a)))
  {
    StepKeepsPaired(s.links[i], a);
    ComingSame(s, AfterStep(s, WorkerStep(i, a)));
  }

  // The steps of the server

  /** Taking a message other than an announcement: the next one is no solved result. */
  lemma {:induction false} TakenKeepsPaired(ms: seq<UpMessage>)
    requires Paired(ms) && ms != []
    ensures Paired(ms[1..])
    ensures ms[0].FoundSolutionMsg? <==> ms[1..] != [] && IsSolvedResult(ms[1..][0])
  {
    if ms[0].FoundSolutionMsg? { assert |ms| > 1 && IsSolvedResult(ms[1]); }
  }

  /** The messages of all links after a step of the server that takes the first message of link `i`. */
  ghost predicate TakesFrom(s: System, s': System, i: nat) {
    && i < |s.links| == |s'.links| && s.links[i].toServer != []
    && (forall j | 0 <= j < |s.links| ::
          s'.links[j].toServer == if j == i then s.links[i].toServer[1..] else s.links[j].toServer)
  }

  lemma {:induction false} TakenComing(s: System, s': System, i: nat)
    requires AllPaired(s) && TakesFrom(s, s', i)
    ensures AllPaired(s')
    ensures s.links[i].toServer[0].FoundSolutionMsg? ==> SolvedComing(s')
    ensures !s.links[i].toServer[0].FoundSolutionMsg? && !SolvedIsNext(s.links[i]) ==>
      (SolvedComing(s') <==> SolvedComing(s))
  {
    TakenKeepsPaired(s.links[i].toServer);
    if s.links[i].toServer[0].FoundSolutionMsg? {
      assert SolvedIsNext(s'.links[i]);
    } else if !SolvedIsNext(s.links[i]) {
      ComingSame(s, s');
    }
  }

  lemma {:induction false} ProcessTakes(s: System, i: nat, after: ServerState, reply: seq<Job>)
    requires CanStep(s, Process(i, after, reply)) && !AfterProcess(s, i, after, reply).assertFailed
    ensures TakesFrom(s, AfterProcess(s, i, after, reply), i)
  {
  }

  lemma {:induction false} ReceivedMore(s: System, s': System, msg: Done)
    requires s'.received == s.received + [msg]
    ensures SolvedReceived(s') <==> SolvedReceived(s) || msg.solved
  {
    if SolvedReceived(s) {
      var i :| 0 <= i < |s.received| && s.received[i].solved;
      assert s'.received[i].solved;
    }
    if msg.solved { assert s'.received[|s.received|].solved; }
  }

  lemma {:induction false} ProcessKeepsAnnounced(s: System, i: nat, after: ServerState, reply: seq<Job>)
    requires Announced(s) && CanStep(s, Process(i, after, reply)) && !AfterProcess(s, i, after, reply).assertFailed
    ensures Announced(AfterProcess(s, i, after, reply))
  {
    var s' := AfterProcess(s, i, after, reply);
    ProcessTakes(s, i, after, reply);
    TakenComing(s, s', i);
    match s.links[i].toServer[0]
    case DoneProcessingMsg(msg) =>
      ReceivedMore(s, s', msg);
      if msg.solved { assert SolvedIsNext(s.links[i]); }
    case _ =>
  }

  lemma {:induction false} AcceptKeepsAnnounced(s: System, numThreads: nat)
    requires Announced(s) && CanStep(s, AcceptWorker(numThreads))
    ensures Announced(AfterStep(s, AcceptWorker(numThreads)))
  {
    var s' := AfterStep(s, AcceptWorker(numThreads));
    assert forall i | 0 <= i < |s.links| :: s'.links[i] == s.links[i];
    if SolvedComing(s) {
      var i :| 0 <= i < |s.links| && SolvedIsNext(s.links[i]);
      assert SolvedIsNext(s'.links[i]);
    }
  }

  /** A broadcast leaves the messages to the server alone. */
  lemma {:induction false} BroadcastKeepsAnnounced(s: System, a: Action)
    requires Announced(s) && CanStep(s, a) && (a.SubmitFile? || a.ManagerTerminate?)
    ensures Announced(AfterStep(s, a))
  {
    ComingSame(s, AfterStep(s, a));
  }

  lemma {:induction false} StepKeepsAnnounced(s: System, a: Action)
    requires Inv(s) && Announced(s) && CanStep(s, a) && !AfterStep(s, a).assertFailed
    ensures Announced(AfterStep(s, a))
  {
    match a
    case WorkerStep(i, action) => WorkerKeepsAnnounced(s, i, action);
    case Process(i, after, reply) => ProcessKeepsAnnounced(s, i, after, reply);
    case AcceptWorker(numThreads) => AcceptKeepsAnnounced(s, numThreads);
    case _ => BroadcastKeepsAnnounced(s, a);
  }

  lemma {:induction false} SolutionNext(run: seq<System>, steps: seq<Action>, k: nat)
    requires IsRun(run, steps) && k < |steps| && Announced(run[k])
    ensures Announced(run[k + 1])
  {
    RunKeepsInv(run, steps, k);
    RunKeepsInv(run, steps, k + 1);
    StepOf(run, steps, k);
    StepKeepsAnnounced(run[k], steps[k]);
  }

  lemma {:induction false} RunAnnounces(run: seq<System>, steps: seq<Action>, k: nat)
    requires IsRun(run, steps) && k < |run|
    ensures Announced(run[k])
  {
    if k > 0 {
      RunAnnounces(run, steps, k - 1);
      SolutionNext(run, steps, k - 1);
    }
  }

  /** In every state of every run the server knows of a solution if and only if it has received a solved
      result, or such a result is the next message of some worker. */
  lemma {:induction false} SolutionKnownIff(run: seq<System>, steps: seq<Action>, k: nat)
    requires IsRun(run, steps) && k < |run|
    ensures AllPaired(run[k])
    ensures run[k].server.solutionFound <==> SolvedReceived(run[k]) || SolvedComing(run[k])
  {
    RunAnnounces(run, steps, k);
  }

  /** Nothing is handed out once the server knows of a solution. */
  lemma {:induction false} SolutionStays(s: System, a: Action)
    requires CanStep(s, a) && s.server.solutionFound
    ensures AfterStep(s, a).server.solutionFound && AfterStep(s, a).handedOut == s.handedOut
  {
  }

  lemma {:induction false} NothingAfterSolution(run: seq<System>, steps: seq<Action>, j: nat, k: nat)
    requires IsRun(run, steps) && j <= k < |run| && run[j].server.solutionFound
    ensures run[k].server.solutionFound && run[k].handedOut == run[j].handedOut
    decreases k
  {
    if j < k {
      NothingAfterSolution(run, steps, j, k - 1);
      StepOf(run, steps, k - 1);
      SolutionStays(run[k - 1], steps[k - 1]);
    }
  }
}
