/** What holds of the results that travel through the system: each is a result of the file of its
    task. So all messages about a task agree on the size of its formula, and a solution is real. */
module HonestResults {
  import opened Sums
  import opened Statistics
  import opened Scheduler
  import opened Workers
  import opened Input
  import opened Results
  import opened Protocol

  ghost predicate HonestDone(files: seq<seq<Line>>, d: Done) {
    d.taskId < |files| && ResultOf(files[d.taskId], d)
  }

  /** Unless the file is not modelled, it has a satisfying assignment. */
  ghost predicate SolutionIsReal(file: seq<Line>) {
    Modelled(file) ==> Satisfiable(file)
  }

  ghost predicate SomeSolved(files: seq<seq<Line>>) {
    exists t :: 0 <= t < |files| && SolutionIsReal(files[t])
  }

  ghost predicate HonestMessage(files: seq<seq<Line>>, m: UpMessage) {
    && (m.DoneProcessingMsg? ==> HonestDone(files, m.info))
    && (m.FoundSolutionMsg? ==> SomeSolved(files))
  }

  ghost predicate AllHonest(files: seq<seq<Line>>, ds: seq<Done>) {
    forall i | 0 <= i < |ds| :: HonestDone(files, ds[i])
  }

  ghost predicate AllMessagesHonest(files: seq<seq<Line>>, ms: seq<UpMessage>) {
    forall i | 0 <= i < |ms| :: HonestMessage(files, ms[i])
  }

  ghost predicate LinkHonest(files: seq<seq<Line>>, l: Link) {
    AllHonest(files, l.worker.tasksDone) && AllMessagesHonest(files, l.toServer)
  }

  ghost predicate Honest(s: System) {
    && |s.files| == |s.server.tasks|
    && (forall i | 0 <= i < |s.links| :: LinkHonest(s.files, s.links[i]))
    && AllHonest(s.files, s.received)
    && (forall i | 0 <= i < |s.reports| :: AllHonest(s.files, s.reports[i].received))
    && (s.server.solutionFound ==> SomeSolved(s.files))
  }

  // More files

  lemma {:induction false} SomeSolvedGrows(files: seq<seq<Line>>, file: seq<Line>)
    requires SomeSolved(files)
    ensures SomeSolved(files + [file])
  {
    var t :| 0 <= t < |files| && SolutionIsReal(files[t]);
    assert (files + [file])[t] == files[t];
  }

  lemma {:induction false} HonestGrows(files: seq<seq<Line>>, file: seq<Line>, ds: seq<Done>, ms: seq<UpMessage>)
    requires AllHonest(files, ds) && AllMessagesHonest(files, ms)
    ensures AllHonest(files + [file], ds) && AllMessagesHonest(files + [file], ms)
  {
    forall d | HonestDone(files, d)
      ensures HonestDone(files + [file], d)
    {
      assert (files + [file])[d.taskId] == files[d.taskId];
    }
    if SomeSolved(files) { SomeSolvedGrows(files, file); }
  }

  // The steps of a worker

  lemma {:induction false} SolvedIsSolved(files: seq<seq<Line>>, d: Done)
    requires HonestDone(files, d) && d.solved
    ensures SomeSolved(files)
  {
    if Modelled(files[d.taskId]) { SolvedIsSatisfiable(files[d.taskId], d); }
    assert SolutionIsReal(files[d.taskId]);
  }

  lemma {:induction false} MessagesAreHonest(files: seq<seq<Line>>, d: Done, failed: Phase)
    requires HonestDone(files, d)
    ensures AllMessagesHonest(files, MessagesFor(d)) && AllMessagesHonest(files, Closing(d, failed))
  {
    if d.solved { SolvedIsSolved(files, d); }
  }

  lemma HonestConcat(files: seq<seq<Line>>, ms: seq<UpMessage>, more: seq<UpMessage>)
    requires AllMessagesHonest(files, ms) && AllMessagesHonest(files, more)
    ensures AllMessagesHonest(files, ms + more)
  {
  }

  lemma {:induction false} ReturnKeepsHonest(files: seq<seq<Line>>, l: Link, failed: Phase)
    requires LinkHonest(files, l) && l.worker.tasksDone != []
    ensures LinkHonest(files, AfterReturn(l, failed))
  {
    var d := l.worker.tasksDone[0];
    MessagesAreHonest(files, d, failed);
    HonestConcat(files, l.toServer, MessagesFor(d));
    HonestConcat(files, l.toServer + MessagesFor(d), Closing(d, failed));
  }

  lemma SendKeepsHonest(files: seq<seq<Line>>, ms: seq<UpMessage>, m: UpMessage)
    requires AllMessagesHonest(files, ms) && HonestMessage(files, m)
    ensures AllMessagesHonest(files, ms + [m])
  {
  }

  lemma {:induction false} StepKeepsLinkHonest(files: seq<seq<Line>>, l: Link, a: WorkerAction)
    requires LinkHonest(files, l) && Enabled(l, a)
    requires a.ThreadStep? && a.action.Finish? ==> HonestDone(files, a.action.result)
    ensures LinkHonest(files, After(l, a))
  {
    match a
    case Request => SendKeepsHonest(files, l.toServer, GetInstancesMsg(l.worker.instancesToGet));
    case ReturnOne => ReturnKeepsHonest(files, l, Aborted);
    case Drain =>
      if l.worker.tasksDone != [] {
        ReturnKeepsHonest(files, l, Gone);
      } else {
        SendKeepsHonest(files, l.toServer, DisconnectMsg);
      }
    case _ =>
  }

  /** A thread only ever executes tasks of submitted files. */
  lemma {:induction false} ExecutedIsSubmitted(s: System, i: nat, j: nat)
    requires Inv(s) && i < |s.links| && j < |s.links[i].worker.threads| && s.links[i].worker.threads[j].Executing?
    ensures s.links[i].worker.threads[j].task < |s.server.tasks|
  {
    var t := s.links[i].worker.threads[j].task;
    TotalCovers(s.links[i].worker.threads, j, ThreadHas(t));
    TotalCovers(s.links, i, HeldBy(t));
    assert Total(s.links, HeldBy(t)) == ProcessingOf(s.server, t);
  }

  lemma {:induction false} WorkerStepKeepsHonest(s: System, i: nat, a: WorkerAction)
    requires Inv(s) && Honest(s) && CanStep(s, WorkerStep(i, a)) && Reports(s.files, a)
    ensures Honest(AfterStep(s, WorkerStep(i, a)))
  {
    if a.ThreadStep? && a.action.Finish? { ExecutedIsSubmitted(s, i, a.thread); }
    StepKeepsLinkHonest(s.files, s.links[i], a);
  }

  // The steps of the server

  lemma {:induction false} SubmitKeepsHonest(s: System, required: nat, file: seq<Line>)
    requires Honest(s) && CanStep(s, SubmitFile(required, file))
    ensures Honest(AfterStep(s, SubmitFile(required, file)))
  {
    HonestGrows(s.files, file, s.received, []);
    if s.server.solutionFound { SomeSolvedGrows(s.files, file); }
    forall i | 0 <= i < |s.reports|
      ensures AllHonest(s.files + [file], s.reports[i].received)
    {
      HonestGrows(s.files, file, s.reports[i].received, []);
    }
    forall i | 0 <= i < |s.links|
      ensures LinkHonest(s.files + [file], s.links[i])
    {
      HonestGrows(s.files, file, s.links[i].worker.tasksDone, s.links[i].toServer);
    }
  }

  /** Taking a message and broadcasting another keeps the links honest. */
  lemma {:induction false} TakenKeepsHonest(s: System, i: nat, before: ServerState, after: ServerState)
    requires Honest(s) && IsNext(s, i)
    ensures HonestMessage(s.files, s.links[i].toServer[0])
    ensures var links := WithTermination(before, after, Taken(s.links, i));
      |links| == |s.links| && forall j | 0 <= j < |links| :: LinkHonest(s.files, links[j])
  {
    assert LinkHonest(s.files, s.links[i]);
    forall j | 0 <= j < |s.links|
      ensures LinkHonest(s.files, Taken(s.links, i)[j])
    {
    }
  }

  lemma {:induction false} DoneKeepsHonest(s: System, i: nat, msg: Done)
    requires Honest(s) && IsNext(s, i) && s.links[i].toServer[0] == DoneProcessingMsg(msg)
    ensures Honest(AfterDone(s, i, msg))
  {
    TakenKeepsHonest(s, i, s.server, AfterDone(s, i, msg).server);
  }

  lemma {:induction false} ProcessKeepsHonest(s: System, i: nat, after: ServerState, reply: seq<Job>)
    requires Honest(s) && CanStep(s, Process(i, after, reply))
    ensures Honest(AfterProcess(s, i, after, reply))
  {
    match s.links[i].toServer[0]
    case FoundSolutionMsg => TakenKeepsHonest(s, i, s.server, FoundSolution(s.server));
    case DoneProcessingMsg(msg) => DoneKeepsHonest(s, i, msg);
    case _ => TakenKeepsHonest(s, i, s.server, s.server);
  }

  lemma {:induction false} StepKeepsHonest(s: System, a: Action)
    requires Inv(s) && Honest(s) && CanStep(s, a) && HonestStep(s, a)
    ensures Honest(AfterStep(s, a))
  {
    match a
    case SubmitFile(required, file) => SubmitKeepsHonest(s, required, file);
    case AcceptWorker(_) =>
    case ManagerTerminate =>
    case WorkerStep(i, action) => WorkerStepKeepsHonest(s, i, action);
    case Process(i, after, reply) => ProcessKeepsHonest(s, i, after, reply);
  }

  // The sizes agree

  ghost function VarsIn(files: seq<seq<Line>>): nat -> nat {
    (t: nat) => if t < |files| then VarsOf(files[t]) else 0
  }

  ghost function ClausesIn(files: seq<seq<Line>>): nat -> nat {
    (t: nat) => if t < |files| then ClausesOf(files[t]) else 0
  }

  lemma {:induction false} HonestIsConsistent(files: seq<seq<Line>>, log: seq<Done>)
    requires AllHonest(files, log) && EveryMessageCounts(log)
    ensures Consistent(log, VarsIn(files), ClausesIn(files))
  {
    forall i | 0 <= i < |log| && log[i].numFlipsDone > 0
      ensures log[i].numVars > 0
    {
      assert HonestDone(files, log[i]);
      ClausesNeedVariables(files[log[i].taskId]);
    }
  }

  /** The assertions of the server about the size of a formula never fail. */
  lemma {:induction false} HonestSizesAgree(s: System, i: nat)
    requires Inv(s) && Honest(s) && IsNext(s, i)
    ensures NextSizesAgree(s, i)
  {
    var m := s.links[i].toServer[0];
    if m.DoneProcessingMsg? && m.info.taskId < |s.server.tasks| {
      var t := m.info.taskId;
      assert LinkOk(s.links[i]) && LinkHonest(s.files, s.links[i]);
      assert HonestMessage(s.files, m) && m.info.instancesProcessed == 1;
      HonestIsConsistent(s.files, s.received);
      FormulaKnownIffFlipped(s.received, t, VarsIn(s.files), ClausesIn(s.files));
      assert TaskHistory(s.server.tasks[t], t, s.handedOut, s.received);
    }
  }

  // All runs

  lemma {:induction false} StepKeepsAll(s: System, a: Action)
    requires Inv(s) && Honest(s) && CanStep(s, a) && HonestStep(s, a)
    ensures Inv(AfterStep(s, a)) && Honest(AfterStep(s, a))
  {
    if a.Process? { HonestSizesAgree(s, a.link); }
    StepKeepsInv(s, a);
    StepKeepsHonest(s, a);
  }

  /** The invariant of the system, or what holds of results, is violated. */
  ghost predicate Violated(s: System) {
    !Inv(s) || !Honest(s)
  }

  lemma {:induction false} InitialHonest()
    ensures !Violated(INITIAL)
  {
    InitialInv();
  }

  lemma {:induction false} NextKeepsInv(run: seq<System>, steps: seq<Action>, k: nat, k': nat)
    requires IsRun(run, steps) && k < k' == k + 1 < |run| && !Violated(run[k])
    ensures !Violated(run[k'])
  {
    StepOf(run, steps, k);
    StepKeepsAll(run[k], steps[k]);
  }

  lemma {:induction false} NothingViolated(run: seq<System>, steps: seq<Action>, k: nat)
    requires IsRun(run, steps) && k < |run|
    ensures !Violated(run[k])
  {
    if k == 0 {
      InitialHonest();
    } else {
      var j := k - 1;
      NothingViolated(run, steps, j);
      NextKeepsInv(run, steps, j, k);
    }
  }

  /** In every state of every run the whole system keeps its invariant, and all results are honest. */
  lemma {:induction false} RunKeepsInv(run: seq<System>, steps: seq<Action>, k: nat)
    requires IsRun(run, steps) && k < |run|
    ensures Inv(run[k]) && Honest(run[k])
  {
    NothingViolated(run, steps, k);
  }
}
