/** Runs that reach the states at which promises end. */
module Scenarios {
  import opened Sums
  import opened Cnf
  import opened CnfFormulas
  import opened Random
  import opened Statistics
  import opened Scheduler
  import opened Workers
  import opened Input
  import opened Pipeline
  import opened Limits
  import opened Execution
  import opened Results
  import opened Protocol
  import opened HonestResults
  import opened Runs
  import opened Drops

  ghost predicate Reachable(s: System) {
    exists run, steps :: IsRun(run, steps) && run[|run| - 1] == s
  }

  lemma {:induction false} InitialReachable()
    ensures Reachable(INITIAL)
  {
    assert IsRun([INITIAL], []);
  }

  lemma {:induction false} StepReachable(s: System, a: Action, s': System)
    requires Reachable(s) && CanStep(s, a) && HonestStep(s, a) && s' == AfterStep(s, a)
    ensures Reachable(s')
  {
    var run, steps :| IsRun(run, steps) && run[|run| - 1] == s;
    var run', steps' := run + [s'], steps + [a];
    forall k: nat | k < |steps'|
      ensures StepAt(run', steps', k)
    {
      if k < |steps| { StepOf(run, steps, k); }
    }
    assert IsRun(run', steps') && run'[|run'| - 1] == s';
  }

  /** One pass of the hand-out loop is enough if it starts all the instances of a request. */
  lemma {:induction false} OnePassReplies(s: ServerState, k: nat)
    requires Valid(s) && !s.solutionFound && s.order != [] && 0 < k <= UINT32_MAX
    requires s.order[0] < |s.tasks| && Started(s.tasks[s.order[0]], k) == k
    ensures GetInstances(s, HandOutOne(s, k).0, [HandOutOne(s, k).1], k)
  {
    var job := HandOutOne(s, k).1;
    OnePassHands(s, k);
    assert [] + [job] == [job];
    TotalAppend([], job, JobSize());
    assert Total([job], JobSize()) == k;
  }

  lemma {:induction false} OnePassHands(s: ServerState, k: nat)
    requires Valid(s) && s.order != [] && 0 < k <= UINT32_MAX
    requires s.order[0] < |s.tasks| && Started(s.tasks[s.order[0]], k) == k
    ensures Handing(s, HandOutOne(s, k).0, [HandOutOne(s, k).1], 0)
  {
    HandingStarts(s, k);
    HandingContinues(s, s, [], k);
    assert [] + [HandOutOne(s, k).1] == [HandOutOne(s, k).1];
  }

  /** One file of which one instance is required, before and after it was handed out. */
  const ONE_FILE: ServerState :=
    ServerState([TaskInfo(1, NO_STATISTICS, 0, true)], [0], 0, false, false, false, true)
  const ONE_OUT: ServerState :=
    ServerState([TaskInfo(1, NO_STATISTICS, 1, false)], [], 1, false, false, false, true)

  /** A worker with one thread. */
  function OneThread(phase: Phase, running: bool, instancesToGet: int, tasks: seq<nat>, thread: Thread): WorkerState {
    WorkerState(phase, running, instancesToGet, tasks, [thread], [], [], false)
  }

  /** The system with one worker, before the instance of the file is handed out and after it. */
  function Before(file: seq<Line>, l: Link): System {
    System(ONE_FILE, [file], [l], [], [], [], false)
  }

  function AfterHandOut(file: seq<Line>, server: ServerState, l: Link): System {
    System(server, [file], [l], [Job(0, 1)], [], [], false)
  }

  lemma {:induction false} WorkerReaches(s: System, a: WorkerAction, l: Link)
    requires Reachable(s) && |s.links| == 1 && Enabled(s.links[0], a) && After(s.links[0], a) == l
    requires Reports(s.files, a)
    ensures Reachable(s.(links := [l]))
  {
    assert s.links[0 := l] == [l];
    StepReachable(s, WorkerStep(0, a), s.(links := [l]));
  }

  lemma {:induction false} SentToOne(l: Link, m: DownMessage)
    requires l.attached
    ensures Broadcast([l], m) == [l.(toWorker := l.toWorker + [m])]
  {
    assert Broadcast([l], m)[0] == Sent(l, m);
  }

  lemma {:induction false} ReachableInv(s: System)
    requires Reachable(s)
    ensures Inv(s)
  {
    var run, steps :| IsRun(run, steps) && run[|run| - 1] == s;
    RunKeepsInv(run, steps, |run| - 1);
  }

  lemma {:induction false} ReplyReachable(s: System, k: nat)
    requires Reachable(s) && IsNext(s, 0) && s.links[0].toServer[0] == GetInstancesMsg(k) && 0 < k <= UINT32_MAX
    requires !s.server.solutionFound && s.server.order != []
    requires s.server.order[0] < |s.server.tasks| && Started(s.server.tasks[s.server.order[0]], k) == k
    ensures Reachable(AfterProcess(s, 0, HandOutOne(s.server, k).0, [HandOutOne(s.server, k).1]))
  {
    ReachableInv(s);
    OnePassReplies(s.server, k);
    var a := Process(0, HandOutOne(s.server, k).0, [HandOutOne(s.server, k).1]);
    StepReachable(s, a, AfterStep(s, a));
  }

  /** The only instance is handed out. */
  lemma {:induction false} OneFileHandOut()
    ensures HandOutOne(ONE_FILE, 1) == (ONE_OUT, Job(0, 1))
  {
    var one: seq<nat> := [0];
    assert one[1..] == [];
    assert ONE_FILE.tasks[0 := ONE_OUT.tasks[0]] == ONE_OUT.tasks;
    assert ONE_FILE.order == one;
  }

  lemma {:induction false} AcceptedReachable()
    ensures Reachable(INITIAL.(links := [Link(OneThread(Inactive, true, 0, [], Idle), [], [], true)]))
  {
    InitialReachable();
    var idle := OneThread(Inactive, true, 0, [], Idle);
    assert NewWorker(1) == idle;
    StepReachable(INITIAL, AcceptWorker(1), INITIAL.(links := [Link(idle, [], [], true)]));
  }

  lemma {:induction false} SubmittedReachable(file: seq<Line>)
    ensures Reachable(Before(file, Link(OneThread(Inactive, true, 0, [], Idle), [], [ActivateMsg], true)))
  {
    AcceptedReachable();
    var idle := OneThread(Inactive, true, 0, [], Idle);
    var links := [Link(idle, [], [ActivateMsg], true)];
    SentToOne(Link(idle, [], [], true), ActivateMsg);
    assert [] + [ActivateMsg] == [ActivateMsg];
    assert AddFile(START, 1) == ONE_FILE && [] + [file] == [file];
    StepReachable(INITIAL.(links := [Link(idle, [], [], true)]), SubmitFile(1, file), Before(file, links[0]));
  }

  lemma {:induction false} ActivatedReachable(file: seq<Line>)
    ensures Reachable(Before(file, Link(OneThread(Looping, true, 1, [], Idle), [], [], true)))
  {
    SubmittedReachable(file);
    var l := Link(OneThread(Inactive, true, 0, [], Idle), [], [ActivateMsg], true);
    WorkerReaches(Before(file, l), ReceiveActivation, Link(OneThread(Looping, true, 1, [], Idle), [], [], true));
  }

  lemma {:induction false} HandedOutReachable(file: seq<Line>)
    ensures Reachable(AfterHandOut(file, ONE_OUT,
      Link(OneThread(Awaiting(1), true, 1, [], Idle), [], [SendInstancesMsg([Job(0, 1)])], true)))
  {
    var w := OneThread(Awaiting(1), true, 1, [], Idle);
    ActivatedReachable(file);
    var l, l' := Link(w, [GetInstancesMsg(1)], [], true), Link(w, [], [SendInstancesMsg([Job(0, 1)])], true);
    WorkerReaches(Before(file, Link(OneThread(Looping, true, 1, [], Idle), [], [], true)), Request, l);
    OneFileHandOut();
    ReplyReachable(Before(file, l), 1);
    assert [] + [Job(0, 1)] == [Job(0, 1)] && [] + [SendInstancesMsg([Job(0, 1)])] == [SendInstancesMsg([Job(0, 1)])];
    assert l.toServer[1..] == [];
    assert AfterProcess(Before(file, l), 0, ONE_OUT, [Job(0, 1)]).links == [l'];
    assert AfterProcess(Before(file, l), 0, ONE_OUT, [Job(0, 1)]) == AfterHandOut(file, ONE_OUT, l');
  }

  lemma {:induction false} QueuedReachable(file: seq<Line>)
    ensures Reachable(AfterHandOut(file, ONE_OUT, Link(OneThread(Looping, true, 0, [0], Idle), [], [], true)))
  {
    HandedOutReachable(file);
    var l0 := Link(OneThread(Awaiting(1), true, 1, [], Idle), [], [SendInstancesMsg([Job(0, 1)])], true);
    var l1 := Link(OneThread(Creating([Job(0, 1)]), true, 1, [], Idle), [], [], true);
    WorkerReaches(AfterHandOut(file, ONE_OUT, l0), ReceiveReply, l1);
    assert [] + Repeated(0, 1) == [0];
    var l2 := Link(OneThread(Looping, true, 0, [0], Idle), [], [], true);
    WorkerReaches(AfterHandOut(file, ONE_OUT, l1), CreateNext, l2);
  }

  /** The manager's TERMINATE reaches the worker before its thread has looked into the queue: the
      instance is dropped, and by DroppedBlocksTheEnd no continuation of the run ever stops. */
  lemma {:induction false} TerminationDropsInstance(file: seq<Line>) returns (s: System)
    ensures Reachable(s) && HasDropped(s, 0, 0) && s.reports == []
  {
    QueuedReachable(file);
    var l0 := Link(OneThread(Looping, true, 0, [0], Idle), [], [], true);
    var l1 := Link(OneThread(Looping, true, 0, [0], Idle), [], [TerminateMsg], true);
    s := AfterHandOut(file, ONE_OUT, l0);
    assert s.links[0].attached;
    SentToOne(l0, TerminateMsg);
    assert [] + [TerminateMsg] == [TerminateMsg];
    var server := Terminated(ONE_OUT);
    StepReachable(s, ManagerTerminate, AfterHandOut(file, server, l1));
    var l2 := l1.(worker := OneThread(Looping, false, 0, [0], Idle));
    WorkerReaches(AfterHandOut(file, server, l1), Probe, l2);
    var l3 := l1.(worker := OneThread(Joining, false, 0, [0], Idle));
    WorkerReaches(AfterHandOut(file, server, l2), LeaveLoop, l3);
    var l4 := l1.(worker := OneThread(Joining, false, 0, [0], Exited));
    WorkerReaches(AfterHandOut(file, server, l3), ThreadStep(0, ExitIdle), l4);
    var l5 := l1.(worker := OneThread(Draining, false, 0, [0], Exited));
    WorkerReaches(AfterHandOut(file, server, l4), JoinThreads, l5);
    s := AfterHandOut(file, server, l5);
    assert DroppedAt(l5.worker, 0) > 0 by {
      TotalCovers(l5.worker.tasks, 0, IsTask(0));
    }
  }

  // A report without averages

  /** One variable and one clause, which every assignment with a true variable satisfies. */
  ghost function UnitFile(): seq<Line> {
    Configs([1]) + [ClauseLine(true, [1])]
  }

  /** The search starts at a solution: it is found without a flip. */
  const NO_FLIPS: Done := Done(0, 1, 0, 0.0, 1, 1, true)

  lemma {:induction false} UnitFileLoads()
    ensures Loads(UnitFile())
    ensures AfterLines(UnitFile()).value.numVars == 1 && AfterLines(UnitFile()).value.clauses == [[1]]
  {
    var lines := UnitFile();
    OneUnitClause([1]);
    assert lines[0] == Config(true, 1, 1) && |lines| == 2 && lines[1].ClauseLine?;
    assert lines[..0] == [];
    AcceptedIsSound(lines);
    var counts := AfterLines(lines).value.counts;
    assert counts[0].neg <= CNT_MAX && counts[0].pos <= CNT_MAX;
    assert Start(counts, 1) == Start(counts, 0) + counts[0].neg + counts[0].pos;
  }

  /** With the seed 2 the first random bit is 1. */
  lemma {:induction false} SolvedAtOnce()
    ensures ResultOf(UnitFile(), NO_FLIPS)
  {
    UnitFileLoads();
    var running := (k: nat) => true;
    var walk := [[true]];
    assert Nth(Seeded(2), 1) == Next(Nth(Seeded(2), 0)) == 96542;
    assert InitialBits([true], Seeded(2), 1);
    assert 1 in [1] && Holds(1, [true]);
    assert Satisfied([1], [true]);
    assert IsResult(UnitFile(), 2, 1, running, NO_FLIPS, walk);
    ExecutionIsResult(UnitFile(), 2, 1, running, NO_FLIPS, walk);
  }

  /** The worker after it has returned the result. */
  lemma {:induction false} ReturnedReachable()
    ensures Reachable(AfterHandOut(UnitFile(), ONE_OUT,
      Link(OneThread(Looping, true, 1, [], Idle), [FoundSolutionMsg, DoneProcessingMsg(NO_FLIPS)], [], true)))
  {
    var file := UnitFile();
    QueuedReachable(file);
    var l0 := Link(OneThread(Looping, true, 0, [0], Idle), [], [], true);
    var l1 := l0.(worker := OneThread(Looping, true, 0, [], Popped(0)));
    WorkerReaches(AfterHandOut(file, ONE_OUT, l0), ThreadStep(0, Pop), l1);
    var l2 := l0.(worker := OneThread(Looping, true, 0, [], Executing(0)));
    WorkerReaches(AfterHandOut(file, ONE_OUT, l1), ThreadStep(0, CheckRunning), l2);
    var l3 := l0.(worker := WorkerState(Looping, true, 1, [], [Idle], [NO_FLIPS], [], false));
    SolvedAtOnce();
    assert [] + [NO_FLIPS] == [NO_FLIPS];
    WorkerReaches(AfterHandOut(file, ONE_OUT, l2), ThreadStep(0, Finish(NO_FLIPS)), l3);
    var sent := [FoundSolutionMsg, DoneProcessingMsg(NO_FLIPS)];
    assert [] + MessagesFor(NO_FLIPS) + Closing(NO_FLIPS, Aborted) == sent;
    assert [NO_FLIPS][1..] == [];
    var l4 := Link(OneThread(Looping, true, 1, [], Idle), sent, [], true);
    WorkerReaches(AfterHandOut(file, ONE_OUT, l3), ReturnOne, l4);
  }

  lemma {:induction false} SolvedReachable()
    ensures Reachable(AfterHandOut(UnitFile(), FoundSolution(ONE_OUT),
      Link(OneThread(Looping, true, 1, [], Idle), [DoneProcessingMsg(NO_FLIPS)], [TerminateMsg], true)))
  {
    ReturnedReachable();
    var w := OneThread(Looping, true, 1, [], Idle);
    var l := Link(w, [FoundSolutionMsg, DoneProcessingMsg(NO_FLIPS)], [], true);
    var taken := Link(w, [DoneProcessingMsg(NO_FLIPS)], [], true);
    var s := AfterHandOut(UnitFile(), ONE_OUT, l);
    assert l.toServer[1..] == taken.toServer;
    assert Taken([l], 0) == [taken];
    SentToOne(taken, TerminateMsg);
    assert [] + [TerminateMsg] == [TerminateMsg];
    var terminated := Link(w, [DoneProcessingMsg(NO_FLIPS)], [TerminateMsg], true);
    var after := AfterHandOut(UnitFile(), FoundSolution(ONE_OUT), terminated);
    assert AfterProcess(s, 0, ONE_OUT, []) == after;
    StepReachable(s, Process(0, ONE_OUT, []), after);
  }

  /** A run that is solved by its initial assignment: the manager divides 0 by 0. */
  lemma {:induction false} ReportWithoutAverages() returns (s: System)
    ensures Reachable(s) && |s.reports| == 1 && s.reports[0].received == [NO_FLIPS]
    ensures var total := Reported(StatisticsToSend(s.reports[0].server.tasks));
      total.numInstancesSolved == 1 && total.avgFlipsPerVar.None? && total.avgFlipsPerClause.None?
  {
    SolvedReachable();
    var l := Link(OneThread(Looping, true, 1, [], Idle), [DoneProcessingMsg(NO_FLIPS)], [TerminateMsg], true);
    var before := AfterHandOut(UnitFile(), FoundSolution(ONE_OUT), l);
    var a := Process(0, ONE_OUT, []);
    s := AfterStep(before, a);
    StepReachable(before, a, s);
    assert [] + [NO_FLIPS] == [NO_FLIPS];
    var sn := s.reports[0];
    assert sn.received == [NO_FLIPS] && |sn.server.tasks| == 1;
    assert OnlyZeroFlips(sn.received, 0) by { assert sn.received[0].taskId == 0; }
    var run, steps :| IsRun(run, steps) && run[|run| - 1] == s;
    ReportUndefinedIff(run, steps, |run| - 1);
    ReportedIsFlat(run, steps, |run| - 1);
    assert Sum([NO_FLIPS], Solved) == Sum([], Solved) + 1.0;
  }
}
