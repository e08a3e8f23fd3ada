/** The work distribution of the server: the task queue, the counters, and the hand-out. */
module Scheduler {
  import opened Basics
  import opened Sums
  import opened Statistics

  const UINT32_MAX: nat := 0xffff_ffff

  /** task_info; `required` is anzahl_startbelegungen, 0 stands for any number of instances. */
  datatype TaskInfo = TaskInfo(required: nat, statistics: TaskStatistics, processing: nat, isScheduled: bool)

  datatype Job = Job(taskId: nat, num: nat)

  /** The global variables of the server. */
  datatype ServerState = ServerState(
    tasks: seq<TaskInfo>, order: seq<nat>, inProcessing: nat,
    solutionFound: bool, terminatedWorkers: bool, statisticSend: bool, running: bool)

  const START: ServerState := ServerState([], [], 0, false, false, false, true)

  function Processing(): TaskInfo -> nat {
    (info: TaskInfo) => info.processing
  }

  function Used(info: TaskInfo): nat {
    info.statistics.numInstancesStarted + info.processing
  }

  /** What holds of a task between two messages: no more instances are used than required, and
      the task is in the queue exactly as long as some are missing. */
  predicate TaskOk(info: TaskInfo) {
    && info.required <= UINT32_MAX && Used(info) <= UINT32_MAX
    && (info.required > 0 ==> Used(info) <= info.required && (info.isScheduled <==> Used(info) < info.required))
    && (info.required == 0 ==> (info.isScheduled <==> Used(info) == 0))
  }

  predicate Queued(order: seq<nat>, t: nat) {
    t in order
  }

  /** The queue holds exactly the scheduled tasks, the newest first. */
  predicate OrderOk(s: ServerState) {
    && (forall i | 0 <= i < |s.order| :: s.order[i] < |s.tasks|)
    && (forall i, j | 0 <= i < j < |s.order| :: s.order[i] > s.order[j])
    && (forall t: nat {:trigger Queued(s.order, t)} | t < |s.tasks| :: Queued(s.order, t) <==> s.tasks[t].isScheduled)
  }

  /** The scheduler invariant. */
  ghost predicate Valid(s: ServerState) {
    && OrderOk(s)
    && (forall t | 0 <= t < |s.tasks| :: TaskOk(s.tasks[t]))
    && s.inProcessing == Total(s.tasks, Processing())
  }

  // ADD_FILE

  function AddFile(s: ServerState, required: nat): ServerState {
    s.(tasks := s.tasks + [TaskInfo(required, NO_STATISTICS, 0, true)], order := [|s.tasks|] + s.order)
  }

  lemma {:induction false} AddFileKeepsValid(s: ServerState, required: nat)
    requires Valid(s) && required <= UINT32_MAX
    ensures Valid(AddFile(s, required))
  {
    var s' := AddFile(s, required);
    TotalAppend(s.tasks, TaskInfo(required, NO_STATISTICS, 0, true), Processing());
    forall t: nat | t < |s'.tasks|
      ensures Queued(s'.order, t) <==> s'.tasks[t].isScheduled
    {
      assert s'.order[0] == |s.tasks|;
      assert Queued(s'.order, t) <==> t == |s.tasks| || Queued(s.order, t);
    }
  }

  // GET_INSTANCES

  /** The instances that are available for a request of `k` instances. */
  function Available(info: TaskInfo, k: nat): int {
    if info.required == 0 then k
    else info.required - info.processing - info.statistics.numInstancesStarted
  }

  /** The instances that one pass of the hand-out loop starts of a task, and the task after it. */
  function Started(info: TaskInfo, k: nat): int {
    if k < Available(info, k) then k else Available(info, k)
  }

  function TaskAfter(info: TaskInfo, k: nat): TaskInfo
    requires Available(info, k) >= 0
  {
    info.(processing := info.processing + Started(info, k),
          isScheduled := info.isScheduled && Started(info, k) < Available(info, k))
  }

  /** A scheduled task has something to hand out, and stays scheduled as long as it has. */
  lemma TaskAfterIsOk(info: TaskInfo, k: nat)
    requires TaskOk(info) && info.isScheduled && 0 < k <= UINT32_MAX
    ensures 0 < Started(info, k) <= k && Available(info, k) <= UINT32_MAX
    ensures TaskOk(TaskAfter(info, k))
    ensures Started(info, k) < k ==> !TaskAfter(info, k).isScheduled
    ensures info.required == 0 ==> !TaskAfter(info, k).isScheduled
  {
  }

  /** One pass of the hand-out loop. */
  function HandOutOne(s: ServerState, k: nat): (r: (ServerState, Job))
    requires s.order != [] && s.order[0] < |s.tasks|
    requires Available(s.tasks[s.order[0]], k) >= 0
  {
    var id := s.order[0];
    var info := s.tasks[id];
    var num := Started(info, k);
    (s.(tasks := s.tasks[id := TaskAfter(info, k)],
        order := if Available(info, k) <= num then s.order[1..] else s.order,
        inProcessing := s.inProcessing + num),
     Job(id, num))
  }

  lemma {:induction false} OrderAfterHandOut(s: ServerState, s': ServerState)
    requires OrderOk(s) && s.order != [] && |s'.tasks| == |s.tasks|
    requires forall t: nat | t < |s.tasks| && t != s.order[0] :: s'.tasks[t].isScheduled == s.tasks[t].isScheduled
    requires s'.order == if s'.tasks[s.order[0]].isScheduled then s.order else s.order[1..]
    ensures OrderOk(s')
  {
    var id := s.order[0];
    assert s.order == [id] + s.order[1..];
    assert Queued(s.order, id) && id !in s.order[1..];
    forall t: nat | t < |s'.tasks|
      ensures Queued(s'.order, t) <==> s'.tasks[t].isScheduled
    {
      assert Queued(s.order, t) <==> t == id || t in s.order[1..];
    }
  }

  /** Every hand-out is positive and stays within the request; the loop invariant is kept. */
  lemma {:induction false} HandOutOneKeepsValid(s: ServerState, k: nat)
    requires Valid(s) && 0 < k <= UINT32_MAX && s.order != []
    ensures 0 < Started(s.tasks[s.order[0]], k) <= k && 0 < Available(s.tasks[s.order[0]], k) <= UINT32_MAX
    ensures Valid(HandOutOne(s, k).0)
    ensures Started(s.tasks[s.order[0]], k) < k ==> HandOutOne(s, k).0.order == s.order[1..]
  {
    var id := s.order[0];
    assert Queued(s.order, id);
    TaskAfterIsOk(s.tasks[id], k);
    var s' := HandOutOne(s, k).0;
    OrderAfterHandOut(s, s');
    TotalUpdate(s.tasks, id, s'.tasks[id], Processing());
  }

  /** The instances that a job hands out for task `t`. */
  function JobsFor(t: nat): Job -> nat {
    (j: Job) => if j.taskId == t then j.num else 0
  }

  function JobSize(): Job -> nat {
    (j: Job) => j.num
  }

  /** How many jobs there are for task `t`. */
  function JobCount(t: nat): Job -> nat {
    (j: Job) => if j.taskId == t then 1 else 0
  }

  /** What a reply means for every task: its processing counter grows by exactly the instances of
      the reply, nothing else about it changes but its place in the queue. */
  ghost predicate HandedOut(s: ServerState, s': ServerState, jobs: seq<Job>) {
    && |s'.tasks| == |s.tasks|
    && (forall t: nat | t < |s.tasks| ::
          && s'.tasks[t].processing == s.tasks[t].processing + Total(jobs, JobsFor(t))
          && s'.tasks[t].required == s.tasks[t].required
          && s'.tasks[t].statistics == s.tasks[t].statistics)
    && (forall i | 0 <= i < |jobs| :: jobs[i].taskId < |s.tasks| && jobs[i].num > 0)
    && s'.solutionFound == s.solutionFound && s'.terminatedWorkers == s.terminatedWorkers
    && s'.statisticSend == s.statisticSend && s'.running == s.running
  }

  /** The jobs follow the queue; a task of which any number of instances may run takes all that
      is left of the request. */
  ghost predicate InQueueOrder(s: ServerState, s': ServerState, jobs: seq<Job>, remaining: nat) {
    && |jobs| <= |s.order|
    && (forall i | 0 <= i < |jobs| :: jobs[i].taskId == s.order[i] < |s.tasks|)
    && (s'.order == s.order[|jobs|..]
        || (jobs != [] && remaining == 0 && s'.order == s.order[|jobs| - 1..]))
    && (forall i | 0 <= i < |jobs| && s.tasks[jobs[i].taskId].required == 0 :: i == |jobs| - 1 && remaining == 0)
  }

  /** The hand-out loop after the jobs `jobs`, with `remaining` instances of the request left. */
  ghost predicate Handing(s: ServerState, s': ServerState, jobs: seq<Job>, remaining: nat) {
    Valid(s') && HandedOut(s, s', jobs) && InQueueOrder(s, s', jobs, remaining)
  }

  lemma {:induction false} HandingStarts(s: ServerState, k: nat)
    requires Valid(s)
    ensures Handing(s, s, [], k)
  {
    assert s.order[0..] == s.order;
  }

  lemma {:induction false} HandedOutNext(s: ServerState, s1: ServerState, jobs: seq<Job>, k: nat)
    requires HandedOut(s, s1, jobs) && s1.order != [] && s1.order[0] < |s1.tasks|
    requires 0 < Started(s1.tasks[s1.order[0]], k)
    ensures HandedOut(s, HandOutOne(s1, k).0, jobs + [HandOutOne(s1, k).1])
  {
    var s2, job := HandOutOne(s1, k).0, HandOutOne(s1, k).1;
    forall t: nat | t < |s.tasks|
      ensures s2.tasks[t].processing == s.tasks[t].processing + Total(jobs + [job], JobsFor(t))
    {
      TotalAppend(jobs, job, JobsFor(t));
      assert s2.tasks[t].processing == s1.tasks[t].processing + JobsFor(t)(job);
    }
    forall i | 0 <= i < |jobs + [job]|
      ensures (jobs + [job])[i].taskId < |s.tasks| && (jobs + [job])[i].num > 0
    {
      if i < |jobs| { assert (jobs + [job])[i] == jobs[i]; }
    }
  }

  lemma {:induction false} QueueOrderNext(s: ServerState, s1: ServerState, jobs: seq<Job>, k: nat)
    requires InQueueOrder(s, s1, jobs, k) && 0 < k && s1.order != [] && HandedOut(s, s1, jobs)
    requires s1.order[0] < |s1.tasks| && TaskOk(s1.tasks[s1.order[0]]) && s1.tasks[s1.order[0]].isScheduled
    requires k <= UINT32_MAX
    ensures InQueueOrder(s, HandOutOne(s1, k).0, jobs + [HandOutOne(s1, k).1], k - Started(s1.tasks[s1.order[0]], k))
  {
    TaskAfterIsOk(s1.tasks[s1.order[0]], k);
    assert s1.order == s.order[|jobs|..];
    assert s1.order[1..] == s.order[|jobs| + 1..];
  }

  /** One pass of the hand-out loop. */
  lemma {:induction false} HandingContinues(s: ServerState, s1: ServerState, jobs: seq<Job>, k: nat)
    requires Handing(s, s1, jobs, k) && 0 < k <= UINT32_MAX && s1.order != []
    ensures var num := Started(s1.tasks[s1.order[0]], k);
      && 0 < num <= k
      && Handing(s, HandOutOne(s1, k).0, jobs + [HandOutOne(s1, k).1], k - num)
  {
    HandOutOneKeepsValid(s1, k);
    assert Queued(s1.order, s1.order[0]);
    HandedOutNext(s, s1, jobs, k);
    QueueOrderNext(s, s1, jobs, k);
  }

  /** The reply to a request of `k` instances: it never exceeds the request, and it falls short of
      it only if no task is left. */
  ghost predicate Replied(s: ServerState, s': ServerState, jobs: seq<Job>, k: nat) {
    && Total(jobs, JobSize()) <= k
    && Handing(s, s', jobs, k - Total(jobs, JobSize()))
    && (Total(jobs, JobSize()) < k ==> s'.order == [])
  }

  /** What a reply holds for one task: nothing if it has left the queue; and a task of which any
      number of instances may run gets one job and leaves the queue with it. */
  ghost predicate OneJob(info: TaskInfo, info': TaskInfo, n: nat) {
    && (!info.isScheduled ==> n == 0 && !info'.isScheduled)
    && (info.isScheduled && info.required == 0 ==> n == if info'.isScheduled then 0 else 1)
  }

  lemma {:induction false} JobsOfReply(s: ServerState, s': ServerState, jobs: seq<Job>, k: nat, t: nat)
    requires Valid(s) && Replied(s, s', jobs, k) && t < |s.tasks|
    ensures OneJob(s.tasks[t], s'.tasks[t], Total(jobs, JobCount(t)))
  {
    assert TaskOk(s.tasks[t]) && TaskOk(s'.tasks[t]);
    CountJobs(s.order, jobs, t);
    if !s.tasks[t].isScheduled {
      assert !Queued(s.order, t);
    }
  }

  /** Jobs that follow a duplicate-free queue: at most one for every task. */
  lemma {:induction false} CountJobs(order: seq<nat>, jobs: seq<Job>, t: nat)
    requires |jobs| <= |order| && forall i | 0 <= i < |jobs| :: jobs[i].taskId == order[i] && jobs[i].num > 0
    requires forall i, j | 0 <= i < j < |order| :: order[i] > order[j]
    ensures Total(jobs, JobCount(t)) <= 1
    ensures Total(jobs, JobCount(t)) == 1 <==> Total(jobs, JobsFor(t)) > 0
    ensures Total(jobs, JobCount(t)) == 1 ==> t in order[..|jobs|]
    decreases |jobs|
  {
    if jobs != [] {
      var front, last := jobs[..|jobs| - 1], jobs[|jobs| - 1];
      CountJobs(order, front, t);
      assert order[..|jobs|] == order[..|front|] + [order[|front|]];
      if last.taskId == t {
        assert t !in order[..|front|];
      }
    }
  }

  /** process_w2s_GET_INSTANCES: after a solution was found every reply is empty. */
  ghost predicate GetInstances(s: ServerState, s': ServerState, jobs: seq<Job>, k: nat) {
    if s.solutionFound then s' == s && jobs == [] else Replied(s, s', jobs, k)
  }

  // DONE_PROCESSING

  /** The assertions of process_w2s_DONE_PROCESSING about the size of the formula. */
  predicate SizesAgree(server: ServerState, msg: Done) {
    msg.taskId < |server.tasks| && msg.numFlipsDone > 0 && server.tasks[msg.taskId].statistics.totalNumFlips > 0 ==>
      && server.tasks[msg.taskId].statistics.numVars == msg.numVars
      && server.tasks[msg.taskId].statistics.numClauses == msg.numClauses
  }

  /** The counters after a message, before the termination test. */
  function Returned(s: ServerState, msg: Done): ServerState
    requires msg.taskId < |s.tasks| && 0 < msg.instancesProcessed
    requires msg.instancesProcessed <= s.tasks[msg.taskId].processing && msg.instancesProcessed <= s.inProcessing
  {
    var info := s.tasks[msg.taskId];
    var info' := info.(statistics := Recorded(info.statistics, msg),
                       processing := info.processing - msg.instancesProcessed);
    var reschedule := !info'.isScheduled && info'.required > info'.statistics.numInstancesStarted + info'.processing;
    s.(tasks := s.tasks[msg.taskId := if reschedule then info'.(isScheduled := true) else info'],
       order := if reschedule then s.order + [msg.taskId] else s.order,
       inProcessing := s.inProcessing - msg.instancesProcessed)
  }

  /** All requests were returned, and there is nothing left to hand out. */
  predicate AllReturned(s: ServerState) {
    (s.order == [] || s.solutionFound) && s.inProcessing == 0
  }

  function DoneProcessing(s: ServerState, msg: Done): ServerState
    requires msg.taskId < |s.tasks| && 0 < msg.instancesProcessed
    requires msg.instancesProcessed <= s.tasks[msg.taskId].processing && msg.instancesProcessed <= s.inProcessing
  {
    var s' := Returned(s, msg);
    if AllReturned(s') then s'.(statisticSend := true, terminatedWorkers := true) else s'
  }

  /** The instances a task uses do not change when one of them is returned, so the test for
      putting it back into the queue fails. */
  lemma {:induction false} NeverRescheduled(s: ServerState, msg: Done)
    requires Valid(s) && msg.taskId < |s.tasks|
    requires 0 < msg.instancesProcessed <= s.tasks[msg.taskId].processing && msg.instancesProcessed <= s.inProcessing
    ensures var info, s' := s.tasks[msg.taskId], Returned(s, msg);
      && s'.order == s.order
      && s'.tasks == s.tasks[msg.taskId := info.(statistics := Recorded(info.statistics, msg),
                                                 processing := info.processing - msg.instancesProcessed)]
      && TaskOk(s'.tasks[msg.taskId])
  {
    assert TaskOk(s.tasks[msg.taskId]);
  }

  lemma {:induction false} DoneKeepsValid(s: ServerState, msg: Done)
    requires Valid(s) && msg.taskId < |s.tasks|
    requires 0 < msg.instancesProcessed <= s.tasks[msg.taskId].processing
    ensures msg.instancesProcessed <= s.inProcessing
    ensures Valid(DoneProcessing(s, msg))
  {
    var t := msg.taskId;
    TotalCovers(s.tasks, t, Processing());
    NeverRescheduled(s, msg);
    var s' := Returned(s, msg);
    TotalUpdate(s.tasks, t, s'.tasks[t], Processing());
    SameQueue(s, s');
  }

  lemma SameQueue(s: ServerState, s': ServerState)
    requires OrderOk(s) && |s'.tasks| == |s.tasks| && s'.order == s.order
    requires forall t: nat | t < |s.tasks| :: s'.tasks[t].isScheduled == s.tasks[t].isScheduled
    ensures OrderOk(s')
  {
  }

  /** The counters of an unsolved run are complete when the statistics are sent: every task has
      left the queue, and no instance is missing. */
  lemma {:induction false} AllReturnedIsComplete(s: ServerState, t: nat)
    requires Valid(s) && AllReturned(s) && !s.solutionFound && t < |s.tasks|
    ensures var info := s.tasks[t];
      && !info.isScheduled && info.processing == 0
      && (info.required > 0 ==> info.statistics.numInstancesStarted == info.required)
      && (info.required == 0 ==> info.statistics.numInstancesStarted > 0)
  {
    assert TaskOk(s.tasks[t]);
    assert !Queued(s.order, t);
    ZeroTotal(s.tasks, Processing(), t);
  }

  // FOUND_SOLUTION, TERMINATE and DISCONNECT

  function FoundSolution(s: ServerState): ServerState {
    s.(solutionFound := true, terminatedWorkers := true)
  }

  function Terminated(s: ServerState): ServerState {
    s.(terminatedWorkers := true)
  }

  function Disconnected(s: ServerState, noneLeft: bool): ServerState {
    if (s.order == [] || s.solutionFound) && noneLeft && s.statisticSend then s.(running := false) else s
  }

  /** What send_statistic_to_manager sends: the statistics of the tasks with a started instance. */
  ghost function StatisticsToSend(tasks: seq<TaskInfo>): seq<TaskStatistics> {
    Report(StatisticsList(tasks))
  }

  ghost function StatisticsList(tasks: seq<TaskInfo>): (stats: seq<TaskStatistics>)
    ensures |stats| == |tasks| && forall t | 0 <= t < |tasks| :: stats[t] == tasks[t].statistics
  {
    seq(|tasks|, t requires 0 <= t < |tasks| => tasks[t].statistics)
  }

  // The handlers

  class JobServer {
    var availableTasks: seq<TaskInfo>
    var taskOrder: seq<nat>
    var numInstancesInProcessing: nat
    var solutionFound: bool
    var terminatedWorkers: bool
    var statisticSend: bool
    var running: bool

    ghost function State(): ServerState
      reads this
    {
      ServerState(availableTasks, taskOrder, numInstancesInProcessing,
                  solutionFound, terminatedWorkers, statisticSend, running)
    }

    constructor ()
      ensures State() == START && Valid(State())
    {
      availableTasks, taskOrder, numInstancesInProcessing := [], [], 0;
      solutionFound, terminatedWorkers, statisticSend, running := false, false, false, true;
    }

    /** Returns whether the workers have to be activated. */
    method ProcessAddFile(required: nat) returns (isFirstFile: bool)
      requires Valid(State()) && required <= UINT32_MAX
      modifies this
      ensures State() == AddFile(old(State()), required) && Valid(State())
      ensures isFirstFile <==> old(availableTasks) == []
    {
      AddFileKeepsValid(State(), required);
      isFirstFile := |availableTasks| == 0;
      availableTasks := availableTasks + [TaskInfo(required, NO_STATISTICS, 0, true)];
      taskOrder := [|availableTasks| - 1] + taskOrder;
    }

    method ProcessGetInstances(requested: nat) returns (reply: seq<Job>)
      requires Valid(State()) && requested <= UINT32_MAX
      modifies this
      ensures GetInstances(old(State()), State(), reply, requested) && Valid(State())
    {
      reply := [];
      if !solutionFound {
        ghost var s0 := State();
        HandingStarts(s0, requested);
        var remaining: nat := requested;
        while 0 < remaining
          invariant Handing(s0, State(), reply, remaining)
          invariant Total(reply, JobSize()) + remaining == requested
        {
          if |taskOrder| == 0 { break; }
          var job := NextJob(remaining, s0, reply);
          TotalAppend(reply, job, JobSize());
          reply := reply + [job];
          remaining := remaining - job.num;
        }
        assert Replied(s0, State(), reply, requested);
      }
    }

    /** One pass of the hand-out loop, seen from its start `s0`. */
    method NextJob(remaining: nat, ghost s0: ServerState, ghost jobs: seq<Job>) returns (job: Job)
      requires Handing(s0, State(), jobs, remaining) && 0 < remaining <= UINT32_MAX && taskOrder != []
      modifies this
      ensures 0 < job.num <= remaining && Handing(s0, State(), jobs + [job], remaining - job.num)
    {
      HandingContinues(s0, State(), jobs, remaining);
      job := StartInstances(remaining);
    }

    /** The body of the hand-out loop. */
    method StartInstances(remaining: nat) returns (job: Job)
      requires |taskOrder| > 0 && taskOrder[0] < |availableTasks|
      requires 0 < Started(availableTasks[taskOrder[0]], remaining)
      modifies this
      ensures State() == HandOutOne(old(State()), remaining).0
      ensures job == HandOutOne(old(State()), remaining).1
    {
      var taskId := taskOrder[0];
      var info := availableTasks[taskId];
      var instancesAvailable: nat :=
        if 0 == info.required then remaining
        else info.required - info.processing - info.statistics.numInstancesStarted;
      var instancesToStart := Min(remaining, instancesAvailable);
      job := Job(taskId, instancesToStart);
      info := info.(processing := info.processing + instancesToStart);
      if instancesAvailable <= instancesToStart {
        taskOrder := taskOrder[1..];
        info := info.(isScheduled := false);
      }
      availableTasks := availableTasks[taskId := info];
      numInstancesInProcessing := numInstancesInProcessing + instancesToStart;
    }

    /** Returns the report, if the statistics are sent now, and whether TERMINATE is sent now. */
    method ProcessDoneProcessing(msg: Done) returns (report: seq<TaskStatistics>, terminate: bool)
      requires Valid(State()) && msg.taskId < |availableTasks| && SizesAgree(State(), msg)
      requires 0 < msg.instancesProcessed <= availableTasks[msg.taskId].processing
      modifies this
      ensures msg.instancesProcessed <= old(numInstancesInProcessing)
      ensures State() == DoneProcessing(old(State()), msg) && Valid(State())
      ensures report == if statisticSend && !old(statisticSend) then StatisticsToSend(availableTasks) else []
      ensures terminate <==> terminatedWorkers && !old(terminatedWorkers)
    {
      report, terminate := [], false;
      DoneKeepsValid(State(), msg);
      RecordReturned(msg);
      if (taskOrder == [] || solutionFound) && 0 == numInstancesInProcessing {
        report := SendStatisticToManager();
        terminate := SendTerminationToWorkers();
      }
    }

    /** The counters of a returned task, with the test for putting it back into the queue. */
    method RecordReturned(msg: Done)
      requires msg.taskId < |availableTasks| && SizesAgree(State(), msg)
      requires 0 < msg.instancesProcessed <= availableTasks[msg.taskId].processing
      requires msg.instancesProcessed <= numInstancesInProcessing
      modifies this
      ensures State() == Returned(old(State()), msg)
    {
      var t := msg.taskId;
      var info := availableTasks[t];
      if 0 < msg.numFlipsDone && 0 < info.statistics.totalNumFlips {
        assert info.statistics.numVars == msg.numVars && info.statistics.numClauses == msg.numClauses;
      }
      info := info.(statistics := Recorded(info.statistics, msg));
      numInstancesInProcessing := numInstancesInProcessing - msg.instancesProcessed;
      info := info.(processing := info.processing - msg.instancesProcessed);
      if !info.isScheduled {
        if info.required > info.statistics.numInstancesStarted + info.processing {
          taskOrder := taskOrder + [t];
          info := info.(isScheduled := true);
        }
      }
      availableTasks := availableTasks[t := info];
    }

    method SendStatisticToManager() returns (report: seq<TaskStatistics>)
      modifies this`statisticSend
      ensures statisticSend
      ensures report == if old(statisticSend) then [] else StatisticsToSend(availableTasks)
    {
      report := [];
      if statisticSend { return; }
      statisticSend := true;
      ghost var all := StatisticsList(availableTasks);
      for t := 0 to |availableTasks|
        invariant statisticSend && report == Report(all[..t])
      {
        assert all[..t + 1][..t] == all[..t];
        if 0 < availableTasks[t].statistics.numInstancesStarted {
          report := report + [availableTasks[t].statistics];
        }
      }
      assert all[..|availableTasks|] == all;
    }

    /** Returns whether TERMINATE is sent now. */
    method SendTerminationToWorkers() returns (terminate: bool)
      modifies this`terminatedWorkers
      ensures terminatedWorkers && (terminate <==> !old(terminatedWorkers))
    {
      terminate := !terminatedWorkers;
      terminatedWorkers := true;
    }

    method ProcessFoundSolution() returns (terminate: bool)
      modifies this
      ensures State() == FoundSolution(old(State())) && (terminate <==> !old(terminatedWorkers))
    {
      solutionFound := true;
      terminate := SendTerminationToWorkers();
    }

    method ProcessDisconnect(noneLeft: bool)
      modifies this
      ensures State() == Disconnected(old(State()), noneLeft)
    {
      if (taskOrder == [] || solutionFound) && noneLeft && statisticSend {
        running := false;
      }
    }
  }
}
