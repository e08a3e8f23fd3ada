/** The server and its workers as one system of steps and messages, and what holds over all runs. */
module Protocol {
  import opened Sums
  import opened Statistics
  import opened Scheduler
  import opened Workers
  import opened Results
  import opened Input

  /** The server when it sent its statistics, with what it had handed out and received by then. */
  datatype Snapshot = Snapshot(server: ServerState, handedOut: seq<Job>, received: seq<Done>)

  /** `files` are the files that were submitted, in the order of the tasks. `handedOut` and `received`
      collect the jobs and the DONE_PROCESSING messages of the run, `reports` the statistics that were
      sent. `assertFailed` records that an assertion of the server has failed. */
  datatype System = System(
    server: ServerState, files: seq<seq<Line>>, links: seq<Link>, handedOut: seq<Job>, received: seq<Done>,
    reports: seq<Snapshot>, assertFailed: bool)

  /** Process: the server takes the next message of a worker; `reply` and `after` are the reply to a
      request of instances and the server after it. */
  datatype Action =
    | SubmitFile(required: nat, file: seq<Line>)
    | AcceptWorker(numThreads: nat)
    | ManagerTerminate
    | Process(link: nat, after: ServerState, reply: seq<Job>)
    | WorkerStep(link: nat, action: WorkerAction)

  const INITIAL: System := System(START, [], [], [], [], [], false)

  predicate IsNext(s: System, i: nat) {
    s.server.running && i < |s.links| && s.links[i].attached && s.links[i].toServer != []
  }

  /** A thread that finishes a task reports a result of the file of that task. */
  ghost predicate Reports(files: seq<seq<Line>>, a: WorkerAction) {
    a.ThreadStep? && a.action.Finish? && a.action.result.taskId < |files| ==>
      ResultOf(files[a.action.result.taskId], a.action.result)
  }

  ghost predicate HonestStep(s: System, a: Action) {
    a.WorkerStep? ==> Reports(s.files, a.action)
  }

  ghost predicate CanStep(s: System, a: Action) {
    match a
    case SubmitFile(required, _) => s.server.running && required <= UINT32_MAX
    case AcceptWorker(numThreads) => s.server.running && numThreads <= UINT32_MAX
    case ManagerTerminate => s.server.running && (exists i | 0 <= i < |s.links| :: s.links[i].attached)
    case Process(i, after, reply) =>
      IsNext(s, i) && (s.links[i].toServer[0].GetInstancesMsg? ==>
        GetInstances(s.server, after, reply, s.links[i].toServer[0].num))
    case WorkerStep(i, action) => i < |s.links| && Enabled(s.links[i], action)
  }

  // Messages of the server

  function Sent(l: Link, m: DownMessage): Link {
    if l.attached then l.(toWorker := l.toWorker + [m]) else l
  }

  /** The message `m` is sent to every attached worker. */
  function Broadcast(links: seq<Link>, m: DownMessage): (r: seq<Link>)
    ensures |r| == |links| && forall i | 0 <= i < |links| :: r[i] == Sent(links[i], m)
  {
    seq(|links|, i requires 0 <= i < |links| => Sent(links[i], m))
  }

  /** send_termination_to_workers takes place when the flag changes. */
  function WithTermination(before: ServerState, after: ServerState, links: seq<Link>): seq<Link> {
    if after.terminatedWorkers && !before.terminatedWorkers then Broadcast(links, TerminateMsg) else links
  }

  /** The link after its first message was taken. */
  function Taken(links: seq<Link>, i: nat): seq<Link>
    requires i < |links| && links[i].toServer != []
  {
    links[i := links[i].(toServer := links[i].toServer[1..])]
  }

  predicate NoneAttached(links: seq<Link>) {
    forall i | 0 <= i < |links| :: !links[i].attached
  }

  /** The assertion and the preconditions of the subtractions in process_w2s_DONE_PROCESSING. */
  predicate Subtracts(server: ServerState, msg: Done) {
    && msg.taskId < |server.tasks| && 0 < msg.instancesProcessed <= server.tasks[msg.taskId].processing
    && msg.instancesProcessed <= server.inProcessing
  }

  ghost function AfterDone(s: System, i: nat, msg: Done): System
    requires IsNext(s, i)
  {
    if !SizesAgree(s.server, msg) || !Subtracts(s.server, msg) then s.(assertFailed := true)
    else
      var server := DoneProcessing(s.server, msg);
      var received := s.received + [msg];
      s.(server := server, received := received,
         links := WithTermination(s.server, server, Taken(s.links, i)),
         reports := if server.statisticSend && !s.server.statisticSend
                    then s.reports + [Snapshot(server, s.handedOut, received)] else s.reports)
  }

  ghost function AfterProcess(s: System, i: nat, after: ServerState, reply: seq<Job>): System
    requires IsNext(s, i)
  {
    var links := Taken(s.links, i);
    match s.links[i].toServer[0]
    case FoundSolutionMsg =>
      var server := FoundSolution(s.server);
      s.(server := server, links := WithTermination(s.server, server, links))
    case DoneProcessingMsg(msg) => AfterDone(s, i, msg)
    case GetInstancesMsg(_) =>
      s.(server := after, handedOut := s.handedOut + reply,
         links := links[i := links[i].(toWorker := links[i].toWorker + [SendInstancesMsg(reply)])])
    case DisconnectMsg =>
      var links' := links[i := links[i].(attached := false)];
      s.(server := Disconnected(s.server, NoneAttached(links')), links := links')
  }

  ghost function AfterStep(s: System, a: Action): System
    requires CanStep(s, a)
  {
    match a
    case SubmitFile(required, file) =>
      s.(server := AddFile(s.server, required), files := s.files + [file],
         links := if s.server.tasks == [] then Broadcast(s.links, ActivateMsg) else s.links)
    case AcceptWorker(numThreads) =>
      s.(links := s.links + [Link(NewWorker(numThreads), [], if s.server.tasks == [] then [] else [ActivateMsg], true)])
    case ManagerTerminate =>
      var server := Terminated(s.server);
      s.(server := server, links := WithTermination(s.server, server, s.links))
    case Process(i, after, reply) => AfterProcess(s, i, after, reply)
    case WorkerStep(i, action) =>
      s.(links := s.links[i := After(s.links[i], action)])
  }

  /** Step `k` is possible, reports no result but one of the file, and leads to the next state. */
  ghost predicate StepAt(run: seq<System>, steps: seq<Action>, k: nat)
    requires |run| == |steps| + 1 && k < |steps|
  {
    CanStep(run[k], steps[k]) && HonestStep(run[k], steps[k]) && run[k + 1] == AfterStep(run[k], steps[k])
  }

  ghost predicate Breaks(run: seq<System>, steps: seq<Action>)
    requires |run| == |steps| + 1
  {
    exists k: nat {:trigger StepAt(run, steps, k)} :: k < |steps| && !StepAt(run, steps, k)
  }

  /** A run of the system from its start, in which every step is possible. */
  ghost predicate IsRun(run: seq<System>, steps: seq<Action>) {
    |run| == |steps| + 1 && run[0] == INITIAL && !Breaks(run, steps)
  }

  lemma {:induction false} StepOf(run: seq<System>, steps: seq<Action>, k: nat)
    requires IsRun(run, steps) && k < |steps|
    ensures CanStep(run[k], steps[k]) && HonestStep(run[k], steps[k]) && run[k + 1] == AfterStep(run[k], steps[k])
  {
    assert StepAt(run, steps, k);
  }

  // The invariant

  ghost function HeldBy(t: nat): Link -> nat {
    (l: Link) => Held(l, t)
  }

  ghost function ProcessingOf(server: ServerState, t: nat): nat {
    if t < |server.tasks| then server.tasks[t].processing else 0
  }

  /** Conservation: an instance that the server counts is in a message, at a worker, or was lost
      there; and nothing else is. */
  ghost predicate Conserved(s: System) {
    forall t: nat {:trigger HeldBy(t)} :: Total(s.links, HeldBy(t)) == ProcessingOf(s.server, t)
  }

  ghost predicate LinksOk(s: System) {
    forall i | 0 <= i < |s.links| :: LinkOk(s.links[i])
  }

  /** Nothing has reached a worker before the first file. */
  ghost predicate WaitsForFile(l: Link) {
    l.worker.phase.Inactive? && Total(l.toWorker, IsActivation()) == 0
  }

  ghost predicate Waiting(s: System) {
    s.server.tasks == [] ==> forall i | 0 <= i < |s.links| :: WaitsForFile(s.links[i])
  }

  /** The counters of a task are those of the jobs handed out and the messages received so far. */
  ghost predicate TaskHistory(info: TaskInfo, t: nat, handedOut: seq<Job>, received: seq<Done>)
    requires EveryMessageCounts(received)
  {
    && info.statistics == StatisticsOf(received, t)
    && Total(handedOut, JobsFor(t)) == Used(info)
    && (info.required == 0 ==> Total(handedOut, JobCount(t)) == if info.isScheduled then 0 else 1)
  }

  ghost predicate History(server: ServerState, handedOut: seq<Job>, received: seq<Done>) {
    && EveryMessageCounts(received)
    && (forall i | 0 <= i < |handedOut| :: handedOut[i].taskId < |server.tasks|)
    && (forall i | 0 <= i < |received| :: received[i].taskId < |server.tasks|)
    && (forall t: nat {:trigger server.tasks[t]} | t < |server.tasks| ::
          TaskHistory(server.tasks[t], t, handedOut, received))
  }

  ghost predicate SnapshotOk(sn: Snapshot) {
    Valid(sn.server) && AllReturned(sn.server) && History(sn.server, sn.handedOut, sn.received)
  }

  /** The statistics were sent, there is nothing to hand out, and no worker is left. */
  predicate Finished(s: System) {
    s.server.statisticSend && (s.server.order == [] || s.server.solutionFound) && NoneAttached(s.links)
  }

  ghost predicate ReportsAreOk(s: System) {
    && |s.reports| == (if s.server.statisticSend then 1 else 0)
    && (forall i | 0 <= i < |s.reports| :: SnapshotOk(s.reports[i]))
    && (!s.server.running ==> Finished(s))
  }

  ghost predicate Inv(s: System) {
    && Valid(s.server) && LinksOk(s) && Conserved(s) && Waiting(s)
    && History(s.server, s.handedOut, s.received) && ReportsAreOk(s) && !s.assertFailed
  }

  // Messages keep the links in order

  lemma {:induction false} SentKeeps(l: Link, m: DownMessage)
    requires LinkOk(l) && !m.SendInstancesMsg? && (m.ActivateMsg? ==> WaitsForFile(l))
    ensures LinkOk(Sent(l, m))
    ensures forall t: nat {:trigger Held(l, t)} {:trigger HeldBy(t)} :: Held(Sent(l, m), t) == Held(l, t)
    ensures !m.ActivateMsg? && WaitsForFile(l) ==> WaitsForFile(Sent(l, m))
  {
    TotalAppend(l.toWorker, m, IsReply());
    TotalAppend(l.toWorker, m, IsActivation());
    forall t: nat
      ensures Held(Sent(l, m), t) == Held(l, t)
    {
      TotalAppend(l.toWorker, m, DownFor(t));
    }
  }

  lemma {:induction false} BroadcastKeeps(links: seq<Link>, m: DownMessage)
    requires forall i | 0 <= i < |links| :: LinkOk(links[i]) && (m.ActivateMsg? ==> WaitsForFile(links[i]))
    requires !m.SendInstancesMsg?
    ensures forall i | 0 <= i < |links| :: LinkOk(Broadcast(links, m)[i])
    ensures forall t: nat {:trigger HeldBy(t)} :: Total(Broadcast(links, m), HeldBy(t)) == Total(links, HeldBy(t))
    ensures !m.ActivateMsg? && (forall i | 0 <= i < |links| :: WaitsForFile(links[i])) ==>
      forall i | 0 <= i < |links| :: WaitsForFile(Broadcast(links, m)[i])
  {
    var links' := Broadcast(links, m);
    forall i | 0 <= i < |links|
      ensures LinkOk(links'[i]) && (forall t: nat {:trigger HeldBy(t)} :: Held(links'[i], t) == Held(links[i], t))
      ensures !m.ActivateMsg? && WaitsForFile(links[i]) ==> WaitsForFile(links'[i])
    {
      SentKeeps(links[i], m);
    }
    forall t: nat
      ensures Total(links', HeldBy(t)) == Total(links, HeldBy(t))
    {
      assert forall i | 0 <= i < |links| :: HeldBy(t)(links'[i]) == HeldBy(t)(links[i]);
      TotalSame(links', links, HeldBy(t), HeldBy(t));
    }
  }

  /** A message other than a request is taken: only what it reports leaves the link. */
  lemma {:induction false} TakenKeeps(l: Link)
    requires LinkOk(l) && l.toServer != [] && !l.toServer[0].GetInstancesMsg?
    ensures var l' := l.(toServer := l.toServer[1..]);
      && LinkOk(l') && LinkOk(l'.(attached := false))
      && forall t: nat {:trigger Held(l', t)} {:trigger HeldBy(t)} ::
           Held(l, t) == Held(l', t) + UpFor(t)(l.toServer[0])
  {
    TotalHead(l.toServer, IsRequest());
    forall t: nat
      ensures Total(l.toServer, UpFor(t)) == UpFor(t)(l.toServer[0]) + Total(l.toServer[1..], UpFor(t))
    {
      TotalHead(l.toServer, UpFor(t));
    }
  }

  /** The first message of a link is a request: the worker waits for the reply, and the request is
      the one it has made. */
  lemma {:induction false} RequestIsOpen(l: Link)
    requires LinkOk(l) && l.toServer != [] && l.toServer[0].GetInstancesMsg?
    ensures l.worker.phase.Awaiting? && l.toServer[0].num == l.worker.phase.num <= UINT32_MAX
    ensures Total(l.toServer[1..], IsRequest()) == 0 && Total(l.toWorker, IsReply()) == 0
  {
    TotalHead(l.toServer, IsRequest());
  }

  lemma {:induction false} ReplyKeeps(l: Link, jobs: seq<Job>)
    requires LinkOk(l) && l.toServer != [] && l.toServer[0].GetInstancesMsg?
    requires JobsOk(jobs) && Total(jobs, JobSize()) <= l.toServer[0].num
    ensures var l' := Answered(l, jobs);
      && LinkOk(l')
      && forall t: nat {:trigger Held(l', t)} {:trigger HeldBy(t)} ::
           Held(l', t) == Held(l, t) + Total(jobs, JobsFor(t))
  {
    RequestIsOpen(l);
    TotalAppend(l.toWorker, SendInstancesMsg(jobs), IsReply());
    TotalAppend(l.toWorker, SendInstancesMsg(jobs), IsActivation());
    var l' := Answered(l, jobs);
    forall i | 0 <= i < |l.toWorker|
      ensures !l.toWorker[i].SendInstancesMsg?
    {
      ZeroTotal(l.toWorker, IsReply(), i);
    }
    forall t: nat
      ensures Held(l', t) == Held(l, t) + Total(jobs, JobsFor(t))
    {
      TotalHead(l.toServer, UpFor(t));
      TotalAppend(l.toWorker, SendInstancesMsg(jobs), DownFor(t));
    }
  }

  /** The link after a request was answered. */
  function Answered(l: Link, jobs: seq<Job>): Link
    requires l.toServer != []
  {
    l.(toServer := l.toServer[1..], toWorker := l.toWorker + [SendInstancesMsg(jobs)])
  }

  /** Before the first file a worker can do nothing but receive TERMINATE. */
  lemma {:induction false} WaitingStep(l: Link, a: WorkerAction)
    requires LinkOk(l) && WaitsForFile(l) && Enabled(l, a)
    ensures WaitsForFile(After(l, a))
  {
    assert a.ReceiveActivation?;
    TotalHead(l.toWorker, IsActivation());
  }

  lemma {:induction false} TotalReplaced(links: seq<Link>, i: nat, l: Link, t: nat)
    requires i < |links|
    ensures Total(links[i := l], HeldBy(t)) + Held(links[i], t) == Total(links, HeldBy(t)) + Held(l, t)
  {
    TotalUpdate(links, i, l, HeldBy(t));
  }

  // Every step keeps the invariant

  lemma {:induction false} WorkerStepKeepsInv(s: System, i: nat, a: WorkerAction)
    requires Inv(s) && CanStep(s, WorkerStep(i, a))
    ensures Inv(AfterStep(s, WorkerStep(i, a)))
  {
    var l := s.links[i];
    StepKeepsOk(l, a);
    if s.server.tasks == [] { WaitingStep(l, a); }
    forall t: nat
      ensures Total(s.links[i := After(l, a)], HeldBy(t)) == Total(s.links, HeldBy(t))
    {
      StepKeepsHeld(l, a, t);
      TotalReplaced(s.links, i, After(l, a), t);
    }
  }

  lemma {:induction false} AcceptKeepsInv(s: System, numThreads: nat)
    requires Inv(s) && CanStep(s, AcceptWorker(numThreads))
    ensures Inv(AfterStep(s, AcceptWorker(numThreads)))
  {
    var toWorker := if s.server.tasks == [] then [] else [ActivateMsg];
    var l := Link(NewWorker(numThreads), [], toWorker, true);
    NewWorkerOk(numThreads, toWorker);
    forall t: nat
      ensures Total(s.links + [l], HeldBy(t)) == Total(s.links, HeldBy(t))
    {
      TotalAppend(s.links, l, HeldBy(t));
    }
  }

  /** Termination changes no counter. */
  lemma {:induction false} TerminationKeepsInv(s: System, server: ServerState)
    requires Inv(s) && (server == Terminated(s.server) || server == FoundSolution(s.server))
    ensures Inv(s.(server := server, links := WithTermination(s.server, server, s.links)))
  {
    BroadcastKeeps(s.links, TerminateMsg);
  }

  lemma {:induction false} SubmitKeepsHistory(s: System, required: nat)
    requires Inv(s)
    ensures History(AddFile(s.server, required), s.handedOut, s.received)
  {
    var n := |s.server.tasks|;
    TotalZero(s.handedOut, JobsFor(n));
    TotalZero(s.handedOut, JobCount(n));
    NothingReceived(s.received, n);
  }

  lemma {:induction false} NothingReceived(received: seq<Done>, t: nat)
    requires EveryMessageCounts(received) && forall i | 0 <= i < |received| :: received[i].taskId != t
    ensures StatisticsOf(received, t) == NO_STATISTICS
  {
    if received != [] { NothingReceived(received[..|received| - 1], t); }
  }

  lemma {:induction false} SubmitKeepsLinks(s: System, required: nat)
    requires LinksOk(s) && Conserved(s) && Waiting(s)
    ensures var s' := s.(server := AddFile(s.server, required),
                         links := if s.server.tasks == [] then Broadcast(s.links, ActivateMsg) else s.links);
      LinksOk(s') && Conserved(s') && Waiting(s')
  {
    if s.server.tasks == [] { BroadcastKeeps(s.links, ActivateMsg); }
    forall t: nat
      ensures ProcessingOf(AddFile(s.server, required), t) == ProcessingOf(s.server, t)
    {
    }
  }

  lemma {:induction false} SubmitKeepsInv(s: System, required: nat, file: seq<Line>)
    requires Inv(s) && CanStep(s, SubmitFile(required, file))
    ensures Inv(AfterStep(s, SubmitFile(required, file)))
  {
    AddFileKeepsValid(s.server, required);
    SubmitKeepsHistory(s, required);
    SubmitKeepsLinks(s, required);
  }

  lemma {:induction false} TakenKeepsInv(s: System, i: nat)
    requires Inv(s) && IsNext(s, i)
    requires s.links[i].toServer[0].FoundSolutionMsg? || s.links[i].toServer[0].DisconnectMsg?
    ensures Inv(s.(links := Taken(s.links, i)))
  {
    var l := s.links[i];
    TakenKeeps(l);
    var l' := l.(toServer := l.toServer[1..]);
    forall t: nat
      ensures Total(Taken(s.links, i), HeldBy(t)) == Total(s.links, HeldBy(t))
    {
      assert HeldBy(t)(l') == Held(l', t);
      TotalReplaced(s.links, i, l', t);
    }
  }

  lemma {:induction false} DetachKeepsLinks(s: System, i: nat)
    requires LinksOk(s) && Conserved(s) && Waiting(s) && i < |s.links|
    ensures var s' := s.(links := s.links[i := s.links[i].(attached := false)]);
      LinksOk(s') && Conserved(s') && Waiting(s')
  {
    var l := s.links[i].(attached := false);
    forall t: nat
      ensures Total(s.links[i := l], HeldBy(t)) == Total(s.links, HeldBy(t))
    {
      TotalReplaced(s.links, i, l, t);
    }
  }

  lemma {:induction false} DetachKeepsInv(s: System, i: nat)
    requires Inv(s) && i < |s.links|
    ensures var links := s.links[i := s.links[i].(attached := false)];
      Inv(s.(server := Disconnected(s.server, NoneAttached(links)), links := links))
  {
    DetachKeepsLinks(s, i);
  }

  lemma {:induction false} DisconnectKeepsInv(s: System, i: nat, after: ServerState, reply: seq<Job>)
    requires Inv(s) && IsNext(s, i) && s.links[i].toServer[0].DisconnectMsg?
    ensures Inv(AfterProcess(s, i, after, reply))
  {
    TakenKeepsInv(s, i);
    DetachKeepsInv(s.(links := Taken(s.links, i)), i);
  }

  lemma {:induction false} FoundSolutionKeepsInv(s: System, i: nat, after: ServerState, reply: seq<Job>)
    requires Inv(s) && IsNext(s, i) && s.links[i].toServer[0].FoundSolutionMsg?
    ensures Inv(AfterProcess(s, i, after, reply))
  {
    TakenKeepsInv(s, i);
    TerminationKeepsInv(s.(links := Taken(s.links, i)), FoundSolution(s.server));
  }

  // DONE_PROCESSING

  /** The subtractions of process_w2s_DONE_PROCESSING never wrap: the instance that a message
      returns is one that the server counts. */
  lemma {:induction false} DoneIsCounted(s: System, i: nat)
    requires Inv(s) && i < |s.links| && s.links[i].toServer != [] && s.links[i].toServer[0].DoneProcessingMsg?
    ensures Subtracts(s.server, s.links[i].toServer[0].info)
  {
    var l, msg := s.links[i], s.links[i].toServer[0].info;
    var t := msg.taskId;
    assert msg.instancesProcessed == 1;
    TotalCovers(l.toServer, 0, UpFor(t));
    TotalCovers(s.links, i, HeldBy(t));
    DoneKeepsValid(s.server, msg);
  }

  lemma {:induction false} DoneKeepsHistory(server: ServerState, handedOut: seq<Job>, received: seq<Done>, msg: Done)
    requires Valid(server) && History(server, handedOut, received) && Subtracts(server, msg)
    ensures History(DoneProcessing(server, msg), handedOut, received + [msg])
  {
    NeverRescheduled(server, msg);
    var server', received' := DoneProcessing(server, msg), received + [msg];
    assert received'[..|received|] == received;
    forall t: nat | t < |server.tasks|
      ensures TaskHistory(server'.tasks[t], t, handedOut, received')
    {
      assert TaskHistory(server.tasks[t], t, handedOut, received);
    }
  }

  lemma {:induction false} TakenKeepsLinks(s: System, i: nat)
    requires LinksOk(s) && IsNext(s, i) && !s.links[i].toServer[0].GetInstancesMsg?
    ensures LinksOk(s.(links := Taken(s.links, i)))
  {
    TakenKeeps(s.links[i]);
  }

  lemma {:induction false} TakenTotal(links: seq<Link>, i: nat, t: nat)
    requires i < |links| && LinkOk(links[i]) && links[i].toServer != [] && !links[i].toServer[0].GetInstancesMsg?
    ensures Total(Taken(links, i), HeldBy(t)) + UpFor(t)(links[i].toServer[0]) == Total(links, HeldBy(t))
  {
    var l := links[i].(toServer := links[i].toServer[1..]);
    TakenKeeps(links[i]);
    assert HeldBy(t)(l) == Held(l, t);
    TotalReplaced(links, i, l, t);
  }

  lemma {:induction false} DoneKeepsConserved(s: System, i: nat)
    requires LinksOk(s) && Conserved(s) && Valid(s.server) && IsNext(s, i) && s.links[i].toServer[0].DoneProcessingMsg?
    requires Subtracts(s.server, s.links[i].toServer[0].info)
    ensures Conserved(s.(server := DoneProcessing(s.server, s.links[i].toServer[0].info), links := Taken(s.links, i)))
  {
    var msg := s.links[i].toServer[0].info;
    var server := DoneProcessing(s.server, msg);
    NeverRescheduled(s.server, msg);
    forall t: nat
      ensures Total(Taken(s.links, i), HeldBy(t)) == ProcessingOf(server, t)
    {
      TakenTotal(s.links, i, t);
      assert Total(s.links, HeldBy(t)) == ProcessingOf(s.server, t);
    }
  }

  lemma {:induction false} BroadcastKeepsConserved(s: System, server: ServerState)
    requires LinksOk(s) && Conserved(s.(server := server))
    ensures var s' := s.(server := server, links := WithTermination(s.server, server, s.links));
      LinksOk(s') && Conserved(s')
  {
    BroadcastKeeps(s.links, TerminateMsg);
  }

  lemma {:induction false} DoneKeepsReports(s: System, i: nat, msg: Done)
    requires Inv(s) && IsNext(s, i) && Subtracts(s.server, msg) && SizesAgree(s.server, msg)
    ensures ReportsAreOk(AfterDone(s, i, msg))
  {
    DoneKeepsValid(s.server, msg);
    DoneKeepsHistory(s.server, s.handedOut, s.received, msg);
    var server := DoneProcessing(s.server, msg);
    if server.statisticSend && !s.server.statisticSend {
      assert SnapshotOk(Snapshot(server, s.handedOut, s.received + [msg]));
    }
  }

  lemma {:induction false} DoneKeepsInv(s: System, i: nat, after: ServerState, reply: seq<Job>)
    requires Inv(s) && IsNext(s, i) && s.links[i].toServer[0].DoneProcessingMsg?
    requires SizesAgree(s.server, s.links[i].toServer[0].info)
    ensures Inv(AfterProcess(s, i, after, reply))
  {
    var msg := s.links[i].toServer[0].info;
    DoneIsCounted(s, i);
    DoneKeepsValid(s.server, msg);
    DoneKeepsHistory(s.server, s.handedOut, s.received, msg);
    DoneKeepsReports(s, i, msg);
    DoneKeepsConserved(s, i);
    TakenKeepsLinks(s, i);
    BroadcastKeepsConserved(s.(links := Taken(s.links, i)), DoneProcessing(s.server, msg));
  }

  // GET_INSTANCES

  lemma {:induction false} ReplyKeepsHistory(server: ServerState, after: ServerState, handedOut: seq<Job>,
                                             received: seq<Done>, reply: seq<Job>, k: nat)
    requires Valid(server) && History(server, handedOut, received) && Scheduler.Replied(server, after, reply, k)
    ensures History(after, handedOut + reply, received)
  {
    forall t: nat | t < |after.tasks|
      ensures TaskHistory(after.tasks[t], t, handedOut + reply, received)
    {
      assert TaskHistory(server.tasks[t], t, handedOut, received);
      JobsOfReply(server, after, reply, k, t);
      TotalConcat(handedOut, reply, JobsFor(t));
      TotalConcat(handedOut, reply, JobCount(t));
    }
  }

  lemma {:induction false} ReplyKeepsConserved(s: System, i: nat, after: ServerState, reply: seq<Job>)
    requires Inv(s) && IsNext(s, i) && s.links[i].toServer[0].GetInstancesMsg?
    requires Scheduler.Replied(s.server, after, reply, s.links[i].toServer[0].num)
    ensures var s' := s.(server := after, links := s.links[i := Answered(s.links[i], reply)]);
      LinksOk(s') && Conserved(s')
  {
    var l := s.links[i];
    ReplyKeeps(l, reply);
    forall t: nat
      ensures Total(s.links[i := Answered(l, reply)], HeldBy(t)) == ProcessingOf(after, t)
    {
      assert HeldBy(t)(Answered(l, reply)) == Held(Answered(l, reply), t);
      TotalReplaced(s.links, i, Answered(l, reply), t);
      if t >= |after.tasks| { TotalZero(reply, JobsFor(t)); }
    }
  }

  lemma {:induction false} ReplyKeepsInv(s: System, i: nat, after: ServerState, reply: seq<Job>)
    requires Inv(s) && CanStep(s, Process(i, after, reply)) && s.links[i].toServer[0].GetInstancesMsg?
    requires !s.server.solutionFound
    ensures Inv(AfterProcess(s, i, after, reply))
  {
    var num := s.links[i].toServer[0].num;
    ReplyKeepsHistory(s.server, after, s.handedOut, s.received, reply, num);
    ReplyKeepsConserved(s, i, after, reply);
    AnswerKeepsWaiting(s, i, after, reply);
    var s' := AfterProcess(s, i, after, reply);
    assert s'.links == s.links[i := Answered(s.links[i], reply)];
    assert ReportsAreOk(s');
  }

  lemma {:induction false} AnswerKeepsWaiting(s: System, i: nat, after: ServerState, reply: seq<Job>)
    requires Waiting(s) && IsNext(s, i) && |after.tasks| == |s.server.tasks|
    ensures Waiting(s.(server := after, links := s.links[i := Answered(s.links[i], reply)]))
  {
    TotalAppend(s.links[i].toWorker, SendInstancesMsg(reply), IsActivation());
  }

  lemma {:induction false} EmptyReplyKeepsInv(s: System, i: nat)
    requires Inv(s) && IsNext(s, i) && s.links[i].toServer[0].GetInstancesMsg?
    ensures Inv(AfterProcess(s, i, s.server, []))
  {
    var l := s.links[i];
    ReplyKeeps(l, []);
    forall t: nat
      ensures Total(s.links[i := Answered(l, [])], HeldBy(t)) == Total(s.links, HeldBy(t))
    {
      assert HeldBy(t)(Answered(l, [])) == Held(Answered(l, []), t);
      TotalReplaced(s.links, i, Answered(l, []), t);
    }
    TotalAppend(l.toWorker, SendInstancesMsg([]), IsActivation());
    var s' := AfterProcess(s, i, s.server, []);
    assert s'.links == s.links[i := Answered(l, [])];
    assert s'.handedOut == s.handedOut;
  }

  // All steps

  /** The size that the next message of a worker reports is the one the server knows. */
  ghost predicate NextSizesAgree(s: System, i: nat)
    requires IsNext(s, i)
  {
    var m := s.links[i].toServer[0];
    m.DoneProcessingMsg? ==> SizesAgree(s.server, m.info)
  }

  lemma {:induction false} ProcessKeepsInv(s: System, i: nat, after: ServerState, reply: seq<Job>)
    requires Inv(s) && CanStep(s, Process(i, after, reply)) && NextSizesAgree(s, i)
    ensures Inv(AfterProcess(s, i, after, reply))
  {
    match s.links[i].toServer[0]
    case FoundSolutionMsg => FoundSolutionKeepsInv(s, i, after, reply);
    case DoneProcessingMsg(_) => DoneKeepsInv(s, i, after, reply);
    case DisconnectMsg => DisconnectKeepsInv(s, i, after, reply);
    case GetInstancesMsg(_) =>
      if s.server.solutionFound { EmptyReplyKeepsInv(s, i); } else { ReplyKeepsInv(s, i, after, reply); }
  }

  /** Every step of the system keeps the invariant, as long as the sizes that are reported agree. */
  lemma {:induction false} StepKeepsInv(s: System, a: Action)
    requires Inv(s) && CanStep(s, a) && (a.Process? ==> NextSizesAgree(s, a.link))
    ensures Inv(AfterStep(s, a))
  {
    match a
    case SubmitFile(required, file) => SubmitKeepsInv(s, required, file);
    case AcceptWorker(numThreads) => AcceptKeepsInv(s, numThreads);
    case ManagerTerminate => TerminationKeepsInv(s, Terminated(s.server));
    case WorkerStep(i, action) => WorkerStepKeepsInv(s, i, action);
    case Process(i, after, reply) => ProcessKeepsInv(s, i, after, reply);
  }

  lemma {:induction false} InitialInv()
    ensures Inv(INITIAL)
  {
    assert forall t: nat {:trigger HeldBy(t)} :: Total(INITIAL.links, HeldBy(t)) == 0;
  }
}
