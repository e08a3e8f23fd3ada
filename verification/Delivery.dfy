/** How the results of the threads reach the server. */
module Delivery {
  import opened Basics
  import opened Statistics
  import opened Scheduler
  import opened Workers
  import opened Protocol
  import opened HonestResults
  import opened Termination

  // Results in messages and queues

  /** The results that the messages carry. */
  function InfosOf(ms: seq<UpMessage>): seq<Done> {
    if ms == [] then []
    else
      var last := ms[|ms| - 1];
      InfosOf(ms[..|ms| - 1]) + (if last.DoneProcessingMsg? then [last.info] else [])
  }

  /** The results that report an instance; the others are never sent. */
  function Processed(ds: seq<Done>): seq<Done> {
    if ds == [] then []
    else
      var last := ds[|ds| - 1];
      Processed(ds[..|ds| - 1]) + (if last.instancesProcessed > 0 then [last] else [])
  }

  lemma {:induction false} InfosOfConcat(ms: seq<UpMessage>, more: seq<UpMessage>)
    ensures InfosOf(ms + more) == InfosOf(ms) + InfosOf(more)
    decreases |more|
  {
    if more == [] {
      assert ms + more == ms;
    } else {
      InfosOfConcat(ms, more[..|more| - 1]);
      assert (ms + more)[..|ms + more| - 1] == ms + more[..|more| - 1];
    }
  }

  lemma {:induction false} ProcessedConcat(ds: seq<Done>, more: seq<Done>)
    ensures Processed(ds + more) == Processed(ds) + Processed(more)
    decreases |more|
  {
    if more == [] {
      assert ds + more == ds;
    } else {
      ProcessedConcat(ds, more[..|more| - 1]);
      assert (ds + more)[..|ds + more| - 1] == ds + more[..|more| - 1];
    }
  }

  /** The results that are on their way: in the channel, and done but not returned. */
  function OnTheWay(l: Link): seq<Done> {
    InfosOf(l.toServer) + Processed(l.worker.tasksDone)
  }

  function WayOf(s: System, i: nat): seq<Done> {
    if i < |s.links| then OnTheWay(s.links[i]) else []
  }

  /** The result with which a thread finishes a task in this step. */
  function FinishedIn(a: WorkerAction): seq<Done> {
    if a.ThreadStep? && a.action.Finish? then Processed([a.action.result]) else []
  }

  lemma {:induction false} ProcessedHead(ds: seq<Done>)
    requires ds != []
    ensures Processed(ds) == Processed([ds[0]]) + Processed(ds[1..])
  {
    assert ds == [ds[0]] + ds[1..];
    ProcessedConcat([ds[0]], ds[1..]);
  }

  lemma {:induction false} InfosOfReturn(r: Done, failed: Phase)
    ensures InfosOf(MessagesFor(r)) == Processed([r]) && InfosOf(Closing(r, failed)) == []
  {
    var found := if r.solved then [FoundSolutionMsg] else [];
    assert InfosOf(found) == [];
    InfosOfConcat(found, [DoneProcessingMsg(r)]);
    assert InfosOf([DoneProcessingMsg(r)]) == [r];
  }

  lemma {:induction false} ReturnSends(l: Link, failed: Phase)
    requires l.worker.tasksDone != []
    ensures InfosOf(AfterReturn(l, failed).toServer) == InfosOf(l.toServer) + Processed([l.worker.tasksDone[0]])
    ensures AfterReturn(l, failed).worker.tasksDone == l.worker.tasksDone[1..]
  {
    var r := l.worker.tasksDone[0];
    InfosOfReturn(r, failed);
    InfosOfConcat(l.toServer, MessagesFor(r));
    InfosOfConcat(l.toServer + MessagesFor(r), Closing(r, failed));
  }

  lemma {:induction false} ReturnKeepsWay(l: Link, failed: Phase)
    requires l.worker.tasksDone != []
    ensures OnTheWay(AfterReturn(l, failed)) == OnTheWay(l)
  {
    ProcessedHead(l.worker.tasksDone);
    ReturnSends(l, failed);
  }

  lemma {:induction false} SendKeepsWay(ms: seq<UpMessage>, m: UpMessage)
    requires !m.DoneProcessingMsg?
    ensures InfosOf(ms + [m]) == InfosOf(ms)
  {
    assert (ms + [m])[..|ms|] == ms;
  }

  lemma {:induction false} ThreadAddsResult(l: Link, j: nat, a: ThreadAction)
    requires ThreadEnabled(l.worker, j, a)
    ensures OnTheWay(l.(worker := AfterThread(l.worker, j, a))) == OnTheWay(l) + FinishedIn(ThreadStep(j, a))
  {
    if a.Finish? { ProcessedConcat(l.worker.tasksDone, [a.result]); }
  }

  /** A step of a worker adds the result that a thread finishes, and changes nothing else. */
  lemma {:induction false} StepAddsResult(l: Link, a: WorkerAction)
    requires Enabled(l, a)
    ensures OnTheWay(After(l, a)) == OnTheWay(l) + FinishedIn(a)
  {
    match a
    case Request => SendKeepsWay(l.toServer, GetInstancesMsg(l.worker.instancesToGet));
    case ReturnOne => ReturnKeepsWay(l, Aborted);
    case Drain =>
      if l.worker.tasksDone != [] { ReturnKeepsWay(l, Gone); } else { SendKeepsWay(l.toServer, DisconnectMsg); }
    case ThreadStep(j, action) => ThreadAddsResult(l, j, action);
    case _ =>
  }

  /** The results that the server receives in a step. */
  function ReceivedIn(s: System, s': System): seq<Done> {
    if |s.received| <= |s'.received| then s'.received[|s.received|..] else []
  }

  lemma {:induction false} InfosOfHead(ms: seq<UpMessage>)
    requires ms != []
    ensures InfosOf(ms) == (if ms[0].DoneProcessingMsg? then [ms[0].info] else []) + InfosOf(ms[1..])
  {
    assert ms == [ms[0]] + ms[1..];
    InfosOfConcat([ms[0]], ms[1..]);
  }

  lemma ProcessReceives(s: System, p: nat, after: ServerState, reply: seq<Job>)
    requires CanStep(s, Process(p, after, reply)) && !AfterProcess(s, p, after, reply).assertFailed
    ensures var m, s' := s.links[p].toServer[0], AfterProcess(s, p, after, reply);
      && ReceivedIn(s, s') == (if m.DoneProcessingMsg? then [m.info] else [])
      && |s'.links| == |s.links|
      && forall i | 0 <= i < |s.links| ::
           && s'.links[i].worker == s.links[i].worker
           && s'.links[i].toServer == if i == p then s.links[i].toServer[1..] else s.links[i].toServer
  {
  }

  lemma {:induction false} OthersKeepWay(s: System, a: Action, i: nat)
    requires CanStep(s, a) && !(a.WorkerStep? && a.link == i) && !a.Process?
    ensures WayOf(AfterStep(s, a), i) == WayOf(s, i) && AfterStep(s, a).received == s.received
  {
    if !a.AcceptWorker? { LinksStayUnlessAccepted(s, a); }
  }

  // The way of the results

  /** The results that a thread of worker `i` finishes in a step, and those that the server receives when it
      takes a message of that worker. */
  function FinishedNow(a: Action, i: nat): seq<Done> {
    if a.WorkerStep? && a.link == i then FinishedIn(a.action) else []
  }

  function ReceivedNow(s: System, s': System, a: Action, i: nat): seq<Done> {
    if a.Process? && a.link == i then ReceivedIn(s, s') else []
  }

  /** The same over the first `k` steps. */
  ghost function FinishedBy(run: seq<System>, steps: seq<Action>, i: nat, k: nat): seq<Done>
    requires IsRun(run, steps) && k < |run|
  {
    if k == 0 then [] else FinishedBy(run, steps, i, k - 1) + FinishedNow(steps[k - 1], i)
  }

  ghost function ReceivedFrom(run: seq<System>, steps: seq<Action>, i: nat, k: nat): seq<Done>
    requires IsRun(run, steps) && k < |run|
  {
    if k == 0 then []
    else ReceivedFrom(run, steps, i, k - 1) + ReceivedNow(run[k - 1], run[k], steps[k - 1], i)
  }

  lemma {:induction false} ProcessTakesResult(s: System, p: nat, after: ServerState, reply: seq<Job>, i: nat)
    requires CanStep(s, Process(p, after, reply)) && !AfterProcess(s, p, after, reply).assertFailed
    ensures var s' := AfterProcess(s, p, after, reply);
      WayOf(s, i) == (if p == i then ReceivedIn(s, s') else []) + WayOf(s', i)
  {
    ProcessReceives(s, p, after, reply);
    if p == i { InfosOfHead(s.links[p].toServer); }
  }

  /** Some result got lost, was made up, changed, or overtook another. */
  ghost predicate GoesAstray(run: seq<System>, steps: seq<Action>, i: nat, k: nat)
    requires IsRun(run, steps) && k < |run|
  {
    FinishedBy(run, steps, i, k) != ReceivedFrom(run, steps, i, k) + WayOf(run[k], i)
  }

  lemma {:induction false} StepMovesResults(s: System, a: Action, i: nat)
    requires CanStep(s, a) && !AfterStep(s, a).assertFailed
    ensures WayOf(s, i) + FinishedNow(a, i) == ReceivedNow(s, AfterStep(s, a), a, i) + WayOf(AfterStep(s, a), i)
  {
    if a.WorkerStep? && a.link == i {
      StepAddsResult(s.links[i], a.action);
    } else if a.Process? {
      ProcessTakesResult(s, a.link, a.after, a.reply, i);
    } else {
      OthersKeepWay(s, a, i);
    }
  }

  lemma {:induction false} StepOfMovesResults(run: seq<System>, steps: seq<Action>, i: nat, k: nat)
    requires IsRun(run, steps) && k < |steps|
    ensures WayOf(run[k], i) + FinishedNow(steps[k], i)
         == ReceivedNow(run[k], run[k + 1], steps[k], i) + WayOf(run[k + 1], i)
  {
    StepOf(run, steps, k);
    RunKeepsInv(run, steps, k + 1);
    StepMovesResults(run[k], steps[k], i);
  }

  lemma HistoryNext(run: seq<System>, steps: seq<Action>, i: nat, k: nat)
    requires IsRun(run, steps) && k < |steps|
    ensures FinishedBy(run, steps, i, k + 1) == FinishedBy(run, steps, i, k) + FinishedNow(steps[k], i)
    ensures ReceivedFrom(run, steps, i, k + 1)
         == ReceivedFrom(run, steps, i, k) + ReceivedNow(run[k], run[k + 1], steps[k], i)
  {
  }

  lemma {:induction false} ArrivesAfterStep(run: seq<System>, steps: seq<Action>, i: nat, k: nat, k': nat)
    requires IsRun(run, steps) && k < k' == k + 1 < |run| && !GoesAstray(run, steps, i, k)
    ensures !GoesAstray(run, steps, i, k')
  {
    HistoryNext(run, steps, i, k);
    StepOfMovesResults(run, steps, i, k);
    FifoNext(FinishedBy(run, steps, i, k), ReceivedFrom(run, steps, i, k), WayOf(run[k], i),
             FinishedNow(steps[k], i), ReceivedNow(run[k], run[k + 1], steps[k], i), WayOf(run[k + 1], i));
  }

  lemma NothingAtFirst(run: seq<System>, steps: seq<Action>, i: nat)
    requires IsRun(run, steps)
    ensures !GoesAstray(run, steps, i, 0)
  {
  }

  lemma {:induction false} NothingGoesAstray(run: seq<System>, steps: seq<Action>, i: nat, k: nat)
    requires IsRun(run, steps) && k < |run|
    ensures !GoesAstray(run, steps, i, k)
  {
    if k == 0 {
      NothingAtFirst(run, steps, i);
    } else {
      var j := k - 1;
      NothingGoesAstray(run, steps, i, j);
      ArrivesAfterStep(run, steps, i, j, k);
    }
  }

  /** What the threads of a worker have finished is what the server has received, and then what is on its way:
      every result that reports an instance reaches the server unchanged, once, and in order. */
  lemma {:induction false} ResultsArriveInOrder(run: seq<System>, steps: seq<Action>, i: nat, k: nat)
    requires IsRun(run, steps) && k < |run|
    ensures FinishedBy(run, steps, i, k) == ReceivedFrom(run, steps, i, k) + WayOf(run[k], i)
  {
    NothingGoesAstray(run, steps, i, k);
  }
}
