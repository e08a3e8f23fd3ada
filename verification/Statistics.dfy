/** The statistics: one record per task at the server, one total at the manager. Doubles are
    modelled as reals; a value that would be 0/0 is None and stays None. */
module Statistics {
  import opened Basics

  /** done_processing_info, without the timing fields and the seed. */
  datatype Done = Done(
    taskId: nat, instancesProcessed: nat, numFlipsDone: nat, flipsPerSecond: real,
    numVars: nat, numClauses: nat, solved: bool)

  const UINT64_MAX: nat := 0xffff_ffff_ffff_ffff

  /** problem_instance_statistics, without the timing fields. */
  datatype TaskStatistics = TaskStatistics(
    numInstancesStarted: nat, totalNumFlips: nat, avgFlipsPerSecond: real,
    numVars: nat, numClauses: nat, timesSolved: nat, minFlipsToSolve: nat)

  const NO_STATISTICS: TaskStatistics := TaskStatistics(0, 0, 0.0, 0, 0, 0, UINT64_MAX)

  /** The update of the statistics by process_w2s_DONE_PROCESSING. */
  function Recorded(s: TaskStatistics, msg: Done): TaskStatistics
    requires s.numInstancesStarted + msg.instancesProcessed > 0
  {
    var first := msg.numFlipsDone > 0 && s.totalNumFlips == 0;
    TaskStatistics(
      s.numInstancesStarted + msg.instancesProcessed,
      s.totalNumFlips + msg.numFlipsDone,
      (s.avgFlipsPerSecond * s.numInstancesStarted as real + msg.flipsPerSecond * msg.instancesProcessed as real)
        / (s.numInstancesStarted + msg.instancesProcessed) as real,
      if first then msg.numVars else s.numVars,
      if first then msg.numClauses else s.numClauses,
      s.timesSolved + (if msg.solved then 1 else 0),
      if msg.solved then Min(s.minFlipsToSolve, msg.numFlipsDone) else s.minFlipsToSolve)
  }

  // The messages of a run

  /** The statistics of task `t` after the messages of `log`. */
  ghost function StatisticsOf(log: seq<Done>, t: nat): (s: TaskStatistics)
    requires EveryMessageCounts(log)
  {
    if log == [] then NO_STATISTICS
    else
      var before := StatisticsOf(log[..|log| - 1], t);
      if log[|log| - 1].taskId == t then Recorded(before, log[|log| - 1]) else before
  }

  /** A worker only returns tasks that it has processed. */
  ghost predicate EveryMessageCounts(log: seq<Done>) {
    forall i | 0 <= i < |log| :: log[i].instancesProcessed > 0
  }

  function Instances(d: Done): real { d.instancesProcessed as real }

  function Flips(d: Done): real { d.numFlipsDone as real }

  function Speed(d: Done): real { d.flipsPerSecond * d.instancesProcessed as real }

  function Solved(d: Done): real { if d.solved then 1.0 else 0.0 }

  /** The sum of `w` over all messages. */
  ghost function Sum(log: seq<Done>, w: Done -> real): real {
    if log == [] then 0.0 else Sum(log[..|log| - 1], w) + w(log[|log| - 1])
  }

  /** The sum of `w` over the messages of task `t`. */
  ghost function SumOf(log: seq<Done>, t: nat, w: Done -> real): real {
    if log == [] then 0.0
    else SumOf(log[..|log| - 1], t, w) + (if log[|log| - 1].taskId == t then w(log[|log| - 1]) else 0.0)
  }

  /** The sum of `w` over the messages of the first `n` tasks, task by task. */
  ghost function SumByTask(log: seq<Done>, n: nat, w: Done -> real): real {
    if n == 0 then 0.0 else SumByTask(log, n - 1, w) + SumOf(log, n - 1, w)
  }

  lemma {:induction false} SumByTaskAppend(log: seq<Done>, d: Done, n: nat, w: Done -> real)
    ensures SumByTask(log + [d], n, w) == SumByTask(log, n, w) + (if d.taskId < n then w(d) else 0.0)
  {
    if n > 0 {
      SumByTaskAppend(log, d, n - 1, w);
      assert (log + [d])[..|log|] == log;
    }
  }

  /** Summing task by task is summing over all messages. */
  lemma {:induction false} SumByTaskIsSum(log: seq<Done>, n: nat, w: Done -> real)
    requires forall i | 0 <= i < |log| :: log[i].taskId < n
    ensures SumByTask(log, n, w) == Sum(log, w)
    decreases |log|
  {
    if log == [] {
      NoMessages(n, w);
    } else {
      var front, last := log[..|log| - 1], log[|log| - 1];
      assert log == front + [last];
      SumByTaskIsSum(front, n, w);
      SumByTaskAppend(front, last, n, w);
    }
  }

  lemma {:induction false} NoMessages(n: nat, w: Done -> real)
    ensures SumByTask([], n, w) == 0.0
  {
    if n > 0 { NoMessages(n - 1, w); }
  }

  // One task

  /** The statistics of a task hold the exact sums over its messages, and the average is their
      instance-weighted mean. */
  ghost predicate Summarizes(s: TaskStatistics, log: seq<Done>, t: nat) {
    && s.numInstancesStarted as real == SumOf(log, t, Instances)
    && s.totalNumFlips as real == SumOf(log, t, Flips)
    && s.timesSolved as real == SumOf(log, t, Solved)
    && s.avgFlipsPerSecond * s.numInstancesStarted as real == SumOf(log, t, Speed)
  }

  lemma MeanTimesCount(avg: real, n: nat, x: real, m: nat)
    requires n + m > 0
    ensures ((avg * n as real + x) / (n + m) as real) * (n + m) as real == avg * n as real + x
  {
  }

  lemma {:induction false} TaskSummary(log: seq<Done>, t: nat)
    requires EveryMessageCounts(log)
    ensures Summarizes(StatisticsOf(log, t), log, t)
    decreases |log|
  {
    if log != [] {
      var front, msg := log[..|log| - 1], log[|log| - 1];
      TaskSummary(front, t);
      var s := StatisticsOf(front, t);
      MeanTimesCount(s.avgFlipsPerSecond, s.numInstancesStarted, Speed(msg), msg.instancesProcessed);
    }
  }

  // What is known about the formula of a task

  /** Every message about a task is about the same formula, and a flip needs a variable and a
      clause. */
  ghost predicate Consistent(log: seq<Done>, vars: nat -> nat, clauses: nat -> nat) {
    && EveryMessageCounts(log)
    && forall i | 0 <= i < |log| ::
         && log[i].numVars == vars(log[i].taskId) && log[i].numClauses == clauses(log[i].taskId)
         && (log[i].numFlipsDone > 0 ==> log[i].numVars > 0 && log[i].numClauses > 0)
  }

  /** The size of the formula is known exactly when some message about the task reported a flip, and
      then it is the size that every message about the task reports. */
  lemma {:induction false} FormulaKnownIffFlipped(log: seq<Done>, t: nat, vars: nat -> nat, clauses: nat -> nat)
    requires Consistent(log, vars, clauses)
    ensures var s := StatisticsOf(log, t);
      && (s.totalNumFlips > 0 ==> s.numVars == vars(t) > 0 && s.numClauses == clauses(t) > 0)
      && (s.totalNumFlips == 0 ==> s.numVars == 0 && s.numClauses == 0)
    decreases |log|
  {
    if log != [] {
      FormulaKnownIffFlipped(log[..|log| - 1], t, vars, clauses);
    }
  }

  // The manager

  /** complete_statistic, without the timing fields. */
  datatype Totals = Totals(
    numInstancesStarted: nat, totalNumFlips: nat, avgFlipsPerSecond: real,
    avgFlipsPerVar: Option<real>, avgFlipsPerClause: Option<real>, numInstancesSolved: nat)

  const NO_TOTALS: Totals := Totals(0, 0, 0.0, Some(0.0), Some(0.0), 0)

  /** A running mean after `n` more values of mean `x`. */
  function WeightedMean(avg: real, started: nat, x: real, n: nat): real
    requires started + n > 0
  {
    (avg * started as real + x * n as real) / (started + n) as real
  }

  /** The running mean of a quotient; a quotient 0/0 makes the mean None for good. */
  function Averaged(avg: Option<real>, started: nat, flips: nat, size: nat, n: nat): Option<real>
    requires started + n > 0
  {
    if avg.None? || size == 0 then None
    else Some(WeightedMean(avg.value, started, flips as real / size as real, n))
  }

  function Aggregated(total: Totals, stat: TaskStatistics): Totals
    requires total.numInstancesStarted + stat.numInstancesStarted > 0
  {
    var n := stat.numInstancesStarted;
    Totals(
      total.numInstancesStarted + n,
      total.totalNumFlips + stat.totalNumFlips,
      WeightedMean(total.avgFlipsPerSecond, total.numInstancesStarted, stat.avgFlipsPerSecond, n),
      Averaged(total.avgFlipsPerVar, total.numInstancesStarted, stat.totalNumFlips, stat.numVars, n),
      Averaged(total.avgFlipsPerClause, total.numInstancesStarted, stat.totalNumFlips, stat.numClauses, n),
      total.numInstancesSolved + stat.timesSolved)
  }

  /** What a task contributes to a mean of ratios: its flips per size unit, once for every run. */
  function Share(s: TaskStatistics, size: nat): real {
    if size == 0 then 0.0 else s.totalNumFlips as real / size as real * s.numInstancesStarted as real
  }

  /** `avg` is the mean of `n` values that add up to `x`. */
  ghost predicate MeanIs(avg: Option<real>, n: nat, x: real) {
    avg.Some? && avg.value * n as real == x
  }

  /** What a message adds to a running mean of ratios; a ratio 0/0 makes the mean undefined for good. */
  ghost predicate Extends(before: Option<real>, started: nat, s: TaskStatistics, size: nat, after: Option<real>) {
    if before.None? || size == 0 then after.None?
    else MeanIs(after, started + s.numInstancesStarted, before.value * started as real + Share(s, size))
  }

  /** What one message adds to the totals: its counters, its share of the mean speed, and its ratios. */
  ghost predicate Absorbs(before: Totals, s: TaskStatistics, after: Totals) {
    && after.numInstancesStarted == before.numInstancesStarted + s.numInstancesStarted
    && after.totalNumFlips == before.totalNumFlips + s.totalNumFlips
    && after.numInstancesSolved == before.numInstancesSolved + s.timesSolved
    && after.avgFlipsPerSecond * after.numInstancesStarted as real
       == before.avgFlipsPerSecond * before.numInstancesStarted as real
          + s.avgFlipsPerSecond * s.numInstancesStarted as real
    && Extends(before.avgFlipsPerVar, before.numInstancesStarted, s, s.numVars, after.avgFlipsPerVar)
    && Extends(before.avgFlipsPerClause, before.numInstancesStarted, s, s.numClauses, after.avgFlipsPerClause)
  }

  lemma {:induction false} AveragedExtends(avg: Option<real>, started: nat, s: TaskStatistics, size: nat)
    requires s.numInstancesStarted > 0
    ensures Extends(avg, started, s, size, Averaged(avg, started, s.totalNumFlips, size, s.numInstancesStarted))
  {
    if avg.Some? && size > 0 { MeanTimesCount(avg.value, started, Share(s, size), s.numInstancesStarted); }
  }

  lemma {:induction false} AggregatedAbsorbs(total: Totals, s: TaskStatistics)
    requires s.numInstancesStarted > 0
    ensures Absorbs(total, s, Aggregated(total, s))
  {
    MeanTimesCount(total.avgFlipsPerSecond, total.numInstancesStarted,
                   s.avgFlipsPerSecond * s.numInstancesStarted as real, s.numInstancesStarted);
    AveragedExtends(total.avgFlipsPerVar, total.numInstancesStarted, s, s.numVars);
    AveragedExtends(total.avgFlipsPerClause, total.numInstancesStarted, s, s.numClauses);
  }

  class Manager {
    var statistic: Totals

    constructor ()
      ensures statistic == NO_TOTALS
    {
      statistic := NO_TOTALS;
    }

    /** process_s2m_SEND_STATISTICS. */
    method ProcessSendStatistics(stat: TaskStatistics)
      requires stat.numInstancesStarted > 0
      modifies this
      ensures statistic == Aggregated(old(statistic), stat) && Absorbs(old(statistic), stat, statistic)
    {
      AggregatedAbsorbs(statistic, stat);
      var instStarted := statistic.numInstancesStarted + stat.numInstancesStarted;
      var perVar := Averaged(statistic.avgFlipsPerVar, statistic.numInstancesStarted,
                             stat.totalNumFlips, stat.numVars, stat.numInstancesStarted);
      var perClause := Averaged(statistic.avgFlipsPerClause, statistic.numInstancesStarted,
                                stat.totalNumFlips, stat.numClauses, stat.numInstancesStarted);
      statistic := statistic.(
        avgFlipsPerSecond := WeightedMean(statistic.avgFlipsPerSecond, statistic.numInstancesStarted,
                                          stat.avgFlipsPerSecond, stat.numInstancesStarted),
        avgFlipsPerVar := perVar,
        avgFlipsPerClause := perClause);
      statistic := statistic.(numInstancesStarted := instStarted);
      statistic := statistic.(totalNumFlips := statistic.totalNumFlips + stat.totalNumFlips);
      statistic := statistic.(numInstancesSolved := statistic.numInstancesSolved + stat.timesSolved);
    }

    /** All messages of one report, in the order in which the server sends them. */
    method ReceiveReport(stats: seq<TaskStatistics>)
      requires statistic == NO_TOTALS && forall i | 0 <= i < |stats| :: stats[i].numInstancesStarted > 0
      modifies this
      ensures statistic == Reported(stats)
    {
      for i := 0 to |stats|
        invariant statistic == Reported(stats[..i])
      {
        assert stats[..i + 1][..i] == stats[..i];
        ProcessSendStatistics(stats[i]);
      }
      assert stats[..|stats|] == stats;
    }
  }

  ghost function Reported(stats: seq<TaskStatistics>): Totals
    requires forall i | 0 <= i < |stats| :: stats[i].numInstancesStarted > 0
  {
    if stats == [] then NO_TOTALS else Aggregated(Reported(stats[..|stats| - 1]), stats[|stats| - 1])
  }

  /** What send_statistic_to_manager sends: the statistics of the tasks with a started instance. */
  ghost function Report(stats: seq<TaskStatistics>): (r: seq<TaskStatistics>)
    ensures forall i | 0 <= i < |r| :: r[i].numInstancesStarted > 0
  {
    if stats == [] then []
    else
      var last := stats[|stats| - 1];
      Report(stats[..|stats| - 1]) + (if last.numInstancesStarted > 0 then [last] else [])
  }

  /** The statistics of the first `n` tasks. */
  ghost function AllStatistics(log: seq<Done>, n: nat): (stats: seq<TaskStatistics>)
    requires EveryMessageCounts(log)
    ensures |stats| == n && forall t | 0 <= t < n :: stats[t] == StatisticsOf(log, t)
  {
    seq(n, t requires 0 <= t < n => StatisticsOf(log, t))
  }

  /** The totals are the exact sums, and the average is the weighted mean, of the first `n` tasks. */
  ghost predicate TotalsSummarize(total: Totals, log: seq<Done>, n: nat) {
    && total.numInstancesStarted as real == SumByTask(log, n, Instances)
    && total.totalNumFlips as real == SumByTask(log, n, Flips)
    && total.numInstancesSolved as real == SumByTask(log, n, Solved)
    && total.avgFlipsPerSecond * total.numInstancesStarted as real == SumByTask(log, n, Speed)
  }

  /** The manager's totals after the messages about the first `n` tasks. */
  ghost function TotalsAfter(log: seq<Done>, n: nat): Totals
    requires EveryMessageCounts(log)
  {
    if n == 0 then NO_TOTALS
    else
      var s := StatisticsOf(log, n - 1);
      if s.numInstancesStarted > 0 then Aggregated(TotalsAfter(log, n - 1), s) else TotalsAfter(log, n - 1)
  }

  lemma {:induction false} ReportGivesTotals(log: seq<Done>, n: nat)
    requires EveryMessageCounts(log)
    ensures Reported(Report(AllStatistics(log, n))) == TotalsAfter(log, n)
  {
    if n > 0 {
      ReportGivesTotals(log, n - 1);
      var s, all := StatisticsOf(log, n - 1), AllStatistics(log, n);
      assert all[..n - 1] == AllStatistics(log, n - 1) && all[n - 1] == s;
      var front := Report(all[..n - 1]);
      if s.numInstancesStarted > 0 {
        assert Report(all) == front + [s];
        assert (front + [s])[..|front + [s]| - 1] == front;
      } else {
        assert Report(all) == front;
      }
    }
  }

  lemma {:induction false} TotalsByTask(log: seq<Done>, n: nat)
    requires EveryMessageCounts(log)
    ensures TotalsSummarize(TotalsAfter(log, n), log, n)
  {
    if n > 0 {
      TotalsByTask(log, n - 1);
      TaskSummary(log, n - 1);
      var s := StatisticsOf(log, n - 1);
      if s.numInstancesStarted > 0 {
        AggregatedSummarizes(TotalsAfter(log, n - 1), s, log, n - 1);
      } else {
        NothingStarted(log, n - 1);
      }
    }
  }

  lemma {:induction false} AggregatedSummarizes(total: Totals, s: TaskStatistics, log: seq<Done>, t: nat)
    requires TotalsSummarize(total, log, t) && Summarizes(s, log, t) && s.numInstancesStarted > 0
    ensures TotalsSummarize(Aggregated(total, s), log, t + 1)
  {
    MeanTimesCount(total.avgFlipsPerSecond, total.numInstancesStarted,
                   s.avgFlipsPerSecond * s.numInstancesStarted as real, s.numInstancesStarted);
  }

  /** A task without a started instance has no messages. */
  lemma {:induction false} NothingStarted(log: seq<Done>, t: nat)
    requires EveryMessageCounts(log) && StatisticsOf(log, t).numInstancesStarted == 0
    ensures forall i | 0 <= i < |log| :: log[i].taskId != t
    ensures StatisticsOf(log, t) == NO_STATISTICS
    decreases |log|
  {
    if log != [] {
      NothingStarted(log[..|log| - 1], t);
    }
  }

  /** Two-level aggregation is flat aggregation: the manager ends up with the exact sums over all
      messages and with the instance-weighted mean of their speeds. */
  ghost predicate IsFlat(total: Totals, log: seq<Done>) {
    && total.numInstancesStarted as real == Sum(log, Instances) >= |log| as real
    && total.totalNumFlips as real == Sum(log, Flips)
    && total.numInstancesSolved as real == Sum(log, Solved)
    && total.avgFlipsPerSecond * Sum(log, Instances) == Sum(log, Speed)
  }

  lemma {:induction false} TwoLevelsAreFlat(log: seq<Done>, n: nat)
    requires EveryMessageCounts(log) && forall i | 0 <= i < |log| :: log[i].taskId < n
    ensures IsFlat(Reported(Report(AllStatistics(log, n))), log)
  {
    ReportGivesTotals(log, n);
    TotalsByTask(log, n);
    FlatByTask(TotalsAfter(log, n), log, n);
  }

  lemma {:induction false} FlatByTask(total: Totals, log: seq<Done>, n: nat)
    requires EveryMessageCounts(log) && forall i | 0 <= i < |log| :: log[i].taskId < n
    requires TotalsSummarize(total, log, n)
    ensures IsFlat(total, log)
  {
    SumByTaskIsSum(log, n, Instances);
    SumByTaskIsSum(log, n, Flips);
    SumByTaskIsSum(log, n, Solved);
    SumByTaskIsSum(log, n, Speed);
    SomeInstances(log);
  }

  lemma {:induction false} SomeInstances(log: seq<Done>)
    requires EveryMessageCounts(log)
    ensures Sum(log, Instances) >= |log| as real
    decreases |log|
  {
    if log != [] { SomeInstances(log[..|log| - 1]); }
  }

  /** There are messages about the task, and none of them reports a flip. */
  ghost predicate OnlyZeroFlips(log: seq<Done>, t: nat) {
    && (exists i :: 0 <= i < |log| && log[i].taskId == t)
    && forall i | 0 <= i < |log| && log[i].taskId == t :: log[i].numFlipsDone == 0
  }

  ghost predicate NoFlipTask(log: seq<Done>, n: nat) {
    exists t: nat :: t < n && OnlyZeroFlips(log, t)
  }

  lemma {:induction false} CountersTellMessages(log: seq<Done>, t: nat)
    requires EveryMessageCounts(log)
    ensures var s := StatisticsOf(log, t);
      && (s.numInstancesStarted > 0 <==> exists i :: 0 <= i < |log| && log[i].taskId == t)
      && (s.totalNumFlips == 0 <==> forall i | 0 <= i < |log| && log[i].taskId == t :: log[i].numFlipsDone == 0)
    decreases |log|
  {
    if log != [] {
      var front, last := log[..|log| - 1], log[|log| - 1];
      CountersTellMessages(front, t);
      assert forall i | 0 <= i < |front| :: front[i] == log[i];
      assert forall i | 0 <= i < |log| :: log[i] == if i == |front| then last else front[i];
    }
  }

  lemma AggregatedUndefined(total: Totals, s: TaskStatistics)
    requires s.numInstancesStarted > 0
    ensures Aggregated(total, s).avgFlipsPerVar.None? <==> total.avgFlipsPerVar.None? || s.numVars == 0
    ensures Aggregated(total, s).avgFlipsPerClause.None? <==> total.avgFlipsPerClause.None? || s.numClauses == 0
  {
  }

  lemma {:induction false} UndefinedByTask(log: seq<Done>, n: nat, vars: nat -> nat, clauses: nat -> nat)
    requires Consistent(log, vars, clauses)
    ensures TotalsAfter(log, n).avgFlipsPerVar.None? <==> NoFlipTask(log, n)
    ensures TotalsAfter(log, n).avgFlipsPerClause.None? <==> NoFlipTask(log, n)
  {
    if n > 0 {
      UndefinedByTask(log, n - 1, vars, clauses);
      FormulaKnownIffFlipped(log, n - 1, vars, clauses);
      CountersTellMessages(log, n - 1);
      assert NoFlipTask(log, n) <==> NoFlipTask(log, n - 1) || OnlyZeroFlips(log, n - 1);
      if StatisticsOf(log, n - 1).numInstancesStarted > 0 {
        AggregatedUndefined(TotalsAfter(log, n - 1), StatisticsOf(log, n - 1));
      }
    }
  }

  /** The averages per variable and per clause are 0/0 if and only if for some task every returned
      run had a satisfying initial assignment, so that no message named the formula's size. */
  lemma {:induction false} PerVarUndefinedIff(log: seq<Done>, n: nat, vars: nat -> nat, clauses: nat -> nat)
    requires Consistent(log, vars, clauses)
    ensures var total := Reported(Report(AllStatistics(log, n)));
      && (total.avgFlipsPerVar.None? <==> NoFlipTask(log, n))
      && (total.avgFlipsPerClause.None? <==> NoFlipTask(log, n))
  {
    ReportGivesTotals(log, n);
    UndefinedByTask(log, n, vars, clauses);
  }

  ghost function SharesByTask(log: seq<Done>, n: nat, size: nat -> nat): real
    requires EveryMessageCounts(log)
  {
    if n == 0 then 0.0
    else
      var s := StatisticsOf(log, n - 1);
      SharesByTask(log, n - 1, size) + (if s.numInstancesStarted > 0 then Share(s, size(n - 1)) else 0.0)
  }

  lemma {:induction false} AggregatedMeans(total: Totals, s: TaskStatistics, x: real, y: real)
    requires s.numInstancesStarted > 0 && s.numVars > 0 && s.numClauses > 0
    requires MeanIs(total.avgFlipsPerVar, total.numInstancesStarted, x)
    requires MeanIs(total.avgFlipsPerClause, total.numInstancesStarted, y)
    ensures var after := Aggregated(total, s);
      && MeanIs(after.avgFlipsPerVar, after.numInstancesStarted, x + Share(s, s.numVars))
      && MeanIs(after.avgFlipsPerClause, after.numInstancesStarted, y + Share(s, s.numClauses))
  {
    AggregatedAbsorbs(total, s);
  }

  /** Where they are defined, the averages per variable and per clause are instance-weighted means
      of the ratios of the tasks. */
  lemma {:induction false} RatiosByTask(log: seq<Done>, n: nat, vars: nat -> nat, clauses: nat -> nat)
    requires Consistent(log, vars, clauses) && !NoFlipTask(log, n)
    ensures var total := TotalsAfter(log, n);
      && MeanIs(total.avgFlipsPerVar, total.numInstancesStarted, SharesByTask(log, n, vars))
      && MeanIs(total.avgFlipsPerClause, total.numInstancesStarted, SharesByTask(log, n, clauses))
  {
    if n > 0 {
      assert !OnlyZeroFlips(log, n - 1);
      RatiosByTask(log, n - 1, vars, clauses);
      FormulaKnownIffFlipped(log, n - 1, vars, clauses);
      CountersTellMessages(log, n - 1);
      if StatisticsOf(log, n - 1).numInstancesStarted > 0 {
        AggregatedMeans(TotalsAfter(log, n - 1), StatisticsOf(log, n - 1),
                        SharesByTask(log, n - 1, vars), SharesByTask(log, n - 1, clauses));
      }
    }
  }

  /** The smallest number of flips of a solved run of the task. */
  lemma {:induction false} MinFlipsIsLeast(log: seq<Done>, t: nat)
    requires EveryMessageCounts(log)
    ensures var m := StatisticsOf(log, t).minFlipsToSolve;
      && (forall i | 0 <= i < |log| && log[i].taskId == t && log[i].solved :: m <= log[i].numFlipsDone)
      && (m == UINT64_MAX
          || exists i :: 0 <= i < |log| && log[i].taskId == t && log[i].solved && log[i].numFlipsDone == m)
    decreases |log|
  {
    if log != [] {
      var front, last := log[..|log| - 1], log[|log| - 1];
      MinFlipsIsLeast(front, t);
      assert log == front + [last];
      assert forall i | 0 <= i < |front| :: log[i] == front[i];
      assert log[|log| - 1] == last;
    }
  }
}
