/** What a worker may report about a file. */
module Results {
  import opened Basics
  import opened Cnf
  import opened Statistics
  import opened Input
  import opened Pipeline
  import opened Execution

  /** The files for which the execution of a task is modelled. */
  ghost predicate Modelled(lines: seq<Line>) {
    Covers(lines) && TautologiesApart(lines)
  }

  /** The size that an execution stores before its search starts. */
  ghost function VarsOf(lines: seq<Line>): nat {
    if AfterLines(lines).Some? then AfterLines(lines).value.numVars else 0
  }

  ghost function ClausesOf(lines: seq<Line>): nat {
    if AfterLines(lines).Some? then |AfterLines(lines).value.clauses| else 0
  }

  /** The result of some execution: some seed, some limit, and some moments at which it looked whether
      the worker is running. */
  ghost predicate Executed(lines: seq<Line>, r: Done) {
    exists seed: nat, maxFlips: nat, running: nat -> bool, walk: seq<seq<bool>> ::
      IsResult(lines, seed, maxFlips, running, r, walk)
  }

  /** A task that fails reports no instance and no solution. Otherwise it reports one instance, with the
      size of its file, and a flip only if there is a clause; and if the file is modelled, the report is
      that of an execution. */
  ghost predicate ResultOf(lines: seq<Line>, r: Done) {
    && r.instancesProcessed <= 1 && (r.solved ==> r.instancesProcessed == 1)
    && (r.instancesProcessed == 1 ==>
          && AfterLines(lines).Some? && r.numVars == VarsOf(lines) && r.numClauses == ClausesOf(lines)
          && (r.numFlipsDone > 0 ==> ClausesOf(lines) > 0))
    && (r.instancesProcessed == 1 && Modelled(lines) ==> Executed(lines, r))
  }

  /** Every execution of a modelled file reports a result of that file. */
  lemma {:induction false} ExecutionIsResult(lines: seq<Line>, seed: nat, maxFlips: nat, running: nat -> bool,
                                             r: Done, walk: seq<seq<bool>>)
    requires IsResult(lines, seed, maxFlips, running, r, walk)
    ensures ResultOf(lines, r)
  {
    assert Executed(lines, r);
    if Loads(lines) && r.numFlipsDone > 0 {
      var f := AfterLines(lines).value.clauses;
      assert IsFlip(f, walk[0], walk[1]);
    }
  }

  /** A file with a clause has a variable. */
  lemma {:induction false} ClausesNeedVariables(lines: seq<Line>)
    requires AfterLines(lines).Some?
    ensures var r := AfterLines(lines).value;
      |r.counts| == r.numVars && (r.clauses != [] ==> r.numVars > 0)
    decreases |lines|
  {
    if lines != [] {
      var line := lines[|lines| - 1];
      ClausesNeedVariables(lines[..|lines| - 1]);
      if line.ClauseLine? {
        var counts := AfterLines(lines[..|lines| - 1]).value.counts;
        assert IsLiteral(line.tokens[0], |counts|);
      }
    }
  }

  /** Some assignment of the variables of the file satisfies all its clause lines. */
  ghost predicate Satisfiable(lines: seq<Line>) {
    exists a: seq<bool> :: |a| == VarsOf(lines) && AllHold(ClauseLines(lines), a)
  }

  /** A reported solution of a modelled file is real. */
  lemma {:induction false} SolvedIsSatisfiable(lines: seq<Line>, r: Done)
    requires ResultOf(lines, r) && r.solved && Modelled(lines)
    ensures Satisfiable(lines)
  {
    var seed: nat, maxFlips: nat, running: nat -> bool, walk: seq<seq<bool>> :|
      IsResult(lines, seed, maxFlips, running, r, walk);
    AcceptedIsSound(lines);
    SolvedIffFileHolds(lines, seed, maxFlips, running, r, walk);
    var a := walk[r.numFlipsDone];
    assert |a| == VarsOf(lines) && AllHold(ClauseLines(lines), a);
  }
}
