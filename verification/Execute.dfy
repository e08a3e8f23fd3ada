/** The execution of one task: from the lines of its file to the result that is returned. */
module Execution {
  import opened Basics
  import opened Cnf
  import opened CnfFormulas
  import opened CacheStates
  import opened Input
  import opened Pipeline
  import opened Bitfields
  import opened ProbCache
  import opened Random
  import opened Instances
  import Statistics

  const DEFAULT_MAX_FLIPS: nat := 20000000

  /** The limit of a task; 0 in the file list stands for the default. */
  function MaxFlips(requested: nat): (m: nat)
    ensures m > 0 && (requested > 0 ==> m == requested)
  {
    if requested != 0 then requested else DEFAULT_MAX_FLIPS
  }

  /** Bit `i` of the initial assignment is the lowest bit of random number `i`. */
  ghost predicate InitialBits(a: seq<bool>, engine: nat, n: nat) {
    n <= |a| && forall i | 0 <= i < n :: a[i] <==> LowestBit(Nth(engine, i + 1))
  }

  // The walk of the search

  /** One flip: the variable of a literal of an unsatisfied clause changes, nothing else. */
  ghost predicate IsFlip(f: Formula, a: seq<bool>, b: seq<bool>)
    requires Clean(f, |a|)
  {
    exists c, i :: 0 <= c < |f| && 0 <= i < |f[c]| && IsLiteral(f[c][i], |a|)
      && !Satisfied(f[c], a) && b == Flipped(a, Var(f[c][i]))
  }

  /** The assignments of a search over `n` variables: none but the last can be a solution. */
  ghost predicate IsWalk(f: Formula, n: nat, walk: seq<seq<bool>>)
    requires Clean(f, n)
  {
    && walk != [] && (forall k | 0 <= k < |walk| :: |walk[k]| == n)
    && forall k | 0 <= k < |walk| - 1 :: !Satisfies(walk[k], f) && IsFlip(f, walk[k], walk[k + 1])
  }

  lemma WalkContinues(f: Formula, n: nat, walk: seq<seq<bool>>, a: seq<bool>)
    requires Clean(f, n) && IsWalk(f, n, walk) && |a| == n
    requires !Satisfies(walk[|walk| - 1], f) && IsFlip(f, walk[|walk| - 1], a)
    ensures IsWalk(f, n, walk + [a])
  {
  }

  /** The worker was running after each of the first `n` flips. */
  ghost predicate KeptRunning(running: nat -> bool, n: int) {
    forall k: nat | 0 < k <= n :: running(k)
  }

  lemma KeptRunningNext(running: nat -> bool, n: nat)
    requires KeptRunning(running, n) && running(n + 1)
    ensures KeptRunning(running, n + 1)
  {
  }

  /** When a search ends after `flips` flips: at the first solution, at the limit, or when it finds
      that the worker stops; and not before. `running(k)` is what it reads after flip `k`. */
  ghost predicate EndsProperly(solved: bool, flips: nat, maxFlips: nat, running: nat -> bool) {
    && flips <= maxFlips
    && (!solved ==> flips > 0 && (flips == maxFlips || !running(flips)))
    && KeptRunning(running, flips - 1)
  }

  /** Along a walk consecutive assignments differ in exactly one variable. */
  lemma {:induction false} FlipChangesOne(f: Formula, a: seq<bool>, b: seq<bool>)
    requires Clean(f, |a|) && IsFlip(f, a, b)
    ensures |b| == |a| && exists v :: 0 <= v < |a| && b[v] != a[v] && forall u | 0 <= u < |a| && u != v :: b[u] == a[u]
  {
    var c, i :| 0 <= c < |f| && 0 <= i < |f[c]| && IsLiteral(f[c][i], |a|)
      && !Satisfied(f[c], a) && b == Flipped(a, Var(f[c][i]));
    assert b[Var(f[c][i])] != a[Var(f[c][i])];
  }

  /** The random initial assignment. */
  method RandomAssignment(numVars: nat, rgen: LinCongGenerator) returns (config: Bitfield)
    requires rgen.Valid()
    modifies rgen
    ensures fresh(config) && fresh(config.bytes) && config.Valid() && config.length == numVars
    ensures rgen.Valid() && rgen.engine == Nth(old(rgen.engine), numVars)
    ensures InitialBits(config.contents, old(rgen.engine), numVars)
  {
    ghost var seed := rgen.engine;
    config := new Bitfield(numVars);
    for i := 0 to numVars
      invariant fresh(config) && fresh(config.bytes) && config.Valid() && config.length == numVars
      invariant rgen.Valid() && rgen.engine == Nth(seed, i)
      invariant InitialBits(config.contents, seed, i)
    {
      var r := rgen.Rand();
      config.Assign(i, r % 2 == 1);
    }
  }

  /** A search from the assignment `first` and the generator state `seed` that has arrived at the
      state of the solver. */
  ghost predicate Arrived(solver: SerialInstance, walk: seq<seq<bool>>, first: seq<bool>, seed: nat)
    requires Clean(solver.formula.clauses, solver.formula.numVars)
    reads solver`numFlipsDone, solver.assignment, solver.rgen
  {
    && IsWalk(solver.formula.clauses, solver.formula.numVars, walk)
    && |walk| == solver.numFlipsDone + 1
    && walk[0] == first && walk[|walk| - 1] == solver.assignment.contents
    && solver.rgen.engine == Nth(seed, solver.numFlipsDone)
  }

  /** A flip of the solver is a step of the walk. */
  method FlipOnce(solver: SerialInstance, ghost walk: seq<seq<bool>>, ghost first: seq<bool>, ghost seed: nat)
    returns (ghost walk': seq<seq<bool>>)
    requires solver.Valid() && Arrived(solver, walk, first, seed)
    requires !Satisfies(solver.assignment.contents, solver.formula.clauses)
    modifies solver`unsatClauses, solver`numFlipsDone, solver.location, solver.breaks, solver.crit
    modifies solver.assignment, solver.assignment.bytes, solver.pfi, solver.rgen
    ensures solver.Valid() && solver.numFlipsDone == old(solver.numFlipsDone) + 1
    ensures Arrived(solver, walk', first, seed)
  {
    ghost var a, f := solver.assignment.contents, solver.formula.clauses;
    EmptyIffSatisfied(f, a, solver.State());
    ghost var c := solver.unsatClauses[solver.numFlipsDone % |solver.unsatClauses|];
    ListedIsUnsat(f, a, solver.State(), solver.numFlipsDone % |solver.unsatClauses|);
    ghost var i := solver.DoFlip();
    assert IsFlip(f, a, solver.assignment.contents) by {
      assert !Satisfied(f[c], a) && IsLiteral(f[c][i], |a|);
    }
    WalkContinues(f, solver.formula.numVars, walk, solver.assignment.contents);
    walk' := walk + [solver.assignment.contents];
  }

  /** The test after the loop: a solution is confirmed by the full scan, so its assertion never
      fails. */
  method IsSolved(solver: SerialInstance, ghost walk: seq<seq<bool>>, ghost first: seq<bool>, ghost seed: nat)
    returns (solved: bool)
    requires solver.Valid() && Arrived(solver, walk, first, seed)
    ensures solver.Valid() && Arrived(solver, walk, first, seed)
    ensures solved <==> Satisfies(solver.assignment.contents, solver.formula.clauses)
  {
    solved := solver.FoundSolution();
    if solved {
      var ok := solver.CheckAssignment();
      assert ok;
    }
  }

  /** The search loop of task::execute, and its verdict. */
  method Search(solver: SerialInstance, maxFlips: nat, running: nat -> bool)
    returns (solved: bool, ghost walk: seq<seq<bool>>)
    requires solver.Valid() && solver.numFlipsDone == 0 && maxFlips > 0
    modifies solver`unsatClauses, solver`numFlipsDone, solver.location, solver.breaks, solver.crit
    modifies solver.assignment, solver.assignment.bytes, solver.pfi, solver.rgen
    ensures solver.Valid() && Arrived(solver, walk, old(solver.assignment.contents), old(solver.rgen.engine))
    ensures solved <==> Satisfies(solver.assignment.contents, solver.formula.clauses)
    ensures EndsProperly(solved, solver.numFlipsDone, maxFlips, running)
  {
    ghost var first, seed := solver.assignment.contents, solver.rgen.engine;
    walk := [first];
    while !solver.FoundSolution()
      invariant solver.Valid() && Arrived(solver, walk, first, seed) && solver.numFlipsDone < maxFlips
      invariant KeptRunning(running, solver.numFlipsDone)
      decreases maxFlips - solver.numFlipsDone
    {
      ghost var flips := solver.numFlipsDone;
      walk := FlipOnce(solver, walk, first, seed);
      if maxFlips <= solver.numFlipsDone { break; }
      if !running(solver.numFlipsDone) { break; }
      KeptRunningNext(running, flips);
    }
    solved := IsSolved(solver, walk, first, seed);
  }

  // From the file to the result

  /** The file is accepted, and its index fits into the offsets. */
  ghost predicate Loads(lines: seq<Line>) {
    AfterLines(lines).Some?
    && var r := AfterLines(lines).value; |r.counts| == r.numVars && Start(r.counts, r.numVars) <= SUM_MAX
  }

  /** cnf_formula::initialize: reads the lines and builds the index. The formula that results is one
      a solver may rely on if and only if no tautology shares a variable with another clause. */
  method LoadFormula(lines: seq<Line>) returns (ok: bool, formula: CnfFormula, ghost counts: seq<Count>)
    requires Covers(lines)
    ensures ok <==> Loads(lines)
    ensures fresh(formula) && (ok ==> fresh(formula.occurrenceOffset) && fresh(formula.clausesWithVars))
    ensures ok ==> var r := AfterLines(lines).value; formula.numVars == r.numVars && formula.clauses == r.clauses
    ensures ok ==> (formula.Valid(counts) <==> TautologiesApart(lines))
  {
    var reader := new FormulaReader();
    ok := reader.Read(lines);
    formula := new CnfFormula(reader.numVars, reader.clauses);
    counts := reader.counts;
    if ok {
      ghost var r := AfterLines(lines).value;
      AcceptedIsSound(lines);
      AcceptedCountsCover(r);
      CleanInRange(r.clauses, r.numVars);
      ok := formula.BuildIndex(reader.counts);
      ExactWhereUsedIffApart(lines);
    }
  }

  /** The result of a task: of a loaded file it reports a walk from the random assignment, and it
      claims a solution exactly if the walk ends in one; of any other file it reports nothing. */
  ghost predicate IsResult(lines: seq<Line>, seed: nat, maxFlips: nat, running: nat -> bool,
                           result: Statistics.Done, walk: seq<seq<bool>>)
  {
    if !Loads(lines) then result.instancesProcessed == 0 && !result.solved
    else
      var r := AfterLines(lines).value;
      && result.instancesProcessed == 1 && result.numVars == r.numVars && result.numClauses == |r.clauses|
      && Clean(r.clauses, r.numVars) && IsWalk(r.clauses, r.numVars, walk)
      && |walk| == result.numFlipsDone + 1 && InitialBits(walk[0], Seeded(seed), r.numVars)
      && (result.solved <==> Satisfies(walk[result.numFlipsDone], r.clauses))
      && EndsProperly(result.solved, result.numFlipsDone, maxFlips, running)
  }

  /** task::execute for a formula that was loaded. */
  method Solve(formula: CnfFormula, ghost counts: seq<Count>, maxFlips: nat, pfi: CachedProbFunction, seed: nat,
               running: nat -> bool)
    returns (solved: bool, flips: nat, ghost walk: seq<seq<bool>>)
    requires formula.Valid(counts) && maxFlips > 0
    requires pfi.Valid() && forall n: nat :: 0.0 < pfi.f(n)
    modifies pfi
    ensures IsWalk(formula.clauses, formula.numVars, walk) && |walk| == flips + 1
    ensures InitialBits(walk[0], Seeded(seed), formula.numVars)
    ensures solved <==> Satisfies(walk[flips], formula.clauses)
    ensures EndsProperly(solved, flips, maxFlips, running)
  {
    var rgen := new LinCongGenerator(seed);
    var config := RandomAssignment(formula.numVars, rgen);
    var solver := new SerialInstance(formula, counts, pfi, config, rgen);
    solved, walk := Search(solver, maxFlips, running);
    flips := solver.numFlipsDone;
  }

  /** task::execute. The clock only matters for `speed`. */
  method Execute(taskId: nat, lines: seq<Line>, requestedFlips: nat, pfi: CachedProbFunction, seed: nat,
                 running: nat -> bool, speed: real)
    returns (result: Statistics.Done, ghost walk: seq<seq<bool>>)
    requires Covers(lines) && TautologiesApart(lines)
    requires pfi.Valid() && forall n: nat :: 0.0 < pfi.f(n)
    modifies pfi
    ensures result.taskId == taskId
    ensures IsResult(lines, seed, MaxFlips(requestedFlips), running, result, walk)
  {
    result, walk := Statistics.Done(taskId, 0, 0, 0.0, 0, 0, false), [];
    var ok, formula, counts := LoadFormula(lines);
    if ok {
      var solved, flips;
      solved, flips, walk := Solve(formula, counts, MaxFlips(requestedFlips), pfi, seed, running);
      result := Statistics.Done(taskId, 1, flips, speed, formula.numVars, |formula.clauses|, solved);
    }
  }

  /** A task is reported as solved exactly if the last assignment of its walk satisfies every clause
      line of its file. */
  lemma {:induction false} SolvedIffFileHolds(lines: seq<Line>, seed: nat, maxFlips: nat, running: nat -> bool,
                                              result: Statistics.Done, walk: seq<seq<bool>>)
    requires Loads(lines) && IsResult(lines, seed, maxFlips, running, result, walk)
    requires UsesBelow(lines, AfterLines(lines).value.numVars)
    ensures result.solved <==> AllHold(ClauseLines(lines), walk[result.numFlipsDone])
  {
    var r, a := AfterLines(lines).value, walk[result.numFlipsDone];
    AcceptedKeepsMeaning(lines, a);
    CleanInRange(r.clauses, r.numVars);
    assert Satisfies(a, r.clauses) <==> AllHold(r.clauses, a);
  }

  /** A search that has arrived at `walk[k]` has a reason to stop. */
  ghost predicate MayStop(f: Formula, walk: seq<seq<bool>>, k: nat, maxFlips: nat, running: nat -> bool)
    requires k < |walk| && Clean(f, |walk[k]|)
  {
    Satisfies(walk[k], f) || (k > 0 && (k >= maxFlips || !running(k)))
  }

  /** The search stops at the first solution, at the limit, or when the worker stops, whichever comes first:
      the last state of its walk is the only one with a reason to stop. */
  lemma {:induction false} StopsAtFirstReason(lines: seq<Line>, seed: nat, maxFlips: nat, running: nat -> bool,
                                              result: Statistics.Done, walk: seq<seq<bool>>)
    requires Loads(lines) && IsResult(lines, seed, maxFlips, running, result, walk)
    ensures var f := AfterLines(lines).value.clauses;
      && |walk| == result.numFlipsDone + 1
      && forall k: nat | k < |walk| ::
           Clean(f, |walk[k]|) && (MayStop(f, walk, k, maxFlips, running) <==> k == result.numFlipsDone)
  {
  }
}
