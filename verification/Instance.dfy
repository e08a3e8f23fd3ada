/** The local search state of ProbSAT: an assignment and the caches that a flip keeps up to date. */
module Instances {
  import opened Cnf
  import opened CacheStates
  import opened CnfFormulas
  import opened Bitfields
  import opened ProbCache
  import opened Random

  /** The weights of the literals of an unsatisfied clause: the probability function of the
      number of clauses that each flip would break. */
  ghost function Weights(pf: nat -> real, f: Formula, a: seq<bool>, clause: Clause): (w: seq<real>)
    requires Clean(f, |a|) && InRange(clause, |a|)
    ensures |w| == |clause|
    ensures forall i | 0 <= i < |w| :: w[i] == pf(|NewlyUnsat(f, a, clause[i])|)
  {
    seq(|clause|, i requires 0 <= i < |clause| => pf(|NewlyUnsat(f, a, clause[i])|))
  }

  class SerialInstance {
    const formula: CnfFormula
    ghost const counts: seq<Count>

    const assignment: Bitfield
    var unsatClauses: seq<int>
    const location: array<int>
    const breaks: array<Int16>
    const crit: array<int>
    var numFlipsDone: nat

    const pfi: CachedProbFunction
    const rgen: LinCongGenerator

    /** The solver works on its own copy of the initial assignment. */
    constructor (formula: CnfFormula, ghost counts: seq<Count>, pfi: CachedProbFunction,
                 initialConfig: Bitfield, rgen: LinCongGenerator)
      requires formula.Valid(counts)
      requires initialConfig.Valid() && initialConfig.length == formula.numVars
      requires pfi.Valid() && (forall n: nat :: 0.0 < pfi.f(n)) && rgen.Valid()
      modifies pfi
      ensures Valid() && numFlipsDone == 0
      ensures this.formula == formula && this.counts == counts && this.pfi == pfi && this.rgen == rgen
      ensures fresh(location) && fresh(breaks) && fresh(crit) && fresh(assignment) && fresh(assignment.bytes)
      ensures assignment.contents == initialConfig.contents
    {
      this.formula := formula;
      this.counts := counts;
      this.pfi := pfi;
      this.rgen := rgen;
      assignment := new Bitfield.Copy(initialConfig);
      unsatClauses := [];
      location := new int[|formula.clauses|];
      breaks := new Int16[formula.numVars](_ => 0);
      crit := new int[|formula.clauses|](_ => 0);
      numFlipsDone := 0;
      new;
      assert FormulaReady();
      Initialize();
    }

    ghost function Storage(): set<object> {
      {location, breaks, crit, assignment.bytes}
    }

    /** The storage has the right sizes and is not shared. */
    ghost predicate StorageReady()
      reads assignment, assignment.bytes
    {
      && assignment.Valid() && assignment.length == formula.numVars
      && location.Length == crit.Length == |formula.clauses|
      && breaks.Length == formula.numVars
      && location as object !in {crit as object, breaks, assignment.bytes}
      && crit as object !in {breaks as object, assignment.bytes}
      && breaks as object != assignment.bytes
      && Clean(formula.clauses, formula.numVars)
    }

    ghost function State(): Caches
      reads this`unsatClauses, location, breaks, crit
    {
      Caches(unsatClauses, location[..], Ints(breaks[..]), crit[..])
    }

    method SetLocation(c: nat, x: int)
      requires StorageReady() && c < location.Length
      modifies location
      ensures State() == old(State()).(location := old(State()).location[c := x])
    {
      location[c] := x;
      assert location[..] == old(location[..])[c := x];
    }

    method SetCrit(c: nat, lit: int)
      requires StorageReady() && c < crit.Length
      modifies crit
      ensures State() == old(State()).(crit := old(State()).crit[c := lit])
    {
      crit[c] := lit;
      assert crit[..] == old(crit[..])[c := lit];
    }

    /** A counter is changed by one; the new value has to fit into 16 bits. */
    method AddToBreaks(lit: int, d: Int16)
      requires StorageReady() && IsLiteral(lit, formula.numVars)
      requires FitsInt16(AddBreaks(State(), lit, d as int).breaks)
      modifies breaks
      ensures State() == AddBreaks(old(State()), lit, d as int)
    {
      assert AddBreaks(State(), lit, d as int).breaks[Var(lit)] == breaks[Var(lit)] as int + d as int;
      breaks[Var(lit)] := breaks[Var(lit)] + d;
      assert Ints(breaks[..]) == AddBreaks(old(State()), lit, d as int).breaks;
    }

    method MakeClauseUnsat(c: nat)
      requires StorageReady() && c < location.Length
      modifies this`unsatClauses, location
      ensures State() == MadeUnsat(old(State()), c)
    {
      SetLocation(c, |unsatClauses|);
      unsatClauses := unsatClauses + [c];
    }

    method MakeClauseSat(c: nat)
      requires StorageReady() && c < location.Length && 0 <= location[c] < |unsatClauses|
      requires 0 <= unsatClauses[|unsatClauses| - 1] < location.Length
      modifies this`unsatClauses, location
      ensures State() == MadeSat(old(State()), c)
    {
      var nowSat := location[c];
      SetLocation(c, -1);
      var uclause := unsatClauses[|unsatClauses| - 1];
      unsatClauses := unsatClauses[..|unsatClauses| - 1];
      if |unsatClauses| == 0 {
        return; // it was the last unsatisfied clause
      }
      if nowSat == |unsatClauses| {
        return; // it was at the end of the list
      }
      SetLocation(uclause, nowSat);
      unsatClauses := unsatClauses[nowSat := uclause];
    }

    /** The number of satisfied literals of a clause. */
    method NumSatLitInClause(clause: Clause) returns (n: nat)
      requires assignment.Valid() && CleanClause(clause, assignment.length)
      ensures n == CountTrue(clause, assignment.contents, |clause|)
    {
      ghost var a := assignment.contents;
      n := 0;
      for i := 0 to |clause|
        invariant n == CountTrue(clause, a, i)
      {
        var lit := At(clause, i);
        assert IsLiteral(lit, |a|);
        var value := assignment.At(Var(lit));
        if (0 > lit) != value { n := n + 1; }
      }
    }

    /** The first satisfied literal other than `dontTake`, or 0 if there is none. */
    method GetFirstSatisfiedLiteral(clause: Clause, dontTake: int) returns (r: int)
      requires assignment.Valid() && CleanClause(clause, assignment.length)
      ensures r == FirstTrue(clause, assignment.contents, dontTake, 0)
    {
      ghost var a := assignment.contents;
      for i := 0 to |clause|
        invariant FirstTrue(clause, a, dontTake, 0) == FirstTrue(clause, a, dontTake, i)
      {
        var lit := At(clause, i);
        assert IsLiteral(lit, |a|) && lit == clause[i];
        if dontTake != lit {
          var value := assignment.At(Var(lit));
          if (0 > lit) != value {
            return lit; // at least this literal is satisfied
          }
        }
      }
      r := 0;
    }

    /** The body of the break loop. `remaining` is the satisfied literal beside the negation of
        `literal`. */
    method BreakClause(c: nat, literal: int, ghost remaining: int)
      requires StorageReady() && c < |formula.clauses| && IsLiteral(literal, formula.numVars)
      requires remaining == FirstTrue(formula.clauses[c], assignment.contents, -literal, 0)
      requires location[c] == -2 ==> IsLiteral(remaining, formula.numVars)
      requires FitsInt16(Broken(State(), c, literal, remaining).breaks)
      modifies this`unsatClauses, location, breaks, crit
      ensures State() == Broken(old(State()), c, literal, remaining)
    {
      ghost var a, after := assignment.contents, Broken(State(), c, literal, remaining);
      var ucl := location[c];
      if 0 <= ucl {
        // the clause is already in the list
      } else {
        if -1 == ucl {
          // it was the last satisfied literal
          MakeClauseUnsat(c);
          AddToBreaks(literal, -1);
          SetCrit(c, 0);
        } else {
          SetLocation(c, location[c] + 1);
        }
        if -2 == ucl {
          // only one literal is left, it may break this clause now
          assert assignment.contents == a;
          var critLiteral := GetFirstSatisfiedLiteral(formula.clauses[c], -literal);
          assert AddBreaks(State(), critLiteral, 1).breaks == after.breaks;
          AddToBreaks(critLiteral, 1);
          SetCrit(c, critLiteral);
        }
      }
    }

    /** The body of the make loop. */
    method MakeClause(c: nat, literal: int)
      requires StorageReady() && c < |formula.clauses| && IsLiteral(literal, formula.numVars)
      requires 0 <= location[c] ==>
        && location[c] < |unsatClauses| && 0 <= unsatClauses[|unsatClauses| - 1] < location.Length
      requires location[c] == -1 ==> IsLiteral(crit[c], formula.numVars)
      requires FitsInt16(Made(State(), c, literal).breaks)
      modifies this`unsatClauses, location, breaks, crit
      ensures State() == Made(old(State()), c, literal)
    {
      var ucl := location[c];
      if 0 <= ucl {
        // the clause was in the list, the current variable is critical now
        MakeClauseSat(c);
        AddToBreaks(literal, 1);
        SetCrit(c, literal);
      } else {
        SetLocation(c, location[c] - 1);
        if -1 == ucl {
          AddToBreaks(crit[c], -1);
        }
      }
    }

    /** The body of the first pass. */
    method ClassifyClause(c: nat, ghost n: nat, ghost first: int)
      requires StorageReady() && c < |formula.clauses|
      requires n == CountTrue(formula.clauses[c], assignment.contents, |formula.clauses[c]|)
      requires first == FirstTrue(formula.clauses[c], assignment.contents, 0, 0)
      requires n == 1 ==> IsLiteral(first, formula.numVars)
      requires FitsInt16(Classified(State(), c, n, first).breaks)
      modifies this`unsatClauses, location, breaks, crit
      ensures State() == Classified(old(State()), c, n, first)
    {
      ghost var after := Classified(State(), c, n, first);
      var numSatLit := NumSatLitInClause(formula.clauses[c]);
      if numSatLit == 0 {
        MakeClauseUnsat(c);
      } else {
        if numSatLit == 1 {
          var critLiteral := GetFirstSatisfiedLiteral(formula.clauses[c], 0);
          assert AddBreaks(State(), critLiteral, 1).breaks == after.breaks;
          AddToBreaks(critLiteral, 1);
          SetCrit(c, critLiteral);
        }
        SetLocation(c, -(numSatLit as int));
        assert State() == after;
      }
    }

    // The first pass

    ghost predicate TracksTable(t: Table)
      reads this`unsatClauses, location, breaks, crit
    {
      Tracks(t, State())
    }

    /** The satisfied literals of every clause under the current assignment. */
    ghost function CurrentTable(): (t: Table)
      requires StorageReady()
      reads assignment, assignment.bytes
    {
      TruthTable(formula.clauses, assignment.contents)
    }

    method ClassifyClauses(ghost m: nat)
      requires StorageReady() && OccurrencesBounded(formula.clauses, formula.numVars, m) && m <= CNT_MAX
      requires unsatClauses == [] && forall v | 0 <= v < breaks.Length :: breaks[v] == 0
      modifies this`unsatClauses, location, breaks, crit
      ensures TracksTable(CurrentTable())
    {
      ghost var f, a := formula.clauses, assignment.contents;
      ghost var t := TruthTable(f, a);
      TracksNothing(State());
      for c := 0 to |formula.clauses|
        invariant Tracks(t[..c], State())
      {
        ghost var first, n := FirstTrue(f[c], a, 0, 0), CountTrue(f[c], a, |f[c]|);
        TracksNext(f, a, t, State(), c, m);
        ClassifyClause(c, n, first);
      }
      assert t[..|t|] == t;
    }

    // The invariant

    /** The index of the formula is exact, and no flip writes to it. */
    ghost predicate FormulaReady()
      reads formula, formula.occurrenceOffset, formula.clausesWithVars
    {
      && formula.Valid(counts)
      && formula.occurrenceOffset as object !in Storage() && formula.clausesWithVars as object !in Storage()
    }

    /** The weights are positive, and the table of weights has a cell for every counter. */
    ghost predicate WeightsReady()
      reads formula, pfi
    {
      && pfi.Valid() && |pfi.cache| > formula.maxNumBreaksPossible
      && forall n: nat :: 0.0 < pfi.f(n)
    }

    /** All four caches equal what a recomputation from the assignment would give. */
    ghost predicate Valid()
      reads this`unsatClauses, location, breaks, crit, pfi, rgen, assignment, assignment.bytes
      reads formula, formula.occurrenceOffset, formula.clausesWithVars
    {
      StorageReady() && TracksTable(CurrentTable()) && FormulaReady() && WeightsReady() && rgen.Valid()
    }

    method Initialize()
      requires StorageReady() && FormulaReady() && rgen.Valid()
      requires pfi.Valid() && forall n: nat :: 0.0 < pfi.f(n)
      requires unsatClauses == [] && forall v | 0 <= v < breaks.Length :: breaks[v] == 0
      modifies this`unsatClauses, location, breaks, crit, pfi
      ensures Valid() && numFlipsDone == old(numFlipsDone)
      ensures assignment.contents == old(assignment.contents)
    {
      formula.IndexBounds(counts);
      pfi.SetMaxNumBreaksPossible(formula.maxNumBreaksPossible);
      ClassifyClauses(formula.maxNumBreaksPossible);
    }

    // The flip

    method NextBreak(literal: int, c: int, ghost j: nat, ghost m: nat)
      requires StorageReady() && OccurrencesBounded(formula.clauses, formula.numVars, m) && m <= CNT_MAX
      requires IsLiteral(literal, formula.numVars) && !Holds(literal, assignment.contents)
      requires j < |Occurrences(formula.clauses, -literal)| && c == Occurrences(formula.clauses, -literal)[j]
      requires TracksTable(BreakTable(formula.clauses, assignment.contents, literal, j))
      modifies this`unsatClauses, location, breaks, crit
      ensures TracksTable(BreakTable(formula.clauses, assignment.contents, literal, j + 1))
      ensures CountersWithin(State().breaks, m)
    {
      ghost var f, a := formula.clauses, assignment.contents;
      NextBreakTable(f, a, literal, j, c);
      BreakStep(f, a, literal, BreakTable(f, a, literal, j), State(), c, m);
      BreakClause(c, literal, FirstTrue(f[c], a, -literal, 0));
    }

    method NextMake(literal: int, c: int, ghost j: nat, ghost m: nat)
      requires StorageReady() && OccurrencesBounded(formula.clauses, formula.numVars, m) && m <= CNT_MAX
      requires IsLiteral(literal, formula.numVars) && !Holds(literal, assignment.contents)
      requires j < |Occurrences(formula.clauses, literal)| && c == Occurrences(formula.clauses, literal)[j]
      requires TracksTable(MakeTable(formula.clauses, assignment.contents, literal, j))
      modifies this`unsatClauses, location, breaks, crit
      ensures TracksTable(MakeTable(formula.clauses, assignment.contents, literal, j + 1))
      ensures CountersWithin(State().breaks, m)
    {
      ghost var f, a := formula.clauses, assignment.contents;
      NextMakeTable(f, a, literal, j, c);
      MakeStep(f, a, literal, MakeTable(f, a, literal, j), State(), c, m);
      MakeClause(c, literal);
    }

    /** The break loop. At every point of it the counters are in range. */
    method BreakClauses(literal: int, brk: seq<int>, ghost m: nat)
      requires StorageReady() && OccurrencesBounded(formula.clauses, formula.numVars, m) && m <= CNT_MAX
      requires IsLiteral(literal, formula.numVars) && !Holds(literal, assignment.contents)
      requires brk == Occurrences(formula.clauses, -literal)
      requires TracksTable(BreakTable(formula.clauses, assignment.contents, literal, 0))
      modifies this`unsatClauses, location, breaks, crit
      ensures TracksTable(BreakTable(formula.clauses, assignment.contents, literal, |brk|))
    {
      ghost var f, a := formula.clauses, assignment.contents;
      for j := 0 to |brk|
        invariant TracksTable(BreakTable(f, a, literal, j))
      {
        NextBreak(literal, brk[j], j, m);
      }
    }

    /** The make loop. */
    method MakeClauses(literal: int, mk: seq<int>, ghost m: nat)
      requires StorageReady() && OccurrencesBounded(formula.clauses, formula.numVars, m) && m <= CNT_MAX
      requires IsLiteral(literal, formula.numVars) && !Holds(literal, assignment.contents)
      requires mk == Occurrences(formula.clauses, literal)
      requires TracksTable(MakeTable(formula.clauses, assignment.contents, literal, 0))
      modifies this`unsatClauses, location, breaks, crit
      ensures TracksTable(MakeTable(formula.clauses, assignment.contents, literal, |mk|))
    {
      ghost var f, a := formula.clauses, assignment.contents;
      for j := 0 to |mk|
        invariant TracksTable(MakeTable(f, a, literal, j))
      {
        NextMake(literal, mk[j], j, m);
      }
    }

    /** The part of a flip that updates the caches; the assignment is flipped afterwards. */
    method FlipCaches(literal: int)
      requires StorageReady() && FormulaReady() && TracksTable(CurrentTable())
      requires IsLiteral(literal, formula.numVars) && !Holds(literal, assignment.contents)
      requires ExactAt(formula.clauses, counts, Var(literal))
      modifies this`unsatClauses, location, breaks, crit
      ensures StorageReady() && FormulaReady()
      ensures TracksTable(TruthTable(formula.clauses, Flipped(assignment.contents, Var(literal))))
    {
      formula.IndexBounds(counts);
      FlipTables(formula.clauses, assignment.contents, literal);
      var brk, mk := formula.GetBreakAndMake(literal, counts);
      BreakClauses(literal, brk, formula.maxNumBreaksPossible);
      MakeClauses(literal, mk, formula.maxNumBreaksPossible);
    }

    /** Flips the variable of a literal that is currently unsatisfied, and whose ranges are exact. */
    method FlipLiteral(literal: int)
      requires Valid() && IsLiteral(literal, formula.numVars) && !Holds(literal, assignment.contents)
      requires ExactAt(formula.clauses, counts, Var(literal))
      modifies this`unsatClauses, location, breaks, crit, assignment, assignment.bytes
      ensures Valid() && numFlipsDone == old(numFlipsDone) && rgen.engine == old(rgen.engine)
      ensures assignment.contents == Flipped(old(assignment.contents), Var(literal))
      ensures |unsatClauses| == |old(unsatClauses)| + old(State()).breaks[Var(literal)]
                              - |Makes(formula.clauses, old(assignment.contents), literal)|
    {
      FlipCaches(literal);
      ListAfterFlip(formula.clauses, assignment.contents, literal, old(State()), State());
      var value := assignment.Ref(Var(literal));
      assignment.Assign(Var(literal), !value);
    }

    /** The number of clauses a flip of an unsatisfied literal would break, from the counter or
        by a recount; both give the number of clauses that would lose their last satisfied
        literal. */
    method GetNumBreaksByFlip(literal: int, caching: bool) returns (n: nat)
      requires Valid() && IsLiteral(literal, formula.numVars) && !Holds(literal, assignment.contents)
      requires !caching ==> ExactAt(formula.clauses, counts, Var(literal))
      ensures n == |NewlyUnsat(formula.clauses, assignment.contents, literal)|
      ensures n <= formula.maxNumBreaksPossible
    {
      ghost var f, a := formula.clauses, assignment.contents;
      BreaksAreNewlyUnsat(f, a, literal);
      formula.IndexBounds(counts);
      BreaksWithin(f, a, State(), Var(literal), formula.maxNumBreaksPossible);
      if caching {
        n := breaks[Var(literal)] as int;
      } else {
        var brk, _ := formula.GetBreakAndMake(literal, counts);
        RecountIsNewlyUnsat(f, a, literal);
        n := Recount(brk);
      }
    }

    method Recount(cs: seq<int>) returns (n: nat)
      requires StorageReady() && AreClauses(cs, |formula.clauses|)
      ensures n == CountCritical(formula.clauses, assignment.contents, cs, |cs|)
    {
      n := 0;
      for i := 0 to |cs|
        invariant n == CountCritical(formula.clauses, assignment.contents, cs, i)
      {
        var numSatLit := NumSatLitInClause(formula.clauses[cs[i]]);
        if 1 == numSatLit { n := n + 1; }
      }
    }

    // The public operations

    /** The test by the list is exact. */
    predicate FoundSolution(): (found: bool)
      requires Valid()
      reads this`unsatClauses, location, breaks, crit, pfi, rgen, assignment, assignment.bytes
      reads formula, formula.occurrenceOffset, formula.clausesWithVars
      ensures found <==> Satisfies(assignment.contents, formula.clauses)
    {
      EmptyIffSatisfied(formula.clauses, assignment.contents, State());
      |unsatClauses| == 0
    }

    /** The full scan, which uses none of the caches. */
    method CheckAssignment() returns (ok: bool)
      requires StorageReady()
      ensures ok <==> Satisfies(assignment.contents, formula.clauses)
    {
      for i := 0 to |formula.clauses|
        invariant forall c | 0 <= c < i :: Satisfied(formula.clauses[c], assignment.contents)
      {
        FirstTrueFinds(formula.clauses[i], assignment.contents, 0);
        var lit := GetFirstSatisfiedLiteral(formula.clauses[i], 0);
        if 0 == lit {
          NoTrueLiteral(formula.clauses[i], assignment.contents);
          return false;
        }
        assert lit in formula.clauses[i] && Holds(lit, assignment.contents);
      }
      ok := true;
    }

    /** The prefix sums of the weights of a clause without satisfied literals. */
    method SumWeights(clause: Clause, ghost w: seq<real>) returns (f: seq<real>, sum: real)
      requires Valid() && CleanClause(clause, formula.numVars)
      requires AllFalse(clause, assignment.contents)
      requires w == Weights(pfi.f, formula.clauses, assignment.contents, clause)
      modifies pfi
      ensures Valid() && sum == PrefixSum(w, |w|) && ArePrefixSums(f, w, |w|)
    {
      ghost var a := assignment.contents;
      f := [];
      sum := 0.0;
      for k := 0 to |clause|
        invariant Valid() && sum == PrefixSum(w, k) && ArePrefixSums(f, w, k)
      {
        LiteralOfAllFalse(clause, a, k);
        var cf := WeightOf(At(clause, k));
        assert cf == w[k];
        NextPrefixSum(f, w, k, sum + cf);
        sum := sum + cf;
        f := f + [sum];
      }
    }

    method WeightOf(literal: int) returns (cf: real)
      requires Valid() && IsLiteral(literal, formula.numVars) && !Holds(literal, assignment.contents)
      modifies pfi
      ensures Valid() && cf == pfi.f(|NewlyUnsat(formula.clauses, assignment.contents, literal)|)
    {
      var numBreaks := GetNumBreaksByFlip(literal, true);
      var lockTaken: bool := *; // whether the try_lock of the cache succeeds
      cf := pfi.CalcProbFunction(numBreaks, lockTaken);
    }

    /** The roulette wheel of do_flip over a clause without satisfied literals: the position that
        is picked is the one whose slot holds the random value. */
    method PickLiteral(clause: Clause) returns (i: nat, value: real)
      requires Valid() && CleanClause(clause, formula.numVars)
      requires AllFalse(clause, assignment.contents)
      modifies pfi, rgen
      ensures Valid() && rgen.engine == Next(old(rgen.engine))
      ensures var w := Weights(pfi.f, formula.clauses, assignment.contents, clause);
        value == Scaled(rgen.engine, PrefixSum(w, |w|)) && InSlot(w, value, i)
    {
      ghost var w := Weights(pfi.f, formula.clauses, assignment.contents, clause);
      var f, sum := SumWeights(clause, w);
      PrefixSumMonotone(w, 1, |w|);
      assert PrefixSum(w, 1) == PrefixSum(w, 0) + w[0];
      value := rgen.RandomValue(sum);
      i := FirstAbove(f, w, value);
    }

    method FirstAbove(f: seq<real>, ghost w: seq<real>, value: real) returns (i: nat)
      requires ArePrefixSums(f, w, |w|) && 0.0 <= value < PrefixSum(w, |w|)
      ensures InSlot(w, value, i)
    {
      i := 0;
      while !(value < f[i])
        invariant i < |w| && PrefixSum(w, i) <= value
        decreases |w| - i
      {
        i := i + 1;
      }
    }

    method GetIndexOfRandomUnsatisfiedClause() returns (c: int)
      requires Valid() && unsatClauses != []
      ensures c in unsatClauses && c == unsatClauses[numFlipsDone % |unsatClauses|]
      ensures 0 <= c < |formula.clauses| && AllFalse(formula.clauses[c], assignment.contents)
    {
      var ri := numFlipsDone % |unsatClauses|;
      ListedIsUnsat(formula.clauses, assignment.contents, State(), ri);
      c := unsatClauses[ri];
    }

    /** The choice of do_flip: the clause is taken from the list by the number of flips, and one of
        its literals by the roulette wheel. */
    method ChooseLiteral() returns (literal: int, ghost i: nat)
      requires Valid() && unsatClauses != []
      modifies pfi, rgen
      ensures Valid() && rgen.engine == Next(old(rgen.engine)) && assignment.contents == old(assignment.contents)
      ensures var c := unsatClauses[numFlipsDone % |unsatClauses|];
        && 0 <= c < |formula.clauses|
        && var w := Weights(pfi.f, formula.clauses, assignment.contents, formula.clauses[c]);
        && InSlot(w, Scaled(rgen.engine, PrefixSum(w, |w|)), i) && literal == formula.clauses[c][i]
      ensures IsLiteral(literal, formula.numVars) && !Holds(literal, assignment.contents)
      ensures ExactAt(formula.clauses, counts, Var(literal))
    {
      var randomCi := GetIndexOfRandomUnsatisfiedClause();
      var rclause := formula.clauses[randomCi];
      assert CleanClause(rclause, formula.numVars);
      var k, _ := PickLiteral(rclause);
      i := k;
      LiteralOfAllFalse(rclause, assignment.contents, k);
      formula.LiteralIsExact(counts, randomCi, k);
      literal := At(rclause, k);
    }

    method CountFlip()
      requires Valid()
      modifies this`numFlipsDone
      ensures Valid() && numFlipsDone == old(numFlipsDone) + 1
      ensures assignment.contents == old(assignment.contents) && rgen.engine == old(rgen.engine)
    {
      numFlipsDone := numFlipsDone + 1;
    }

    /** One step of the search: the variable of the chosen literal is flipped. */
    method DoFlip() returns (ghost i: nat)
      requires Valid() && unsatClauses != []
      modifies this`unsatClauses, this`numFlipsDone, location, breaks, crit
      modifies assignment, assignment.bytes, pfi, rgen
      ensures Valid() && numFlipsDone == old(numFlipsDone) + 1
      ensures rgen.engine == Next(old(rgen.engine))
      ensures var c := old(unsatClauses[numFlipsDone % |unsatClauses|]);
        && 0 <= c < |formula.clauses|
        && var w := Weights(pfi.f, formula.clauses, old(assignment.contents), formula.clauses[c]);
        && InSlot(w, Scaled(rgen.engine, PrefixSum(w, |w|)), i)
        && var lit := formula.clauses[c][i];
        && IsLiteral(lit, formula.numVars) && !Holds(lit, old(assignment.contents))
        && assignment.contents == Flipped(old(assignment.contents), Var(lit))
    {
      var literal;
      literal, i := ChooseLiteral();
      FlipLiteral(literal);
      CountFlip();
    }

    /** A flip and its reversal restore everything but the order of the list and stale entries. */
    method FlipAndBack(literal: int)
      requires Valid() && IsLiteral(literal, formula.numVars) && !Holds(literal, assignment.contents)
      requires ExactAt(formula.clauses, counts, Var(literal))
      modifies this`unsatClauses, location, breaks, crit, assignment, assignment.bytes
      ensures Valid() && assignment.contents == old(assignment.contents)
      ensures State().breaks == old(State()).breaks
      ensures multiset(unsatClauses) == multiset(old(unsatClauses))
      ensures forall c | 0 <= c < |formula.clauses| && old(State()).location[c] < 0 ::
        State().location[c] == old(State()).location[c]
      ensures forall c | 0 <= c < |formula.clauses| && old(State()).location[c] == -1 ::
        State().crit[c] == old(State()).crit[c]
    {
      FlipLiteral(literal);
      FlipLiteral(-literal);
      assert assignment.contents == old(assignment.contents);
      SameTableSameCaches(CurrentTable(), old(State()), State());
    }
  }
}
