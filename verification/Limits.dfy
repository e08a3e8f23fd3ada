/** Where the promises of the reader end: inputs that break them, and exactly which. */
module Limits {
  import opened Basics
  import opened Cnf
  import opened CnfFormulas
  import opened CacheStates
  import opened Input
  import opened Pipeline

  // Long clauses

  /** A clause whose variables are distinct is kept exactly when the clause subscript can reach
      all of its positions; a longer one is rejected as if a literal occurred twice. */
  lemma {:induction false} DistinctKeptIffShort(c: Clause)
    requires DistinctVars(c) && forall l | l in c :: l != 0
    ensures VerdictOf(c) == if |c| <= INDEX_RANGE then Keep else Reject
  {
    forall i, j | 0 <= j < i < |c|
      ensures c[i] != -c[j]
    {
      assert Var(c[i]) != Var(c[j]);
    }
  }

  /** The smallest clause of that kind: 257 positive literals of different variables. */
  lemma {:induction false} LongClauseIsRejected()
    ensures exists c: Clause :: DistinctVars(c) && InRange(c, |c|) && VerdictOf(c) == Reject
  {
    var c: Clause := seq(INDEX_RANGE + 1, i requires 0 <= i <= INDEX_RANGE => i + 1);
    DistinctKeptIffShort(c);
  }

  // Configuration lines

  function Configs(ns: seq<int>): (lines: seq<Line>)
    ensures |lines| == |ns| && forall i | 0 <= i < |ns| :: lines[i] == Config(true, ns[i], 1)
  {
    seq(|ns|, i requires 0 <= i < |ns| => Config(true, ns[i], 1))
  }

  /** Configuration lines that declare the numbers `ns`, with one clause line after number `k`:
      its literal is the last variable that is declared there. */
  function FileWith(ns: seq<int>, k: nat): seq<Line>
    requires k < |ns|
  {
    Configs(ns[..k + 1]) + [ClauseLine(true, [ns[k]])] + Configs(ns[k + 1..])
  }

  lemma {:induction false} LastConfig(lines: seq<Line>, ns: seq<int>)
    requires ns != [] && 1 <= ns[|ns| - 1] < NUM_MAX && AfterLines(lines + Configs(ns[..|ns| - 1])).Some?
    ensures var n, before := ns[|ns| - 1], AfterLines(lines + Configs(ns[..|ns| - 1])).value;
      AfterLines(lines + Configs(ns)) == Some(before.(numVars := n, counts := ResizedCounts(before.counts, n)))
  {
    var front, n := ns[..|ns| - 1], ns[|ns| - 1];
    assert lines + Configs(ns) == lines + Configs(front) + [Config(true, n, 1)];
    AfterOneLine(lines + Configs(front), Config(true, n, 1));
  }

  lemma {:induction false} AfterConfigs(lines: seq<Line>, ns: seq<int>)
    requires AfterLines(lines).Some? && forall i | 0 <= i < |ns| :: 1 <= ns[i] < NUM_MAX
    ensures AfterLines(lines + Configs(ns)).Some?
    decreases |ns|
  {
    if ns == [] {
      assert lines + Configs(ns) == lines;
    } else {
      AfterConfigs(lines, ns[..|ns| - 1]);
      LastConfig(lines, ns);
    }
  }

  lemma {:induction false} AfterOneLine(lines: seq<Line>, line: Line)
    requires AfterLines(lines).Some?
    ensures AfterLines(lines + [line]) == AfterLine(AfterLines(lines).value, line)
  {
    assert (lines + [line])[..|lines|] == lines;
  }

  lemma {:induction false} FileWithIsAccepted(ns: seq<int>, k: nat)
    requires k < |ns| && forall i | 0 <= i < |ns| :: 1 <= ns[i] < NUM_MAX
    ensures AfterLines(FileWith(ns, k)).Some?
  {
    OneUnitClause(ns[..k + 1]);
    AfterConfigs(Configs(ns[..k + 1]) + [ClauseLine(true, [ns[k]])], ns[k + 1..]);
  }

  /** Whenever one configuration line declares fewer variables than the one before it, there is an
      accepted file with these configuration lines that is not sound. */
  lemma {:induction false} ShrinkingIsUnsound(ns: seq<int>, k: nat)
    requires k + 1 < |ns| && ns[k + 1] < ns[k]
    requires forall i | 0 <= i < |ns| :: 1 <= ns[i] < NUM_MAX
    ensures AfterLines(FileWith(ns, k)).Some? && !Sound(AfterLines(FileWith(ns, k)).value)
  {
    var lines := FileWith(ns, k);
    FileWithIsAccepted(ns, k);
    assert lines[k + 1] == ClauseLine(true, [ns[k]]) && lines[k + 2] == Config(true, ns[k + 1], 1);
    assert !InRange(lines[k + 1].tokens, ns[k + 1]) by { assert lines[k + 1].tokens[0] == ns[k]; }
    assert lines[..k + 2][k + 1] == lines[k + 1];
    UncoveredIsUnsound(lines, k + 2);
  }

  /** The numbers of variables that the configuration lines of a file declare. */
  function ConfigsOf(lines: seq<Line>): seq<int> {
    if lines == [] then []
    else
      var last := lines[|lines| - 1];
      ConfigsOf(lines[..|lines| - 1]) + (if last.Config? then [ToNum(last.numVars)] else [])
  }

  predicate Ascending(ns: seq<int>) {
    forall i | 0 <= i < |ns| - 1 :: ns[i] <= ns[i + 1]
  }

  lemma {:induction false} ConfigsOfConcat(lines: seq<Line>, more: seq<Line>)
    ensures ConfigsOf(lines + more) == ConfigsOf(lines) + ConfigsOf(more)
    decreases |more|
  {
    if more == [] {
      assert lines + more == lines;
    } else {
      ConfigsOfConcat(lines, more[..|more| - 1]);
      assert (lines + more)[..|lines + more| - 1] == lines + more[..|more| - 1];
    }
  }

  lemma {:induction false} ConfigsOfConfigs(ns: seq<int>)
    requires forall i | 0 <= i < |ns| :: 1 <= ns[i] < NUM_MAX
    ensures ConfigsOf(Configs(ns)) == ns
  {
    if ns != [] {
      ConfigsOfConfigs(ns[..|ns| - 1]);
      assert Configs(ns)[..|ns| - 1] == Configs(ns[..|ns| - 1]);
    }
  }

  lemma {:induction false} ConfigsAround(ns: seq<int>, clause: Line, tail: seq<int>)
    requires !clause.Config?
    requires (forall i | 0 <= i < |ns| :: 1 <= ns[i] < NUM_MAX) && forall i | 0 <= i < |tail| :: 1 <= tail[i] < NUM_MAX
    ensures ConfigsOf(Configs(ns) + [clause] + Configs(tail)) == ns + tail
  {
    ConfigsOfConfigs(ns);
    ConfigsOfConfigs(tail);
    ConfigsOfConcat(Configs(ns), [clause]);
    ConfigsOfConcat(Configs(ns) + [clause], Configs(tail));
    assert ConfigsOf([clause]) == [];
  }

  lemma {:induction false} ConfigsOfFileWith(ns: seq<int>, k: nat)
    requires k < |ns| && forall i | 0 <= i < |ns| :: 1 <= ns[i] < NUM_MAX
    ensures ConfigsOf(FileWith(ns, k)) == ns
  {
    ConfigsAround(ns[..k + 1], ClauseLine(true, [ns[k]]), ns[k + 1..]);
    assert ns == ns[..k + 1] + ns[k + 1..];
  }

  /** The number that is in force after the configuration lines. */
  function Last(ns: seq<int>): int {
    if ns == [] then 0 else ns[|ns| - 1]
  }

  lemma {:induction false} CoversNext(lines: seq<Line>, line: Line, n: nat)
    requires Covers(lines) && UsesBelow(lines, n) && (line.Config? ==> n <= ToNum(line.numVars))
    ensures Covers(lines + [line])
  {
    var all := lines + [line];
    forall j: nat | j < |all|
      ensures CoveredAt(all, j)
    {
      assert all[..j] == lines[..j];
      if j < |lines| { assert CoveredAt(lines, j); } else { assert lines[..j] == lines; }
    }
  }

  lemma {:induction false} CountersPerVariable(lines: seq<Line>)
    requires AfterLines(lines).Some?
    ensures |AfterLines(lines).value.counts| == AfterLines(lines).value.numVars == Last(ConfigsOf(lines))
    decreases |lines|
  {
    if lines != [] { CountersPerVariable(lines[..|lines| - 1]); }
  }

  lemma {:induction false} AscendingCovers(lines: seq<Line>)
    requires AfterLines(lines).Some? && Ascending(ConfigsOf(lines))
    ensures Covers(lines) && UsesBelow(lines, AfterLines(lines).value.numVars)
    decreases |lines|
  {
    if lines != [] {
      var front, line := lines[..|lines| - 1], lines[|lines| - 1];
      var ns := ConfigsOf(front);
      assert forall i | 0 <= i < |ns| :: ns[i] == ConfigsOf(lines)[i];
      AscendingCovers(front);
      CountersPerVariable(front);
      if line.Config? && ns != [] { assert ConfigsOf(lines)[|ns| - 1] <= ConfigsOf(lines)[|ns|]; }
      CoversNext(front, line, AfterLines(front).value.numVars);
      assert lines == front + [line];
      UsesBelowFront(lines, AfterLines(lines).value.numVars);
    }
  }

  /** Which declarations are safe for all files: every accepted file whose configuration lines declare
      `ns` is sound if and only if no number in `ns` is smaller than the one before it. */
  lemma {:induction false} SoundIffAscending(ns: seq<int>)
    requires forall i | 0 <= i < |ns| :: 1 <= ns[i] < NUM_MAX
    ensures (forall lines | AfterLines(lines).Some? && ConfigsOf(lines) == ns :: Sound(AfterLines(lines).value))
       <==> Ascending(ns)
  {
    if Ascending(ns) {
      forall lines | AfterLines(lines).Some? && ConfigsOf(lines) == ns
        ensures Sound(AfterLines(lines).value)
      {
        AscendingCovers(lines);
        AcceptedIsSound(lines);
      }
    } else {
      var k :| 0 <= k < |ns| - 1 && ns[k] > ns[k + 1];
      ShrinkingIsUnsound(ns, k);
      ConfigsOfFileWith(ns, k);
    }
  }

  /** A shrinking declaration is harmless as long as it covers what is in use. */
  lemma {:induction false} HarmlessShrinking()
    ensures var lines := Configs([5, 3]); AfterLines(lines).Some? && Sound(AfterLines(lines).value)
  {
    FreshCounters([5, 3]);
    AcceptedIsSound(Configs([5, 3]));
  }

  lemma {:induction false} UnitIsAccepted(counts: seq<Count>, h: int)
    requires 1 <= h == |counts| && forall v | 0 <= v < |counts| :: counts[v] == Count(0, 0)
    ensures ClauseAccepted(counts, true, [h]) && VerdictOf([h]) == Keep
  {
    var c: Clause := [h];
    assert forall lit :: CountIn(c, 1, lit) == if lit == h then 1 else 0;
    DistinctKeptIffShort(c);
  }

  /** One clause line after configuration lines, with the last declared variable. */
  lemma {:induction false} OneUnitClause(ns: seq<int>)
    requires ns != [] && forall i | 0 <= i < |ns| :: 1 <= ns[i] < NUM_MAX
    ensures var h := ns[|ns| - 1];
      var after := AfterLines(Configs(ns) + [ClauseLine(true, [h])]);
      && after.Some? && after.value.clauses == [[h]] && |after.value.counts| == after.value.numVars == h
  {
    var h := ns[|ns| - 1];
    FreshCounters(ns);
    UnitIsAccepted(AfterLines(Configs(ns)).value.counts, h);
    AfterOneLine(Configs(ns), ClauseLine(true, [h]));
  }

  /** Configuration lines alone leave all counters at zero and no clause. */
  lemma {:induction false} FreshCounters(ns: seq<int>)
    requires forall i | 0 <= i < |ns| :: 1 <= ns[i] < NUM_MAX
    ensures var after := AfterLines(Configs(ns));
      && after.Some? && after.value.clauses == []
      && |after.value.counts| == after.value.numVars == (if ns == [] then 0 else ns[|ns| - 1])
      && forall v | 0 <= v < |after.value.counts| :: after.value.counts[v] == Count(0, 0)
    decreases |ns|
  {
    if ns != [] {
      FreshCounters(ns[..|ns| - 1]);
      assert Configs(ns)[..|ns| - 1] == Configs(ns[..|ns| - 1]);
    }
  }

  // A file whose index is wrong: the clauses [-3] and [3], and a tautology with the literal 3

  ghost function TautologyFile(): seq<Line> {
    [Config(true, 3, 3), ClauseLine(true, [-3]), ClauseLine(true, [3]), ClauseLine(true, [2, -2, 3])]
  }

  /** The reading after the first `k` lines. */
  ghost predicate ReadSoFar(k: nat, clauses: Formula, dropped: Formula, last: Count) {
    && k <= |TautologyFile()| && AfterLines(TautologyFile()[..k]).Some?
    && var r := AfterLines(TautologyFile()[..k]).value;
       && r.numVars == 3 && r.clauses == clauses && r.dropped == dropped && |r.counts| == 3
       && (forall v | 0 <= v < 3 :: r.counts[v].neg <= 1 && r.counts[v].pos <= 1)
       && r.counts[2] == last
  }

  lemma {:induction false} NextLine(k: nat)
    requires k < |TautologyFile()| && AfterLines(TautologyFile()[..k]).Some?
    ensures AfterLines(TautologyFile()[..k + 1])
      == AfterLine(AfterLines(TautologyFile()[..k]).value, TautologyFile()[k])
  {
    assert TautologyFile()[..k + 1] == TautologyFile()[..k] + [TautologyFile()[k]];
    AfterOneLine(TautologyFile()[..k], TautologyFile()[k]);
  }

  lemma {:induction false} ConfigIsRead()
    ensures ReadSoFar(1, [], [], Count(0, 0))
  {
    assert TautologyFile()[..0] == [];
    NextLine(0);
  }

  lemma {:induction false} FirstUnitIsRead()
    ensures ReadSoFar(2, [[-3]], [], Count(1, 0))
  {
    ConfigIsRead();
    var c: Clause := [-3];
    DistinctKeptIffShort(c);
    assert forall lit :: CountIn(c, 1, lit) == if lit == -3 then 1 else 0;
    NextLine(1);
  }

  lemma {:induction false} SecondUnitIsRead()
    ensures ReadSoFar(3, TwoUnits(), [], Count(1, 1))
  {
    FirstUnitIsRead();
    var c: Clause := [3];
    DistinctKeptIffShort(c);
    assert forall lit :: CountIn(c, 1, lit) == if lit == 3 then 1 else 0;
    NextLine(2);
    assert [[-3]] + [c] == TwoUnits();
  }

  lemma {:induction false} TautologyFileIsRead()
    ensures AfterLines(TautologyFile()).Some?
    ensures var r := AfterLines(TautologyFile()).value;
      && r.numVars == 3 && r.clauses == TwoUnits() && r.dropped == [[2, -2, 3]]
      && |r.counts| == 3 && r.counts[2] == Count(1, 2)
  {
    SecondUnitIsRead();
    var c: Clause := [2, -2, 3];
    assert c[1] == -c[0] && HasComplement(c);
    forall lit
      ensures CountIn(c, 3, lit) == (if lit == 2 || lit == -2 || lit == 3 then 1 else 0)
    {
      CountInThree(c, lit);
    }
    NextLine(3);
    assert TautologyFile()[..4] == TautologyFile();
  }

  lemma {:induction false} CountInThree(c: Clause, lit: int)
    requires |c| == 3
    ensures CountIn(c, 3, lit)
         == (if c[0] == lit then 1 else 0) + (if c[1] == lit then 1 else 0) + (if c[2] == lit then 1 else 0)
  {
    assert CountIn(c, 1, lit) == (if c[0] == lit then 1 else 0);
    assert CountIn(c, 2, lit) == CountIn(c, 1, lit) + (if c[1] == lit then 1 else 0);
  }

  /** The formula that is read from it has no solution. */
  ghost function TwoUnits(): (f: Formula)
    ensures Clean(f, 3)
  {
    [[-3], [3]]
  }

  lemma {:induction false} TwoUnitsUnsolvable(a: seq<bool>)
    requires |a| == 3
    ensures !Satisfies(a, TwoUnits())
  {
    var f := TwoUnits();
    assert Satisfied(f[0], a) ==> !a[2];
    assert Satisfied(f[1], a) ==> a[2];
  }

  /** For variable 3 the index has one negative and two positive cells, and the second positive
      cell is not claimed by any occurrence: it reads as clause 0. */
  lemma {:induction false} TwoUnitsIndex()
    ensures Occurrences(TwoUnits(), -3) == [0] && Padded([0], 1) == [0]
    ensures Occurrences(TwoUnits(), 3) == [1] && Padded([1], 2) == [1, 0]
  {
    var f: Formula := TwoUnits();
    forall lit
      ensures Occurrences(f, lit) == (if lit == -3 then [0] else []) + (if lit == 3 then [1] else [])
    {
      assert OccursUpTo(f, 0, 1, lit) == if lit == -3 then [0] else [];
      assert OccursUpTo(f, 1, 0, lit) == OccursUpTo(f, 0, 1, lit);
      assert OccursUpTo(f, 1, 1, lit) == OccursUpTo(f, 1, 0, lit) + (if lit == 3 then [1] else []);
    }
    assert Zeros(1) == [0] && Zeros(0) == [];
  }

  /** The caches when all variables are false: only the clause [3] is unsatisfied. */
  const ALL_FALSE: Caches := Caches([1], [-1, 0], [0, 0, 1], [-3, 0])

  lemma {:induction false} AllFalseTracked()
    ensures Tracks(TruthTable(TwoUnits(), [false, false, false]), ALL_FALSE)
  {
    var f, a := TwoUnits(), [false, false, false];
    var t := TruthTable(f, a);
    assert -3 in f[0] && Holds(-3, a);
    assert t[0] == {-3} && t[1] == {};
    assert OnlyVar(t[0], 2);
    forall v: nat | v < 3
      ensures CriticalClauses(t, v) == if v == 2 then {0} else {}
    {
      OnlyVarOf(t[0], -3, v);
      OnlyVarOf(t[1], 0, v);
    }
  }

  /** The flip of the literal 3 visits clause 0 in the break loop and the clauses 1 and 0 in the
      make loop, as the index says. The list of unsatisfied clauses ends up empty: the search
      believes to have found a solution of a formula that has none. */
  lemma {:induction false} PhantomSolution()
    ensures Made(Made(Broken(ALL_FALSE, 0, 3, 0), 1, 3), 0, 3).unsat == []
    ensures forall a: seq<bool> | |a| == 3 :: !Satisfies(a, TwoUnits())
  {
    forall a: seq<bool> | |a| == 3
      ensures !Satisfies(a, TwoUnits())
    {
      TwoUnitsUnsolvable(a);
    }
  }
}
