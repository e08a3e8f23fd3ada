/** From the lines of a file to the occurrence index: what an accepted file guarantees, and
    exactly when the index is right. */
module Pipeline {
  import opened Basics
  import opened Cnf
  import opened CnfFormulas
  import opened Input

  /** All literals of the clause lines belong to the first `n` variables. */
  predicate UsesBelow(lines: seq<Line>, n: nat) {
    forall i | 0 <= i < |lines| && lines[i].ClauseLine? :: InRange(lines[i].tokens, n)
  }

  /** Line `j`, if it is a configuration line, declares all variables that the clause lines in front
      of it use. */
  predicate CoveredAt(lines: seq<Line>, j: nat)
    requires j < |lines|
  {
    lines[j].Config? ==> ToNum(lines[j].numVars) >= 0 && UsesBelow(lines[..j], ToNum(lines[j].numVars))
  }

  /** No configuration line takes back a variable that is already in use. A file with a single
      configuration line in front of its clauses has this property. */
  predicate Covers(lines: seq<Line>) {
    forall j: nat | j < |lines| :: CoveredAt(lines, j)
  }

  /** The counters hold the occurrences in the kept and in the dropped clauses. */
  ghost predicate CountsAccountFor(r: Reading) {
    forall v: nat | v < |r.counts| :: r.counts[v] == AllCounts(r.clauses, r.dropped, v)
  }

  ghost function AllCounts(kept: Formula, dropped: Formula, v: nat): Count {
    Count(CountInAll(kept, -(v + 1)) + CountInAll(dropped, -(v + 1)),
          CountInAll(kept, v + 1) + CountInAll(dropped, v + 1))
  }

  /** What an accepted file guarantees. */
  ghost predicate Sound(r: Reading) {
    && |r.counts| == r.numVars && CountsFit(r.counts)
    && Clean(r.clauses, r.numVars)
    && FormulaInRange(r.dropped, r.numVars)
    && (forall d | 0 <= d < |r.dropped| :: HasComplement(r.dropped[d]))
    && CountsAccountFor(r)
  }

  lemma {:induction false} CoversFront(lines: seq<Line>)
    requires lines != [] && Covers(lines)
    ensures Covers(lines[..|lines| - 1]) && CoveredAt(lines, |lines| - 1)
  {
    var front := lines[..|lines| - 1];
    forall j: nat | j < |front|
      ensures CoveredAt(front, j)
    {
      assert CoveredAt(lines, j) && front[..j] == lines[..j];
    }
  }

  lemma {:induction false} UsesBelowFront(lines: seq<Line>, n: nat)
    requires lines != []
    ensures var line := lines[|lines| - 1];
      UsesBelow(lines, n) <==>
        UsesBelow(lines[..|lines| - 1], n) && (line.ClauseLine? ==> InRange(line.tokens, n))
  {
    assert forall i | 0 <= i < |lines| - 1 :: lines[..|lines| - 1][i] == lines[i];
  }

  /** What is kept or dropped comes from the clause lines. */
  lemma {:induction false} ReadIsUsed(lines: seq<Line>, n: nat)
    requires AfterLines(lines).Some? && UsesBelow(lines, n)
    ensures FormulaInRange(AfterLines(lines).value.clauses, n) && FormulaInRange(AfterLines(lines).value.dropped, n)
    decreases |lines|
  {
    if lines != [] {
      UsesBelowFront(lines, n);
      ReadIsUsed(lines[..|lines| - 1], n);
    }
  }

  /** An accepted file whose configuration lines cover what is in use is sound. */
  lemma {:induction false} AcceptedIsSound(lines: seq<Line>)
    requires AfterLines(lines).Some? && Covers(lines)
    ensures Sound(AfterLines(lines).value) && UsesBelow(lines, AfterLines(lines).value.numVars)
    decreases |lines|
  {
    if lines != [] {
      var front, line := lines[..|lines| - 1], lines[|lines| - 1];
      CoversFront(lines);
      AcceptedIsSound(front);
      var r := AfterLines(front).value;
      UsesBelowFront(lines, AfterLines(lines).value.numVars);
      match line
      case Comment =>
      case Blank =>
      case Config(_, numVars, _) =>
        ReadIsUsed(front, ToNum(numVars));
        SoundAfterConfig(r, ToNum(numVars));
      case ClauseLine(terminated, tokens) =>
        SoundAfterClause(r, terminated, tokens);
    }
  }

  lemma {:induction false} SoundAfterConfig(r: Reading, n: nat)
    requires Sound(r) && FormulaInRange(r.clauses, n) && FormulaInRange(r.dropped, n)
    ensures Sound(r.(numVars := n, counts := ResizedCounts(r.counts, n)))
  {
    forall c | 0 <= c < |r.clauses|
      ensures CleanClause(r.clauses[c], n)
    {
      assert CleanClause(r.clauses[c], r.numVars) && InRange(r.clauses[c], n);
    }
    CleanInRange(r.clauses, r.numVars);
    forall v: nat | r.numVars <= v < n
      ensures AllCounts(r.clauses, r.dropped, v) == Count(0, 0)
    {
      NoCountBeyond(r.clauses, r.numVars, v + 1);
      NoCountBeyond(r.clauses, r.numVars, -(v + 1));
      NoCountBeyond(r.dropped, r.numVars, v + 1);
      NoCountBeyond(r.dropped, r.numVars, -(v + 1));
    }
  }

  lemma {:induction false} CleanInRange(f: Formula, n: nat)
    requires Clean(f, n)
    ensures FormulaInRange(f, n)
  {
    forall c | 0 <= c < |f| ensures InRange(f[c], n) { assert CleanClause(f[c], n); }
  }

  lemma {:induction false} NoCountBeyond(f: Formula, n: nat, lit: int)
    requires FormulaInRange(f, n) && Var(lit) >= n
    ensures CountInAll(f, lit) == 0
    decreases |f|
  {
    if f != [] {
      var front, last := f[..|f| - 1], f[|f| - 1];
      assert FormulaInRange(front, n);
      NoCountBeyond(front, n, lit);
      NoCountIn(last, |last|, n, lit);
    }
  }

  lemma {:induction false} NoCountIn(c: Clause, i: nat, n: nat, lit: int)
    requires InRange(c, n) && Var(lit) >= n && i <= |c|
    ensures CountIn(c, i, lit) == 0
  {
    if i > 0 { NoCountIn(c, i - 1, n, lit); }
  }

  lemma {:induction false} CountInAllAppend(f: Formula, c: Clause, lit: int)
    ensures CountInAll(f + [c], lit) == CountInAll(f, lit) + CountIn(c, |c|, lit)
  {
    assert (f + [c])[..|f|] == f;
  }

  lemma {:induction false} SoundAfterClause(r: Reading, terminated: bool, tokens: Clause)
    requires Sound(r) && ClauseAccepted(r.counts, terminated, tokens)
    ensures Sound(AfterLine(r, ClauseLine(terminated, tokens)).value)
  {
    var r' := AfterLine(r, ClauseLine(terminated, tokens)).value;
    var kept := VerdictOf(tokens) == Keep;
    assert r'.counts == TalliedCounts(r.counts, tokens);
    forall v: nat | v < |r.counts|
      ensures r'.counts[v] == AllCounts(r'.clauses, r'.dropped, v)
      ensures r'.counts[v].neg <= CNT_MAX && r'.counts[v].pos <= CNT_MAX
    {
      CountsAfterClause(r.clauses, r.dropped, tokens, v, kept);
      assert r.counts[v] == AllCounts(r.clauses, r.dropped, v);
    }
    assert Clean(r'.clauses, r.numVars) by {
      if kept { assert CleanClause(tokens, r.numVars); }
    }
    assert FormulaInRange(r'.dropped, r.numVars);
  }

  lemma {:induction false} CountAfterClause(kept: Formula, dropped: Formula, c: Clause, lit: int, keep: bool)
    ensures CountInAll(if keep then kept + [c] else kept, lit)
      + CountInAll(if keep then dropped else dropped + [c], lit)
      == CountInAll(kept, lit) + CountInAll(dropped, lit) + CountIn(c, |c|, lit)
  {
    CountInAllAppend(if keep then kept else dropped, c, lit);
  }

  lemma {:induction false} CountsAfterClause(kept: Formula, dropped: Formula, c: Clause, v: nat, keep: bool)
    ensures var before := AllCounts(kept, dropped, v);
      AllCounts(if keep then kept + [c] else kept, if keep then dropped else dropped + [c], v)
      == Count(before.neg + CountIn(c, |c|, -(v + 1)), before.pos + CountIn(c, |c|, v + 1))
  {
    CountAfterClause(kept, dropped, c, v + 1, keep);
    CountAfterClause(kept, dropped, c, -(v + 1), keep);
  }

  // Only covered files are sound

  ghost function TotalCount(r: Reading, lit: int): nat {
    CountInAll(r.clauses, lit) + CountInAll(r.dropped, lit)
  }

  /** The file uses the literal, but its counter is gone or has lost an occurrence. */
  ghost predicate Lost(r: Reading, lit: int) {
    && lit != 0 && TotalCount(r, lit) > 0
    && (Var(lit) < |r.counts| ==> CountOf(r.counts[Var(lit)], lit) < TotalCount(r, lit))
  }

  lemma {:induction false} SoundCounts(r: Reading, lit: int)
    requires Sound(r) && lit != 0
    ensures TotalCount(r, lit) == if Var(lit) < |r.counts| then CountOf(r.counts[Var(lit)], lit) else 0
  {
    CleanInRange(r.clauses, r.numVars);
    if Var(lit) >= r.numVars {
      NoCountBeyond(r.clauses, r.numVars, lit);
      NoCountBeyond(r.dropped, r.numVars, lit);
    } else {
      var v: nat := Var(lit);
      assert r.counts[v] == AllCounts(r.clauses, r.dropped, v);
      assert lit == v + 1 || lit == -(v + 1);
    }
  }

  lemma {:induction false} LostIsUnsound(r: Reading, lit: int)
    requires Lost(r, lit)
    ensures !Sound(r)
  {
    if Sound(r) { SoundCounts(r, lit); }
  }

  lemma {:induction false} TotalAfterClause(r: Reading, terminated: bool, tokens: Clause, lit: int)
    requires ClauseAccepted(r.counts, terminated, tokens)
    ensures TotalCount(AfterLine(r, ClauseLine(terminated, tokens)).value, lit)
      == TotalCount(r, lit) + CountIn(tokens, |tokens|, lit)
  {
    CountAfterClause(r.clauses, r.dropped, tokens, lit, VerdictOf(tokens) == Keep);
  }

  /** No line brings a lost occurrence back. */
  lemma {:induction false} LostStays(r: Reading, line: Line, lit: int)
    requires Lost(r, lit) && AfterLine(r, line).Some?
    ensures Lost(AfterLine(r, line).value, lit)
  {
    if line.ClauseLine? {
      TotalAfterClause(r, line.terminated, line.tokens, lit);
      if Var(lit) < |r.counts| {
        var v: nat := Var(lit);
        assert lit == v + 1 || lit == -(v + 1);
        assert TalliedCounts(r.counts, line.tokens)[v]
          == Count(r.counts[v].neg + CountIn(line.tokens, |line.tokens|, -(v + 1)),
                   r.counts[v].pos + CountIn(line.tokens, |line.tokens|, v + 1));
      }
    }
  }

  lemma {:induction false} LostToTheEnd(lines: seq<Line>, j: nat, lit: int)
    requires j <= |lines| && AfterLines(lines).Some? && AfterLines(lines[..j]).Some?
    requires Lost(AfterLines(lines[..j]).value, lit)
    ensures Lost(AfterLines(lines).value, lit)
    decreases |lines|
  {
    if j == |lines| {
      assert lines[..j] == lines;
    } else {
      var front := lines[..|lines| - 1];
      assert front[..j] == lines[..j];
      LostToTheEnd(front, j, lit);
      LostStays(AfterLines(front).value, lines[|lines| - 1], lit);
    }
  }

  /** Every literal of a clause line is counted, whether the clause is kept or dropped. */
  lemma {:induction false} UsedIsCounted(lines: seq<Line>, i: nat, k: nat)
    requires AfterLines(lines).Some? && i < |lines| && lines[i].ClauseLine? && k < |lines[i].tokens|
    ensures TotalCount(AfterLines(lines).value, lines[i].tokens[k]) > 0
    decreases |lines|
  {
    var front, line := lines[..|lines| - 1], lines[|lines| - 1];
    var r, lit := AfterLines(front).value, lines[i].tokens[k];
    if line.ClauseLine? {
      TotalAfterClause(r, line.terminated, line.tokens, lit);
    }
    if i == |lines| - 1 {
      CountInGrows(line.tokens, k + 1, |line.tokens|, lit);
    } else {
      assert front[i] == lines[i];
      UsedIsCounted(front, i, k);
    }
  }

  lemma {:induction false} TokensAreLiterals(lines: seq<Line>, i: nat, k: nat)
    requires AfterLines(lines).Some? && i < |lines| && lines[i].ClauseLine? && k < |lines[i].tokens|
    ensures lines[i].tokens[k] != 0
    decreases |lines|
  {
    if i < |lines| - 1 { TokensAreLiterals(lines[..|lines| - 1], i, k); }
  }

  lemma {:induction false} PrefixAccepted(lines: seq<Line>, j: nat)
    requires AfterLines(lines).Some? && j <= |lines|
    ensures AfterLines(lines[..j]).Some?
  {
    if AfterLines(lines[..j]).None? { NoneStays(lines, j); }
  }

  /** A configuration line that takes a used variable back loses its occurrences for good. */
  lemma {:induction false} UncoveredIsUnsound(lines: seq<Line>, j: nat)
    requires AfterLines(lines).Some? && j < |lines| && !CoveredAt(lines, j)
    ensures !Sound(AfterLines(lines).value)
  {
    PrefixAccepted(lines, j);
    PrefixAccepted(lines, j + 1);
    assert lines[..j + 1][..j] == lines[..j];
    var n := ToNum(lines[j].numVars);
    var i: nat :| i < j && lines[i].ClauseLine? && !InRange(lines[i].tokens, n);
    var k: nat :| k < |lines[i].tokens| && !IsLiteral(lines[i].tokens[k], n);
    var lit := lines[i].tokens[k];
    assert lines[..j][i] == lines[i];
    UsedIsCounted(lines[..j], i, k);
    TokensAreLiterals(lines[..j], i, k);
    assert Lost(AfterLines(lines[..j + 1]).value, lit);
    LostToTheEnd(lines, j + 1, lit);
    LostIsUnsound(AfterLines(lines).value, lit);
  }

  /** The exact condition: an accepted file is clean, in range and exactly counted if and only if no
      configuration line takes back a variable that is in use. */
  lemma {:induction false} SoundIffCovers(lines: seq<Line>)
    requires AfterLines(lines).Some?
    ensures Sound(AfterLines(lines).value) <==> Covers(lines)
  {
    if Covers(lines) {
      AcceptedIsSound(lines);
    } else {
      var j: nat :| j < |lines| && !CoveredAt(lines, j);
      UncoveredIsUnsound(lines, j);
    }
  }

  // Occurrences

  lemma {:induction false} OccursCount(f: Formula, c: nat, i: nat, lit: int)
    requires c < |f| && i <= |f[c]| <= INDEX_RANGE
    ensures |OccursUpTo(f, c, i, lit)| == |OccursUpTo(f, c, 0, lit)| + CountIn(f[c], i, lit)
  {
    if i > 0 { OccursCount(f, c, i - 1, lit); }
  }

  /** The index lists one entry per occurrence. */
  lemma {:induction false} OccurrencesCount(f: Formula, c: nat, lit: int)
    requires c <= |f| && forall k | 0 <= k < |f| :: |f[k]| <= INDEX_RANGE
    ensures |OccursUpTo(f, c, 0, lit)| == CountInAll(f[..c], lit)
  {
    if c > 0 {
      OccurrencesCount(f, c - 1, lit);
      OccursCount(f, c - 1, |f[c - 1]|, lit);
      assert f[..c][..c - 1] == f[..c - 1];
    }
  }

  lemma {:induction false} CleanOccurrences(f: Formula, n: nat, lit: int)
    requires Clean(f, n)
    ensures |Occurrences(f, lit)| == CountInAll(f, lit)
  {
    forall k | 0 <= k < |f| ensures |f[k]| <= INDEX_RANGE { assert CleanClause(f[k], n); }
    OccurrencesCount(f, |f|, lit);
    assert f[..|f|] == f;
  }

  /** The counters of an accepted file always leave room for the index. */
  lemma {:induction false} AcceptedCountsCover(r: Reading)
    requires Sound(r)
    ensures CountsCover(r.clauses, r.counts)
  {
    forall v: nat | v < |r.counts|
      ensures |Occurrences(r.clauses, -(v + 1))| <= r.counts[v].neg
      ensures |Occurrences(r.clauses, v + 1)| <= r.counts[v].pos
    {
      CleanOccurrences(r.clauses, r.numVars, -(v + 1));
      CleanOccurrences(r.clauses, r.numVars, v + 1);
    }
  }

  lemma {:induction false} CountedLiteral(f: Formula, d: nat, i: nat)
    requires d < |f| && i < |f[d]|
    ensures CountInAll(f, f[d][i]) > 0
    decreases |f|
  {
    var front, last := f[..|f| - 1], f[|f| - 1];
    if d == |f| - 1 {
      CountInGrows(last, i + 1, |last|, last[i]);
    } else {
      CountedLiteral(front, d, i);
    }
  }

  // Which ranges a dropped clause spoils

  /** Some clause contains a literal of variable `v`. */
  ghost predicate Mentions(f: Formula, v: int) {
    exists c, i :: 0 <= c < |f| && 0 <= i < |f[c]| && Var(f[c][i]) == v
  }

  /** No variable is mentioned in both formulas. */
  ghost predicate Apart(f: Formula, g: Formula) {
    forall v | Mentions(f, v) :: !Mentions(g, v)
  }

  /** The clause lines with a complementary pair, and the others. */
  ghost function Tautologies(lines: seq<Line>): Formula {
    if lines == [] then []
    else
      var last := lines[|lines| - 1];
      Tautologies(lines[..|lines| - 1]) + (if last.ClauseLine? && HasComplement(last.tokens) then [last.tokens] else [])
  }

  ghost function OtherClauses(lines: seq<Line>): Formula {
    if lines == [] then []
    else
      var last := lines[|lines| - 1];
      OtherClauses(lines[..|lines| - 1])
      + (if last.ClauseLine? && !HasComplement(last.tokens) then [last.tokens] else [])
  }

  /** No tautology of the file shares a variable with another clause. */
  ghost predicate TautologiesApart(lines: seq<Line>) {
    Apart(Tautologies(lines), OtherClauses(lines))
  }

  lemma {:induction false} KeptAndDropped(lines: seq<Line>)
    requires AfterLines(lines).Some?
    ensures var r := AfterLines(lines).value; r.clauses == OtherClauses(lines) && r.dropped == Tautologies(lines)
    decreases |lines|
  {
    if lines != [] { KeptAndDropped(lines[..|lines| - 1]); }
  }

  lemma {:induction false} CountedIsMentioned(f: Formula, lit: int)
    requires lit != 0 && CountInAll(f, lit) > 0
    ensures Mentions(f, Var(lit))
  {
    var front, last := f[..|f| - 1], f[|f| - 1];
    if CountIn(last, |last|, lit) > 0 {
      var i := CountedIn(last, |last|, lit);
      assert f[|f| - 1][i] == lit;
    } else {
      CountedIsMentioned(front, lit);
      var c, i :| 0 <= c < |front| && 0 <= i < |front[c]| && Var(front[c][i]) == Var(lit);
      assert f[c] == front[c];
    }
  }

  lemma {:induction false} CountedIn(c: Clause, n: nat, lit: int) returns (i: nat)
    requires n <= |c| && CountIn(c, n, lit) > 0
    ensures i < n && c[i] == lit
  {
    if c[n - 1] == lit { i := n - 1; } else { i := CountedIn(c, n - 1, lit); }
  }

  /** A formula mentions a variable exactly if one of its literals is counted. */
  lemma {:induction false} MentionedIffCounted(f: Formula, n: nat, v: nat)
    requires FormulaInRange(f, n)
    ensures Mentions(f, v) <==> CountInAll(f, -(v + 1)) + CountInAll(f, v + 1) > 0
  {
    if Mentions(f, v) {
      var c: nat, i: nat :| c < |f| && i < |f[c]| && Var(f[c][i]) == v;
      assert InRange(f[c], n) && IsLiteral(f[c][i], n);
      CountedLiteral(f, c, i);
      assert f[c][i] == v + 1 || f[c][i] == -(v + 1);
    } else {
      if CountInAll(f, v + 1) > 0 { CountedIsMentioned(f, v + 1); }
      if CountInAll(f, -(v + 1)) > 0 { CountedIsMentioned(f, -(v + 1)); }
    }
  }

  lemma {:induction false} UsedIffMentioned(f: Formula, n: nat, v: nat)
    requires Clean(f, n)
    ensures Used(f, v) <==> Mentions(f, v)
  {
    CleanInRange(f, n);
    MentionedIffCounted(f, n, v);
    CleanOccurrences(f, n, v + 1);
    CleanOccurrences(f, n, -(v + 1));
  }

  /** The counts of a variable are exact exactly if no dropped clause mentions it. */
  lemma {:induction false} ExactIffNotDropped(r: Reading, v: nat)
    requires Sound(r) && v < |r.counts|
    ensures ExactAt(r.clauses, r.counts, v) <==> !Mentions(r.dropped, v)
  {
    assert r.counts[v] == AllCounts(r.clauses, r.dropped, v);
    CleanOccurrences(r.clauses, r.numVars, v + 1);
    CleanOccurrences(r.clauses, r.numVars, -(v + 1));
    MentionedIffCounted(r.dropped, r.numVars, v);
  }

  /** The ranges of all variables in use are exact if and only if no tautology of the file shares a
      variable with another clause. */
  lemma {:induction false} ExactWhereUsedIffApart(lines: seq<Line>)
    requires AfterLines(lines).Some? && Covers(lines)
    ensures var r := AfterLines(lines).value; ExactWhereUsed(r.clauses, r.counts) <==> TautologiesApart(lines)
  {
    var r := AfterLines(lines).value;
    AcceptedIsSound(lines);
    KeptAndDropped(lines);
    forall v: nat | v < |r.counts|
      ensures Used(r.clauses, v) ==> (ExactAt(r.clauses, r.counts, v) <==> !Mentions(r.dropped, v))
      ensures Used(r.clauses, v) <==> Mentions(r.clauses, v)
    {
      UsedIffMentioned(r.clauses, r.numVars, v);
      ExactIffNotDropped(r, v);
    }
    forall v | Mentions(r.dropped, v) && Mentions(r.clauses, v)
      ensures 0 <= v < |r.counts|
    {
      MentionedIsVariable(r.dropped, r.numVars, v);
    }
  }

  lemma {:induction false} MentionedIsVariable(f: Formula, n: nat, v: int)
    requires FormulaInRange(f, n) && Mentions(f, v)
    ensures 0 <= v < n
  {
    var c, i :| 0 <= c < |f| && 0 <= i < |f[c]| && Var(f[c][i]) == v;
    assert InRange(f[c], n) && IsLiteral(f[c][i], n);
  }

  // When the index is exact

  /** A dropped clause mentions a variable. */
  lemma {:induction false} DroppedMentions(r: Reading) returns (v: nat)
    requires Sound(r) && r.dropped != []
    ensures v < |r.counts| && Mentions(r.dropped, v)
  {
    var c := r.dropped[0];
    var i, j :| 0 <= j < i < Min(|c|, INDEX_RANGE) && c[i] == -c[j];
    assert Var(r.dropped[0][i]) == Var(c[i]);
    MentionedIsVariable(r.dropped, r.numVars, Var(c[i]));
    v := Var(c[i]);
  }

  /** The counters are exact if and only if no clause was dropped. */
  lemma {:induction false} ExactIffNothingDropped(r: Reading)
    requires Sound(r)
    ensures CountsExact(r.clauses, r.counts) <==> r.dropped == []
  {
    if r.dropped == [] {
      forall v: nat | v < |r.counts|
        ensures ExactAt(r.clauses, r.counts, v)
      {
        ExactIffNotDropped(r, v);
      }
    } else {
      var v := DroppedMentions(r);
      ExactIffNotDropped(r, v);
      assert !ExactAt(r.clauses, r.counts, v);
    }
  }

  /** No line of the file is a clause that contains a literal together with its negation. */
  ghost predicate NoTautology(lines: seq<Line>) {
    forall i | 0 <= i < |lines| && lines[i].ClauseLine? :: !HasComplement(lines[i].tokens)
  }

  lemma {:induction false} DroppedIffTautology(lines: seq<Line>)
    requires AfterLines(lines).Some?
    ensures AfterLines(lines).value.dropped == [] <==> NoTautology(lines)
    decreases |lines|
  {
    if lines != [] {
      var front := lines[..|lines| - 1];
      DroppedIffTautology(front);
      assert NoTautology(lines) <==>
        NoTautology(front) && (lines[|lines| - 1].ClauseLine? ==> !HasComplement(lines[|lines| - 1].tokens));
    }
  }

  /** The ranges of a variable, filled up to its counts, are the lists of the list-of-lists index. */
  ghost predicate RangesAreExact(f: Formula, counts: seq<Count>, v: nat)
    requires v < |counts| && |Occurrences(f, -(v + 1))| <= counts[v].neg && |Occurrences(f, v + 1)| <= counts[v].pos
  {
    && Padded(Occurrences(f, -(v + 1)), counts[v].neg) == Occurrences(f, -(v + 1))
    && Padded(Occurrences(f, v + 1), counts[v].pos) == Occurrences(f, v + 1)
  }

  ghost predicate IndexIsExact(f: Formula, counts: seq<Count>)
    requires CountsCover(f, counts)
  {
    forall v: nat | v < |counts| :: RangesAreExact(f, counts, v)
  }

  lemma {:induction false} PaddedIsExact(s: seq<int>, size: nat)
    requires |s| <= size
    ensures Padded(s, size) == s <==> |s| == size
  {
    assert |Padded(s, size)| == size;
    if |s| == size { assert Zeros(0) == []; }
  }

  lemma {:induction false} RangesIffCounts(f: Formula, counts: seq<Count>, v: nat)
    requires CountsCover(f, counts) && v < |counts|
    ensures RangesAreExact(f, counts, v) <==> ExactAt(f, counts, v)
  {
    PaddedIsExact(Occurrences(f, -(v + 1)), counts[v].neg);
    PaddedIsExact(Occurrences(f, v + 1), counts[v].pos);
  }

  /** For a covered file the index lists exactly the occurrences of every literal if and only
      if no clause line contains a literal together with its negation: a dropped clause leaves
      its counts behind, and the cells they reserve read as occurrences in clause 0. */
  lemma {:induction false} IndexExactIffNoTautology(lines: seq<Line>)
    requires AfterLines(lines).Some? && Covers(lines)
    ensures var r := AfterLines(lines).value;
      CountsCover(r.clauses, r.counts) && (IndexIsExact(r.clauses, r.counts) <==> NoTautology(lines))
  {
    var r := AfterLines(lines).value;
    AcceptedIsSound(lines);
    AcceptedCountsCover(r);
    ExactIffNothingDropped(r);
    DroppedIffTautology(lines);
    forall v: nat | v < |r.counts|
      ensures RangesAreExact(r.clauses, r.counts, v) <==> ExactAt(r.clauses, r.counts, v)
    {
      RangesIffCounts(r.clauses, r.counts, v);
    }
  }

  // The meaning of a file

  /** The clauses of a file, dropped ones included. */
  function ClauseLines(lines: seq<Line>): Formula {
    if lines == [] then []
    else
      var last := lines[|lines| - 1];
      ClauseLines(lines[..|lines| - 1]) + (if last.ClauseLine? then [last.tokens] else [])
  }

  /** Every clause is over the variables of `a` and holds. */
  ghost predicate AllHold(f: Formula, a: seq<bool>) {
    forall c | 0 <= c < |f| :: InRange(f[c], |a|) && Satisfied(f[c], a)
  }

  lemma {:induction false} AllHoldAppend(f: Formula, c: Clause, a: seq<bool>)
    ensures AllHold(f + [c], a) <==> AllHold(f, a) && InRange(c, |a|) && Satisfied(c, a)
  {
    assert (f + [c])[|f|] == c;
    assert forall i | 0 <= i < |f| :: (f + [c])[i] == f[i];
  }

  lemma {:induction false} TautologyHolds(c: Clause, a: seq<bool>)
    requires HasComplement(c) && InRange(c, |a|)
    ensures Satisfied(c, a)
  {
    var i, j :| 0 <= j < i < Min(|c|, INDEX_RANGE) && c[i] == -c[j];
    assert c[i] in c && c[j] in c;
    assert Holds(c[i], a) || Holds(c[j], a);
  }

  /** Dropping tautologies keeps the meaning: an assignment of the variables of the file satisfies the
      accepted formula exactly if it satisfies every clause line. */
  lemma {:induction false} AcceptedKeepsMeaning(lines: seq<Line>, a: seq<bool>)
    requires AfterLines(lines).Some? && UsesBelow(lines, |a|)
    ensures AllHold(ClauseLines(lines), a) <==> AllHold(AfterLines(lines).value.clauses, a)
    decreases |lines|
  {
    if lines != [] {
      var front, line := lines[..|lines| - 1], lines[|lines| - 1];
      UsesBelowFront(lines, |a|);
      AcceptedKeepsMeaning(front, a);
      if line.ClauseLine? {
        AllHoldAppend(ClauseLines(front), line.tokens, a);
        AllHoldAppend(AfterLines(front).value.clauses, line.tokens, a);
        if VerdictOf(line.tokens) == Drop { TautologyHolds(line.tokens, a); }
      } else {
        assert ClauseLines(front) + [] == ClauseLines(front);
      }
    }
  }
}
