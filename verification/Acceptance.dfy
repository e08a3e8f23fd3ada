/** Which files are accepted, told from their lines alone. */
module Acceptance {
  import opened Basics
  import opened Sums
  import opened Cnf
  import opened CnfFormulas
  import opened Input
  import opened Pipeline
  import opened Execution

  /** The number of variables that the last configuration line declares. */
  function Declared(lines: seq<Line>): nat {
    if lines == [] then 0
    else
      var last := lines[|lines| - 1];
      if !last.Config? then Declared(lines[..|lines| - 1])
      else if ToNum(last.numVars) < 0 then 0 else ToNum(last.numVars)
  }

  /** How often `lit` occurs in the clause lines since a configuration line last left its variable out. */
  ghost function Live(lines: seq<Line>, lit: int): nat {
    if lines == [] then 0
    else
      var front := lines[..|lines| - 1];
      match lines[|lines| - 1]
      case Config(_, numVars, _) => if Var(lit) < ToNum(numVars) then Live(front, lit) else 0
      case ClauseLine(_, tokens) => Live(front, lit) + CountIn(tokens, |tokens|, lit)
      case _ => Live(front, lit)
  }

  /** The clause shows a complementary pair, or all its positions and no variable twice. */
  ghost predicate Processable(c: Clause) {
    HasComplement(c) || (DistinctVars(c) && |c| <= 256)
  }

  /** The counter of the literal has room for a clause. */
  ghost predicate HasRoom(front: seq<Line>, tokens: Clause, lit: int) {
    Live(front, lit) + CountIn(tokens, |tokens|, lit) <= CNT_MAX
  }

  /** What a line needs after the lines in front of it. */
  ghost predicate LineIsFine(front: seq<Line>, line: Line) {
    match line
    case Config(wellFormed, n, m) => wellFormed && 0 < ToNum(n) < NUM_MAX && 0 < ToNum(m) < NUM_MAX
    case ClauseLine(terminated, tokens) =>
      && terminated && tokens != [] && InRange(tokens, Declared(front))
      && (forall lit | lit in tokens :: HasRoom(front, tokens, lit))
      && Processable(tokens)
    case _ => true
  }

  ghost predicate AllFine(lines: seq<Line>) {
    forall i | 0 <= i < |lines| :: LineIsFine(lines[..i], lines[i])
  }

  /** The reading is the one that the lines tell. */
  ghost predicate IsTold(lines: seq<Line>, r: Reading) {
    && r.numVars == |r.counts| == Declared(lines) && CountsFit(r.counts)
    && (forall v: nat | v < |r.counts| :: r.counts[v] == Count(Live(lines, -(v + 1)), Live(lines, v + 1)))
    && (forall lit | Var(lit) >= |r.counts| :: Live(lines, lit) == 0)
    && r.clauses == OtherClauses(lines) && r.dropped == Tautologies(lines)
  }

  lemma {:induction false} NotCounted(c: Clause, i: nat, lit: int)
    requires i <= |c| && lit !in c
    ensures CountIn(c, i, lit) == 0
  {
    if i > 0 { NotCounted(c, i - 1, lit); }
  }

  /** A counter that is not touched has room. */
  lemma {:induction false} RoomOf(lines: seq<Line>, r: Reading, tokens: Clause, v: nat)
    requires IsTold(lines, r) && v < |r.counts|
    requires forall lit | lit in tokens :: HasRoom(lines, tokens, lit)
    ensures HasRoom(lines, tokens, v + 1) && HasRoom(lines, tokens, -(v + 1))
  {
    assert r.counts[v] == Count(Live(lines, -(v + 1)), Live(lines, v + 1));
    if v + 1 !in tokens { NotCounted(tokens, |tokens|, v + 1); }
    if -(v + 1) !in tokens { NotCounted(tokens, |tokens|, -(v + 1)); }
  }

  lemma {:induction false} RoomNeeded(lines: seq<Line>, r: Reading, tokens: Clause, lit: int)
    requires IsTold(lines, r) && Countable(r.counts, tokens) && lit in tokens
    ensures HasRoom(lines, tokens, lit)
  {
    assert IsLiteral(lit, |r.counts|);
    var v: nat := Var(lit);
    assert r.counts[v] == Count(Live(lines, -(v + 1)), Live(lines, v + 1));
    assert lit == v + 1 || lit == -(v + 1);
  }

  lemma {:induction false} CountableIff(lines: seq<Line>, r: Reading, tokens: Clause)
    requires IsTold(lines, r)
    ensures Countable(r.counts, tokens) <==>
      InRange(tokens, Declared(lines)) && forall lit | lit in tokens :: HasRoom(lines, tokens, lit)
  {
    if Countable(r.counts, tokens) {
      forall lit | lit in tokens ensures HasRoom(lines, tokens, lit) { RoomNeeded(lines, r, tokens, lit); }
    }
    if forall lit | lit in tokens :: HasRoom(lines, tokens, lit) {
      forall v: nat | v < |r.counts|
        ensures r.counts[v].neg + CountIn(tokens, |tokens|, -(v + 1)) <= CNT_MAX
        ensures r.counts[v].pos + CountIn(tokens, |tokens|, v + 1) <= CNT_MAX
      {
        RoomOf(lines, r, tokens, v);
        assert r.counts[v] == Count(Live(lines, -(v + 1)), Live(lines, v + 1));
      }
    }
  }

  lemma VerdictIff(c: Clause)
    ensures VerdictOf(c) != Reject <==> Processable(c)
  {
  }

  lemma {:induction false} ToldAfterClause(front: seq<Line>, r: Reading, terminated: bool, tokens: Clause)
    requires IsTold(front, r) && ClauseAccepted(r.counts, terminated, tokens)
    ensures IsTold(front + [ClauseLine(terminated, tokens)], AfterLine(r, ClauseLine(terminated, tokens)).value)
  {
    var line := ClauseLine(terminated, tokens);
    var lines := front + [line];
    assert lines[..|lines| - 1] == front && lines[|lines| - 1] == line;
    assert forall lit :: Live(lines, lit) == Live(front, lit) + CountIn(tokens, |tokens|, lit);
    forall lit | Var(lit) >= |r.counts|
      ensures Live(lines, lit) == 0
    {
      NoCountIn(tokens, |tokens|, |r.counts|, lit);
    }
  }

  lemma {:induction false} ToldAfterConfig(front: seq<Line>, r: Reading, n: int, m: int)
    requires IsTold(front, r) && ConfigAccepted(true, n, m)
    ensures IsTold(front + [Config(true, n, m)], AfterLine(r, Config(true, n, m)).value)
  {
    var lines := front + [Config(true, n, m)];
    assert lines[..|lines| - 1] == front && lines[|lines| - 1] == Config(true, n, m);
    assert forall lit :: Live(lines, lit) == if Var(lit) < ToNum(n) then Live(front, lit) else 0;
    var counts := ResizedCounts(r.counts, ToNum(n));
    forall v: nat | v < |counts|
      ensures counts[v] == Count(Live(lines, -(v + 1)), Live(lines, v + 1))
    {
      assert Var(v + 1) == v && Var(-(v + 1)) == v;
    }
  }

  /** One more line keeps the reading the one that is told. */
  lemma {:induction false} ToldNext(front: seq<Line>, r: Reading, line: Line)
    requires IsTold(front, r)
    ensures AfterLine(r, line).Some? <==> LineIsFine(front, line)
    ensures AfterLine(r, line).Some? ==> IsTold(front + [line], AfterLine(r, line).value)
  {
    match line
    case ClauseLine(terminated, tokens) =>
      CountableIff(front, r, tokens);
      VerdictIff(tokens);
      if ClauseAccepted(r.counts, terminated, tokens) { ToldAfterClause(front, r, terminated, tokens); }
    case Config(wellFormed, n, m) =>
      if ConfigAccepted(wellFormed, n, m) { ToldAfterConfig(front, r, n, m); }
    case _ =>
      assert (front + [line])[..|front|] == front;
  }

  lemma {:induction false} AllFineFront(lines: seq<Line>)
    requires lines != []
    ensures var front := lines[..|lines| - 1];
      AllFine(lines) <==> AllFine(front) && LineIsFine(front, lines[|lines| - 1])
  {
    var front := lines[..|lines| - 1];
    forall i | 0 <= i < |front|
      ensures LineIsFine(front[..i], front[i]) <==> LineIsFine(lines[..i], lines[i])
    {
      assert front[..i] == lines[..i];
    }
  }

  /** A file is accepted if and only if every line is fine, and what is read is what the lines tell. */
  lemma {:induction false} AcceptedIffFine(lines: seq<Line>)
    ensures AfterLines(lines).Some? <==> AllFine(lines)
    ensures AfterLines(lines).Some? ==> IsTold(lines, AfterLines(lines).value)
    decreases |lines|
  {
    if lines != [] {
      var front, line := lines[..|lines| - 1], lines[|lines| - 1];
      AcceptedIffFine(front);
      AllFineFront(lines);
      assert front + [line] == lines;
      if AfterLines(front).Some? { ToldNext(front, AfterLines(front).value, line); }
    }
  }

  // Files with one configuration line

  /** Line `c` is the only configuration line, declares `n` variables and `m` clauses, and stands in
      front of all clauses. */
  predicate IsHeader(lines: seq<Line>, n: int, m: int, c: nat) {
    && c < |lines| && lines[c] == Config(true, n, m)
    && (forall i | 0 <= i < |lines| && i != c :: !lines[i].Config?)
    && (forall i | 0 <= i < c :: !lines[i].ClauseLine?)
  }

  /** What every clause line needs by itself. */
  ghost predicate ClausesFine(lines: seq<Line>, n: nat) {
    forall i | 0 <= i < |lines| && lines[i].ClauseLine? ::
      lines[i].terminated && lines[i].tokens != [] && InRange(lines[i].tokens, n) && Processable(lines[i].tokens)
  }

  /** No literal occurs more often than its counter can count. */
  ghost predicate NotTooOften(f: Formula) {
    forall lit | lit != 0 :: CountInAll(f, lit) <= 32767
  }

  lemma {:induction false} BeforeHeader(lines: seq<Line>)
    requires forall i | 0 <= i < |lines| :: lines[i].Comment? || lines[i].Blank?
    ensures ClauseLines(lines) == [] && forall lit :: Live(lines, lit) == 0
    decreases |lines|
  {
    if lines != [] { BeforeHeader(lines[..|lines| - 1]); }
  }

  /** Behind the header the file tells its number of variables, and all occurrences are live. */
  lemma {:induction false} BehindHeader(lines: seq<Line>, n: int, m: int, c: nat)
    requires IsHeader(lines, n, m, c) && 0 < n < NUM_MAX
    ensures Declared(lines) == n
    ensures forall lit | Var(lit) < n :: Live(lines, lit) == CountInAll(ClauseLines(lines), lit)
    decreases |lines|
  {
    var front, last := lines[..|lines| - 1], lines[|lines| - 1];
    if c == |front| {
      BeforeHeader(front);
      assert ClauseLines(lines) == [];
    } else {
      assert IsHeader(front, n, m, c) && !last.Config?;
      BehindHeader(front, n, m, c);
      forall lit | Var(lit) < n
        ensures Live(lines, lit) == CountInAll(ClauseLines(lines), lit)
      {
        LiveNext(lines, lit);
      }
    }
  }

  lemma {:induction false} LiveNext(lines: seq<Line>, lit: int)
    requires lines != [] && !lines[|lines| - 1].Config?
    requires Live(lines[..|lines| - 1], lit) == CountInAll(ClauseLines(lines[..|lines| - 1]), lit)
    ensures Live(lines, lit) == CountInAll(ClauseLines(lines), lit)
  {
    var front, last := lines[..|lines| - 1], lines[|lines| - 1];
    if last.ClauseLine? {
      CountInAllAppend(ClauseLines(front), last.tokens, lit);
    } else {
      assert ClauseLines(front) + [] == ClauseLines(front);
    }
  }

  lemma {:induction false} ClauseLinesGrow(lines: seq<Line>, i: nat, lit: int)
    requires i < |lines| && lines[i].ClauseLine?
    ensures CountInAll(ClauseLines(lines[..i]), lit) + CountIn(lines[i].tokens, |lines[i].tokens|, lit)
      <= CountInAll(ClauseLines(lines), lit)
    decreases |lines|
  {
    var front, last := lines[..|lines| - 1], lines[|lines| - 1];
    if last.ClauseLine? {
      CountInAllAppend(ClauseLines(front), last.tokens, lit);
    } else {
      assert ClauseLines(front) + [] == ClauseLines(front);
    }
    if i < |front| {
      assert front[..i] == lines[..i];
      ClauseLinesGrow(front, i, lit);
    }
  }

  lemma {:induction false} FineClause(lines: seq<Line>, n: int, m: int, c: nat, i: nat)
    requires IsHeader(lines, n, m, c) && 0 < n < NUM_MAX && i < |lines| && lines[i].ClauseLine?
    requires NotTooOften(ClauseLines(lines)) && ClausesFine(lines, n)
    ensures LineIsFine(lines[..i], lines[i])
  {
    var tokens := lines[i].tokens;
    assert IsHeader(lines[..i], n, m, c);
    BehindHeader(lines[..i], n, m, c);
    forall lit | lit in tokens
      ensures HasRoom(lines[..i], tokens, lit)
    {
      assert IsLiteral(lit, n);
      ClauseLinesGrow(lines, i, lit);
    }
  }

  lemma {:induction false} FineClauses(lines: seq<Line>, n: int, m: int, c: nat)
    requires IsHeader(lines, n, m, c) && 0 < n < NUM_MAX && AllFine(lines)
    ensures ClausesFine(lines, n)
  {
    forall i: nat | i < |lines| && lines[i].ClauseLine?
      ensures LineIsFine(lines[..i], lines[i]) && Declared(lines[..i]) == n
    {
      assert IsHeader(lines[..i], n, m, c);
      BehindHeader(lines[..i], n, m, c);
    }
  }

  lemma {:induction false} ClausesInRange(lines: seq<Line>, n: nat)
    requires ClausesFine(lines, n)
    ensures FormulaInRange(ClauseLines(lines), n)
    decreases |lines|
  {
    if lines != [] { ClausesInRange(lines[..|lines| - 1], n); }
  }

  lemma {:induction false} LiveFits(lines: seq<Line>, r: Reading, lit: int)
    requires IsTold(lines, r) && lit != 0
    ensures Live(lines, lit) <= CNT_MAX
  {
    if Var(lit) < |r.counts| {
      var v: nat := Var(lit);
      assert r.counts[v] == Count(Live(lines, -(v + 1)), Live(lines, v + 1));
      assert lit == v + 1 || lit == -(v + 1);
    }
  }

  lemma {:induction false} CountedInTime(lines: seq<Line>, n: int, m: int, c: nat)
    requires IsHeader(lines, n, m, c) && 0 < n < NUM_MAX && AllFine(lines)
    ensures NotTooOften(ClauseLines(lines))
  {
    AcceptedIffFine(lines);
    BehindHeader(lines, n, m, c);
    FineClauses(lines, n, m, c);
    ClausesInRange(lines, n);
    forall lit | lit != 0
      ensures CountInAll(ClauseLines(lines), lit) <= CNT_MAX
    {
      if Var(lit) >= n {
        NoCountBeyond(ClauseLines(lines), n, lit);
      } else {
        LiveFits(lines, AfterLines(lines).value, lit);
      }
    }
  }

  /** A file with one configuration line is accepted if and only if every clause line is terminated, not
      empty and in range, no literal occurs more than 32767 times, and every clause line shows a
      complementary pair or has different variables and at most 256 literals. The declared number of
      clauses does not matter. The clauses that show no complementary pair are kept, in order. */
  lemma {:induction false} HeaderFileAccepted(lines: seq<Line>, n: int, m: int, c: nat)
    requires IsHeader(lines, n, m, c) && 1 <= n < 0x7fff_ffff && 1 <= m < 0x7fff_ffff
    ensures AfterLines(lines).Some? <==> ClausesFine(lines, n) && NotTooOften(ClauseLines(lines))
    ensures AfterLines(lines).Some? ==> var r := AfterLines(lines).value;
      r.numVars == n && r.clauses == OtherClauses(lines) && r.dropped == Tautologies(lines)
  {
    AcceptedIffFine(lines);
    if AllFine(lines) {
      BehindHeader(lines, n, m, c);
      FineClauses(lines, n, m, c);
      CountedInTime(lines, n, m, c);
    } else if ClausesFine(lines, n) && NotTooOften(ClauseLines(lines)) {
      forall i: nat | i < |lines|
        ensures LineIsFine(lines[..i], lines[i])
      {
        if lines[i].ClauseLine? { FineClause(lines, n, m, c, i); }
      }
    }
  }

  // The size of the index

  function Length(): Clause -> nat {
    (c: Clause) => |c|
  }

  /** The literals of the first `n` variables among the first `i` positions. */
  ghost function OfVariables(c: Clause, i: nat, n: nat): nat
    requires i <= |c|
  {
    var lit: int := n;
    if n == 0 then 0 else OfVariables(c, i, n - 1) + CountIn(c, i, -lit) + CountIn(c, i, lit)
  }

  ghost function OfAll(f: Formula, n: nat): nat {
    var lit: int := n;
    if n == 0 then 0 else OfAll(f, n - 1) + CountInAll(f, -lit) + CountInAll(f, lit)
  }

  lemma {:induction false} OfVariablesNext(c: Clause, i: nat, n: nat)
    requires i < |c| && c[i] != 0
    ensures OfVariables(c, i + 1, n) == OfVariables(c, i, n) + (if Var(c[i]) < n then 1 else 0)
  {
    if n > 0 { OfVariablesNext(c, i, n - 1); }
  }

  lemma {:induction false} OfVariablesIs(c: Clause, i: nat, n: nat)
    requires InRange(c, n) && i <= |c|
    ensures OfVariables(c, i, n) == i
  {
    if i == 0 {
      OfNothing(c, n);
    } else {
      OfVariablesIs(c, i - 1, n);
      OfVariablesNext(c, i - 1, n);
    }
  }

  lemma {:induction false} OfNothing(c: Clause, n: nat)
    ensures OfVariables(c, 0, n) == 0 && OfAll([], n) == 0
  {
    if n > 0 { OfNothing(c, n - 1); }
  }

  lemma {:induction false} OfAllAppend(f: Formula, c: Clause, n: nat)
    ensures OfAll(f + [c], n) == OfAll(f, n) + OfVariables(c, |c|, n)
  {
    if n > 0 {
      OfAllAppend(f, c, n - 1);
      var lit: int := n;
      CountInAllAppend(f, c, -lit);
      CountInAllAppend(f, c, lit);
    }
  }

  /** Every position of a formula counts for one variable. */
  lemma {:induction false} OfAllIs(f: Formula, n: nat)
    requires FormulaInRange(f, n)
    ensures OfAll(f, n) == Total(f, Length())
    decreases |f|
  {
    if f == [] {
      OfNothing([], n);
    } else {
      var front, last := f[..|f| - 1], f[|f| - 1];
      assert f == front + [last] && InRange(last, n);
      OfAllIs(front, n);
      OfAllAppend(front, last, n);
      OfVariablesIs(last, |last|, n);
    }
  }

  lemma {:induction false} StartIs(counts: seq<Count>, f: Formula, v: nat)
    requires v <= |counts|
    requires forall u: nat | u < |counts| :: counts[u] == Count(CountInAll(f, -(u + 1)), CountInAll(f, u + 1))
    ensures Start(counts, v) == OfAll(f, v)
  {
    if v > 0 { StartIs(counts, f, v - 1); }
  }

  /** Such a file loads if and only if, besides, its clause lines have at most 2^31 - 1 literals in all. */
  lemma {:induction false} HeaderFileLoads(lines: seq<Line>, n: int, m: int, c: nat)
    requires IsHeader(lines, n, m, c) && 1 <= n < 0x7fff_ffff && 1 <= m < 0x7fff_ffff
    ensures Loads(lines) <==>
      && ClausesFine(lines, n) && NotTooOften(ClauseLines(lines))
      && Total(ClauseLines(lines), Length()) <= 0x7fff_ffff
  {
    HeaderFileAccepted(lines, n, m, c);
    if AfterLines(lines).Some? {
      var counts := AfterLines(lines).value.counts;
      AcceptedIffFine(lines);
      BehindHeader(lines, n, m, c);
      ClausesInRange(lines, n);
      OfAllIs(ClauseLines(lines), n);
      forall u: nat | u < |counts|
        ensures counts[u] == Count(CountInAll(ClauseLines(lines), -(u + 1)), CountInAll(ClauseLines(lines), u + 1))
      {
        assert Var(u + 1) == u && Var(-(u + 1)) == u;
      }
      StartIs(counts, ClauseLines(lines), n);
    }
  }
}
