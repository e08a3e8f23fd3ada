/** Reading a formula, from lines that are already split into tokens. */
module Input {
  import opened Basics
  import opened Cnf
  import opened CnfFormulas

  /** One line of a file.
      - Config: `wellFormed` says that the line starts with "p cnf " and has exactly two numbers
      - ClauseLine: `terminated` says that the line ends with " 0"; the final 0 is not a token */
  datatype Line =
    | Comment
    | Blank
    | Config(wellFormed: bool, numVars: int, numClauses: int)
    | ClauseLine(terminated: bool, tokens: Clause)

  const NUM_MAX: int := 0x7fff_ffff

  /** The conversion to num_t, which is int32_t. */
  function ToNum(x: int): (n: int)
    ensures -NUM_MAX - 1 <= n <= NUM_MAX
    ensures -NUM_MAX - 1 <= x <= NUM_MAX ==> n == x
  {
    var m := x % 0x1_0000_0000;
    if m <= NUM_MAX then m else m - 0x1_0000_0000
  }

  /** It only cuts off multiples of 2^32. */
  lemma {:induction false} ToNumWraps(x: int)
    ensures (x - ToNum(x)) % 0x1_0000_0000 == 0
  {
    var q := x / 0x1_0000_0000;
    assert x - x % 0x1_0000_0000 == q * 0x1_0000_0000;
    if ToNum(x) != x % 0x1_0000_0000 {
      assert x - ToNum(x) == (q + 1) * 0x1_0000_0000;
    }
  }

  // The verdict on a clause

  datatype Verdict = Keep | Drop | Reject

  /** The flags of parse_clause after it has compared every position before `n` with all
      positions in front of it. */
  datatype Flags = Flags(unclean: bool, alwaysTrue: bool)

  /** Two positions that the clause subscript can reach hold a literal and its negation. */
  ghost predicate HasComplement(c: Clause) {
    exists i, j :: 0 <= j < i < Min(|c|, INDEX_RANGE) && c[i] == -c[j]
  }

  /** A clause is dropped if it is always true, kept if its variables are distinct, and rejected
      otherwise. The subscript cuts its index to eight bits: positions from 256 on are not seen,
      they look like repetitions of the positions in front of them. */
  ghost function VerdictOf(c: Clause): Verdict {
    if HasComplement(c) then Drop
    else if DistinctVars(c) && |c| <= INDEX_RANGE then Keep
    else Reject
  }

  /** Position `i` shows the variable of an earlier position again. */
  ghost predicate Repeats(c: Clause, i: nat, j: nat) {
    j < i < |c| && Var(At(c, i)) == Var(At(c, j))
  }

  ghost predicate FlagsAgree(c: Clause, i: nat, j: nat, flags: Flags) {
    && (flags.unclean <==> exists k: nat, l: nat :: Seen(i, j, k, l) && Repeats(c, k, l) && At(c, k) == At(c, l))
    && (flags.alwaysTrue <==> exists k: nat, l: nat :: Seen(i, j, k, l) && Repeats(c, k, l) && At(c, k) != At(c, l))
  }

  /** The pair (k, l) comes before the pair (i, j) in the double loop. */
  ghost predicate Seen(i: nat, j: nat, k: nat, l: nat) {
    l < k && (k < i || (k == i && l < j))
  }

  method CheckClause(c: Clause) returns (flags: Flags)
    ensures FlagsAgree(c, |c|, 0, flags)
  {
    flags := Flags(false, false);
    for i := 0 to |c|
      invariant FlagsAgree(c, i, 0, flags)
    {
      for j := 0 to i
        invariant FlagsAgree(c, i, j, flags)
      {
        var litI, litJ := At(c, i), At(c, j);
        ghost var before := flags;
        if Var(litI) == Var(litJ) {
          if litI == litJ {
            flags := flags.(unclean := true);
          } else {
            flags := flags.(alwaysTrue := true);
          }
        }
        NextPair(c, i, j, before, flags);
      }
      NextRow(c, i, flags);
    }
  }

  lemma {:induction false} NextPair(c: Clause, i: nat, j: nat, before: Flags, after: Flags)
    requires j < i < |c| && FlagsAgree(c, i, j, before)
    requires after.unclean <==> before.unclean || (Repeats(c, i, j) && At(c, i) == At(c, j))
    requires after.alwaysTrue <==> before.alwaysTrue || (Repeats(c, i, j) && At(c, i) != At(c, j))
    ensures FlagsAgree(c, i, j + 1, after)
  {
    forall k: nat, l: nat
      ensures Seen(i, j + 1, k, l) <==> Seen(i, j, k, l) || (k == i && l == j)
    {
    }
    assert Seen(i, j + 1, i, j);
  }

  lemma {:induction false} NextRow(c: Clause, i: nat, flags: Flags)
    requires i < |c| && FlagsAgree(c, i, i, flags)
    ensures FlagsAgree(c, i + 1, 0, flags)
  {
    forall k: nat, l: nat
      ensures Seen(i + 1, 0, k, l) <==> Seen(i, i, k, l)
    {
    }
  }

  /** The flags decide the verdict. */
  lemma {:induction false} FlagsDecide(c: Clause, flags: Flags)
    requires FlagsAgree(c, |c|, 0, flags) && forall l | l in c :: l != 0
    ensures VerdictOf(c) == if flags.alwaysTrue then Drop else if flags.unclean then Reject else Keep
  {
    if flags.alwaysTrue {
      ComplementSeen(c, flags);
    } else {
      NoComplementSeen(c, flags);
      if flags.unclean {
        RepetitionSeen(c, flags);
      } else {
        NothingRepeats(c, flags);
      }
    }
  }

  lemma {:induction false} ComplementSeen(c: Clause, flags: Flags)
    requires FlagsAgree(c, |c|, 0, flags) && flags.alwaysTrue
    ensures HasComplement(c)
  {
    var k: nat, l: nat :| Seen(|c|, 0, k, l) && Repeats(c, k, l) && At(c, k) != At(c, l);
    var k', l' := k % INDEX_RANGE, l % INDEX_RANGE;
    assert 0 <= k' < Min(|c|, INDEX_RANGE) && 0 <= l' < Min(|c|, INDEX_RANGE);
    assert c[k'] == -c[l'] && c[l'] == -c[k'];
  }

  lemma {:induction false} NoComplementSeen(c: Clause, flags: Flags)
    requires FlagsAgree(c, |c|, 0, flags) && !flags.alwaysTrue && forall l | l in c :: l != 0
    ensures !HasComplement(c)
  {
    forall i: nat, j: nat | j < i < Min(|c|, INDEX_RANGE)
      ensures c[i] != -c[j]
    {
      assert Seen(|c|, 0, i, j);
      assert !(Repeats(c, i, j) && At(c, i) != At(c, j));
      assert c[i] in c;
    }
  }

  /** In a short clause the subscript shows every position. */
  lemma ShortIndex(c: Clause, i: nat)
    requires i < |c| <= INDEX_RANGE
    ensures At(c, i) == c[i]
  {
  }

  lemma {:induction false} RepetitionSeen(c: Clause, flags: Flags)
    requires FlagsAgree(c, |c|, 0, flags) && flags.unclean
    ensures |c| > INDEX_RANGE || !DistinctVars(c)
  {
    var k: nat, l: nat :| Seen(|c|, 0, k, l) && Repeats(c, k, l) && At(c, k) == At(c, l);
    if |c| <= INDEX_RANGE {
      ShortIndex(c, k);
      ShortIndex(c, l);
    }
  }

  lemma {:induction false} NothingRepeats(c: Clause, flags: Flags)
    requires FlagsAgree(c, |c|, 0, flags) && !flags.unclean && !flags.alwaysTrue
    ensures DistinctVars(c) && |c| <= INDEX_RANGE
  {
    forall i: nat, j: nat | j < i < |c|
      ensures !Repeats(c, i, j)
    {
      assert Seen(|c|, 0, i, j);
    }
    if |c| > INDEX_RANGE {
      assert Repeats(c, INDEX_RANGE, 0);
    }
    forall i, j | 0 <= j < i < |c|
      ensures Var(c[i]) != Var(c[j])
    {
      assert !Repeats(c, i, j);
    }
  }

  // Counting

  /** How often `lit` occurs in the first `i` positions of a clause. */
  ghost function CountIn(c: Clause, i: nat, lit: int): nat
    requires i <= |c|
  {
    if i == 0 then 0 else CountIn(c, i - 1, lit) + (if c[i - 1] == lit then 1 else 0)
  }

  /** How often `lit` occurs in a list of clauses. */
  ghost function CountInAll(f: Formula, lit: int): nat {
    if f == [] then 0
    else
      var last := f[|f| - 1];
      CountInAll(f[..|f| - 1], lit) + CountIn(last, |last|, lit)
  }

  /** `after` is `before` plus the first `i` tokens. */
  ghost predicate Tallied(before: seq<Count>, tokens: Clause, i: nat, after: seq<Count>)
    requires i <= |tokens|
  {
    && |after| == |before|
    && forall v: nat | v < |before| ::
         after[v] == Count(before[v].neg + CountIn(tokens, i, -(v + 1)), before[v].pos + CountIn(tokens, i, v + 1))
  }

  lemma TallyNext(before: seq<Count>, tokens: Clause, i: nat, counts: seq<Count>)
    requires i < |tokens| && IsLiteral(tokens[i], |before|) && Tallied(before, tokens, i, counts)
    ensures var v := Var(tokens[i]);
      Tallied(before, tokens, i + 1, counts[v := Incremented(counts[v], tokens[i])])
  {
  }

  /** No count ever goes down. */
  lemma {:induction false} CountInGrows(c: Clause, i: nat, j: nat, lit: int)
    requires i <= j <= |c|
    ensures CountIn(c, i, lit) <= CountIn(c, j, lit)
    decreases j
  {
    if i < j { CountInGrows(c, i, j - 1, lit); }
  }

  /** What the tokens of a line need in order to be counted: literals of existing variables, and
      counters that do not overflow. */
  ghost predicate Countable(counts: seq<Count>, tokens: Clause) {
    && InRange(tokens, |counts|)
    && forall v: nat | v < |counts| ::
         && counts[v].neg + CountIn(tokens, |tokens|, -(v + 1)) <= CNT_MAX
         && counts[v].pos + CountIn(tokens, |tokens|, v + 1) <= CNT_MAX
  }

  /** At a full counter the line is not countable. */
  lemma {:induction false} FullCounter(before: seq<Count>, tokens: Clause, i: nat, counts: seq<Count>)
    requires i < |tokens| && IsLiteral(tokens[i], |before|) && Tallied(before, tokens, i, counts)
    requires CountOf(counts[Var(tokens[i])], tokens[i]) >= CNT_MAX
    ensures !Countable(before, tokens)
  {
    var lit := tokens[i];
    var v: nat := Var(lit);
    CountInGrows(tokens, i + 1, |tokens|, lit);
    assert CountIn(tokens, i + 1, lit) == CountIn(tokens, i, lit) + 1;
    assert lit == v + 1 || lit == -(v + 1);
  }

  // Reading

  /** What has been read so far; `dropped` remembers the clauses that were counted, but not kept. */
  datatype Reading = Reading(numVars: nat, clauses: Formula, counts: seq<Count>, dropped: Formula)

  /** std::vector::resize. */
  function ResizedCounts(counts: seq<Count>, n: nat): (r: seq<Count>)
    ensures |r| == n
    ensures forall v | 0 <= v < n :: r[v] == if v < |counts| then counts[v] else Count(0, 0)
  {
    if n <= |counts| then counts[..n] else counts + seq(n - |counts|, _ => Count(0, 0))
  }

  ghost function TalliedCounts(before: seq<Count>, tokens: Clause): (after: seq<Count>)
    ensures Tallied(before, tokens, |tokens|, after)
  {
    seq(|before|, v requires 0 <= v < |before| =>
      Count(before[v].neg + CountIn(tokens, |tokens|, -(v + 1)), before[v].pos + CountIn(tokens, |tokens|, v + 1)))
  }

  predicate ConfigAccepted(wellFormed: bool, numVars: int, numClauses: int) {
    wellFormed && 1 <= ToNum(numVars) < NUM_MAX && 1 <= ToNum(numClauses) < NUM_MAX
  }

  ghost predicate ClauseAccepted(counts: seq<Count>, terminated: bool, tokens: Clause) {
    terminated && tokens != [] && Countable(counts, tokens) && VerdictOf(tokens) != Reject
  }

  /** The effect of one line; None is an exception. */
  ghost function AfterLine(r: Reading, line: Line): Option<Reading> {
    match line
    case Comment => Some(r)
    case Blank => Some(r)
    case Config(wellFormed, numVars, numClauses) =>
      if ConfigAccepted(wellFormed, numVars, numClauses)
      then Some(r.(numVars := ToNum(numVars), counts := ResizedCounts(r.counts, ToNum(numVars))))
      else None
    case ClauseLine(terminated, tokens) =>
      if !ClauseAccepted(r.counts, terminated, tokens) then None
      else if VerdictOf(tokens) == Keep
      then Some(r.(clauses := r.clauses + [tokens], counts := TalliedCounts(r.counts, tokens)))
      else Some(r.(dropped := r.dropped + [tokens], counts := TalliedCounts(r.counts, tokens)))
  }

  ghost function AfterLines(lines: seq<Line>): Option<Reading> {
    if lines == [] then Some(Reading(0, [], [], []))
    else
      var before := AfterLines(lines[..|lines| - 1]);
      if before.None? then None else AfterLine(before.value, lines[|lines| - 1])
  }

  class FormulaReader {
    var numVars: nat
    var clauses: Formula
    var counts: seq<Count>
    ghost var dropped: Formula

    ghost predicate Valid()
      reads this
    {
      |counts| == numVars && CountsFit(counts)
    }

    ghost function State(): Reading
      reads this
    {
      Reading(numVars, clauses, counts, dropped)
    }

    constructor ()
      ensures Valid() && State() == Reading(0, [], [], [])
    {
      numVars, clauses, counts, dropped := 0, [], [], [];
    }

    method ParseConfiguration(wellFormed: bool, declaredVars: int, declaredClauses: int) returns (ok: bool)
      requires Valid()
      modifies this
      ensures ok <==> AfterLine(old(State()), Config(wellFormed, declaredVars, declaredClauses)).Some?
      ensures ok ==> Valid()
      ensures ok ==> Some(State()) == AfterLine(old(State()), Config(wellFormed, declaredVars, declaredClauses))
    {
      if !wellFormed { return false; }
      var n := ToNum(declaredVars);
      if 1 > n || n >= NUM_MAX { return false; }
      var m := ToNum(declaredClauses);
      if 1 > m || m >= NUM_MAX { return false; }
      numVars := n;
      counts := ResizedCounts(counts, numVars);
      return true;
    }

    /** The counting loop: the counters are changed before the clause is judged. */
    method CountTokens(tokens: Clause) returns (ok: bool)
      requires Valid()
      modifies this`counts
      ensures ok <==> Countable(old(counts), tokens)
      ensures ok ==> Valid() && counts == TalliedCounts(old(counts), tokens)
    {
      for i := 0 to |tokens|
        invariant Valid() && Tallied(old(counts), tokens, i, counts)
        invariant forall j | 0 <= j < i :: IsLiteral(tokens[j], numVars)
      {
        var tmp := tokens[i];
        if 0 == tmp || Var(tmp) >= numVars {
          return false;
        }
        var index := Var(tmp);
        if CountOf(counts[index], tmp) == CNT_MAX {
          FullCounter(old(counts), tokens, i, counts);
          return false;
        }
        TallyNext(old(counts), tokens, i, counts);
        counts := counts[index := Incremented(counts[index], tmp)];
      }
      ok := true;
    }

    method ParseClause(terminated: bool, tokens: Clause) returns (ok: bool)
      requires Valid()
      modifies this
      ensures ok <==> AfterLine(old(State()), ClauseLine(terminated, tokens)).Some?
      ensures ok ==> Valid() && Some(State()) == AfterLine(old(State()), ClauseLine(terminated, tokens))
    {
      if !terminated { return false; }
      if |tokens| == 0 { return false; } // there is no number to read
      ok := CountTokens(tokens);
      if !ok { return; }
      var flags := CheckClause(tokens);
      FlagsDecide(tokens, flags);
      if !flags.alwaysTrue {
        if flags.unclean { return false; }
        clauses := clauses + [tokens];
      } else {
        dropped := dropped + [tokens];
      }
    }

    method Read(lines: seq<Line>) returns (ok: bool)
      requires State() == Reading(0, [], [], [])
      modifies this
      ensures ok <==> AfterLines(lines).Some?
      ensures ok ==> Valid() && Some(State()) == AfterLines(lines)
    {
      for i := 0 to |lines|
        invariant Valid() && Some(State()) == AfterLines(lines[..i])
      {
        assert lines[..i + 1][..i] == lines[..i];
        match lines[i] {
          case Comment =>
          case Blank =>
          case Config(wellFormed, declaredVars, declaredClauses) =>
            ok := ParseConfiguration(wellFormed, declaredVars, declaredClauses);
            if !ok { NoneStays(lines, i + 1); return; }
          case ClauseLine(terminated, tokens) =>
            ok := ParseClause(terminated, tokens);
            if !ok { NoneStays(lines, i + 1); return; }
        }
      }
      assert lines[..|lines|] == lines;
      ok := true;
    }
  }

  lemma {:induction false} NoneStays(lines: seq<Line>, i: nat)
    requires i <= |lines| && AfterLines(lines[..i]).None?
    ensures AfterLines(lines).None?
    decreases |lines|
  {
    if i == |lines| {
      assert lines[..i] == lines;
    } else {
      assert lines[..|lines| - 1][..i] == lines[..i];
      NoneStays(lines[..|lines| - 1], i);
    }
  }
}
