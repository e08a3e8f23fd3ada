/** What a flip does when the ranges of its variable hold more cells than occurrences: the cells that
    no occurrence claims read as clause 0. */
module SpoiledRanges {
  import opened Basics
  import opened Cnf
  import opened CacheStates
  import opened CnfFormulas
  import opened Input
  import opened Pipeline

  /** List and locations are mutual inverses, whatever the locations of satisfied clauses say. */
  ghost predicate Shape(s: Caches, n: nat) {
    && |s.location| == |s.crit| == n
    && (forall i | 0 <= i < |s.unsat| :: 0 <= s.unsat[i] < n && s.location[s.unsat[i]] == i)
    && (forall c | 0 <= c < n && 0 <= s.location[c] :: s.location[c] < |s.unsat| && s.unsat[s.location[c]] == c)
  }

  /** The number of satisfied literals that the location of a clause stands for. */
  function SatCount(s: Caches, c: nat): nat
    requires c < |s.location|
  {
    if s.location[c] >= 0 then 0 else -s.location[c]
  }

  function Minus(x: nat, y: nat): nat {
    if y < x then x - y else 0
  }

  lemma BrokenKeepsShape(s: Caches, n: nat, c: nat, literal: int, remaining: int)
    requires Shape(s, n) && c < n
    ensures Shape(Broken(s, c, literal, remaining), n)
    ensures forall d: nat | d < n ::
      SatCount(Broken(s, c, literal, remaining), d) == Minus(SatCount(s, d), if d == c then 1 else 0)
  {
  }

  lemma {:induction false} MadeKeepsShape(s: Caches, n: nat, c: nat, literal: int)
    requires Shape(s, n) && c < n
    ensures 0 <= s.location[c] ==> s.location[c] < |s.unsat| && 0 <= s.unsat[|s.unsat| - 1] < |s.location|
    ensures Shape(Made(s, c, literal), n)
    ensures forall d: nat | d < n ::
      SatCount(Made(s, c, literal), d) == SatCount(s, d) + (if d == c then 1 else 0)
  {
    if 0 <= s.location[c] { RemovedKeepsShape(s, n, c); }
  }

  lemma RemovedKeepsShape(s: Caches, n: nat, c: nat)
    requires Shape(s, n) && c < n && 0 <= s.location[c]
    ensures s.location[c] < |s.unsat| && 0 <= s.unsat[|s.unsat| - 1] < |s.location|
    ensures Shape(MadeSat(s, c), n)
    ensures forall d: nat | d < n :: SatCount(MadeSat(s, c), d) == if d == c then 1 else SatCount(s, d)
  {
  }

  /** The break loop of flip_literal over a range of the index. */
  ghost function BreakPass(f: Formula, a: seq<bool>, lit: int, s: Caches, cs: seq<int>): (r: Caches)
    requires Clean(f, |a|) && Shape(s, |f|) && AreClauses(cs, |f|)
    ensures Shape(r, |f|) && |r.breaks| == |s.breaks|
  {
    if cs == [] then s
    else
      var before, c := BreakPass(f, a, lit, s, cs[..|cs| - 1]), cs[|cs| - 1];
      var remaining := FirstTrue(f[c], a, -lit, 0);
      BrokenKeepsShape(before, |f|, c, lit, remaining);
      Broken(before, c, lit, remaining)
  }

  /** The make loop. */
  ghost function MakePass(n: nat, lit: int, s: Caches, cs: seq<int>): (r: Caches)
    requires Shape(s, n) && AreClauses(cs, n)
    ensures Shape(r, n) && |r.breaks| == |s.breaks|
  {
    if cs == [] then s
    else
      var before, c := MakePass(n, lit, s, cs[..|cs| - 1]), cs[|cs| - 1];
      MadeKeepsShape(before, n, c, lit);
      Made(before, c, lit)
  }

  /** The part of a flip that updates the caches, over the two ranges of the variable. */
  ghost function FlipOver(f: Formula, a: seq<bool>, lit: int, s: Caches, brk: seq<int>, mk: seq<int>): Caches
    requires Clean(f, |a|) && Shape(s, |f|) && AreClauses(brk, |f|) && AreClauses(mk, |f|)
  {
    MakePass(|f|, lit, BreakPass(f, a, lit, s, brk), mk)
  }

  // What the passes do to the counts of satisfied literals

  function Hits(cs: seq<int>, c: int): nat {
    if cs == [] then 0 else Hits(cs[..|cs| - 1], c) + (if cs[|cs| - 1] == c then 1 else 0)
  }

  lemma {:induction false} BreakPassCounts(f: Formula, a: seq<bool>, lit: int, s: Caches, cs: seq<int>, c: nat)
    requires Clean(f, |a|) && Shape(s, |f|) && AreClauses(cs, |f|) && c < |f|
    ensures SatCount(BreakPass(f, a, lit, s, cs), c) == Minus(SatCount(s, c), Hits(cs, c))
  {
    if cs != [] {
      var front, last := cs[..|cs| - 1], cs[|cs| - 1];
      BreakPassCounts(f, a, lit, s, front, c);
      BrokenKeepsShape(BreakPass(f, a, lit, s, front), |f|, last, lit, FirstTrue(f[last], a, -lit, 0));
    }
  }

  lemma {:induction false} MakePassCounts(n: nat, lit: int, s: Caches, cs: seq<int>, c: nat)
    requires Shape(s, n) && AreClauses(cs, n) && c < n
    ensures SatCount(MakePass(n, lit, s, cs), c) == SatCount(s, c) + Hits(cs, c)
  {
    if cs != [] {
      var front, last := cs[..|cs| - 1], cs[|cs| - 1];
      MakePassCounts(n, lit, s, front, c);
      MadeKeepsShape(MakePass(n, lit, s, front), n, last, lit);
    }
  }

  lemma {:induction false} HitsOfIncreasing(cs: seq<int>, c: int)
    requires StrictlyIncreasing(cs)
    ensures Hits(cs, c) == if c in cs then 1 else 0
  {
    if cs != [] {
      var front, last := cs[..|cs| - 1], cs[|cs| - 1];
      HitsOfIncreasing(front, c);
      assert cs == front + [last];
      assert last !in front by { assert forall k | 0 <= k < |front| :: front[k] < last; }
    }
  }

  lemma {:induction false} HitsOfPadded(cs: seq<int>, size: nat)
    requires |cs| <= size
    ensures Hits(Padded(cs, size), 0) == Hits(cs, 0) + (size - |cs|)
    decreases size - |cs|
  {
    if |cs| == size {
      assert Padded(cs, size) == cs;
    } else {
      HitsOfPadded(cs, size - 1);
      assert Padded(cs, size)[..size - 1] == Padded(cs, size - 1);
    }
  }

  // Flips over the ranges that some counts make

  ghost function Range(f: Formula, counts: seq<Count>, lit: int): (cs: seq<int>)
    requires IsLiteral(lit, |counts|) && |Occurrences(f, lit)| <= CountOf(counts[Var(lit)], lit)
  {
    Padded(Occurrences(f, lit), CountOf(counts[Var(lit)], lit))
  }

  /** The cells of a range that no occurrence claims. */
  ghost function Unclaimed(f: Formula, counts: seq<Count>, lit: int): int
    requires IsLiteral(lit, |counts|)
  {
    CountOf(counts[Var(lit)], lit) - |Occurrences(f, lit)|
  }

  lemma {:induction false} RangeOf(f: Formula, counts: seq<Count>, lit: int)
    requires Clean(f, |counts|) && f != [] && CountsCover(f, counts) && IsLiteral(lit, |counts|)
    ensures Unclaimed(f, counts, lit) >= 0
    ensures AreClauses(Range(f, counts, lit), |f|)
    ensures Hits(Range(f, counts, lit), 0) == (if lit in f[0] then 1 else 0) + Unclaimed(f, counts, lit)
  {
    var v: nat := Var(lit);
    assert lit == v + 1 || lit == -(v + 1);
    assert |Occurrences(f, -(v + 1))| <= counts[v].neg && |Occurrences(f, v + 1)| <= counts[v].pos;
    var occ := Occurrences(f, lit);
    OccurrencesOfClean(f, |counts|, lit);
    HitsOfIncreasing(occ, 0);
    HitsOfPadded(occ, CountOf(counts[v], lit));
    assert 0 in occ <==> 0 in OccurrenceSet(f, lit);
    forall k | 0 <= k < |Range(f, counts, lit)|
      ensures 0 <= Range(f, counts, lit)[k] < |f|
    {
      if k < |occ| { assert occ[k] in occ && occ[k] in OccurrenceSet(f, lit); }
    }
  }

  /** Caches that fit a formula and an assignment, and agree with its truth table. */
  ghost predicate Fresh(f: Formula, a: seq<bool>, s: Caches)
    requires Clean(f, |a|)
  {
    |s.location| == |s.crit| == |f| && |s.breaks| == |a| && Tracks(TruthTable(f, a), s)
  }

  lemma {:induction false} FreshHasShape(f: Formula, a: seq<bool>, s: Caches)
    requires Clean(f, |a|) && Fresh(f, a, s)
    ensures Shape(s, |f|)
    ensures forall c: nat | c < |f| :: SatCount(s, c) == |TrueLits(f[c], a)|
  {
    var t := TruthTable(f, a);
    forall c: nat | c < |f|
      ensures 0 <= s.location[c] <==> t[c] == {}
      ensures SatCount(s, c) == |t[c]|
    {
    }
  }

  /** The caches after a flip of `lit` over the ranges of its variable. */
  ghost function AfterFlip(f: Formula, counts: seq<Count>, a: seq<bool>, lit: int, s: Caches): Caches
    requires Clean(f, |a|) && |counts| == |a| && f != [] && CountsCover(f, counts) && IsLiteral(lit, |a|)
    requires Fresh(f, a, s)
  {
    RangeOf(f, counts, lit);
    RangeOf(f, counts, -lit);
    FreshHasShape(f, a, s);
    FlipOver(f, a, lit, s, Range(f, counts, -lit), Range(f, counts, lit))
  }

  lemma {:induction false} FlipCounts(f: Formula, counts: seq<Count>, a: seq<bool>, lit: int, s: Caches)
    requires Clean(f, |a|) && |counts| == |a| && f != [] && CountsCover(f, counts) && IsLiteral(lit, |a|)
    requires Fresh(f, a, s)
    ensures SatCount(AfterFlip(f, counts, a, lit, s), 0)
      == Minus(|TrueLits(f[0], a)|, Hits(Range(f, counts, -lit), 0)) + Hits(Range(f, counts, lit), 0)
  {
    var brk, mk := Range(f, counts, -lit), Range(f, counts, lit);
    RangeOf(f, counts, lit);
    RangeOf(f, counts, -lit);
    FreshHasShape(f, a, s);
    BreakPassCounts(f, a, lit, s, brk, 0);
    MakePassCounts(|f|, lit, BreakPass(f, a, lit, s, brk), mk, 0);
  }

  // Unclaimed cells spoil a flip

  /** The assignment that makes no literal of the clause true, except perhaps for variable `v`, and
      leaves `lit`, a literal of that variable, unsatisfied. */
  ghost function Against(c: Clause, n: nat, lit: int): (a: seq<bool>)
    requires IsLiteral(lit, n)
    ensures |a| == n
  {
    seq(n, v requires 0 <= v < n => if v == Var(lit) then lit < 0 else -(v + 1) in c)
  }

  lemma {:induction false} AgainstSatisfies(c: Clause, n: nat, lit: int)
    requires CleanClause(c, n) && IsLiteral(lit, n)
    ensures var a := Against(c, n, lit);
      !Holds(lit, a) && TrueLits(c, a) == if -lit in c then {-lit} else {}
  {
    var a := Against(c, n, lit);
    forall l | l in c
      ensures Holds(l, a) <==> l == -lit
    {
      if Var(l) != Var(lit) { NoComplement(c, l); }
    }
  }

  /** With unclaimed cells in the range of a literal there is an assignment from which its flip leaves
      caches that no longer agree with the assignment: the location of clause 0 is wrong. */
  lemma {:induction false} UnclaimedCellsSpoil(f: Formula, counts: seq<Count>, lit: int, s: Caches)
    requires Clean(f, |counts|) && f != [] && CountsCover(f, counts) && IsLiteral(lit, |counts|)
    requires Unclaimed(f, counts, lit) > 0
    requires Fresh(f, Against(f[0], |counts|, lit), s)
    ensures var a := Against(f[0], |counts|, lit);
      !Holds(lit, a) && !Fresh(f, Flipped(a, Var(lit)), AfterFlip(f, counts, a, lit, s))
  {
    var a := Against(f[0], |counts|, lit);
    AgainstSatisfies(f[0], |counts|, lit);
    FlipTrueLits(f[0], a, lit);
    NoBoth(f[0], |counts|, lit);
    RangeOf(f, counts, lit);
    RangeOf(f, counts, -lit);
    FlipCounts(f, counts, a, lit, s);
    var s' := AfterFlip(f, counts, a, lit, s);
    if Fresh(f, Flipped(a, Var(lit)), s') { FreshHasShape(f, Flipped(a, Var(lit)), s'); }
  }

  lemma {:induction false} NoBoth(c: Clause, n: nat, lit: int)
    requires CleanClause(c, n) && IsLiteral(lit, n)
    ensures !(lit in c && -lit in c)
  {
    if lit in c { NoComplement(c, lit); }
  }

  // Exact ranges are safe

  lemma {:induction false} NextBroken(f: Formula, a: seq<bool>, lit: int, s: Caches, j: nat, c: int)
    requires Clean(f, |a|) && Shape(s, |f|) && |s.breaks| == |a| && IsLiteral(lit, |a|) && !Holds(lit, a)
    requires j < |Occurrences(f, -lit)| && c == Occurrences(f, -lit)[j] && 0 <= c < |f|
    requires Tracks(BreakTable(f, a, lit, j), s)
    ensures Tracks(BreakTable(f, a, lit, j + 1), Broken(s, c, lit, FirstTrue(f[c], a, -lit, 0)))
  {
    NextBreakTable(f, a, lit, j, c);
    RemainingLiterals(f[c], a, -lit);
    TrueLitsAreLiterals(f[c], a);
    TracksBroken(BreakTable(f, a, lit, j), s, c, lit, FirstTrue(f[c], a, -lit, 0));
  }

  lemma {:induction false} NextMade(f: Formula, a: seq<bool>, lit: int, s: Caches, j: nat, c: int)
    requires Clean(f, |a|) && Shape(s, |f|) && |s.breaks| == |a| && IsLiteral(lit, |a|) && !Holds(lit, a)
    requires j < |Occurrences(f, lit)| && c == Occurrences(f, lit)[j] && 0 <= c < |f|
    requires Tracks(MakeTable(f, a, lit, j), s)
    ensures 0 <= s.location[c] ==> s.location[c] < |s.unsat| && 0 <= s.unsat[|s.unsat| - 1] < |s.location|
    ensures Tracks(MakeTable(f, a, lit, j + 1), Made(s, c, lit))
  {
    NextMakeTable(f, a, lit, j, c);
    TrueLitsAreLiterals(f[c], a);
    TracksMade(MakeTable(f, a, lit, j), s, c, lit);
  }

  lemma {:induction false} BreakPassTracks(f: Formula, a: seq<bool>, lit: int, s: Caches, j: nat)
    requires Clean(f, |a|) && IsLiteral(lit, |a|) && !Holds(lit, a)
    requires Shape(s, |f|) && |s.breaks| == |a| && Tracks(BreakTable(f, a, lit, 0), s)
    requires j <= |Occurrences(f, -lit)| && AreClauses(Occurrences(f, -lit), |f|)
    ensures Tracks(BreakTable(f, a, lit, j), BreakPass(f, a, lit, s, Occurrences(f, -lit)[..j]))
  {
    if j > 0 {
      var brk := Occurrences(f, -lit);
      BreakPassTracks(f, a, lit, s, j - 1);
      assert brk[..j][..j - 1] == brk[..j - 1];
      NextBroken(f, a, lit, BreakPass(f, a, lit, s, brk[..j - 1]), j - 1, brk[j - 1]);
    }
  }

  lemma {:induction false} MakePassTracks(f: Formula, a: seq<bool>, lit: int, s: Caches, j: nat)
    requires Clean(f, |a|) && IsLiteral(lit, |a|) && !Holds(lit, a)
    requires Shape(s, |f|) && |s.breaks| == |a| && Tracks(MakeTable(f, a, lit, 0), s)
    requires j <= |Occurrences(f, lit)| && AreClauses(Occurrences(f, lit), |f|)
    ensures Tracks(MakeTable(f, a, lit, j), MakePass(|f|, lit, s, Occurrences(f, lit)[..j]))
  {
    if j > 0 {
      var mk := Occurrences(f, lit);
      MakePassTracks(f, a, lit, s, j - 1);
      assert mk[..j][..j - 1] == mk[..j - 1];
      NextMade(f, a, lit, MakePass(|f|, lit, s, mk[..j - 1]), j - 1, mk[j - 1]);
    }
  }

  lemma {:induction false} ExactRangeIs(f: Formula, counts: seq<Count>, lit: int)
    requires Clean(f, |counts|) && IsLiteral(lit, |counts|) && Unclaimed(f, counts, lit) == 0
    ensures Range(f, counts, lit) == Occurrences(f, lit)
  {
    assert Zeros(0) == [];
  }

  lemma {:induction false} OccurrencesAreClauses(f: Formula, n: nat, lit: int)
    requires Clean(f, n)
    ensures AreClauses(Occurrences(f, lit), |f|)
  {
    var occ := Occurrences(f, lit);
    OccurrencesOfClean(f, n, lit);
    forall k | 0 <= k < |occ|
      ensures 0 <= occ[k] < |f|
    {
      assert occ[k] in occ && occ[k] in OccurrenceSet(f, lit);
    }
  }

  /** Over the lists of occurrences a flip leads to the truth table of the flipped assignment. */
  lemma {:induction false} FlipOverTracks(f: Formula, a: seq<bool>, lit: int, s: Caches)
    requires Clean(f, |a|) && IsLiteral(lit, |a|) && !Holds(lit, a) && Fresh(f, a, s) && Shape(s, |f|)
    requires AreClauses(Occurrences(f, -lit), |f|) && AreClauses(Occurrences(f, lit), |f|)
    ensures Fresh(f, Flipped(a, Var(lit)), FlipOver(f, a, lit, s, Occurrences(f, -lit), Occurrences(f, lit)))
  {
    var brk, mk := Occurrences(f, -lit), Occurrences(f, lit);
    FlipTables(f, a, lit);
    assert brk[..|brk|] == brk && mk[..|mk|] == mk;
    BreakPassTracks(f, a, lit, s, |brk|);
    MakePassTracks(f, a, lit, BreakPass(f, a, lit, s, brk), |mk|);
  }

  lemma {:induction false} ExactFlipTracks(f: Formula, counts: seq<Count>, a: seq<bool>, lit: int, s: Caches)
    requires Clean(f, |a|) && |counts| == |a| && f != [] && CountsCover(f, counts)
    requires IsLiteral(lit, |a|) && !Holds(lit, a) && Fresh(f, a, s)
    requires Unclaimed(f, counts, lit) == 0 && Unclaimed(f, counts, -lit) == 0
    ensures Fresh(f, Flipped(a, Var(lit)), AfterFlip(f, counts, a, lit, s))
  {
    ExactRangeIs(f, counts, lit);
    ExactRangeIs(f, counts, -lit);
    OccurrencesAreClauses(f, |a|, lit);
    OccurrencesAreClauses(f, |a|, -lit);
    FreshHasShape(f, a, s);
    FlipOverTracks(f, a, lit, s);
    assert AfterFlip(f, counts, a, lit, s) == FlipOver(f, a, lit, s, Occurrences(f, -lit), Occurrences(f, lit));
  }

  // The exact condition

  /** From every assignment and caches that agree with it, the flip of the literal leads to caches that
      agree with the flipped assignment. */
  ghost predicate FlipIsSafe(f: Formula, counts: seq<Count>, lit: int)
    requires Clean(f, |counts|) && f != [] && CountsCover(f, counts) && IsLiteral(lit, |counts|)
  {
    forall a, s | |a| == |counts| && !Holds(lit, a) && Fresh(f, a, s) ::
      Fresh(f, Flipped(a, Var(lit)), AfterFlip(f, counts, a, lit, s))
  }

  /** There are caches for every assignment: those of the first pass. */
  lemma {:induction false} FreshUpTo(f: Formula, a: seq<bool>, c: nat) returns (s: Caches)
    requires Clean(f, |a|) && c <= |f|
    ensures |s.location| == |s.crit| == |f| && |s.breaks| == |a| && Tracks(TruthTable(f, a)[..c], s)
  {
    var t := TruthTable(f, a);
    if c == 0 {
      s := Caches([], seq(|f|, _ => 0), seq(|a|, _ => 0), seq(|f|, _ => 0));
      TracksNothing(s);
      assert t[..0] == [];
    } else {
      var before := FreshUpTo(f, a, c - 1);
      var lits, first := t[c - 1], FirstTrue(f[c - 1], a, 0, 0);
      FirstTrueFinds(f[c - 1], a, 0);
      TrueLitsAreLiterals(f[c - 1], a);
      assert 0 !in lits && lits - {0} == lits;
      TracksClassified(t[..c - 1], before, lits, first);
      s := Classified(before, c - 1, |lits|, first);
      assert t[..c] == t[..c - 1] + [lits];
    }
  }

  lemma {:induction false} FreshExists(f: Formula, a: seq<bool>) returns (s: Caches)
    requires Clean(f, |a|)
    ensures Fresh(f, a, s)
  {
    s := FreshUpTo(f, a, |f|);
    assert TruthTable(f, a)[..|f|] == TruthTable(f, a);
  }

  lemma {:induction false} UnclaimedIsUnsafe(f: Formula, counts: seq<Count>, lit: int)
    requires Clean(f, |counts|) && f != [] && CountsCover(f, counts) && IsLiteral(lit, |counts|)
    requires Unclaimed(f, counts, lit) > 0
    ensures !FlipIsSafe(f, counts, lit)
  {
    var s := FreshExists(f, Against(f[0], |counts|, lit));
    UnclaimedCellsSpoil(f, counts, lit, s);
  }

  lemma {:induction false} ExactIsSafe(f: Formula, counts: seq<Count>, lit: int)
    requires Clean(f, |counts|) && f != [] && CountsCover(f, counts) && IsLiteral(lit, |counts|)
    requires Unclaimed(f, counts, lit) == 0 && Unclaimed(f, counts, -lit) == 0
    ensures FlipIsSafe(f, counts, lit)
  {
    forall a, s | |a| == |counts| && !Holds(lit, a) && Fresh(f, a, s)
      ensures Fresh(f, Flipped(a, Var(lit)), AfterFlip(f, counts, a, lit, s))
    {
      ExactFlipTracks(f, counts, a, lit, s);
    }
  }

  /** Both flips of the variable are safe. */
  ghost predicate VariableIsSafe(f: Formula, counts: seq<Count>, v: nat)
    requires Clean(f, |counts|) && f != [] && CountsCover(f, counts) && v < |counts|
  {
    FlipIsSafe(f, counts, v + 1) && FlipIsSafe(f, counts, -(v + 1))
  }

  lemma ExactIffAllClaimed(f: Formula, counts: seq<Count>, v: nat)
    requires v < |counts|
    requires CountsCover(f, counts)
    ensures Unclaimed(f, counts, v + 1) >= 0 && Unclaimed(f, counts, -(v + 1)) >= 0
    ensures ExactAt(f, counts, v) <==> Unclaimed(f, counts, v + 1) == 0 && Unclaimed(f, counts, -(v + 1)) == 0
  {
  }

  /** The flips of a variable are safe if and only if its counts are exact. */
  lemma {:induction false} SafeIffExact(f: Formula, counts: seq<Count>, v: nat)
    requires Clean(f, |counts|) && f != [] && CountsCover(f, counts) && v < |counts|
    ensures VariableIsSafe(f, counts, v) <==> ExactAt(f, counts, v)
  {
    ExactIffAllClaimed(f, counts, v);
    if ExactAt(f, counts, v) {
      ExactIsSafe(f, counts, v + 1);
      ExactIsSafe(f, counts, -(v + 1));
    } else if Unclaimed(f, counts, v + 1) > 0 {
      UnclaimedIsUnsafe(f, counts, v + 1);
    } else {
      UnclaimedIsUnsafe(f, counts, -(v + 1));
    }
  }

  /** Every flip of a variable of the formula is safe. */
  ghost predicate FlipsAreSafe(f: Formula, counts: seq<Count>)
    requires Clean(f, |counts|) && CountsCover(f, counts)
  {
    f != [] ==> forall v: nat | v < |counts| && Used(f, v) :: VariableIsSafe(f, counts, v)
  }

  /** For a covered file the flips of all variables in use are safe if and only if no tautology of the
      file shares a variable with another clause. */
  lemma {:induction false} FlipsAreSafeIffApart(lines: seq<Line>)
    requires AfterLines(lines).Some? && Covers(lines)
    ensures var r := AfterLines(lines).value;
      && Sound(r) && CountsCover(r.clauses, r.counts)
      && (FlipsAreSafe(r.clauses, r.counts) <==> TautologiesApart(lines))
  {
    var r := AfterLines(lines).value;
    AcceptedIsSound(lines);
    AcceptedCountsCover(r);
    ExactWhereUsedIffApart(lines);
    if r.clauses != [] {
      forall v: nat | v < |r.counts|
        ensures VariableIsSafe(r.clauses, r.counts, v) <==> ExactAt(r.clauses, r.counts, v)
      {
        SafeIffExact(r.clauses, r.counts, v);
      }
    } else {
      forall v: nat ensures !Used(r.clauses, v) {}
    }
  }
}
