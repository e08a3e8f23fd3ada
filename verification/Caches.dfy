/** The four structures a solver keeps beside its assignment, the steps by which a flip updates
    them, and what it means that they agree with a truth table: the set of satisfied literals
    of every clause.

    A flip moves through truth tables that belong to no assignment, because it visits one
    clause after the other. The agreement is therefore stated for an arbitrary table. */
module CacheStates {
  import opened Cnf

  /** - unsat: the list of unsatisfied clauses, in no particular order
      - location: the index of a clause in that list if it is in it, otherwise minus the number
        of its satisfied literals
      - breaks: per variable, the number of clauses a flip of it would break
      - crit: per clause, the critical literal; only meaningful while exactly one literal is
        satisfied */
  datatype Caches = Caches(unsat: seq<int>, location: seq<int>, breaks: seq<int>, crit: seq<int>)

  type Table = seq<set<int>>

  /** cnt_t. */
  newtype Int16 = x: int | -0x8000 <= x < 0x8000

  function Ints(s: seq<Int16>): (r: seq<int>)
    ensures |r| == |s| && forall i | 0 <= i < |s| :: r[i] == s[i] as int
  {
    seq(|s|, i requires 0 <= i < |s| => s[i] as int)
  }

  predicate FitsInt16(s: seq<int>) {
    forall i | 0 <= i < |s| :: -0x8000 <= s[i] < 0x8000
  }

  // The steps

  /** make_clause_unsat. */
  function MadeUnsat(s: Caches, c: nat): Caches
    requires c < |s.location|
  {
    s.(unsat := s.unsat + [c], location := s.location[c := |s.unsat|])
  }

  /** make_clause_sat: the last entry of the list takes the place of the removed one. */
  function MadeSat(s: Caches, c: nat): Caches
    requires c < |s.location| && 0 <= s.location[c] < |s.unsat|
    requires 0 <= s.unsat[|s.unsat| - 1] < |s.location|
  {
    var i, last := s.location[c], |s.unsat| - 1;
    if i == last then
      s.(unsat := s.unsat[..last], location := s.location[c := -1])
    else
      s.(unsat := s.unsat[..last][i := s.unsat[last]],
         location := s.location[c := -1][s.unsat[last] := i])
  }

  function AddBreaks(s: Caches, lit: int, d: int): Caches {
    if 0 <= Var(lit) < |s.breaks| then
      s.(breaks := s.breaks[Var(lit) := s.breaks[Var(lit)] + d])
    else
      s
  }

  /** The body of the break loop of flip_literal; `remaining` is the satisfied literal that is
      found beside the negation of `literal`. */
  function Broken(s: Caches, c: nat, literal: int, remaining: int): Caches
    requires c < |s.location| == |s.crit|
  {
    var ucl := s.location[c];
    if 0 <= ucl then
      s
    else if -1 == ucl then
      AddBreaks(MadeUnsat(s, c), literal, -1).(crit := s.crit[c := 0])
    else
      var s' := s.(location := s.location[c := ucl + 1]);
      if -2 == ucl then AddBreaks(s', remaining, 1).(crit := s.crit[c := remaining]) else s'
  }

  /** The body of the make loop of flip_literal. */
  function Made(s: Caches, c: nat, literal: int): Caches
    requires c < |s.location| == |s.crit|
    requires 0 <= s.location[c] ==>
      s.location[c] < |s.unsat| && 0 <= s.unsat[|s.unsat| - 1] < |s.location|
  {
    var ucl := s.location[c];
    if 0 <= ucl then
      AddBreaks(MadeSat(s, c), literal, 1).(crit := s.crit[c := literal])
    else
      var s' := s.(location := s.location[c := ucl - 1]);
      if -1 == ucl then AddBreaks(s', s.crit[c], -1) else s'
  }

  /** The classification of one clause by initialize, from its number of satisfied literals and
      the first of them. */
  function Classified(s: Caches, c: nat, numSatLit: nat, critLiteral: int): Caches
    requires c < |s.location| == |s.crit|
  {
    if numSatLit == 0 then
      MadeUnsat(s, c)
    else
      var s' := s.(location := s.location[c := 0 - numSatLit]);
      if numSatLit == 1 then AddBreaks(s', critLiteral, 1).(crit := s.crit[c := critLiteral]) else s'
  }

  // Agreement with a truth table

  ghost predicate ListTracks(t: Table, unsat: seq<int>, location: seq<int>) {
    && |t| <= |location|
    && (forall i | 0 <= i < |unsat| :: 0 <= unsat[i] < |t| && location[unsat[i]] == i)
    && (forall c | 0 <= c < |t| && t[c] == {} :: 0 <= location[c] < |unsat| && unsat[location[c]] == c)
    && (forall c | 0 <= c < |t| && t[c] != {} :: location[c] == -|t[c]|)
  }

  /** `s` consists of one literal, and that literal belongs to variable `v`. */
  ghost predicate OnlyVar(s: set<int>, v: int) {
    s == {v + 1} || s == {-(v + 1)}
  }

  /** The clauses whose only satisfied literal belongs to variable `v`. */
  ghost function CriticalClauses(t: Table, v: int): set<int> {
    set c | 0 <= c < |t| && OnlyVar(t[c], v)
  }

  ghost predicate BreaksTrack(t: Table, breaks: seq<int>) {
    forall v | 0 <= v < |breaks| :: breaks[v] == |CriticalClauses(t, v)|
  }

  ghost predicate CritTracks(t: Table, crit: seq<int>) {
    && |t| <= |crit|
    && forall c | 0 <= c < |t| && |t[c]| == 1 :: crit[c] in t[c]
  }

  ghost predicate Tracks(t: Table, s: Caches) {
    ListTracks(t, s.unsat, s.location) && BreaksTrack(t, s.breaks) && CritTracks(t, s.crit)
  }

  // The list

  lemma ListAfterMakeUnsat(t: Table, unsat: seq<int>, location: seq<int>, c: nat)
    requires ListTracks(t, unsat, location) && c < |t| && t[c] != {}
    ensures ListTracks(t[c := {}], unsat + [c], location[c := |unsat|])
  {
  }

  lemma ListAfterMakeSat(t: Table, s: Caches, c: nat, lit: int)
    requires ListTracks(t, s.unsat, s.location) && c < |t| && t[c] == {}
    ensures var s' := MadeSat(s, c);
      ListTracks(t[c := {lit}], s'.unsat, s'.location)
  {
  }

  /** A clause that stays satisfied only has its count adjusted. */
  lemma ListAfterRecount(t: Table, unsat: seq<int>, location: seq<int>, c: nat, lits: set<int>)
    requires ListTracks(t, unsat, location) && c < |t| && t[c] != {} && lits != {}
    ensures ListTracks(t[c := lits], unsat, location[c := -|lits|])
  {
  }

  lemma ListAfterAppend(t: Table, unsat: seq<int>, location: seq<int>, lits: set<int>)
    requires ListTracks(t, unsat, location) && |t| < |location|
    ensures lits == {} ==> ListTracks(t + [lits], unsat + [|t|], location[|t| := |unsat|])
    ensures lits != {} ==> ListTracks(t + [lits], unsat, location[|t| := -|lits|])
  {
  }

  // The counters

  lemma CriticalAfterUpdate(t: Table, c: nat, lits: set<int>, v: int)
    requires c < |t|
    ensures CriticalClauses(t[c := lits], v)
         == if OnlyVar(lits, v) then CriticalClauses(t, v) + {c} else CriticalClauses(t, v) - {c}
  {
  }

  /** What an update of one clause costs the counters: the variable that was critical loses
      one, the variable that becomes critical gains one. */
  lemma {:induction false} BreaksAfterUpdate(t: Table, breaks: seq<int>, breaks': seq<int>, c: nat, lits: set<int>)
    requires BreaksTrack(t, breaks) && c < |t| && |breaks'| == |breaks|
    requires forall v | 0 <= v < |breaks| ::
      breaks'[v] == breaks[v] - (if OnlyVar(t[c], v) then 1 else 0) + (if OnlyVar(lits, v) then 1 else 0)
    ensures BreaksTrack(t[c := lits], breaks')
  {
    forall v | 0 <= v < |breaks|
      ensures breaks'[v] == |CriticalClauses(t[c := lits], v)|
    {
      CriticalAfterUpdate(t, c, lits, v);
      assert c in CriticalClauses(t, v) <==> OnlyVar(t[c], v);
    }
  }

  lemma {:induction false} BreaksAfterAppend(t: Table, breaks: seq<int>, breaks': seq<int>, lits: set<int>)
    requires BreaksTrack(t, breaks) && |breaks'| == |breaks|
    requires forall v | 0 <= v < |breaks| :: breaks'[v] == breaks[v] + (if OnlyVar(lits, v) then 1 else 0)
    ensures BreaksTrack(t + [lits], breaks')
  {
    forall v | 0 <= v < |breaks|
      ensures breaks'[v] == |CriticalClauses(t + [lits], v)|
    {
      assert CriticalClauses(t + [lits], v) == CriticalClauses(t, v) + (if OnlyVar(lits, v) then {|t|} else {});
    }
  }

  lemma {:induction false} SingletonIs(s: set<int>, x: int)
    requires |s| == 1 && x in s
    ensures s == {x}
  {
    assert |s - {x}| == 0;
  }

  /** Which variables a set of literals makes critical: none unless it is a singleton, and then
      the variable of its one literal. */
  lemma {:induction false} OnlyVarOf(s: set<int>, lit: int, v: nat)
    ensures |s| != 1 ==> !OnlyVar(s, v)
    ensures |s| == 1 && lit in s && lit != 0 ==> (OnlyVar(s, v) <==> v == Var(lit))
  {
    if |s| == 1 && lit in s {
      SingletonIs(s, lit);
      assert s == {v + 1} ==> lit in {v + 1};
      assert s == {-(v + 1)} ==> lit in {-(v + 1)};
    }
  }

  // The steps keep the agreement

  /** Taking the negation of the flipped literal out of a clause. */
  lemma {:induction false} TracksBroken(t: Table, s: Caches, c: nat, literal: int, remaining: int)
    requires Tracks(t, s) && |s.location| == |s.crit| && c < |t| && -literal in t[c]
    requires forall l | l in t[c] :: l != 0 && 0 <= Var(l) < |s.breaks|
    requires var others := t[c] - {-literal}; others != {} ==> remaining in others
    ensures Tracks(t[c := t[c] - {-literal}], Broken(s, c, literal, remaining))
  {
    var lits, lits' := t[c], t[c] - {-literal};
    var s' := Broken(s, c, literal, remaining);
    assert lits == lits' + {-literal};
    assert |lits| == |lits'| + 1;
    if lits' == {} {
      ListAfterMakeUnsat(t, s.unsat, s.location, c);
    } else {
      ListAfterRecount(t, s.unsat, s.location, c, lits');
    }
    forall v | 0 <= v < |s.breaks|
      ensures s'.breaks[v] == s.breaks[v] - (if OnlyVar(lits, v) then 1 else 0) + (if OnlyVar(lits', v) then 1 else 0)
    {
      OnlyVarOf(lits, -literal, v);
      OnlyVarOf(lits', remaining, v);
    }
    BreaksAfterUpdate(t, s.breaks, s'.breaks, c, lits');
  }

  /** Adding the flipped literal to a clause. */
  lemma {:induction false} TracksMade(t: Table, s: Caches, c: nat, literal: int)
    requires Tracks(t, s) && |s.location| == |s.crit| && c < |t| && literal !in t[c]
    requires literal != 0 && 0 <= Var(literal) < |s.breaks|
    requires forall l | l in t[c] :: l != 0 && 0 <= Var(l) < |s.breaks|
    ensures Tracks(t[c := t[c] + {literal}], Made(s, c, literal))
  {
    var lits, lits' := t[c], t[c] + {literal};
    var s' := Made(s, c, literal);
    assert |lits'| == |lits| + 1;
    if lits == {} {
      assert lits' == {literal};
      ListAfterMakeSat(t, s, c, literal);
    } else {
      ListAfterRecount(t, s.unsat, s.location, c, lits');
    }
    forall v | 0 <= v < |s.breaks|
      ensures s'.breaks[v] == s.breaks[v] - (if OnlyVar(lits, v) then 1 else 0) + (if OnlyVar(lits', v) then 1 else 0)
    {
      OnlyVarOf(lits, s.crit[c], v);
      OnlyVarOf(lits', literal, v);
    }
    BreaksAfterUpdate(t, s.breaks, s'.breaks, c, lits');
  }

  /** Classifying the next clause. */
  lemma {:induction false} TracksClassified(t: Table, s: Caches, lits: set<int>, critLiteral: int)
    requires Tracks(t, s) && |t| < |s.location| == |s.crit|
    requires lits != {} ==> critLiteral in lits
    requires forall l | l in lits :: l != 0 && 0 <= Var(l) < |s.breaks|
    ensures Tracks(t + [lits], Classified(s, |t|, |lits|, critLiteral))
  {
    var s' := Classified(s, |t|, |lits|, critLiteral);
    ListAfterAppend(t, s.unsat, s.location, lits);
    forall v | 0 <= v < |s.breaks|
      ensures s'.breaks[v] == s.breaks[v] + (if OnlyVar(lits, v) then 1 else 0)
    {
      OnlyVarOf(lits, critLiteral, v);
    }
    BreaksAfterAppend(t, s.breaks, s'.breaks, lits);
  }

  // What a truth table determines

  ghost function UnsatClauses(t: Table): set<int> {
    set c | 0 <= c < |t| && t[c] == {}
  }

  lemma {:induction false} DistinctCount(s: seq<int>, elements: set<int>)
    requires forall i, j | 0 <= i < j < |s| :: s[i] != s[j]
    requires forall x :: x in s <==> x in elements
    ensures |s| == |elements| && multiset(s) == multiset(elements)
  {
    if s == [] {
      assert forall x | x in elements :: x in s;
    } else {
      var last := s[|s| - 1];
      assert last in s;
      assert s == s[..|s| - 1] + [last];
      DistinctCount(s[..|s| - 1], elements - {last});
      assert elements == (elements - {last}) + {last};
      assert multiset(elements) == multiset(elements - {last}) + multiset{last};
    }
  }

  /** The list holds exactly the unsatisfied clauses, each once. */
  lemma {:induction false} ListHoldsUnsatClauses(t: Table, unsat: seq<int>, location: seq<int>)
    requires ListTracks(t, unsat, location)
    ensures |unsat| == |UnsatClauses(t)| && multiset(unsat) == multiset(UnsatClauses(t))
  {
    assert forall i, j | 0 <= i < j < |unsat| :: location[unsat[i]] != location[unsat[j]];
    DistinctCount(unsat, UnsatClauses(t));
  }

  /** Two sets of caches for the same truth table agree in everything but the order of the list
      and the stale entries: the same clauses are listed, every satisfied count, every break
      counter and every meaningful critical literal is the same. */
  lemma {:induction false} SameTableSameCaches(t: Table, s: Caches, s': Caches)
    requires Tracks(t, s) && Tracks(t, s') && |s.breaks| == |s'.breaks|
    ensures multiset(s.unsat) == multiset(s'.unsat)
    ensures forall c | 0 <= c < |t| && t[c] != {} :: s.location[c] == s'.location[c]
    ensures s.breaks == s'.breaks
    ensures forall c | 0 <= c < |t| && |t[c]| == 1 :: s.crit[c] == s'.crit[c]
  {
    ListHoldsUnsatClauses(t, s.unsat, s.location);
    ListHoldsUnsatClauses(t, s'.unsat, s'.location);
    forall c | 0 <= c < |t| && |t[c]| == 1
      ensures s.crit[c] == s'.crit[c]
    {
      SingletonIs(t[c], s.crit[c]);
    }
  }

  lemma {:induction false} SubsetSize(a: set<int>, b: set<int>)
    requires a <= b
    ensures |a| <= |b|
  {
    assert b == a + (b - a);
  }

  /** No counter exceeds the number of clauses in which the true literal of its variable occurs,
      as long as the table stays below the truth table of an assignment. */
  lemma {:induction false} CriticalWithinOccurrences(f: Formula, a: seq<bool>, t: Table, v: nat)
    requires Clean(f, |a|) && |t| <= |f| && v < |a|
    requires forall c | 0 <= c < |t| :: t[c] <= TrueLits(f[c], a)
    ensures |CriticalClauses(t, v)| <= |Occurrences(f, if a[v] then v + 1 else -(v + 1))|
  {
    var lit := if a[v] then v + 1 else -(v + 1);
    OccurrencesOfClean(f, |a|, lit);
    var critical := CriticalClauses(t, v);
    forall c | c in critical
      ensures c in OccurrenceSet(f, lit)
    {
      assert (v + 1) in t[c] || -(v + 1) in t[c];
    }
    SubsetSize(critical, OccurrenceSet(f, lit));
  }

  /** The tables a flip moves through stay below the truth table of an assignment. */
  ghost predicate Below(t: Table, f: Formula, a: seq<bool>)
    requires Clean(f, |a|)
  {
    |t| <= |f| && forall c | 0 <= c < |t| :: t[c] <= TrueLits(f[c], a)
  }

  lemma {:induction false} CountersInRange(f: Formula, a: seq<bool>, t: Table, s: Caches, m: nat)
    requires Clean(f, |a|) && Below(t, f, a) && OccurrencesBounded(f, |a|, m)
    requires BreaksTrack(t, s.breaks) && |s.breaks| == |a|
    ensures forall v | 0 <= v < |s.breaks| :: 0 <= s.breaks[v] <= m
  {
    forall v: nat | v < |s.breaks|
      ensures 0 <= s.breaks[v] <= m
    {
      CriticalWithinOccurrences(f, a, t, v);
    }
  }

  lemma TrueLitsAreLiterals(c: Clause, a: seq<bool>)
    requires CleanClause(c, |a|)
    ensures forall l | l in TrueLits(c, a) :: l in c && IsLiteral(l, |a|) && Holds(l, a)
  {
  }

  // The tables of a flip

  ghost function Without(t: Table, cs: seq<int>, lit: int): (t': Table)
    ensures |t'| == |t|
    ensures forall c | 0 <= c < |t| :: t'[c] == if c in cs then t[c] - {lit} else t[c]
  {
    seq(|t|, c requires 0 <= c < |t| => if c in cs then t[c] - {lit} else t[c])
  }

  ghost function With(t: Table, cs: seq<int>, lit: int): (t': Table)
    ensures |t'| == |t|
    ensures forall c | 0 <= c < |t| :: t'[c] == if c in cs then t[c] + {lit} else t[c]
  {
    seq(|t|, c requires 0 <= c < |t| => if c in cs then t[c] + {lit} else t[c])
  }

  lemma {:induction false} FlipReachesClause(c: Clause, a: seq<bool>, lit: int, breaks: bool, makes: bool)
    requires CleanClause(c, |a|) && IsLiteral(lit, |a|) && !Holds(lit, a)
    requires (breaks <==> -lit in c) && (makes <==> lit in c)
    ensures var kept := if breaks then TrueLits(c, a) - {-lit} else TrueLits(c, a);
      (if makes then kept + {lit} else kept) == TrueLits(c, Flipped(a, Var(lit)))
  {
    FlipTrueLits(c, a, lit);
    if !breaks { assert TrueLits(c, a) - {-lit} == TrueLits(c, a); }
  }

  /** The break loop followed by the make loop lead from the truth table of an assignment to the
      truth table of the flipped assignment. */
  lemma {:induction false} FlipReachesTable(f: Formula, a: seq<bool>, lit: int)
    requires Clean(f, |a|) && IsLiteral(lit, |a|) && !Holds(lit, a)
    ensures var t := Without(TruthTable(f, a), Occurrences(f, -lit), -lit);
      With(t, Occurrences(f, lit), lit) == TruthTable(f, Flipped(a, Var(lit)))
  {
    OccurrencesOfClean(f, |a|, lit);
    OccurrencesOfClean(f, |a|, -lit);
    var brk, mk := Occurrences(f, -lit), Occurrences(f, lit);
    forall c | 0 <= c < |f|
      ensures With(Without(TruthTable(f, a), brk, -lit), mk, lit)[c] == TrueLits(f[c], Flipped(a, Var(lit)))
    {
      assert c in OccurrenceSet(f, lit) <==> lit in f[c];
      assert c in OccurrenceSet(f, -lit) <==> -lit in f[c];
      FlipReachesClause(f[c], a, lit, c in brk, c in mk);
    }
  }

  // The first pass

  lemma {:induction false} TracksNothing(s: Caches)
    requires s.unsat == [] && forall v | 0 <= v < |s.breaks| :: s.breaks[v] == 0
    ensures Tracks([], s)
  {
    assert forall v: int :: CriticalClauses([], v) == {};
  }

  lemma {:induction false} TracksNext(f: Formula, a: seq<bool>, t: Table, s: Caches, c: nat, m: nat)
    requires Clean(f, |a|) && OccurrencesBounded(f, |a|, m) && m <= CNT_MAX
    requires t == TruthTable(f, a) && c < |t| && Tracks(t[..c], s)
    requires |s.location| == |s.crit| == |f| && |s.breaks| == |a|
    ensures var n, first := CountTrue(f[c], a, |f[c]|), FirstTrue(f[c], a, 0, 0);
      && (n == 1 ==> IsLiteral(first, |a|))
      && Tracks(t[..c + 1], Classified(s, c, n, first))
      && FitsInt16(Classified(s, c, n, first).breaks)
  {
    var n, first := CountTrue(f[c], a, |f[c]|), FirstTrue(f[c], a, 0, 0);
    CountTrueIsSize(f[c], a);
    FirstTrueFinds(f[c], a, 0);
    TrueLitsAreLiterals(f[c], a);
    assert 0 !in t[c];
    assert t[c] - {0} == t[c];
    TracksClassified(t[..c], s, t[c], first);
    assert t[..c] + [t[c]] == t[..c + 1];
    CountersInRange(f, a, t[..c + 1], Classified(s, c, n, first), m);
  }

  // The two loops of a flip

  /** The table after `j` passes of the break loop of a flip of `lit`. */
  ghost function BreakTable(f: Formula, a: seq<bool>, lit: int, j: nat): (t: Table)
    requires Clean(f, |a|) && j <= |Occurrences(f, -lit)|
    ensures |t| == |f|
  {
    Without(TruthTable(f, a), Occurrences(f, -lit)[..j], -lit)
  }

  /** The table after the break loop and `j` passes of the make loop. */
  ghost function MakeTable(f: Formula, a: seq<bool>, lit: int, j: nat): (t: Table)
    requires Clean(f, |a|) && j <= |Occurrences(f, lit)|
    ensures |t| == |f|
  {
    With(BreakTable(f, a, lit, |Occurrences(f, -lit)|), Occurrences(f, lit)[..j], lit)
  }

  /** From the truth table of an assignment to the truth table of the flipped assignment. */
  lemma {:induction false} FlipTables(f: Formula, a: seq<bool>, lit: int)
    requires Clean(f, |a|) && IsLiteral(lit, |a|) && !Holds(lit, a)
    ensures BreakTable(f, a, lit, 0) == TruthTable(f, a)
    ensures MakeTable(f, a, lit, 0) == BreakTable(f, a, lit, |Occurrences(f, -lit)|)
    ensures MakeTable(f, a, lit, |Occurrences(f, lit)|) == TruthTable(f, Flipped(a, Var(lit)))
  {
    var brk, mk := Occurrences(f, -lit), Occurrences(f, lit);
    assert brk[..0] == [] && mk[..0] == [] && brk[..|brk|] == brk && mk[..|mk|] == mk;
    FlipReachesTable(f, a, lit);
  }

  /** One pass of the break loop visits a clause that is as the assignment has it, and takes the
      negation of the literal out of it. */
  lemma {:induction false} NextBreakTable(f: Formula, a: seq<bool>, lit: int, j: nat, c: int)
    requires Clean(f, |a|) && IsLiteral(lit, |a|) && !Holds(lit, a)
    requires j < |Occurrences(f, -lit)| && c == Occurrences(f, -lit)[j]
    ensures Below(BreakTable(f, a, lit, j), f, a) && Below(BreakTable(f, a, lit, j + 1), f, a)
    ensures var t := BreakTable(f, a, lit, j);
      && 0 <= c < |f| && t[c] == TrueLits(f[c], a) && -lit in t[c]
      && BreakTable(f, a, lit, j + 1) == t[c := t[c] - {-lit}]
  {
    var brk := Occurrences(f, -lit);
    OccurrencesOfClean(f, |a|, -lit);
    assert c in brk && c in OccurrenceSet(f, -lit);
    assert c !in brk[..j] by { assert forall k | 0 <= k < j :: brk[k] < brk[j]; }
    assert brk[..j + 1] == brk[..j] + [c];
  }

  /** One pass of the make loop visits a clause that does not have the literal yet, and adds it. */
  lemma {:induction false} NextMakeTable(f: Formula, a: seq<bool>, lit: int, j: nat, c: int)
    requires Clean(f, |a|) && IsLiteral(lit, |a|) && !Holds(lit, a)
    requires j < |Occurrences(f, lit)| && c == Occurrences(f, lit)[j]
    ensures Below(MakeTable(f, a, lit, j + 1), f, Flipped(a, Var(lit)))
    ensures var t := MakeTable(f, a, lit, j);
      && 0 <= c < |f| && t[c] <= TrueLits(f[c], a)
      && MakeTable(f, a, lit, j + 1) == t[c := t[c] + {lit}]
  {
    var mk := Occurrences(f, lit);
    OccurrencesOfClean(f, |a|, lit);
    assert c in mk && c in OccurrenceSet(f, lit);
    assert c !in mk[..j] by { assert forall k | 0 <= k < j :: mk[k] < mk[j]; }
    assert mk[..j + 1] == mk[..j] + [c];
    MakeStaysBelow(f, a, lit, j + 1);
  }

  /** The tables of the make loop stay below the truth table of the flipped assignment. */
  lemma {:induction false} MakeStaysBelow(f: Formula, a: seq<bool>, lit: int, j: nat)
    requires Clean(f, |a|) && IsLiteral(lit, |a|) && !Holds(lit, a)
    requires j <= |Occurrences(f, lit)|
    ensures Below(MakeTable(f, a, lit, j), f, Flipped(a, Var(lit)))
  {
    var mk := Occurrences(f, lit);
    FlipTables(f, a, lit);
    forall c | 0 <= c < |f|
      ensures MakeTable(f, a, lit, j)[c] <= TrueLits(f[c], Flipped(a, Var(lit)))
    {
      assert c in mk[..j] ==> c in mk;
      assert MakeTable(f, a, lit, |mk|)[c] == TrueLits(f[c], Flipped(a, Var(lit)));
      assert mk[..|mk|] == mk;
    }
  }

  /** Counters that stay within `m` and within 16 bits. */
  predicate CountersWithin(breaks: seq<int>, m: int) {
    m <= CNT_MAX && forall v | 0 <= v < |breaks| :: 0 <= breaks[v] <= m
  }

  /** The satisfied literals that are left when one of them becomes false. */
  lemma {:induction false} RemainingLiterals(c: Clause, a: seq<bool>, lit: int)
    requires CleanClause(c, |a|) && lit in TrueLits(c, a)
    ensures var lits, remaining := TrueLits(c, a), FirstTrue(c, a, lit, 0);
      && |lits| == |lits - {lit}| + 1
      && (lits - {lit} != {} ==> remaining in lits - {lit})
      && (|lits| == 2 ==> IsLiteral(remaining, |a|))
  {
    var lits := TrueLits(c, a);
    TrueLitsAreLiterals(c, a);
    FirstTrueFinds(c, a, lit);
    assert lits == (lits - {lit}) + {lit};
  }

  /** One pass of the break loop keeps the agreement, every access in range, and the counters
      within the bound. */
  lemma {:induction false} BreakStep(f: Formula, a: seq<bool>, lit: int, t: Table, s: Caches, c: nat, m: nat)
    requires Clean(f, |a|) && OccurrencesBounded(f, |a|, m) && m <= CNT_MAX && IsLiteral(lit, |a|)
    requires |s.location| == |s.crit| == |f| == |t| && |s.breaks| == |a| && Tracks(t, s)
    requires c < |f| && t[c] == TrueLits(f[c], a) && -lit in t[c]
    requires Below(t[c := t[c] - {-lit}], f, a)
    ensures var remaining := FirstTrue(f[c], a, -lit, 0);
      && (s.location[c] == -2 ==> IsLiteral(remaining, |a|))
      && Tracks(t[c := t[c] - {-lit}], Broken(s, c, lit, remaining))
      && CountersWithin(Broken(s, c, lit, remaining).breaks, m)
  {
    var lits, remaining := TrueLits(f[c], a), FirstTrue(f[c], a, -lit, 0);
    RemainingLiterals(f[c], a, -lit);
    TrueLitsAreLiterals(f[c], a);
    TracksBroken(t, s, c, lit, remaining);
    assert s.location[c] == -|lits|;
    CountersInRange(f, a, t[c := t[c] - {-lit}], Broken(s, c, lit, remaining), m);
  }

  /** One pass of the make loop. */
  lemma {:induction false} MakeStep(f: Formula, a: seq<bool>, lit: int, t: Table, s: Caches, c: nat, m: nat)
    requires Clean(f, |a|) && OccurrencesBounded(f, |a|, m) && m <= CNT_MAX
    requires IsLiteral(lit, |a|) && !Holds(lit, a)
    requires |s.location| == |s.crit| == |f| == |t| && |s.breaks| == |a| && Tracks(t, s)
    requires c < |f| && t[c] <= TrueLits(f[c], a)
    requires Below(t[c := t[c] + {lit}], f, Flipped(a, Var(lit)))
    ensures 0 <= s.location[c] ==> s.location[c] < |s.unsat| && 0 <= s.unsat[|s.unsat| - 1] < |s.location|
    ensures s.location[c] == -1 ==> IsLiteral(s.crit[c], |a|)
    ensures Tracks(t[c := t[c] + {lit}], Made(s, c, lit))
    ensures CountersWithin(Made(s, c, lit).breaks, m)
  {
    TrueLitsAreLiterals(f[c], a);
    assert s.location[c] == -1 ==> |t[c]| == 1;
    TracksMade(t, s, c, lit);
    CountersInRange(f, Flipped(a, Var(lit)), t[c := t[c] + {lit}], Made(s, c, lit), m);
  }

  // What a flip does to the unsatisfied clauses

  /** The clauses that a flip of an unsatisfied literal leaves without a satisfied literal. */
  ghost function NewlyUnsat(f: Formula, a: seq<bool>, lit: int): set<int>
    requires Clean(f, |a|) && IsLiteral(lit, |a|)
  {
    set c | 0 <= c < |f| && TrueLits(f[c], a) != {} && TrueLits(f[c], Flipped(a, Var(lit))) == {}
  }

  /** The unsatisfied clauses that contain the flipped literal. */
  ghost function Makes(f: Formula, a: seq<bool>, lit: int): set<int>
    requires Clean(f, |a|)
  {
    set c | 0 <= c < |f| && TrueLits(f[c], a) == {} && lit in f[c]
  }

  /** For an unsatisfied literal the break counter of its variable counts the clauses that the
      flip breaks: those whose only satisfied literal is its negation. */
  lemma {:induction false} BreaksAreNewlyUnsat(f: Formula, a: seq<bool>, lit: int)
    requires Clean(f, |a|) && IsLiteral(lit, |a|) && !Holds(lit, a)
    ensures CriticalClauses(TruthTable(f, a), Var(lit)) == NewlyUnsat(f, a, lit)
  {
    var t := TruthTable(f, a);
    forall c | 0 <= c < |f|
      ensures OnlyVar(t[c], Var(lit)) <==> c in NewlyUnsat(f, a, lit)
    {
      FlipTrueLits(f[c], a, lit);
      TrueLitsAreLiterals(f[c], a);
      assert lit !in t[c];
      if OnlyVar(t[c], Var(lit)) {
        assert lit == Var(lit) + 1 || lit == -(Var(lit) + 1);
        assert lit in {lit};
        assert t[c] == {-lit};
        NoComplement(f[c], -lit);
      }
    }
  }

  /** The number of unsatisfied clauses changes by the breaks minus the makes. */
  lemma {:induction false} UnsatAfterFlip(f: Formula, a: seq<bool>, lit: int)
    requires Clean(f, |a|) && IsLiteral(lit, |a|) && !Holds(lit, a)
    ensures var a' := Flipped(a, Var(lit));
      && UnsatClauses(TruthTable(f, a'))
      == UnsatClauses(TruthTable(f, a)) - Makes(f, a, lit) + NewlyUnsat(f, a, lit)
      && |UnsatClauses(TruthTable(f, a'))|
      == |UnsatClauses(TruthTable(f, a))| - |Makes(f, a, lit)| + |NewlyUnsat(f, a, lit)|
  {
    var before, after := UnsatClauses(TruthTable(f, a)), UnsatClauses(TruthTable(f, Flipped(a, Var(lit))));
    var makes, broken := Makes(f, a, lit), NewlyUnsat(f, a, lit);
    forall c | 0 <= c < |f|
      ensures c in after <==> (c in before && c !in makes) || c in broken
    {
      FlipTrueLits(f[c], a, lit);
    }
    assert after == before - makes + broken;
    assert makes <= before && before - makes !! broken;
    assert before == (before - makes) + makes;
  }

  /** The same for the list of a solver: its length changes by the break counter of the flipped
      variable minus the unsatisfied clauses with the literal. */
  lemma {:induction false} ListAfterFlip(f: Formula, a: seq<bool>, lit: int, s: Caches, s': Caches)
    requires Clean(f, |a|) && IsLiteral(lit, |a|) && !Holds(lit, a) && |s.breaks| == |a|
    requires Tracks(TruthTable(f, a), s) && Tracks(TruthTable(f, Flipped(a, Var(lit))), s')
    ensures |s'.unsat| == |s.unsat| + s.breaks[Var(lit)] - |Makes(f, a, lit)|
  {
    BreaksAreNewlyUnsat(f, a, lit);
    UnsatAfterFlip(f, a, lit);
    ListHoldsUnsatClauses(TruthTable(f, a), s.unsat, s.location);
    ListHoldsUnsatClauses(TruthTable(f, Flipped(a, Var(lit))), s'.unsat, s'.location);
  }

  // The recount that the counters replace

  predicate AreClauses(cs: seq<int>, n: nat) {
    forall k | 0 <= k < |cs| :: 0 <= cs[k] < n
  }

  /** How many of the first `i` clauses of a list have exactly one satisfied literal. */
  ghost function CountCritical(f: Formula, a: seq<bool>, cs: seq<int>, i: nat): nat
    requires Clean(f, |a|) && i <= |cs| && AreClauses(cs, |f|)
  {
    if i == 0 then 0
    else
      var c := cs[i - 1];
      CountCritical(f, a, cs, i - 1) + (if CountTrue(f[c], a, |f[c]|) == 1 then 1 else 0)
  }

  /** The clauses among the first `i` of a list that have one satisfied literal. */
  ghost function CriticalAmong(t: Table, cs: seq<int>, i: nat): set<int>
    requires i <= |cs| && AreClauses(cs, |t|)
  {
    if i == 0 then {}
    else CriticalAmong(t, cs, i - 1) + (if |t[cs[i - 1]]| == 1 then {cs[i - 1]} else {})
  }

  ghost predicate AmongFirst(cs: seq<int>, i: nat, c: int)
    requires i <= |cs|
  {
    i > 0 && (cs[i - 1] == c || AmongFirst(cs, i - 1, c))
  }

  lemma {:induction false} AmongFirstIsIn(cs: seq<int>, i: nat, c: int)
    requires i <= |cs|
    ensures AmongFirst(cs, i, c) <==> c in cs[..i]
  {
    if i > 0 {
      AmongFirstIsIn(cs, i - 1, c);
      assert cs[..i] == cs[..i - 1] + [cs[i - 1]];
    }
  }

  lemma {:induction false} CriticalAmongMember(t: Table, cs: seq<int>, i: nat, c: int)
    requires i <= |cs| && AreClauses(cs, |t|)
    ensures c in CriticalAmong(t, cs, i) <==> AmongFirst(cs, i, c) && 0 <= c < |t| && |t[c]| == 1
  {
    if i > 0 { CriticalAmongMember(t, cs, i - 1, c); }
  }

  lemma {:induction false} CriticalAmongBelow(t: Table, cs: seq<int>, i: nat, j: nat)
    requires i <= j < |cs| && AreClauses(cs, |t|) && StrictlyIncreasing(cs)
    ensures forall c | c in CriticalAmong(t, cs, i) :: c < cs[j]
  {
    if i > 0 { CriticalAmongBelow(t, cs, i - 1, j); }
  }

  lemma {:induction false} CriticalAmongNext(t: Table, cs: seq<int>, i: nat)
    requires i < |cs| && AreClauses(cs, |t|) && StrictlyIncreasing(cs)
    ensures |CriticalAmong(t, cs, i + 1)| == |CriticalAmong(t, cs, i)| + if |t[cs[i]]| == 1 then 1 else 0
  {
    CriticalAmongBelow(t, cs, i, i);
  }

  lemma {:induction false} CountCriticalIsSize(f: Formula, a: seq<bool>, t: Table, cs: seq<int>, i: nat)
    requires Clean(f, |a|) && i <= |cs| && StrictlyIncreasing(cs) && AreClauses(cs, |f|) && t == TruthTable(f, a)
    ensures CountCritical(f, a, cs, i) == |CriticalAmong(t, cs, i)|
  {
    if i > 0 {
      CountTrueIsSize(f[cs[i - 1]], a);
      CriticalAmongNext(t, cs, i - 1);
      CountCriticalIsSize(f, a, t, cs, i - 1);
    }
  }

  /** The uncached recount over the clauses with the negation counts the newly unsatisfied
      clauses, too. */
  lemma {:induction false} RecountIsNewlyUnsat(f: Formula, a: seq<bool>, lit: int)
    requires Clean(f, |a|) && IsLiteral(lit, |a|) && !Holds(lit, a)
    ensures var cs := Occurrences(f, -lit);
      AreClauses(cs, |f|) && CountCritical(f, a, cs, |cs|) == |NewlyUnsat(f, a, lit)|
  {
    var cs, t := Occurrences(f, -lit), TruthTable(f, a);
    OccurrencesOfClean(f, |a|, -lit);
    BreaksAreNewlyUnsat(f, a, lit);
    forall k | 0 <= k < |cs| ensures 0 <= cs[k] < |f| { assert cs[k] in cs; }
    CountCriticalIsSize(f, a, t, cs, |cs|);
    var found := CriticalClauses(t, Var(lit));
    assert cs[..|cs|] == cs;
    forall c
      ensures c in found <==> c in CriticalAmong(t, cs, |cs|)
    {
      AmongFirstIsIn(cs, |cs|, c);
      CriticalAmongMember(t, cs, |cs|, c);
      if 0 <= c < |f| { CriticalOfNegation(f[c], a, lit); }
    }
    assert found == CriticalAmong(t, cs, |cs|);
  }

  /** The variable of an unsatisfied literal is the only one of a clause's satisfied literals if its
      negation is in the clause, and no other literal is satisfied. */
  lemma {:induction false} CriticalOfNegation(c: Clause, a: seq<bool>, lit: int)
    requires CleanClause(c, |a|) && IsLiteral(lit, |a|) && !Holds(lit, a)
    ensures OnlyVar(TrueLits(c, a), Var(lit)) <==> -lit in c && |TrueLits(c, a)| == 1
  {
    var lits := TrueLits(c, a);
    TrueLitsAreLiterals(c, a);
    assert -lit in c ==> -lit in lits;
    assert lit !in lits;
    OnlyVarOf(lits, -lit, Var(lit));
    if OnlyVar(lits, Var(lit)) { assert lit in {lit} && lits == {-lit}; }
  }

  lemma {:induction false} BreaksWithin(f: Formula, a: seq<bool>, s: Caches, v: nat, m: nat)
    requires Clean(f, |a|) && OccurrencesBounded(f, |a|, m) && v < |a| == |s.breaks|
    requires Tracks(TruthTable(f, a), s)
    ensures s.breaks[v] == |CriticalClauses(TruthTable(f, a), v)| && 0 <= s.breaks[v] <= m
  {
    CountersInRange(f, a, TruthTable(f, a), s, m);
  }

  /** The list is empty exactly when the assignment satisfies the formula. */
  lemma {:induction false} EmptyIffSatisfied(f: Formula, a: seq<bool>, s: Caches)
    requires Clean(f, |a|) && Tracks(TruthTable(f, a), s)
    ensures s.unsat == [] <==> Satisfies(a, f)
  {
    var t := TruthTable(f, a);
    forall c | 0 <= c < |f|
      ensures Satisfied(f[c], a) <==> t[c] != {}
    {
      if t[c] != {} {
        var l :| l in t[c];
        assert l in f[c] && Holds(l, a);
      } else {
        NoTrueLiteral(f[c], a);
      }
    }
    if s.unsat != [] {
      assert s.location[s.unsat[0]] == 0;
      assert t[s.unsat[0]] == {};
    }
  }

  /** A listed clause has no satisfied literal. */
  lemma {:induction false} ListedIsUnsat(f: Formula, a: seq<bool>, s: Caches, i: nat)
    requires Clean(f, |a|) && Tracks(TruthTable(f, a), s) && i < |s.unsat|
    ensures 0 <= s.unsat[i] < |f|
    ensures AllFalse(f[s.unsat[i]], a)
  {
    var c, t := s.unsat[i], TruthTable(f, a);
    assert s.location[c] == i >= 0;
    assert t[c] == {};
    forall i | 0 <= i < |f[c]|
      ensures IsLiteral(f[c][i], |a|) && !Holds(f[c][i], a)
    {
      assert f[c][i] in f[c] && f[c][i] !in t[c];
    }
  }
}
