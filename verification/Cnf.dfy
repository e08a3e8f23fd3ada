/** Formulas in conjunctive normal form, and what an assignment makes true in them. */
module Cnf {

  type Clause = seq<int>
  type Formula = seq<Clause>

  /** The largest value of cnt_t, which is int16_t. */
  const CNT_MAX: nat := 0x7fff

  // generic_clause::operator[] takes its index as a uint8_t
  const INDEX_RANGE: nat := 256

  /** The literal the clause subscript returns for index `i`: the index is cut to eight bits. */
  function At(c: Clause, i: nat): int
    requires i < |c|
  {
    c[i % INDEX_RANGE]
  }

  function Var(lit: int): int {
    (if lit < 0 then -lit else lit) - 1
  }

  predicate IsLiteral(lit: int, numVars: nat) {
    lit != 0 && Var(lit) < numVars
  }

  predicate InRange(c: Clause, numVars: nat) {
    forall i | 0 <= i < |c| :: IsLiteral(c[i], numVars)
  }

  predicate DistinctVars(c: Clause) {
    forall i, j | 0 <= j < i < |c| :: Var(c[i]) != Var(c[j])
  }

  /** What the parser promises of every clause it keeps. */
  predicate CleanClause(c: Clause, numVars: nat) {
    0 < |c| <= INDEX_RANGE && InRange(c, numVars) && DistinctVars(c)
  }

  predicate Clean(f: Formula, numVars: nat) {
    forall c | 0 <= c < |f| :: CleanClause(f[c], numVars)
  }

  predicate Holds(lit: int, a: seq<bool>)
    requires IsLiteral(lit, |a|)
  {
    (0 > lit) != a[Var(lit)]
  }

  /** The literals of a clause that an assignment satisfies. */
  ghost function TrueLits(c: Clause, a: seq<bool>): set<int>
    requires InRange(c, |a|)
  {
    set l | l in c && Holds(l, a)
  }

  /** The first satisfied literal from position `i` on that is not `dontTake`, or 0. */
  ghost function FirstTrue(c: Clause, a: seq<bool>, dontTake: int, i: nat): (lit: int)
    requires InRange(c, |a|) && i <= |c|
    decreases |c| - i
  {
    if i == |c| then 0
    else if c[i] != dontTake && Holds(c[i], a) then c[i]
    else FirstTrue(c, a, dontTake, i + 1)
  }

  /** It is found unless there is no other satisfied literal. */
  lemma {:induction false} FirstTrueIsTrue(c: Clause, a: seq<bool>, dontTake: int, i: nat)
    requires InRange(c, |a|) && i <= |c|
    ensures var lit := FirstTrue(c, a, dontTake, i);
      if lit == 0 then forall j | i <= j < |c| :: c[j] == dontTake || !Holds(c[j], a)
      else lit in TrueLits(c, a) - {dontTake}
    decreases |c| - i
  {
    if i < |c| {
      assert c[i] in c;
      FirstTrueIsTrue(c, a, dontTake, i + 1);
    }
  }

  lemma {:induction false} FirstTrueFinds(c: Clause, a: seq<bool>, dontTake: int)
    requires InRange(c, |a|)
    ensures var others := TrueLits(c, a) - {dontTake};
      if others == {} then FirstTrue(c, a, dontTake, 0) == 0 else FirstTrue(c, a, dontTake, 0) in others
  {
    FirstTrueIsTrue(c, a, dontTake, 0);
  }

  ghost predicate Satisfied(c: Clause, a: seq<bool>)
    requires InRange(c, |a|)
  {
    exists l :: l in c && Holds(l, a)
  }

  /** No literal of the clause is satisfied. */
  ghost predicate AllFalse(c: Clause, a: seq<bool>) {
    forall i | 0 <= i < |c| :: IsLiteral(c[i], |a|) && !Holds(c[i], a)
  }

  lemma LiteralOfAllFalse(c: Clause, a: seq<bool>, i: nat)
    requires CleanClause(c, |a|) && AllFalse(c, a) && i < |c|
    ensures At(c, i) == c[i] && c[i] in c && IsLiteral(c[i], |a|) && !Holds(c[i], a)
  {
  }

  lemma {:induction false} NoTrueLiteral(c: Clause, a: seq<bool>)
    requires InRange(c, |a|) && TrueLits(c, a) == {}
    ensures !Satisfied(c, a)
  {
    forall l | l in c
      ensures !Holds(l, a)
    {
      assert l !in TrueLits(c, a);
    }
  }

  ghost predicate Satisfies(a: seq<bool>, f: Formula)
    requires Clean(f, |a|)
  {
    forall c | 0 <= c < |f| :: Satisfied(f[c], a)
  }

  /** The satisfied literals of every clause. */
  ghost function TruthTable(f: Formula, a: seq<bool>): (t: seq<set<int>>)
    requires Clean(f, |a|)
    ensures |t| == |f|
    ensures forall c | 0 <= c < |f| :: t[c] == TrueLits(f[c], a)
  {
    seq(|f|, c requires 0 <= c < |f| => TrueLits(f[c], a))
  }

  function Flipped(a: seq<bool>, v: nat): seq<bool>
    requires v < |a|
  {
    a[v := !a[v]]
  }

  /** Flipping the variable of an unsatisfied literal exchanges the literal and its negation
      in the satisfied literals of a clause, and touches nothing else. */
  lemma {:induction false} FlipTrueLits(c: Clause, a: seq<bool>, lit: int)
    requires CleanClause(c, |a|) && IsLiteral(lit, |a|) && !Holds(lit, a)
    ensures TrueLits(c, Flipped(a, Var(lit)))
         == TrueLits(c, a) - {-lit} + (if lit in c then {lit} else {})
  {
    var a' := Flipped(a, Var(lit));
    forall l | l in c
      ensures Holds(l, a') == if Var(l) == Var(lit) then l == lit else Holds(l, a)
    {
    }
  }

  /** The number of satisfied positions before position `i`. */
  ghost function CountTrue(c: Clause, a: seq<bool>, i: nat): nat
    requires InRange(c, |a|) && i <= |c|
  {
    if i == 0 then 0 else CountTrue(c, a, i - 1) + (if Holds(c[i - 1], a) then 1 else 0)
  }

  /** In a clean clause every satisfied position is a satisfied literal of its own. */
  lemma {:induction false} CountTrueOfClean(c: Clause, a: seq<bool>, i: nat, found: set<int>)
    requires CleanClause(c, |a|) && i <= |c|
    requires forall l :: l in found <==> l in c[..i] && Holds(l, a)
    ensures CountTrue(c, a, i) == |found|
  {
    if i > 0 {
      var last := c[i - 1];
      assert c[..i] == c[..i - 1] + [last];
      assert forall j | 0 <= j < i - 1 :: Var(c[j]) != Var(last);
      assert last !in c[..i - 1];
      CountTrueOfClean(c, a, i - 1, found - {last});
      if Holds(last, a) {
        assert found == (found - {last}) + {last};
      } else {
        assert found == found - {last};
      }
    } else {
      assert c[..i] == [];
      assert forall l :: l !in found;
    }
  }

  lemma {:induction false} CountTrueIsSize(c: Clause, a: seq<bool>)
    requires CleanClause(c, |a|)
    ensures CountTrue(c, a, |c|) == |TrueLits(c, a)|
  {
    assert c[..|c|] == c;
    CountTrueOfClean(c, a, |c|, TrueLits(c, a));
  }

  /** A clean clause never holds a literal together with its negation. */
  lemma {:induction false} NoComplement(c: Clause, lit: int)
    requires DistinctVars(c) && lit in c && lit != 0
    ensures -lit !in c
  {
    var i :| 0 <= i < |c| && c[i] == lit;
    forall j | 0 <= j < |c|
      ensures c[j] != -lit
    {
      if j != i { assert Var(c[i]) != Var(c[j]); }
    }
  }

  // Occurrences

  /** The clauses in which `lit` occurs, one entry per occurrence and in reading order, as far
      as position `i` of clause `c`: the list a simple list-of-lists index keeps for `lit`. */
  ghost function OccursUpTo(f: Formula, c: nat, i: nat, lit: int): (occ: seq<int>)
    requires c <= |f| && i <= (if c < |f| then |f[c]| else 0)
    decreases c, i
  {
    if i > 0 then
      OccursUpTo(f, c, i - 1, lit) + (if At(f[c], i - 1) == lit then [c] else [])
    else if c > 0 then
      OccursUpTo(f, c - 1, |f[c - 1]|, lit)
    else
      []
  }

  ghost function Occurrences(f: Formula, lit: int): seq<int> {
    OccursUpTo(f, |f|, 0, lit)
  }

  ghost function OccurrenceSet(f: Formula, lit: int): set<int> {
    set c | 0 <= c < |f| && lit in f[c]
  }

  ghost predicate StrictlyIncreasing(s: seq<int>) {
    forall i, j | 0 <= i < j < |s| :: s[i] < s[j]
  }

  /** What has been listed at some point of the reading is a prefix of the final list. */
  lemma {:induction false} OccursUpToIsPrefix(f: Formula, c: nat, i: nat, lit: int)
    requires c <= |f| && i <= (if c < |f| then |f[c]| else 0)
    ensures OccursUpTo(f, c, i, lit) <= Occurrences(f, lit)
    decreases |f| - c, (if c < |f| then |f[c]| else 0) - i
  {
    if c < |f| {
      if i < |f[c]| {
        OccursUpToIsPrefix(f, c, i + 1, lit);
      } else {
        OccursUpToIsPrefix(f, c + 1, 0, lit);
        assert OccursUpTo(f, c + 1, 0, lit) == OccursUpTo(f, c, |f[c]|, lit);
      }
    }
  }

  /** A clean clause adds itself at most once, and does so exactly when it holds the literal. */
  lemma {:induction false} OccursInCleanClause(f: Formula, numVars: nat, c: nat, i: nat, lit: int)
    requires c < |f| && CleanClause(f[c], numVars) && i <= |f[c]|
    ensures OccursUpTo(f, c, i, lit) == OccursUpTo(f, c, 0, lit) + (if lit in f[c][..i] then [c] else [])
  {
    if i > 0 {
      OccursInCleanClause(f, numVars, c, i - 1, lit);
      assert f[c][..i] == f[c][..i - 1] + [f[c][i - 1]];
      if f[c][i - 1] == lit {
        forall j | 0 <= j < i - 1
          ensures f[c][j] != lit
        {
          assert Var(f[c][j]) != Var(f[c][i - 1]);
        }
      }
    }
  }

  /** In a clean formula the clauses that contain a literal are listed once each and in
      increasing order. */
  lemma {:induction false} OccursBeforeClause(f: Formula, numVars: nat, c: nat, lit: int)
    requires Clean(f, numVars) && c <= |f|
    ensures StrictlyIncreasing(OccursUpTo(f, c, 0, lit))
    ensures forall x :: x in OccursUpTo(f, c, 0, lit) <==> 0 <= x < c && lit in f[x]
  {
    if c > 0 {
      OccursBeforeClause(f, numVars, c - 1, lit);
      OccursInCleanClause(f, numVars, c - 1, |f[c - 1]|, lit);
      assert f[c - 1][..|f[c - 1]|] == f[c - 1];
      var before := OccursUpTo(f, c - 1, 0, lit);
      assert forall k | 0 <= k < |before| :: before[k] in before;
    }
  }

  lemma {:induction false} OccurrencesOfClean(f: Formula, numVars: nat, lit: int)
    requires Clean(f, numVars)
    ensures StrictlyIncreasing(Occurrences(f, lit))
    ensures forall x :: x in Occurrences(f, lit) <==> x in OccurrenceSet(f, lit)
    ensures |Occurrences(f, lit)| == |OccurrenceSet(f, lit)|
  {
    OccursBeforeClause(f, numVars, |f|, lit);
    IncreasingCount(Occurrences(f, lit), OccurrenceSet(f, lit));
  }

  lemma {:induction false} LiteralOccurs(f: Formula, numVars: nat, c: nat, i: nat)
    requires Clean(f, numVars) && c < |f| && i < |f[c]|
    ensures IsLiteral(f[c][i], numVars) && Occurrences(f, f[c][i]) != []
  {
    OccurrencesOfClean(f, numVars, f[c][i]);
    assert CleanClause(f[c], numVars) && c in OccurrenceSet(f, f[c][i]);
  }

  lemma {:induction false} IncreasingCount(s: seq<int>, elements: set<int>)
    requires StrictlyIncreasing(s)
    requires forall x :: x in s <==> x in elements
    ensures |s| == |elements|
  {
    if s == [] {
      assert forall x | x in elements :: x in s;
    } else {
      var last := s[|s| - 1];
      assert last in s;
      assert s == s[..|s| - 1] + [last];
      IncreasingCount(s[..|s| - 1], elements - {last});
    }
  }

  /** No literal occurs more than `m` times. */
  ghost predicate OccurrencesBounded(f: Formula, numVars: nat, m: nat) {
    forall lit | IsLiteral(lit, numVars) :: |Occurrences(f, lit)| <= m
  }
}
