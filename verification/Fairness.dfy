/** How the states of the generator are spread over the outcomes of a draw: over the literals of a
    clause, over the values of a random bit, and over the seeds. */
module Fairness {
  import opened Cnf
  import opened CacheStates
  import opened Random
  import opened Instances
  import opened Input
  import opened Execution
  import opened Statistics

  // Counting states

  /** The states with the property `p`. */
  ghost function StatesWith(p: nat -> bool): set<nat> {
    set x: nat | 1 <= x < MODULUS && p(x)
  }

  /** The states from which the generator comes to the property after `n` numbers. */
  ghost function StatesAhead(p: nat -> bool, n: nat): set<nat> {
    set x: nat | 1 <= x < MODULUS && p(Nth(x, n))
  }

  /** The state gives a value in slot `i` of the wheel. */
  ghost function Picks(w: seq<real>, i: nat): nat -> bool {
    (x: nat) => InSlot(w, Scaled(x, PrefixSum(w, |w|)), i)
  }

  /** The size of the wheel. */
  ghost function WheelSize(w: seq<real>): (l: real)
    requires AllPositive(w) && w != []
    ensures l == PrefixSum(w, |w|) > 0.0
  {
    SumPositive(w, 0);
    PrefixSum(w, |w|)
  }

  /** The share of slot `i` in all MODULUS - 1 states of the generator. */
  ghost function ShareOf(w: seq<real>, i: nat): real
    requires AllPositive(w) && i < |w|
  {
    (MODULUS - 1) as real * (w[i] / WheelSize(w))
  }

  /** The smallest integer that is not below `x`. */
  function Ceiling(x: real): (n: int)
    ensures x <= n as real < x + 1.0
  {
    -((-x).Floor)
  }

  lemma {:induction false} CeilingIs(x: real, n: int)
    ensures x <= n as real <==> Ceiling(x) <= n
  {
  }

  predicate Between(low: nat, x: nat, high: nat) {
    low <= x < high
  }

  ghost function Interval(low: nat, high: nat): set<nat> {
    set x: nat | x < high && Between(low, x, high)
  }

  lemma {:induction false} IntervalSize(low: nat, high: nat)
    requires low <= high
    ensures |Interval(low, high)| == high - low
    decreases high - low
  {
    if low < high {
      IntervalSize(low + 1, high);
      assert Between(low, low, high);
      assert Interval(low, high) == Interval(low + 1, high) + {low};
    }
  }

  lemma {:induction false} Divides(x: real, n: real, l: real, b: real)
    requires 0.0 < n && 0.0 < l
    ensures b <= x / n * l <==> n * (b / l) <= x
  {
    assert x / n * l - b == (x - n * (b / l)) * (l / n);
  }

  /** The first state whose value is not below the bound `b`. */
  ghost function FirstState(l: real, b: real): int
    requires 0.0 < l
  {
    Ceiling((MODULUS - 1) as real * (b / l)) + 1
  }

  lemma {:induction false} ReachesBound(x: nat, l: real, b: real)
    requires EngineState(x) && 0.0 < l
    ensures b <= Scaled(x, l) <==> FirstState(l, b) <= x
  {
    Divides((x - 1) as real, (MODULUS - 1) as real, l, b);
    CeilingIs((MODULUS - 1) as real * (b / l), x - 1);
  }

  lemma {:induction false} QuotientOrder(b: real, c: real, l: real)
    requires b <= c && 0.0 < l
    ensures b / l <= c / l
  {
    assert c / l - b / l == (c - b) / l;
  }

  lemma {:induction false} FirstStateOrder(l: real, b: real, c: real)
    requires 0.0 < l && b <= c
    ensures FirstState(l, b) <= FirstState(l, c)
  {
    QuotientOrder(b, c, l);
    CeilingIs((MODULUS - 1) as real * (b / l), Ceiling((MODULUS - 1) as real * (c / l)));
  }

  /** The bounds of the whole wheel. */
  lemma {:induction false} FirstStateEnds(l: real)
    requires 0.0 < l
    ensures FirstState(l, 0.0) == 1 && FirstState(l, l) == MODULUS
  {
    assert 0.0 / l == 0.0 && l / l == 1.0;
  }

  /** From the bound `b` to the bound `c` there are as many states as their distance says, up to one. */
  lemma {:induction false} FirstStateDistance(l: real, b: real, width: real)
    requires 0.0 < l
    ensures var share := (MODULUS - 1) as real * (width / l);
      share - 1.0 < (FirstState(l, b + width) - FirstState(l, b)) as real < share + 1.0
  {
    assert (b + width) / l == b / l + width / l;
  }

  lemma {:induction false} SumPositive(w: seq<real>, i: nat)
    requires AllPositive(w) && i < |w|
    ensures 0.0 <= PrefixSum(w, i) < PrefixSum(w, i + 1) <= PrefixSum(w, |w|)
  {
    PrefixSumMonotone(w, 0, i);
    PrefixSumMonotone(w, i + 1, |w|);
  }

  /** The states that pick a slot are consecutive, and the slots follow one another. */
  lemma {:induction false} StatesInSlot(w: seq<real>, i: nat) returns (low: nat, high: nat)
    requires AllPositive(w) && i < |w|
    ensures low == FirstState(WheelSize(w), PrefixSum(w, i)) && high == FirstState(WheelSize(w), PrefixSum(w, i + 1))
    ensures low <= high && StatesWith(Picks(w, i)) == Interval(low, high)
  {
    var l, b, c := WheelSize(w), PrefixSum(w, i), PrefixSum(w, i + 1);
    SumPositive(w, i);
    FirstStateEnds(l);
    FirstStateOrder(l, 0.0, b);
    FirstStateOrder(l, b, c);
    FirstStateOrder(l, c, l);
    low, high := FirstState(l, b), FirstState(l, c);
    forall x: nat | EngineState(x)
      ensures InSlot(w, Scaled(x, l), i) <==> Between(low, x, high)
    {
      ReachesBound(x, l, b);
      ReachesBound(x, l, c);
    }
  }

  lemma {:induction false} StatesInSize(w: seq<real>, i: nat)
    requires AllPositive(w) && i < |w|
    ensures ShareOf(w, i) - 1.0 < |StatesWith(Picks(w, i))| as real < ShareOf(w, i) + 1.0
  {
    var low, high := StatesInSlot(w, i);
    IntervalSize(low, high);
    FirstStateDistance(WheelSize(w), PrefixSum(w, i), w[i]);
  }

  /** A function that does not send two elements of `s` to one maps `s` into no smaller set. */
  lemma {:induction false} InjectionSize(s: set<nat>, t: set<nat>, f: nat -> nat)
    requires forall x | x in s :: f(x) in t
    requires forall x, y | x in s && y in s && f(x) == f(y) :: x == y
    ensures |s| <= |t|
    decreases |s|
  {
    if s != {} {
      var x :| x in s;
      InjectionSize(s - {x}, t - {f(x)}, f);
    }
  }

  /** The generator is a permutation of its states. */
  lemma {:induction false} NextUndoesPrevious(x: nat)
    requires EngineState(x)
    ensures Next(Previous(x)) == x && EngineState(Previous(x))
  {
    var n, q := Previous(x), INVERSE * x / MODULUS;
    assert MULTIPLIER * INVERSE == 42704 * MODULUS + 1;
    assert MULTIPLIER * n == (42704 * x - MULTIPLIER * q) * MODULUS + x;
    RemainderIs(MULTIPLIER * n, 42704 * x - MULTIPLIER * q, x);
  }

  lemma {:induction false} NthShift(x: nat, n: nat)
    ensures Nth(x, n + 1) == Nth(Next(x), n)
  {
    if n > 0 { NthShift(x, n - 1); }
  }

  lemma {:induction false} DrawKeepsSize(p: nat -> bool, n: nat)
    ensures |StatesAhead(p, n + 1)| == |StatesAhead(p, n)|
  {
    var s, t := StatesAhead(p, n + 1), StatesAhead(p, n);
    forall x: nat | x in s
      ensures Next(x) in t && Previous(Next(x)) == x
    {
      NextIsEngineState(x);
      PreviousUndoesNext(x);
      NthShift(x, n);
    }
    InjectionSize(s, t, Next);
    forall x: nat | x in t
      ensures Previous(x) in s && Next(Previous(x)) == x
    {
      NextUndoesPrevious(x);
      NthShift(Previous(x), n);
    }
    InjectionSize(t, s, Previous);
  }

  /** As many states come to a property after `n` numbers as have it. */
  lemma {:induction false} NthKeepsSize(p: nat -> bool, n: nat)
    ensures |StatesAhead(p, n)| == |StatesWith(p)|
  {
    if n == 0 {
      assert StatesAhead(p, 0) == StatesWith(p);
    } else {
      NthKeepsSize(p, n - 1);
      DrawKeepsSize(p, n - 1);
    }
  }

  /** The wheel is fair: of all states of the generator, the number of those whose `n`th number picks slot `i`
      differs from the share of its weight by less than one. So a slot that is not narrower than one state is
      picked from some state. */
  lemma {:induction false} WheelIsFair(w: seq<real>, i: nat, n: nat)
    requires AllPositive(w) && i < |w|
    ensures ShareOf(w, i) - 1.0 < |StatesAhead(Picks(w, i), n)| as real < ShareOf(w, i) + 1.0
    ensures ShareOf(w, i) >= 1.0 ==> StatesAhead(Picks(w, i), n) != {}
  {
    StatesInSize(w, i);
    NthKeepsSize(Picks(w, i), n);
  }

  /** So each literal of an unsatisfied clause is flipped in proportion to the probability function of
      the clauses that its flip breaks, counted over the states of the generator. */
  lemma {:induction false} LiteralsAreFair(pf: nat -> real, f: Formula, a: seq<bool>, clause: Clause, i: nat)
    requires (forall n: nat :: 0.0 < pf(n)) && Clean(f, |a|) && InRange(clause, |a|) && i < |clause|
    ensures var w := Weights(pf, f, a, clause);
      && PrefixSum(w, |w|) > 0.0
      && var share := (MODULUS - 1) as real * (pf(|NewlyUnsat(f, a, clause[i])|) / PrefixSum(w, |w|));
      share - 1.0 < |StatesAhead(Picks(w, i), 1)| as real < share + 1.0
  {
    var w := Weights(pf, f, a, clause);
    assert AllPositive(w);
    WheelIsFair(w, i, 1);
  }

  // Random bits

  const HALF: nat := 1073741823

  function Doubled(x: nat): nat {
    x + x
  }

  function Halved(x: nat): nat {
    x / 2
  }

  lemma DoubledIsEven(x: nat)
    requires Between(1, x, HALF + 1)
    ensures LowestBit(Doubled(x)) && 1 <= Doubled(x) < MODULUS
  {
  }

  lemma EvenIsDoubled(x: nat)
    requires LowestBit(x) && 1 <= x < MODULUS
    ensures Between(1, Halved(x), HALF + 1) && Doubled(Halved(x)) == x
  {
  }

  lemma {:induction false} FirstHalfFits()
    ensures |Interval(1, HALF + 1)| <= |StatesWith(LowestBit)|
  {
    forall x: nat | x in Interval(1, HALF + 1)
      ensures Doubled(x) in StatesWith(LowestBit)
    {
      DoubledIsEven(x);
    }
    InjectionSize(Interval(1, HALF + 1), StatesWith(LowestBit), Doubled);
  }

  lemma {:induction false} EvenFits()
    ensures |StatesWith(LowestBit)| <= |Interval(1, HALF + 1)|
  {
    forall x: nat | x in StatesWith(LowestBit)
      ensures Halved(x) in Interval(1, HALF + 1) && Doubled(Halved(x)) == x
    {
      EvenIsDoubled(x);
    }
    InjectionSize(StatesWith(LowestBit), Interval(1, HALF + 1), Halved);
  }

  lemma {:induction false} EvenStatesSize()
    ensures |StatesWith(LowestBit)| == HALF
  {
    IntervalSize(1, HALF + 1);
    FirstHalfFits();
    EvenFits();
  }

  /** Random bits are fair: whatever the number of the draw, exactly half of the states of the generator
      lead to a 1. */
  lemma {:induction false} BitsAreFair(n: nat)
    ensures 2 * |StatesAhead(LowestBit, n)| == MODULUS - 1
  {
    EvenStatesSize();
    NthKeepsSize(LowestBit, n);
  }

  /** Bit `i` of the initial assignment of an execution is the lowest bit of random number `i`. */
  lemma InitialBitsAreRandom(lines: seq<Line>, seed: nat, maxFlips: nat, running: nat -> bool,
                             r: Done, walk: seq<seq<bool>>, i: nat)
    requires Loads(lines) && IsResult(lines, seed, maxFlips, running, r, walk) && i < r.numVars
    ensures |walk[0]| == r.numVars && (walk[0][i] <==> LowestBit(Nth(Seeded(seed), i + 1)))
  {
  }

  // Seeds

  /** The generator treats the seeds alike: they have the same remainder, or the remainders 0 and 1. */
  predicate SameSeed(a: nat, b: nat) {
    a % MODULUS == b % MODULUS || (a % MODULUS <= 1 && b % MODULUS <= 1)
  }

  lemma {:induction false} NextIsInjective(x: nat, y: nat)
    requires x < MODULUS && y < MODULUS && Next(x) == Next(y)
    ensures x == y
  {
    PreviousUndoesNext(x);
    PreviousUndoesNext(y);
  }

  lemma {:induction false} NthIsEngineState(x: nat, n: nat)
    requires EngineState(x)
    ensures EngineState(Nth(x, n))
  {
    if n > 0 {
      NthIsEngineState(x, n - 1);
      NextIsEngineState(Nth(x, n - 1));
    }
  }

  lemma {:induction false} NthIsInjective(x: nat, y: nat, n: nat)
    requires EngineState(x) && EngineState(y)
    ensures Nth(x, n) == Nth(y, n) <==> x == y
  {
    if n > 0 {
      NthIsInjective(x, y, n - 1);
      NthIsEngineState(x, n - 1);
      NthIsEngineState(y, n - 1);
      if Nth(x, n) == Nth(y, n) { NextIsInjective(Nth(x, n - 1), Nth(y, n - 1)); }
    }
  }

  /** Two searches are at no time at the same random number, unless their seeds are treated alike. */
  lemma {:induction false} SeedsStayApart(a: nat, b: nat, n: nat)
    ensures Nth(Seeded(a), n) == Nth(Seeded(b), n) <==> SameSeed(a, b)
  {
    NthIsInjective(Seeded(a), Seeded(b), n);
  }
}
