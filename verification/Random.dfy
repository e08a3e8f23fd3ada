/** The linear congruential generator minstd_rand and the roulette wheel it drives. */
module Random {

  const MODULUS: nat := 2147483647
  const MULTIPLIER: nat := 48271
  /** The inverse of MULTIPLIER modulo MODULUS. */
  const INVERSE: nat := 1899818559

  // engine.min() is 1 and engine.max() is MODULUS - 1, because the increment is zero
  const RAND_MAX: nat := MODULUS - 2

  predicate EngineState(x: nat) {
    1 <= x < MODULUS
  }

  /** linear_congruential_engine::seed with increment 0. */
  function Seeded(seed: nat): (x: nat)
    ensures EngineState(x)
  {
    if seed % MODULUS == 0 then 1 else seed % MODULUS
  }

  function Next(x: nat): nat {
    (MULTIPLIER * x) % MODULUS
  }

  /** The state after `n` numbers. */
  function Nth(x: nat, n: nat): nat {
    if n == 0 then x else Next(Nth(x, n - 1))
  }

  /** The lowest bit of the number that a state stands for. */
  predicate LowestBit(engine: nat) {
    (engine - 1) % 2 == 1
  }

  function Previous(x: nat): nat {
    (INVERSE * x) % MODULUS
  }

  lemma RemainderIs(y: int, k: int, x: nat)
    requires y == k * MODULUS + x && x < MODULUS
    ensures y % MODULUS == x
  {
  }

  lemma {:induction false} InverseTimes(n: int, x: int, q: int)
    requires n == MULTIPLIER * x - q * MODULUS
    ensures INVERSE * n == (42704 * x - INVERSE * q) * MODULUS + x
  {
    assert INVERSE * MULTIPLIER == 42704 * MODULUS + 1;
  }

  /** One step of the generator is undone by multiplying with the inverse, so no two states
      share a successor. */
  lemma {:induction false} PreviousUndoesNext(x: nat)
    requires x < MODULUS
    ensures Previous(Next(x)) == x
  {
    var n, q := Next(x), MULTIPLIER * x / MODULUS;
    InverseTimes(n, x, q);
    RemainderIs(INVERSE * n, 42704 * x - INVERSE * q, x);
  }

  /** The generator never falls into the absorbing state 0. */
  lemma {:induction false} NextIsEngineState(x: nat)
    requires EngineState(x)
    ensures EngineState(Next(x))
  {
    PreviousUndoesNext(x);
  }

  /** The number that get_random_value makes of an engine state: the state scaled to [0, l). */
  function Scaled(engine: nat, l: real): real {
    (engine - 1) as real / (RAND_MAX + 1) as real * l
  }

  lemma {:induction false} FractionOf(q: real, l: real)
    requires 0.0 <= q < 1.0 && 0.0 < l
    ensures 0.0 <= q * l < l
  {
    assert (1.0 - q) * l > 0.0;
  }

  lemma {:induction false} ScaledInRange(engine: nat, l: real)
    requires EngineState(engine) && 0.0 < l
    ensures 0.0 <= Scaled(engine, l) < l
  {
    var q := (engine - 1) as real / (RAND_MAX + 1) as real;
    FractionOf(q, l);
    assert Scaled(engine, l) == q * l;
  }

  class LinCongGenerator {
    var engine: nat

    ghost predicate Valid()
      reads this
    {
      EngineState(engine)
    }

    constructor (seed: nat)
      ensures Valid() && engine == Seeded(seed)
    {
      engine := Seeded(seed);
    }

    method Rand() returns (r: nat)
      requires Valid()
      modifies this
      ensures Valid() && engine == Next(old(engine))
      ensures r == engine - 1 && r <= RAND_MAX
    {
      NextIsEngineState(engine);
      engine := Next(engine);
      r := engine - 1;
    }

    /** A number in [0, l): the upper end is excluded. */
    method RandomValue(l: real) returns (r: real)
      requires Valid() && 0.0 < l
      modifies this
      ensures Valid() && engine == Next(old(engine))
      ensures r == Scaled(engine, l) && 0.0 <= r < l
    {
      var n := Rand();
      ScaledInRange(engine, l);
      r := n as real / (RAND_MAX + 1) as real * l;
    }
  }

  // The roulette wheel: slot i of the wheel is the interval [PrefixSum(w, i), PrefixSum(w, i + 1)).

  ghost function PrefixSum(w: seq<real>, i: nat): real
    requires i <= |w|
  {
    if i == 0 then 0.0 else PrefixSum(w, i - 1) + w[i - 1]
  }

  /** `f` holds the first `k` bounds of the slots. */
  ghost predicate ArePrefixSums(f: seq<real>, w: seq<real>, k: nat)
    requires k <= |w|
  {
    |f| == k && forall j: nat | j < k :: f[j] == PrefixSum(w, j + 1)
  }

  lemma NextPrefixSum(f: seq<real>, w: seq<real>, k: nat, sum: real)
    requires k < |w| && ArePrefixSums(f, w, k) && sum == PrefixSum(w, k) + w[k]
    ensures sum == PrefixSum(w, k + 1) && ArePrefixSums(f + [sum], w, k + 1)
  {
  }

  ghost predicate InSlot(w: seq<real>, r: real, i: nat) {
    i < |w| && PrefixSum(w, i) <= r < PrefixSum(w, i + 1)
  }

  ghost predicate AllPositive(w: seq<real>) {
    forall i | 0 <= i < |w| :: 0.0 < w[i]
  }

  lemma {:induction false} PrefixSumMonotone(w: seq<real>, i: nat, j: nat)
    requires AllPositive(w) && i <= j <= |w|
    ensures PrefixSum(w, i) <= PrefixSum(w, j)
    decreases j
  {
    if i < j {
      PrefixSumMonotone(w, i, j - 1);
    }
  }

  /** The slots of positive weights tile [0, sum): every value below the sum lies in exactly one. */
  lemma {:induction false} SlotsTile(w: seq<real>, r: real)
    requires AllPositive(w) && 0.0 <= r < PrefixSum(w, |w|)
    ensures exists i: nat :: InSlot(w, r, i) && forall j: nat :: InSlot(w, r, j) ==> j == i
  {
    var i := 0;
    while PrefixSum(w, i + 1) <= r
      invariant i < |w| && PrefixSum(w, i) <= r
      decreases |w| - i
    {
      i := i + 1;
    }
    assert InSlot(w, r, i);
    forall j: nat | InSlot(w, r, j)
      ensures j == i
    {
      if j < i { PrefixSumMonotone(w, j + 1, i); }
      if i < j { PrefixSumMonotone(w, i + 1, j); }
    }
  }
}
