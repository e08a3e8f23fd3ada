/** The memoised probability function: a table of real weights that threads share. */
module ProbCache {

  /** Every cell is still empty (zero) or holds the value of `f` at its index. */
  ghost predicate Faithful(f: nat -> real, table: seq<real>) {
    forall i | 0 <= i < |table| :: table[i] == 0.0 || table[i] == f(i)
  }

  /** std::vector::resize: cut off the tail or append zeros. */
  function Resized(table: seq<real>, size: nat): (r: seq<real>)
    ensures |r| == size
  {
    if size <= |table| then table[..size] else table + seq(size - |table|, _ => 0.0)
  }

  class CachedProbFunction {
    const f: nat -> real
    var cache: seq<real>

    ghost predicate Valid()
      reads this
    {
      Faithful(f, cache)
    }

    constructor (f: nat -> real)
      ensures Valid() && this.f == f && cache == []
    {
      this.f := f;
      cache := [];
    }

    /** `lockTaken` says whether the try_lock of this call succeeds. */
    method CalcProbFunction(numBreaks: nat, lockTaken: bool) returns (value: real)
      requires Valid() && numBreaks < |cache|
      modifies this
      ensures Valid() && |cache| == old(|cache|)
      ensures value == f(numBreaks)
      ensures forall i | 0 <= i < |cache| && i != numBreaks :: cache[i] == old(cache)[i]
      ensures lockTaken ==> cache[numBreaks] == f(numBreaks)
      ensures !lockTaken ==> cache == old(cache)
    {
      var weight := f(numBreaks);
      var v := cache[numBreaks];
      if 0.0 < v {
        value := v;
      } else {
        if lockTaken {
          cache := cache[numBreaks := weight];
        }
        value := weight;
      }
    }

    /** Growth keeps every filled cell and makes every index up to `numBreaks` readable. */
    method SetMaxNumBreaksPossible(numBreaks: nat)
      requires Valid()
      modifies this
      ensures Valid() && old(cache) <= cache
      ensures |cache| == if old(|cache|) <= numBreaks then numBreaks + 1 else old(|cache|)
    {
      if |cache| <= numBreaks {
        cache := Resized(cache, numBreaks + 1);
      }
    }
  }

  // Several threads share one table. A store happens under the lock; a growth request reads
  // the size without the lock and resizes later under it, and a lookup reads the cell without the
  // lock and stores later under it. So the two halves of both may be separated by the steps of
  // other threads.

  datatype Event =
    | Check(thread: nat, numBreaks: nat)
    | Commit(thread: nat)
    | Read(thread: nat, index: nat)
    | Write(thread: nat, index: nat)

  /** `pending` maps a thread whose check asked for growth to the maximum it asked for, `granted` a
      thread to the maximum it may look up. `outOfRange` records that a cell beyond the table was
      accessed, `wrong` that a lookup returned something else than the function's value. */
  datatype Shared = Shared(
    table: seq<real>, pending: map<nat, nat>, granted: map<nat, nat>, outOfRange: bool, wrong: bool)

  const EMPTY: Shared := Shared([], map[], map[], false, false)

  /** A thread finishes one request before it does anything else, and it only looks up what it was
      granted. */
  predicate Entitled(s: Shared, e: Event) {
    match e
    case Check(thread, _) => thread !in s.pending
    case Commit(thread) => thread in s.pending
    case Read(thread, i) => thread !in s.pending && thread in s.granted && i <= s.granted[thread]
    case Write(thread, i) => thread !in s.pending && thread in s.granted && i <= s.granted[thread]
  }

  /** What calc_prob_function returns for the cell it has read. */
  function Looked(f: nat -> real, cell: real, i: nat): real {
    if 0.0 < cell then cell else f(i)
  }

  function Apply(f: nat -> real, s: Shared, e: Event): Shared
    requires Entitled(s, e)
  {
    match e
    case Check(thread, m) =>
      if |s.table| <= m then s.(pending := s.pending[thread := m]) else s.(granted := s.granted[thread := m])
    case Commit(thread) =>
      s.(table := Resized(s.table, s.pending[thread] + 1), pending := s.pending - {thread},
         granted := s.granted[thread := s.pending[thread]])
    case Read(_, i) =>
      if i < |s.table| then s.(wrong := s.wrong || Looked(f, s.table[i], i) != f(i)) else s.(outOfRange := true)
    case Write(_, i) =>
      if i < |s.table| then s.(table := s.table[i := f(i)]) else s.(outOfRange := true)
  }

  /** A history in which every thread keeps to the rules. */
  ghost predicate IsHistory(f: nat -> real, events: seq<Event>)
    decreases |events|, 0
  {
    events == [] ||
      var front := events[..|events| - 1];
      IsHistory(f, front) && Entitled(Run(f, front), events[|events| - 1])
  }

  /** The table after a history that starts with the empty table. */
  ghost function Run(f: nat -> real, events: seq<Event>): Shared
    requires IsHistory(f, events)
    decreases |events|, 1
  {
    if events == [] then EMPTY else Apply(f, Run(f, events[..|events| - 1]), events[|events| - 1])
  }

  /** As far as it stays within the table, every lookup returns the value of the function, and every
      cell is empty or holds it, in every history. */
  lemma {:induction false} EveryInterleavingIsFaithful(f: nat -> real, events: seq<Event>)
    requires IsHistory(f, events)
    ensures Faithful(f, Run(f, events).table) && !Run(f, events).wrong
  {
    if events != [] { EveryInterleavingIsFaithful(f, events[..|events| - 1]); }
  }

  /** All growth requests of a history ask for one of the given maxima. */
  ghost predicate Asks(events: seq<Event>, maxima: set<nat>) {
    forall i | 0 <= i < |events| && events[i].Check? :: events[i].numBreaks in maxima
  }

  /** In every history of such requests, every lookup is within the table, and returns the value of
      the function. */
  ghost predicate LookupsAreSafe(f: nat -> real, maxima: set<nat>) {
    forall events | IsHistory(f, events) && Asks(events, maxima) ::
      !Run(f, events).outOfRange && !Run(f, events).wrong
  }

  /** With one maximum, as the solvers of one formula ask for it, a table that was granted to anyone is
      complete. */
  lemma {:induction false} OneMaximumTable(f: nat -> real, events: seq<Event>, m: nat)
    requires IsHistory(f, events) && Asks(events, {m})
    ensures var s := Run(f, events);
      && !s.outOfRange
      && (s.table == [] || |s.table| == m + 1)
      && (forall t | t in s.pending :: s.pending[t] == m)
      && (forall t | t in s.granted :: s.granted[t] == m && |s.table| == m + 1)
  {
    if events != [] { OneMaximumTable(f, events[..|events| - 1], m); }
  }

  lemma {:induction false} OneMaximumIsSafe(f: nat -> real, maxima: set<nat>, m: nat)
    requires forall a | a in maxima :: a == m
    ensures LookupsAreSafe(f, maxima)
  {
    forall events | IsHistory(f, events) && Asks(events, maxima)
      ensures !Run(f, events).outOfRange && !Run(f, events).wrong
    {
      OneMaximumTable(f, events, m);
      EveryInterleavingIsFaithful(f, events);
    }
  }

  lemma {:induction false} HistoryNext(f: nat -> real, events: seq<Event>, e: Event)
    requires IsHistory(f, events) && Entitled(Run(f, events), e)
    ensures IsHistory(f, events + [e]) && Run(f, events + [e]) == Apply(f, Run(f, events), e)
  {
    assert (events + [e])[..|events|] == events;
  }

  /** A thread that asked for `low` resizes after one that asked for `high > low`: the second one is
      granted a lookup beyond the table. */
  lemma {:induction false} RacingRequestsFail(f: nat -> real, low: nat, high: nat) returns (events: seq<Event>)
    requires low < high
    ensures IsHistory(f, events) && Asks(events, {low, high}) && Run(f, events).outOfRange
  {
    events := [];
    HistoryNext(f, events, Check(0, low));
    events := events + [Check(0, low)];
    HistoryNext(f, events, Check(1, high));
    events := events + [Check(1, high)];
    HistoryNext(f, events, Commit(1));
    events := events + [Commit(1)];
    HistoryNext(f, events, Commit(0));
    events := events + [Commit(0)];
    assert |Run(f, events).table| == low + 1 && Run(f, events).granted[1] == high;
    HistoryNext(f, events, Read(1, high));
    events := events + [Read(1, high)];
  }

  /** Every lookup that a thread was granted is safe, in every interleaving, if and only if all requests
      ask for the same maximum. */
  lemma {:induction false} SafeIffOneMaximum(f: nat -> real, maxima: set<nat>)
    ensures LookupsAreSafe(f, maxima) <==> forall a, b | a in maxima && b in maxima :: a == b
  {
    if a: nat, b: nat :| a in maxima && b in maxima && a < b {
      var events := RacingRequestsFail(f, a, b);
      assert Asks(events, maxima);
    } else {
      OneMaximumIsSafe(f, maxima, if maxima == {} then 0 else var m: nat :| m in maxima; m);
    }
  }
}
