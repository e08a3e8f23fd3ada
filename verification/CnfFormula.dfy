/** The occurrence index of a formula: a two-sided counting sort into one flat array. Every
    variable owns one region of the array, first the clauses with its negative literal, then
    those with its positive one. */
module CnfFormulas {
  import opened Cnf

  /** Occurrences of a variable as a negative and as a positive literal. */
  datatype Count = Count(neg: nat, pos: nat)

  /** Where the region of a variable starts, and how long its negative part is. */
  datatype Offset = Offset(first: nat, negCount: nat)

  /** The two lists of clauses the simple list-of-lists index keeps for a variable. */
  datatype Lists = Lists(neg: seq<int>, pos: seq<int>)

  const SUM_MAX: nat := 0x7fff_ffff

  function Max(a: nat, b: nat): nat {
    if a < b then b else a
  }

  function CountOf(count: Count, lit: int): nat {
    if 0 > lit then count.neg else count.pos
  }

  function Incremented(count: Count, lit: int): Count {
    if 0 > lit then count.(neg := count.neg + 1) else count.(pos := count.pos + 1)
  }

  function ListOf(lists: Lists, lit: int): seq<int> {
    if 0 > lit then lists.neg else lists.pos
  }

  function Appended(lists: Lists, lit: int, x: int): Lists {
    if 0 > lit then lists.(neg := lists.neg + [x]) else lists.(pos := lists.pos + [x])
  }

  // The flat array

  /** Where the region of variable `v` starts. */
  ghost function Start(counts: seq<Count>, v: nat): nat
    requires v <= |counts|
  {
    if v == 0 then 0 else Start(counts, v - 1) + counts[v - 1].neg + counts[v - 1].pos
  }

  lemma {:induction false} StartMonotone(counts: seq<Count>, v: nat, w: nat)
    requires v <= w <= |counts|
    ensures Start(counts, v) <= Start(counts, w)
    decreases w
  {
    if v < w {
      StartMonotone(counts, v, w - 1);
    }
  }

  ghost function Zeros(n: nat): (z: seq<int>)
    ensures |z| == n && forall i | 0 <= i < n :: z[i] == 0
  {
    seq(n, _ => 0)
  }

  ghost function Padded(s: seq<int>, size: nat): seq<int>
    requires |s| <= size
  {
    s + Zeros(size - |s|)
  }

  /** The `size` cells from `start` on hold `list`, filled up with zeros. */
  ghost predicate HoldsAt(flat: seq<int>, start: nat, size: nat, list: seq<int>) {
    && |list| <= size
    && start + size <= |flat|
    && flat[start..start + size] == Padded(list, size)
  }

  ghost predicate RegionHolds(flat: seq<int>, start: nat, count: Count, lists: Lists) {
    && HoldsAt(flat, start, count.neg, lists.neg)
    && HoldsAt(flat, start + count.neg, count.pos, lists.pos)
  }

  /** The regions tile the flat array, and each holds the lists of its variable. */
  ghost predicate Filled(counts: seq<Count>, flat: seq<int>, lists: seq<Lists>) {
    && |lists| == |counts|
    && |flat| == Start(counts, |counts|)
    && forall v: nat {:trigger lists[v]} | v < |lists| :: RegionHolds(flat, Start(counts, v), counts[v], lists[v])
  }

  lemma {:induction false} RegionEnd(counts: seq<Count>, v: nat, w: nat)
    requires v < w <= |counts|
    ensures Start(counts, v) + counts[v].neg + counts[v].pos <= Start(counts, w)
  {
    StartMonotone(counts, v + 1, w);
  }

  lemma {:induction false} EmptyIsFilled(counts: seq<Count>, flat: seq<int>, lists: seq<Lists>)
    requires flat == Zeros(Start(counts, |counts|))
    requires |lists| == |counts| && forall v | 0 <= v < |lists| :: lists[v] == Lists([], [])
    ensures Filled(counts, flat, lists)
  {
    forall v: nat | v < |lists|
      ensures RegionHolds(flat, Start(counts, v), counts[v], lists[v])
    {
      RegionEnd(counts, v, |counts|);
    }
  }

  lemma {:induction false} WriteInside(flat: seq<int>, start: nat, size: nat, list: seq<int>, x: int)
    requires HoldsAt(flat, start, size, list) && |list| < size
    ensures HoldsAt(flat[start + |list| := x], start, size, list + [x])
  {
    var flat' := flat[start + |list| := x];
    assert flat'[start..start + size] == flat[start..start + size][|list| := x];
  }

  lemma {:induction false} WriteOutside(flat: seq<int>, start: nat, size: nat, list: seq<int>, p: nat, x: int)
    requires HoldsAt(flat, start, size, list) && p < |flat|
    requires p < start || start + size <= p
    ensures HoldsAt(flat[p := x], start, size, list)
  {
    assert flat[p := x][start..start + size] == flat[start..start + size];
  }

  /** The cell the cursor of a literal points at, in a region that begins at `start`. */
  ghost function CursorIn(start: nat, count: Count, lists: Lists, lit: int): nat {
    start + (if 0 > lit then 0 else count.neg) + |ListOf(lists, lit)|
  }

  lemma {:induction false} WriteInRegion(flat: seq<int>, start: nat, count: Count, lists: Lists, lit: int, x: int)
    requires RegionHolds(flat, start, count, lists)
    requires |ListOf(lists, lit)| < CountOf(count, lit)
    ensures var p := CursorIn(start, count, lists, lit);
      && start <= p < start + count.neg + count.pos <= |flat|
      && RegionHolds(flat[p := x], start, count, Appended(lists, lit, x))
  {
    var p := CursorIn(start, count, lists, lit);
    if 0 > lit {
      WriteInside(flat, start, count.neg, lists.neg, x);
      WriteOutside(flat, start + count.neg, count.pos, lists.pos, p, x);
    } else {
      WriteOutside(flat, start, count.neg, lists.neg, p, x);
      WriteInside(flat, start + count.neg, count.pos, lists.pos, x);
    }
  }

  lemma {:induction false} WriteOutsideRegion(
      flat: seq<int>, start: nat, count: Count, lists: Lists, p: nat, x: int)
    requires RegionHolds(flat, start, count, lists) && p < |flat|
    requires p < start || start + count.neg + count.pos <= p
    ensures RegionHolds(flat[p := x], start, count, lists)
  {
    WriteOutside(flat, start, count.neg, lists.neg, p, x);
    WriteOutside(flat, start + count.neg, count.pos, lists.pos, p, x);
  }

  /** Writing at the cursor of a literal appends to its list and leaves every other list alone. */
  lemma {:induction false} WriteAtCursor(counts: seq<Count>, flat: seq<int>, lists: seq<Lists>, lit: int, x: int)
    requires Filled(counts, flat, lists) && IsLiteral(lit, |counts|)
    requires |ListOf(lists[Var(lit)], lit)| < CountOf(counts[Var(lit)], lit)
    ensures var v := Var(lit);
      var p := CursorIn(Start(counts, v), counts[v], lists[v], lit);
      p < |flat| && Filled(counts, flat[p := x], lists[v := Appended(lists[v], lit, x)])
  {
    var v := Var(lit);
    var p := CursorIn(Start(counts, v), counts[v], lists[v], lit);
    var lists' := lists[v := Appended(lists[v], lit, x)];
    assert RegionHolds(flat, Start(counts, v), counts[v], lists[v]);
    WriteInRegion(flat, Start(counts, v), counts[v], lists[v], lit, x);
    forall w: nat | w < |lists|
      ensures RegionHolds(flat[p := x], Start(counts, w), counts[w], lists'[w])
    {
      if w != v {
        assert RegionHolds(flat, Start(counts, w), counts[w], lists[w]);
        if w < v { RegionEnd(counts, w, v); } else { RegionEnd(counts, v, w); }
        WriteOutsideRegion(flat, Start(counts, w), counts[w], lists[w], p, x);
      }
    }
  }

  // The list-of-lists index

  /** What the list-of-lists index holds when the reading has come to position `i` of clause `c`. */
  ghost function ListsUpTo(f: Formula, n: nat, c: nat, i: nat): (lists: seq<Lists>)
    requires c <= |f| && i <= (if c < |f| then |f[c]| else 0)
    ensures |lists| == n
    ensures forall v: nat | v < n ::
      lists[v] == Lists(OccursUpTo(f, c, i, -(v + 1)), OccursUpTo(f, c, i, v + 1))
  {
    seq(n, v requires 0 <= v < n => Lists(OccursUpTo(f, c, i, -(v + 1)), OccursUpTo(f, c, i, v + 1)))
  }

  ghost function ListIndex(f: Formula, n: nat): (lists: seq<Lists>)
    ensures |lists| == n
    ensures forall v: nat | v < n :: lists[v] == Lists(Occurrences(f, -(v + 1)), Occurrences(f, v + 1))
  {
    ListsUpTo(f, n, |f|, 0)
  }

  lemma {:induction false} NextLiteral(f: Formula, n: nat, c: nat, i: nat)
    requires c < |f| && i < |f[c]| && IsLiteral(At(f[c], i), n)
    ensures var lit := At(f[c], i);
      var lists := ListsUpTo(f, n, c, i);
      ListsUpTo(f, n, c, i + 1) == lists[Var(lit) := Appended(lists[Var(lit)], lit, c)]
  {
    var lit := At(f[c], i);
    var lists := ListsUpTo(f, n, c, i);
    forall v: nat | v < n
      ensures ListsUpTo(f, n, c, i + 1)[v] == if v == Var(lit) then Appended(lists[v], lit, c) else lists[v]
    {
      assert OccursUpTo(f, c, i + 1, -(v + 1))
          == OccursUpTo(f, c, i, -(v + 1)) + (if lit == -(v + 1) then [c] else []);
      assert OccursUpTo(f, c, i + 1, v + 1)
          == OccursUpTo(f, c, i, v + 1) + (if lit == v + 1 then [c] else []);
    }
  }

  // Counts

  /** Every count covers the occurrences of its literal. */
  ghost predicate CountsCover(f: Formula, counts: seq<Count>) {
    forall v: nat | v < |counts| ::
      && |Occurrences(f, -(v + 1))| <= counts[v].neg
      && |Occurrences(f, v + 1)| <= counts[v].pos
  }

  /** The counts of variable `v` are its occurrences. */
  ghost predicate ExactAt(f: Formula, counts: seq<Count>, v: nat)
    requires v < |counts|
  {
    counts[v] == Count(|Occurrences(f, -(v + 1))|, |Occurrences(f, v + 1)|)
  }

  ghost predicate CountsExact(f: Formula, counts: seq<Count>) {
    forall v: nat | v < |counts| :: ExactAt(f, counts, v)
  }

  ghost predicate Used(f: Formula, v: nat) {
    Occurrences(f, -(v + 1)) != [] || Occurrences(f, v + 1) != []
  }

  /** The counts of every variable of the formula are exact. */
  ghost predicate ExactWhereUsed(f: Formula, counts: seq<Count>) {
    forall v: nat | v < |counts| && Used(f, v) :: ExactAt(f, counts, v)
  }

  /** cnt_t is int16_t, and the parser refuses to count past its maximum. */
  predicate CountsFit(counts: seq<Count>) {
    forall v | 0 <= v < |counts| :: counts[v].neg <= CNT_MAX && counts[v].pos <= CNT_MAX
  }

  /** Every literal of the formula belongs to one of `n` variables. */
  predicate FormulaInRange(f: Formula, n: nat) {
    forall c | 0 <= c < |f| :: InRange(f[c], n)
  }

  /** `lit` has been read before position `i` of clause `c`. */
  ghost predicate HasBeenRead(f: Formula, n: nat, c: nat, i: nat, lit: int)
    requires c <= |f| && i <= (if c < |f| then |f[c]| else 0)
  {
    IsLiteral(lit, n) && OccursUpTo(f, c, i, lit) != []
  }

  /** `m` is the largest count of a literal read so far. */
  ghost predicate LargestCount(f: Formula, counts: seq<Count>, c: nat, i: nat, m: nat)
    requires c <= |f| && i <= (if c < |f| then |f[c]| else 0)
  {
    && (forall lit | HasBeenRead(f, |counts|, c, i, lit) :: CountOf(counts[Var(lit)], lit) <= m)
    && (m == 0 || exists lit :: HasBeenRead(f, |counts|, c, i, lit) && CountOf(counts[Var(lit)], lit) == m)
  }

  lemma {:induction false} LargestAfterLiteral(f: Formula, counts: seq<Count>, c: nat, i: nat, m: nat)
    requires c < |f| && i < |f[c]| && IsLiteral(At(f[c], i), |counts|)
    requires LargestCount(f, counts, c, i, m)
    ensures var lit := At(f[c], i);
      LargestCount(f, counts, c, i + 1, Max(m, CountOf(counts[Var(lit)], lit)))
  {
    var n, lit := |counts|, At(f[c], i);
    forall l
      ensures HasBeenRead(f, n, c, i + 1, l) <==> HasBeenRead(f, n, c, i, l) || l == lit
    {
    }
  }

  lemma {:induction false} LargestAtNextClause(f: Formula, counts: seq<Count>, c: nat, m: nat)
    requires c < |f| && LargestCount(f, counts, c, |f[c]|, m)
    ensures LargestCount(f, counts, c + 1, 0, m)
  {
    forall lit
      ensures HasBeenRead(f, |counts|, c + 1, 0, lit) <==> HasBeenRead(f, |counts|, c, |f[c]|, lit)
    {
    }
  }

  /** The largest count is the largest number of occurrences of a literal. */
  lemma {:induction false} LargestIsMaxOccurrence(f: Formula, counts: seq<Count>, m: nat)
    requires CountsCover(f, counts) && ExactWhereUsed(f, counts) && LargestCount(f, counts, |f|, 0, m)
    ensures forall lit | IsLiteral(lit, |counts|) :: |Occurrences(f, lit)| <= m
    ensures m == 0 || exists lit :: IsLiteral(lit, |counts|) && |Occurrences(f, lit)| == m
  {
    forall lit | IsLiteral(lit, |counts|) && Occurrences(f, lit) != []
      ensures |Occurrences(f, lit)| == CountOf(counts[Var(lit)], lit)
    {
      var v: nat := Var(lit);
      assert lit == v + 1 || lit == -(v + 1);
      assert Used(f, v) && ExactAt(f, counts, v);
    }
    forall lit | IsLiteral(lit, |counts|)
      ensures |Occurrences(f, lit)| <= m
    {
      if Occurrences(f, lit) != [] { assert HasBeenRead(f, |counts|, |f|, 0, lit); }
    }
  }

  /** The cursors count what each list holds. */
  ghost predicate CursorsAgree(cursors: seq<Count>, lists: seq<Lists>) {
    && |cursors| == |lists|
    && forall v | 0 <= v < |lists| :: cursors[v] == Count(|lists[v].neg|, |lists[v].pos|)
  }

  /** Covering counts leave room for the occurrence that is read next. */
  lemma {:induction false} RoomForNext(f: Formula, counts: seq<Count>, c: nat, i: nat, lit: int)
    requires CountsCover(f, counts) && IsLiteral(lit, |counts|)
    requires c < |f| && i < |f[c]| && lit == At(f[c], i)
    ensures var list := ListOf(ListsUpTo(f, |counts|, c, i)[Var(lit)], lit);
      list == OccursUpTo(f, c, i, lit) && |list| < CountOf(counts[Var(lit)], lit)
  {
    var v: nat := Var(lit);
    OccursUpToIsPrefix(f, c, i + 1, lit);
    assert OccursUpTo(f, c, i + 1, lit) == OccursUpTo(f, c, i, lit) + [c];
    assert |Occurrences(f, -(v + 1))| <= counts[v].neg && |Occurrences(f, v + 1)| <= counts[v].pos;
  }

  lemma {:induction false} CursorStep(f: Formula, cursors: seq<Count>, c: nat, i: nat, lit: int)
    requires IsLiteral(lit, |cursors|)
    requires c < |f| && i < |f[c]| && lit == At(f[c], i)
    requires CursorsAgree(cursors, ListsUpTo(f, |cursors|, c, i))
    ensures CursorsAgree(cursors[Var(lit) := Incremented(cursors[Var(lit)], lit)],
                         ListsUpTo(f, |cursors|, c, i + 1))
  {
    NextLiteral(f, |cursors|, c, i);
  }

  /** One pass of the inner loop over the plain sequences: the occurrence at position `i` of
      clause `c` fits into its region, at the cursor, and becomes the next entry of its list. */
  lemma {:induction false} OccurrenceStep(
      f: Formula, counts: seq<Count>, flat: seq<int>, cursors: seq<Count>, c: nat, i: nat, lit: int, p: nat)
    requires CountsCover(f, counts) && IsLiteral(lit, |counts|)
    requires c < |f| && i < |f[c]| && lit == At(f[c], i)
    requires Filled(counts, flat, ListsUpTo(f, |counts|, c, i))
    requires CursorsAgree(cursors, ListsUpTo(f, |counts|, c, i))
    requires p == Start(counts, Var(lit))
                + (if 0 > lit then cursors[Var(lit)].neg else counts[Var(lit)].neg + cursors[Var(lit)].pos)
    ensures p < |flat| && Filled(counts, flat[p := c], ListsUpTo(f, |counts|, c, i + 1))
    ensures CursorsAgree(cursors[Var(lit) := Incremented(cursors[Var(lit)], lit)],
                         ListsUpTo(f, |counts|, c, i + 1))
  {
    var v := Var(lit);
    var lists, lists' := ListsUpTo(f, |counts|, c, i), ListsUpTo(f, |counts|, c, i + 1);
    assert cursors[v] == Count(|lists[v].neg|, |lists[v].pos|);
    assert p == CursorIn(Start(counts, v), counts[v], lists[v], lit);
    assert lists' == lists[v := Appended(lists[v], lit, c)] by { NextLiteral(f, |counts|, c, i); }
    assert p < |flat| && Filled(counts, flat[p := c], lists') by {
      RoomForNext(f, counts, c, i, lit);
      WriteAtCursor(counts, flat, lists, lit, c);
    }
    CursorStep(f, cursors, c, i, lit);
  }

  class CnfFormula {
    const numVars: nat
    const clauses: Formula
    var occurrenceOffset: array<Offset>
    var clausesWithVars: array<int>
    var maxNumBreaksPossible: nat

    constructor (numVars: nat, clauses: Formula)
      ensures this.numVars == numVars && this.clauses == clauses && maxNumBreaksPossible == 0
      ensures fresh(occurrenceOffset) && fresh(clausesWithVars)
    {
      this.numVars := numVars;
      this.clauses := clauses;
      maxNumBreaksPossible := 0;
      occurrenceOffset := new Offset[0];
      clausesWithVars := new int[0];
    }

    ghost predicate OffsetsUpTo(counts: seq<Count>, n: nat)
      requires n <= numVars
      reads this`occurrenceOffset, occurrenceOffset
    {
      && |counts| == numVars && occurrenceOffset.Length == numVars + 1
      && forall v: nat {:trigger occurrenceOffset[v]} | v < n ::
           occurrenceOffset[v] == Offset(Start(counts, v), counts[v].neg)
    }

    ghost predicate HasOffsets(counts: seq<Count>)
      reads this`occurrenceOffset, occurrenceOffset
    {
      OffsetsUpTo(counts, numVars) && occurrenceOffset[numVars] == Offset(Start(counts, numVars), 0)
    }

    /** The index holds `lists`, in regions of the sizes `counts`. */
    ghost predicate Indexes(counts: seq<Count>, lists: seq<Lists>)
      reads this`occurrenceOffset, this`clausesWithVars, occurrenceOffset, clausesWithVars
    {
      HasOffsets(counts) && Filled(counts, clausesWithVars[..], lists)
    }

    /** The formula a solver may rely on: clean clauses, and an index that lists exactly the
        occurrences of the literals of every variable in use. */
    ghost predicate Valid(counts: seq<Count>)
      reads this, occurrenceOffset, clausesWithVars
    {
      && Clean(clauses, numVars)
      && |counts| == numVars && CountsCover(clauses, counts) && ExactWhereUsed(clauses, counts) && CountsFit(counts)
      && Indexes(counts, ListIndex(clauses, numVars))
      && LargestCount(clauses, counts, |clauses|, 0, maxNumBreaksPossible)
    }

    /** The largest bucket bounds the occurrences of every literal, and fits into cnt_t. */
    lemma {:induction false} IndexBounds(counts: seq<Count>)
      requires Valid(counts)
      ensures OccurrencesBounded(clauses, numVars, maxNumBreaksPossible) && maxNumBreaksPossible <= CNT_MAX
    {
      LargestIsMaxOccurrence(clauses, counts, maxNumBreaksPossible);
      if maxNumBreaksPossible > 0 {
        var lit :| IsLiteral(lit, |counts|) && |Occurrences(clauses, lit)| == maxNumBreaksPossible;
        var v: nat := Var(lit);
        assert lit == v + 1 || lit == -(v + 1);
        assert Used(clauses, v) && ExactAt(clauses, counts, v);
      }
    }

    /** The counts of the variables of all literals in the formula are exact. */
    lemma {:induction false} LiteralIsExact(counts: seq<Count>, c: nat, i: nat)
      requires Valid(counts) && c < |clauses| && i < |clauses[c]|
      ensures IsLiteral(clauses[c][i], numVars) && ExactAt(clauses, counts, Var(clauses[c][i]))
    {
      LiteralOccurs(clauses, numVars, c, i);
      var lit := clauses[c][i];
      var v: nat := Var(lit);
      assert lit == v + 1 || lit == -(v + 1);
      assert Used(clauses, v);
    }

    /** The two ranges of get_iterators_for_clauses_with_vars, as bounds into the flat array. */
    method GetIterators(v: nat, ghost counts: seq<Count>) returns (negStart: nat, posStart: nat, posEnd: nat)
      requires v < numVars && HasOffsets(counts)
      ensures negStart == Start(counts, v)
      ensures posStart == negStart + counts[v].neg && posEnd == posStart + counts[v].pos
    {
      negStart := occurrenceOffset[v].first;
      posStart := negStart + occurrenceOffset[v].negCount;
      posEnd := occurrenceOffset[v + 1].first;
    }

    /** The clauses with the negative and with the positive literal of a variable. */
    method GetClausesWithVar(v: nat, ghost counts: seq<Count>, ghost lists: seq<Lists>)
      returns (neg: seq<int>, pos: seq<int>)
      requires v < numVars && Indexes(counts, lists)
      ensures |lists| == |counts| == numVars
      ensures |lists[v].neg| <= counts[v].neg && neg == Padded(lists[v].neg, counts[v].neg)
      ensures |lists[v].pos| <= counts[v].pos && pos == Padded(lists[v].pos, counts[v].pos)
    {
      var negStart, posStart, posEnd := GetIterators(v, counts);
      assert RegionHolds(clausesWithVars[..], Start(counts, v), counts[v], lists[v]);
      neg := clausesWithVars[negStart..posStart];
      pos := clausesWithVars[posStart..posEnd];
      assert neg == clausesWithVars[..][negStart..posStart] && pos == clausesWithVars[..][posStart..posEnd];
    }

    /** The clauses a flip of `lit` may break (those with its negation) and the clauses it makes. */
    method GetBreakAndMake(lit: int, ghost counts: seq<Count>) returns (brk: seq<int>, mk: seq<int>)
      requires Valid(counts) && IsLiteral(lit, numVars) && ExactAt(clauses, counts, Var(lit))
      ensures brk == Occurrences(clauses, -lit) && mk == Occurrences(clauses, lit)
    {
      var v: nat := Var(lit);
      var neg, pos := GetClausesWithVar(v, counts, ListIndex(clauses, numVars));
      if 0 < lit {
        brk, mk := neg, pos;
      } else {
        brk, mk := pos, neg;
      }
    }

    /** The offsets are prefix sums of the counts. Reports whether the total fits into sum_t. */
    method InitOffsets(counts: seq<Count>) returns (ok: bool, sum: nat)
      requires |counts| == numVars
      modifies this`occurrenceOffset
      ensures ok <==> Start(counts, numVars) <= SUM_MAX
      ensures ok ==> fresh(occurrenceOffset) && HasOffsets(counts) && sum == Start(counts, numVars)
    {
      occurrenceOffset := new Offset[numVars + 1];
      sum := 0;
      for i := 0 to numVars
        invariant fresh(occurrenceOffset) && OffsetsUpTo(counts, i)
        invariant sum == Start(counts, i) <= SUM_MAX
      {
        occurrenceOffset[i] := Offset(sum, counts[i].neg);
        var s := counts[i].neg + counts[i].pos;
        if sum > SUM_MAX - s {
          StartMonotone(counts, i + 1, numVars);
          ok := false;
          return;
        }
        sum := sum + s;
      }
      occurrenceOffset[numVars] := Offset(sum, 0);
      ok := true;
    }

    /** Stores an occurrence at a cell of the flat array and moves the cursor of its literal. */
    method Store(p: nat, c: nat, cursors: array<Count>, lit: int)
      requires p < clausesWithVars.Length && IsLiteral(lit, cursors.Length)
      modifies clausesWithVars, cursors
      ensures clausesWithVars[..] == old(clausesWithVars[..])[p := c]
      ensures cursors[..] == old(cursors[..])[Var(lit) := Incremented(old(cursors[..])[Var(lit)], lit)]
    {
      clausesWithVars[p] := c;
      cursors[Var(lit)] := Incremented(cursors[Var(lit)], lit);
    }

    /** The body of the inner loop: one occurrence goes to the cursor of its literal. Returns
        the length of the range it was written into. */
    method WriteOccurrence(counts: seq<Count>, c: nat, i: nat, cursors: array<Count>) returns (size: nat)
      requires c < |clauses| && i < |clauses[c]| && IsLiteral(At(clauses[c], i), numVars)
      requires CountsCover(clauses, counts)
      requires Indexes(counts, ListsUpTo(clauses, numVars, c, i))
      requires CursorsAgree(cursors[..], ListsUpTo(clauses, numVars, c, i))
      modifies clausesWithVars, cursors
      ensures Indexes(counts, ListsUpTo(clauses, numVars, c, i + 1))
      ensures CursorsAgree(cursors[..], ListsUpTo(clauses, numVars, c, i + 1))
      ensures size == CountOf(counts[Var(At(clauses[c], i))], At(clauses[c], i))
    {
      var lit := At(clauses[c], i);
      var v := Var(lit);
      var cursor := cursors[v];
      assert cursors[..][v] == cursor;
      var negStart, posStart, posEnd := GetIterators(v, counts);
      var p := if 0 > lit then negStart + cursor.neg else posStart + cursor.pos;
      OccurrenceStep(clauses, counts, clausesWithVars[..], cursors[..], c, i, lit, p);
      Store(p, c, cursors, lit);
      assert HasOffsets(counts);
      size := if 0 > lit then posStart - negStart else posEnd - posStart;
    }

    /** The body of the inner loop. */
    method FillLiteral(counts: seq<Count>, c: nat, i: nat, cursors: array<Count>)
      requires FormulaInRange(clauses, numVars) && CountsCover(clauses, counts) && c < |clauses| && i < |clauses[c]|
      requires Indexes(counts, ListsUpTo(clauses, numVars, c, i))
      requires CursorsAgree(cursors[..], ListsUpTo(clauses, numVars, c, i))
      requires LargestCount(clauses, counts, c, i, maxNumBreaksPossible)
      modifies clausesWithVars, cursors, this`maxNumBreaksPossible
      ensures Indexes(counts, ListsUpTo(clauses, numVars, c, i + 1))
      ensures CursorsAgree(cursors[..], ListsUpTo(clauses, numVars, c, i + 1))
      ensures LargestCount(clauses, counts, c, i + 1, maxNumBreaksPossible)
    {
      assert At(clauses[c], i) in clauses[c];
      LargestAfterLiteral(clauses, counts, c, i, maxNumBreaksPossible);
      var size := WriteOccurrence(counts, c, i, cursors);
      maxNumBreaksPossible := Max(maxNumBreaksPossible, size);
    }

    /** The inner loop: all literals of clause `c`. */
    method FillClause(counts: seq<Count>, c: nat, cursors: array<Count>)
      requires FormulaInRange(clauses, numVars) && CountsCover(clauses, counts) && c < |clauses|
      requires Indexes(counts, ListsUpTo(clauses, numVars, c, 0))
      requires CursorsAgree(cursors[..], ListsUpTo(clauses, numVars, c, 0))
      requires LargestCount(clauses, counts, c, 0, maxNumBreaksPossible)
      modifies clausesWithVars, cursors, this`maxNumBreaksPossible
      ensures Indexes(counts, ListsUpTo(clauses, numVars, c, |clauses[c]|))
      ensures CursorsAgree(cursors[..], ListsUpTo(clauses, numVars, c, |clauses[c]|))
      ensures LargestCount(clauses, counts, c, |clauses[c]|, maxNumBreaksPossible)
    {
      ghost var lists := ListsUpTo(clauses, numVars, c, 0);
      for i := 0 to |clauses[c]|
        invariant lists == ListsUpTo(clauses, numVars, c, i)
        invariant Indexes(counts, lists) && CursorsAgree(cursors[..], lists)
        invariant LargestCount(clauses, counts, c, i, maxNumBreaksPossible)
      {
        FillLiteral(counts, c, i, cursors);
        lists := ListsUpTo(clauses, numVars, c, i + 1);
      }
    }

    /** The loop over all clauses. */
    method FillIndex(counts: seq<Count>, cursors: array<Count>)
      requires FormulaInRange(clauses, numVars) && CountsCover(clauses, counts)
      requires Indexes(counts, ListsUpTo(clauses, numVars, 0, 0))
      requires CursorsAgree(cursors[..], ListsUpTo(clauses, numVars, 0, 0))
      requires maxNumBreaksPossible == 0
      modifies clausesWithVars, cursors, this`maxNumBreaksPossible
      ensures Indexes(counts, ListIndex(clauses, numVars))
      ensures LargestCount(clauses, counts, |clauses|, 0, maxNumBreaksPossible)
    {
      for c := 0 to |clauses|
        invariant Indexes(counts, ListsUpTo(clauses, numVars, c, 0))
        invariant CursorsAgree(cursors[..], ListsUpTo(clauses, numVars, c, 0))
        invariant LargestCount(clauses, counts, c, 0, maxNumBreaksPossible)
      {
        FillClause(counts, c, cursors);
        LargestAtNextClause(clauses, counts, c, maxNumBreaksPossible);
        assert ListsUpTo(clauses, numVars, c + 1, 0) == ListsUpTo(clauses, numVars, c, |clauses[c]|);
      }
    }

    /** cnf_formula_constructor_variant_cont_datastruct. The counts only have to cover the
        occurrences; a cell that no occurrence claims keeps the zero it was created with. */
    method BuildIndex(counts: seq<Count>) returns (ok: bool)
      requires |counts| == numVars && FormulaInRange(clauses, numVars)
      requires CountsCover(clauses, counts) && maxNumBreaksPossible == 0
      modifies this
      ensures ok <==> Start(counts, numVars) <= SUM_MAX
      ensures ok ==> fresh(occurrenceOffset) && fresh(clausesWithVars)
      ensures ok ==> Indexes(counts, ListIndex(clauses, numVars))
      ensures ok ==> LargestCount(clauses, counts, |clauses|, 0, maxNumBreaksPossible)
    {
      var sum;
      ok, sum := InitOffsets(counts);
      if ok {
        var cursors := new Count[numVars](_ => Count(0, 0));
        clausesWithVars := new int[sum](_ => 0);
        ghost var none := ListsUpTo(clauses, numVars, 0, 0);
        EmptyIsFilled(counts, clausesWithVars[..], none);
        assert HasOffsets(counts);
        FillIndex(counts, cursors);
      }
    }
  }
}
