# Parallel ProbSAT in Dafny

A model of the parallel ProbSAT solver, with machine-checked proofs of what its local search, its
occurrence index, its parser and its work distribution keep. `dafny verify dfyconfig.toml` checks all
of it.

## What is modelled

**The local search** (`Cnf`, `Caches`, `Instance`). `serial_instance` keeps an assignment and four
redundant structures: an unordered list of unsatisfied clauses, one integer per clause that is a list
position or minus the number of satisfied literals, a break counter per variable, and a critical
literal per clause that only means something while exactly one literal is satisfied. The class
`SerialInstance` has these fields and the methods of the source, with 16-bit counters. Its invariant
says that all four structures equal a recomputation from the assignment. The proof runs over *tables*
(the set of satisfied literals of every clause): each pass of a loop in `flip_literal` changes one row
of a table that is neither that of the old nor that of the new assignment, and `Tracks` relates the
caches to whatever table has been reached. So the statements hold at every point inside a flip, not
only at its ends.

**The occurrence index** (`CnfFormula`): the two-sided counting sort into one flat array, refining the
list-of-lists form of the same file.

**The parser** (`Input`, `Pipeline`, `Acceptance`, `Limits`), at the level of lines and tokens: which
clauses are kept, dropped or rejected, what the counters say afterwards, which files are accepted, told
from their lines alone, and exactly when the index built from them is right. `SpoiledRanges` follows a
flip over ranges with cells that no occurrence claims.

**Execution of a task** (`Execute`): read, build the index, draw a random assignment, search.

**The supporting parts**: the packed bitfield with its one pending write (`Bitfield`), the memoised
probability function and its races (`ProbCache`), the generator and the roulette wheel (`Random`), and
how the states of the generator are spread over literals, random bits and seeds (`Fairness`).

**Work distribution** (`Scheduler`, `Worker`, `WorkerQueues`, `Statistics`, `Results`, `Protocol`,
`Honest`, `Runs`, `Solutions`, `Reporting`, `Termination`, `Ordering`, `Delivery`, `Drops`,
`Scenarios`): the handlers of the server as a class, the worker process as a
state machine of its main loop and its threads, and both together with their channels as one transition
system. The files are part of the system: a thread that finishes a task reports a result of the file of
that task, which for the files covered by `Execute` is the outcome of some execution. The theorems are
about all runs, with any number of files and workers and in any order of steps. Job messages, queues,
threads, finished tasks, messages on their way and dropped instances are all part of the state, so
conservation can be stated exactly. `Sums` holds sums of weights over sequences, `Basics` shared types.

Each method that stands for a method of the source is proved against a function of the old state, and
the lemmas say what the source promises about that function.

## What the proofs found

- *Dropped tautologies spoil the index.* `parse_clause` counts the literals of a clause before it drops
  it. The cells that these counts reserve stay zero and read as occurrences in clause 0. The whole index
  is exact **iff** no clause line holds a literal together with its negation
  (`IndexExactIffNoTautology`). What a search needs is less: the ranges of the variables in use are
  exact, and every flip of such a variable keeps the caches right from every state, **iff** no tautology
  shares a variable with another clause (`ExactWhereUsedIffApart`, `FlipsAreSafeIffApart`). With a file
  that violates this a flip can empty the list of unsatisfied clauses of an unsatisfiable formula
  (`TautologyFileIsRead`, `TwoUnitsIndex`, `PhantomSolution`). For a whole search only one half is proved:
  under this condition it answers correctly (`Execute`). The other half stays open, because a search
  may happen never to make one of the flips that go wrong. Dropping itself keeps the meaning of the
  file (`AcceptedKeepsMeaning`).
- *Clauses with more than 256 literals are rejected.* The clause subscript takes a `uint8_t`, so the
  pairwise test sees position 256 as position 0. Clauses with distinct variables are kept **iff** they
  have at most 256 literals (`DistinctKeptIffShort`, `LongClauseIsRejected`).
- *A configuration line may take back variables in use.* An accepted file is clean, in range and counted
  exactly **iff** every configuration line declares all variables that the clause lines in front of it
  use (`SoundIffCovers`). So all accepted files with given declarations are sound **iff** none of them
  is smaller than the one before it (`SoundIffAscending`).
- *0/0 in the manager.* The averages per variable and per clause in a report are undefined **iff** no
  returned run of some task has flipped anything (`ReportUndefinedIff`): the size of a formula is only
  stored with a message that reports flips. A run that is solved by its initial assignment is an
  example (`ReportWithoutAverages`).
- *Racing growth of the probability table leads lookups out of range*, because the size is compared
  outside the lock: a late resize to a smaller maximum cuts off cells that another thread was granted
  (`RacingRequestsFail`). Every lookup in every interleaving is in range and returns the value of the
  function **iff** all requests ask for the same maximum (`SafeIffOneMaximum`). Whatever the maxima,
  lookups that stay within the table return the right value (`EveryInterleavingIsFaithful`).
- *Dropped instances block the end.* An instance that a worker drops before the statistics were sent
  keeps the server from ever sending them and from stopping (`DroppedBlocksTheEnd`). This happens when
  TERMINATE overtakes a queued instance (`TerminationDropsInstance`), and, except at workers that
  failed, only after TERMINATE was sent (`DroppedOnlyAfterTermination`).
- *A worker that is accepted after TERMINATE was sent never learns of it*, because TERMINATE is broadcast
  once. It never leaves, and the server never stops (`LateWorkerRunsForever`). Every worker that was attached
  when it was sent takes it (`TerminateIsNeverLost`).
- *Two suspicious places are harmless.* The branch of `process_w2s_DONE_PROCESSING` that puts a task
  back into the queue is never taken (`NeverRescheduled`); and the main loop of the worker, which hands
  a message it has only probed to the command handler, only ever finds TERMINATE there
  (`ProbeFindsTerminate`).

## Configuration and conventions

Input verification on, additional checks off, contiguous index, cached critical literals, caching of
break counters, no unclean clauses, the bitfield as assignment type (`sat/instance.hpp` tests
`USE_BITFIELD` with `#ifdef`), every task tried once, no waiting for more files, termination after
a solution. The configuration file of the repository switches the memoised probability function off;
the solver is modelled with it, since it returns the value of the function it wraps.
`prec_t` and doubles are reals. The probability function is any function with positive values.
Randomness is the seed of the generator, clocks and try-locks are parameters, and what a search reads
from the flag `running` is a function of the number of flips done. Vectors that are reserved and then
indexed are arrays.

## Model

| member | source | states |
|---|---|---|
| Instances.SerialInstance.constructor | sat/instance.hpp:510-529 | The solver owns a copy of the assignment it is given, and starts with all caches equal to a recomputation. |
| Instances.SerialInstance.Initialize | sat/instance.hpp:449-504 | From empty caches the first pass establishes the full invariant and changes neither the assignment nor the number of flips. |
| Instances.SerialInstance.ClassifyClauses | sat/instance.hpp:477-498 | The loop over the clauses ends with all four caches agreeing with the satisfied literals of the assignment. |
| Instances.SerialInstance.ClassifyClause | sat/instance.hpp:478-497 | One clause is classified by its number of satisfied literals as Classified says; no counter leaves 16 bits. |
| Instances.SerialInstance.MakeClauseUnsat | sat/instance.hpp:126-135 | The clause is appended to the list and located at its end. |
| Instances.SerialInstance.MakeClauseSat | sat/instance.hpp:138-179 | Swap-removal from the list, in all three branches. |
| Instances.SerialInstance.NumSatLitInClause | sat/instance.hpp:274-286 | Returns the number of satisfied literals of a clean clause. |
| Instances.SerialInstance.GetFirstSatisfiedLiteral | sat/instance.hpp:256-271 | Returns the first satisfied literal other than the excluded one, or 0. |
| Instances.SerialInstance.BreakClause | sat/instance.hpp:319-375 | One pass of the break loop equals Broken, with every counter update in 16-bit range. |
| Instances.SerialInstance.MakeClause | sat/instance.hpp:379-435 | One pass of the make loop equals Made, with every counter update in 16-bit range. |
| Instances.SerialInstance.NextBreak | sat/instance.hpp:319-376 | One pass of the break loop moves the caches to the next table, and every counter stays between 0 and max_num_breaks_possible. |
| Instances.SerialInstance.NextMake | sat/instance.hpp:379-436 | The same for one pass of the make loop. |
| Instances.SerialInstance.BreakClauses | sat/instance.hpp:318-376 | The break loop removes the negated literal from every clause that contains it, and from no other. |
| Instances.SerialInstance.MakeClauses | sat/instance.hpp:378-436 | The make loop adds the literal to every clause that contains it, and to no other. |
| Instances.SerialInstance.FlipCaches | sat/instance.hpp:303-436 | Before the assignment is flipped, the caches already agree with the flipped assignment. |
| Instances.SerialInstance.FlipLiteral | sat/instance.hpp:295-446 | Flipping an unsatisfied literal of a variable with exact ranges keeps the full invariant, changes one variable, and changes the size of the list by its break counter minus the unsatisfied clauses that contain the literal. |
| Instances.SerialInstance.GetNumBreaksByFlip | sat/instance.hpp:182-220 | The cached counter and the recount both give the number of clauses that become newly unsatisfied by the flip. |
| Instances.SerialInstance.Recount | sat/instance.hpp:211-218 | Counts the clauses of a list that have exactly one satisfied literal. |
| Instances.SerialInstance.FoundSolution | sat/instance.hpp:592-596 | The list is empty if and only if the assignment satisfies the formula. |
| Instances.SerialInstance.CheckAssignment | sat/instance.hpp:599-622 | The full scan is true if and only if the assignment satisfies the formula. |
| Instances.SerialInstance.SumWeights | sat/instance.hpp:558-572 | The array f holds the prefix sums of the weights of the newly unsatisfied counts of the literals. |
| Instances.SerialInstance.WeightOf | sat/instance.hpp:564-567 | The weight of a literal is the probability function of the number of clauses its flip breaks, and the table access is in range. |
| Instances.SerialInstance.PickLiteral | sat/instance.hpp:558-584 | The position picked is the slot of the wheel that holds the scaled random number. |
| Instances.SerialInstance.FirstAbove | sat/instance.hpp:577-584 | The scan always finds a literal: the one in whose slot the value lies. |
| Instances.SerialInstance.GetIndexOfRandomUnsatisfiedClause | sat/instance.hpp:229-233 | The clause is the list entry at the number of flips modulo the length, and none of its literals is satisfied. |
| Instances.SerialInstance.ChooseLiteral | sat/instance.hpp:532-584 | The chosen literal is currently unsatisfied, belongs to the selected unsatisfied clause, and lies in the slot of the random number. |
| Instances.SerialInstance.DoFlip | sat/instance.hpp:532-590 | One step keeps the invariant, draws one random number, flips the variable of the selected literal of an unsatisfied clause and nothing else, and counts one flip. |
| Instances.SerialInstance.FlipAndBack | sat/instance.hpp:295-446 | A flip and its reversal restore the assignment, the satisfied counts, the break counters and the critical literals that matter, and the list up to order. |
| CacheStates.BreakStep | sat/instance.hpp:319-375 | One pass of the break loop over a clause with the negated literal keeps the agreement for the table without it; accesses and counters stay in range. |
| CacheStates.MakeStep | sat/instance.hpp:379-435 | One pass of the make loop keeps the agreement for the table with the literal; accesses and counters stay in range. |
| CacheStates.TracksBroken | sat/instance.hpp:319-375 | Broken maps caches that agree with a table to caches that agree with the table without the literal. |
| CacheStates.TracksMade | sat/instance.hpp:379-435 | Made maps caches that agree with a table to caches that agree with the table with the literal. |
| CacheStates.TracksClassified | sat/instance.hpp:478-497 | Classified extends the agreement by one more clause. |
| CacheStates.ListAfterMakeSat | sat/instance.hpp:138-179 | Swap-removal keeps list and locations mutual inverses without duplicates, in all branches. |
| CacheStates.FlipReachesTable | sat/instance.hpp:318-440 | Removing the negated literal and then adding the literal turns the satisfied literals of an assignment into those of the flipped one, for clean formulas. |
| CacheStates.SameTableSameCaches | sat/instance.hpp:52-64 | Two cache states for the same assignment have the same satisfied counts, break counters, list up to order, and critical literals where the count is 1. |
| CacheStates.BreaksAreNewlyUnsat | sat/instance.hpp:182-197 | The break counter of an unsatisfied literal is the number of clauses its flip leaves without a satisfied literal. |
| CacheStates.RecountIsNewlyUnsat | sat/instance.hpp:199-219 | The uncached recount gives the same number. |
| CacheStates.UnsatAfterFlip | sat/instance.hpp:318-436 | The unsatisfied clauses after a flip are those before, minus the ones made, plus the newly unsatisfied ones. |
| CacheStates.ListAfterFlip | sat/instance.hpp:318-436 | The length of the list changes by breaks minus makes. |
| CacheStates.ListHoldsUnsatClauses | sat/instance.hpp:52-55 | The list holds exactly the unsatisfied clauses, each once. |
| CacheStates.CountersInRange | sat/instance.hpp:333-435 | In every table below the satisfied literals of an assignment each counter lies between 0 and the largest number of occurrences of a literal. |
| CacheStates.EmptyIffSatisfied | sat/instance.hpp:592-622 | The list test and satisfaction agree for all caches that agree with the assignment. |
| CnfFormulas.CnfFormula.BuildIndex | sat/cnf_formula.hpp:263-335 | Given counts that cover the occurrences, succeeds if and only if their sum fits, and then every range holds the list of the list-of-lists form, in order, padded with zeros; max_num_breaks_possible is the largest count of a literal that occurs. |
| CnfFormulas.CnfFormula.InitOffsets | sat/cnf_formula.hpp:291-309 | The offsets are the prefix sums of the counts, and an overflow is reported exactly when the sum does not fit. |
| CnfFormulas.CnfFormula.FillIndex | sat/cnf_formula.hpp:313-335 | The filling loop turns empty ranges into those of the list-of-lists form. |
| CnfFormulas.CnfFormula.FillClause | sat/cnf_formula.hpp:315-334 | The inner loop adds the occurrences of one clause. |
| CnfFormulas.CnfFormula.FillLiteral | sat/cnf_formula.hpp:316-333 | One pass adds one occurrence and updates the maximum. |
| CnfFormulas.CnfFormula.WriteOccurrence | sat/cnf_formula.hpp:316-333 | The write at the cursor lands in the range of its literal and appends to exactly that list. |
| CnfFormulas.CnfFormula.GetIterators | sat/cnf_formula.hpp:134-149 | The two ranges of a variable start at the prefix sum and have the lengths of its counts. |
| CnfFormulas.CnfFormula.GetClausesWithVar | sat/cnf_formula.hpp:134-149 | The ranges read as the lists of the two literals, padded up to the counts. |
| CnfFormulas.CnfFormula.GetBreakAndMake | sat/instance.hpp:303-316 | For a variable with exact counts the iterators of a flip enumerate exactly the clauses with the negation and the clauses with the literal, in increasing order. |
| CnfFormulas.CnfFormula.LiteralIsExact | sat/instance.hpp:535-587 | The counts of the variable of every literal in a clause are exact, so every flip that do_flip selects is of such a variable. |
| CnfFormulas.OccurrenceStep | sat/cnf_formula.hpp:316-333 | Every write stays inside the bucket of its literal and leaves all other buckets alone. |
| CnfFormulas.LargestIsMaxOccurrence | sat/cnf_formula.hpp:326-332 | With exact counts for the variables in use the maximum is the largest number of occurrences of a literal, and it is attained. |
| CnfFormulas.CnfFormula.IndexBounds | sat/cnf_formula.hpp:326-332 | The maximum bounds the occurrences of every literal and fits into the 16-bit counter type. |
| Cnf.OccurrencesOfClean | sat/cnf_formula.hpp:241-254 | In a clean formula the list of a literal is strictly increasing and holds exactly the clauses that contain it. |
| Input.FormulaReader.CountTokens | sat/input.hpp:167-203 | The counting loop succeeds if and only if every token is a literal of a declared variable and no counter overflows, and then every count grows by the occurrences of its literal. |
| Input.CheckClause | sat/input.hpp:217-236 | The double loop sets its flags exactly for a repeated literal and for a complementary pair among the positions that the eight-bit subscript shows. |
| Input.FlagsDecide | sat/input.hpp:238-247 | A clause is dropped if and only if it shows a complementary pair; otherwise kept if its variables are distinct and it has at most 256 literals, and else rejected. |
| Input.FormulaReader.ParseClause | sat/input.hpp:157-251 | A line is accepted exactly under the listed conditions; it is counted before it is kept or dropped. |
| Input.FormulaReader.ParseConfiguration | sat/input.hpp:120-155 | A configuration line is accepted if and only if it is well formed and both numbers are in range after the conversion to 32 bits; the counters are resized. |
| Input.FormulaReader.Read | sat/input.hpp:46-118 | Reading is the fold of the line effects, and fails if and only if some line fails. |
| Input.ToNum | sat/input.hpp:143-149 | The conversion to a 32-bit number wraps, and is the identity in range. |
| Input.ToNumWraps | sat/input.hpp:143-149 | What the conversion cuts off is a multiple of 2^32. |
| Pipeline.AcceptedIsSound | sat/input.hpp:46-251 | Every accepted file whose configuration lines cover the variables in use gives a clean formula in range, counters that fit 16 bits, and counts equal to the occurrences in kept plus dropped clauses; every dropped clause holds a complementary pair. |
| Pipeline.SoundIffCovers | sat/input.hpp:46-251 | An accepted file meets these guarantees if and only if every configuration line declares all variables that the clause lines in front of it use. |
| Pipeline.UncoveredIsUnsound | sat/input.hpp:85-89 | A configuration line that takes back a variable in use loses an occurrence or the range of a clause for good, whatever follows. |
| Pipeline.AcceptedCountsCover | sat/input.hpp:184-200 | The counts of an accepted file always leave room for the index. |
| Pipeline.ExactIffNothingDropped | sat/input.hpp:184-247 | The counts are exact if and only if no clause was dropped. |
| Pipeline.IndexExactIffNoTautology | sat/cnf_formula.hpp:311-335 | The index of a covered file lists exactly the occurrences of every literal if and only if no clause line holds a literal and its negation. |
| Pipeline.ExactWhereUsedIffApart | sat/cnf_formula.hpp:311-335 | The ranges of all variables in use are exact if and only if no tautology of the file shares a variable with another clause. |
| Pipeline.DroppedIffTautology | sat/input.hpp:238-247 | Nothing was dropped if and only if no clause line holds a complementary pair. |
| Pipeline.AcceptedKeepsMeaning | sat/input.hpp:238-247 | An assignment of the variables of the file satisfies the accepted formula if and only if it satisfies every clause line, dropped ones included. |
| Acceptance.AcceptedIffFine | sat/input.hpp:46-251 | Any file is accepted if and only if every line is fine by itself and after the lines in front of it, with every literal counted from the last configuration line that left its variable out; the reading is then the one the lines tell. |
| Acceptance.HeaderFileAccepted | sat/input.hpp:120-251 | A file with one configuration line in front of its clauses is accepted if and only if every clause line is terminated, not empty and in range, no literal occurs more than 32767 times, and every clause line shows a complementary pair or has different variables and at most 256 literals, whatever number of clauses is declared; the clause lines without a pair are kept, in order. |
| Acceptance.HeaderFileLoads | sat/cnf_formula.hpp:291-309 | Such a file also gets an index if and only if its clause lines have at most 2^31 - 1 literals in all. |
| SpoiledRanges.UnclaimedCellsSpoil | sat/instance.hpp:318-436 | With an unclaimed cell in the range of a literal there is an assignment from which its flip leaves caches that disagree with the flipped assignment. |
| SpoiledRanges.ExactFlipTracks | sat/instance.hpp:318-436 | Over exact ranges the two loops of a flip lead from caches that agree with an assignment to caches that agree with the flipped one. |
| SpoiledRanges.SafeIffExact | sat/instance.hpp:295-446 | Both flips of a variable are right from every assignment and all agreeing caches if and only if its counts are exact. |
| SpoiledRanges.FlipsAreSafeIffApart | sat/instance.hpp:295-446 | For a covered file the flips of all variables in use are right from every state if and only if no tautology shares a variable with another clause. |
| Limits.DistinctKeptIffShort | sat/clause.hpp:57-63 | A clause with distinct variables is kept if and only if it has at most 256 literals. |
| Limits.LongClauseIsRejected | sat/clause.hpp:57-63 | There is a clause with distinct variables that is rejected. |
| Limits.ShrinkingIsUnsound | sat/input.hpp:85-89 | For any configuration lines of which one declares less than the one before, some accepted file with these lines violates the guarantees. |
| Limits.HarmlessShrinking | sat/input.hpp:85-89 | A file with a smaller second declaration that meets them. |
| Limits.SoundIffAscending | sat/input.hpp:85-89 | All accepted files with given configuration lines meet the guarantees if and only if no line declares fewer variables than the one before. |
| Limits.TautologyFileIsRead | sat/input.hpp:184-247 | A file with two contradicting units and a tautology is accepted with a count too many. |
| Limits.TwoUnitsIndex | sat/cnf_formula.hpp:311-335 | The ranges that this count makes: the unclaimed cell reads as clause 0. |
| Limits.AllFalseTracked | sat/instance.hpp:477-498 | The concrete caches from which the wrong flip starts agree with the all-false assignment. |
| Limits.PhantomSolution | sat/instance.hpp:318-436 | The passes of the flip over these ranges empty the list of unsatisfied clauses, although no assignment satisfies the formula. |
| Execution.MaxFlips | worker_task.hpp:91-99 | The limit is positive, and is the requested one unless that is 0. |
| Execution.RandomAssignment | worker_task.hpp:136-138 | Bit i of the initial assignment is the lowest bit of random number i. |
| Execution.FlipOnce | worker_task.hpp:153-154 | Every flip of the loop continues a walk: it flips a variable of a clause that the assignment does not satisfy. |
| Execution.IsSolved | worker_task.hpp:183-185 | The list test decides whether the assignment is a solution, and the assertion that the full scan agrees never fails. |
| Execution.Search | worker_task.hpp:153-190 | At most max_flips flips; solved if and only if the assignment satisfies every clause; the search ends at the first solution, at the limit, or when it reads that the worker stops, and not before. |
| Execution.LoadFormula | sat/cnf_formula.hpp:213-260 | Loading a covered file succeeds if and only if the file is accepted and its index fits; the formula is one a solver may rely on if and only if no tautology shares a variable with another clause. |
| Execution.Execute | worker_task.hpp:104-209 | The result of a task reports one processed instance if and only if the file loads, with a walk from the random assignment, and a solution if and only if the walk ends in one. |
| Execution.SolvedIffFileHolds | worker_task.hpp:183-185 | A result claims a solution if and only if the last assignment satisfies every clause line of the file. |
| Execution.FlipChangesOne | sat/instance.hpp:438-440 | Consecutive assignments of a walk differ in exactly one variable. |
| Execution.StopsAtFirstReason | worker_task.hpp:153-166 | The search stops at the first solution, at the limit, or when the worker stops, whichever comes first: no earlier assignment of the walk has a reason to stop. |
| Bitfields.PackedWrite | util/bitfield.hpp:36-47 | Writing one bit of the packed bytes changes exactly that bit, also among bits of the same byte. |
| Bitfields.BitIsShift | util/bitfield.hpp:29-34 | Reading by mask and reading by shift give the same bit. |
| Bitfields.Bitfield.constructor | util/bitfield.hpp:61-63 | A new bitfield has the given length and no pending write. |
| Bitfields.Bitfield.Copy | util/bitfield.hpp:65-75 | A copy stands for the same sequence of bits, pending write included, in storage of its own. |
| Bitfields.Bitfield.Set | util/bitfield.hpp:36-47 | Changes exactly one stored bit. |
| Bitfields.Bitfield.Update | util/bitfield.hpp:49-55 | Settles the pending write without changing any observable bit. |
| Bitfields.Bitfield.Ref | util/bitfield.hpp:117-128 | The non-const subscript reads the bit and changes no observable bit. |
| Bitfields.Bitfield.Assign | util/bitfield.hpp:117-128 | Assigning through the subscript changes exactly one element of the sequence. |
| Bitfields.Bitfield.At | util/bitfield.hpp:130-138 | The const subscript reads the same value as the non-const one. |
| ProbCache.CachedProbFunction.CalcProbFunction | sat/probability_functions/cached.hpp:28-66 | Returns exactly the value of the wrapped function whether or not the lock was taken; only its own cell may change, and only to that value. |
| ProbCache.CachedProbFunction.SetMaxNumBreaksPossible | sat/probability_functions/cached.hpp:68-81 | Growth keeps every cell and makes every index up to the maximum readable. |
| ProbCache.EveryInterleavingIsFaithful | sat/probability_functions/cached.hpp:28-81 | In every history of requests, resizes, lookups and stores each cell is 0 or the value of the function, and every lookup within the table returns that value. |
| ProbCache.RacingRequestsFail | sat/probability_functions/cached.hpp:68-81 | For any two different maxima there is a history in which a thread looks up a cell that it was granted and that is no longer in the table. |
| ProbCache.SafeIffOneMaximum | sat/probability_functions/cached.hpp:28-81 | In every history every granted lookup is within the table and returns the value of the function, if and only if all requests ask for the same maximum. |
| Random.PreviousUndoesNext | sat/random_generator.hpp:50-62 | The multiplier is invertible modulo 2147483647, so no two states share a successor. |
| Random.NextIsEngineState | sat/random_generator.hpp:50-62 | The generator never reaches state 0 (section 29.6.5 of ISO C++17). |
| Random.LinCongGenerator.Rand | sat/random_generator.hpp:82-88 | A number between 0 and the maximum that get_rand_max reports, and one step of the engine. |
| Random.LinCongGenerator.RandomValue | sat/instance.hpp:236-241 | The scaled number lies in [0, l), the upper end excluded. |
| Random.SlotsTile | sat/instance.hpp:574-584 | For positive weights every value below their sum lies in exactly one slot of the wheel. |
| Fairness.StatesInSlot | sat/instance.hpp:574-584 | The states of the generator that pick a slot are consecutive, and the slots follow one another in the order of the literals. |
| Fairness.WheelIsFair | sat/instance.hpp:236-241 | For any positive weights and any number of the draw, the number of generator states that pick a slot differs from its share by weight of all states by less than one; a slot not narrower than one state is picked from some state. |
| Fairness.LiteralsAreFair | sat/instance.hpp:556-584 | Each literal of an unsatisfied clause is chosen in proportion to the probability function of the clauses that its flip breaks, counted over all states of the generator. |
| Fairness.BitsAreFair | worker_task.hpp:138 | Whatever the number of the draw, exactly half of the states of the generator lead to a 1. |
| Fairness.InitialBitsAreRandom | worker_task.hpp:136-138 | Bit i of the initial assignment of every execution is the lowest bit of random number i of its seed. |
| Fairness.SeedsStayApart | sat/random_generator.hpp:67-73 | Two seeds are at no time at the same random number unless they have the same remainder modulo 2147483647, or the remainders 0 and 1. |
| Scheduler.JobServer.ProcessAddFile | communication/server.hpp:53-76 | The new task is the first in the queue and scheduled; reports whether it is the first file; the scheduler invariant is kept. |
| Scheduler.JobServer.ProcessGetInstances | communication/server.hpp:339-379 | The reply never exceeds the request and falls short only when no task is left; per task the counter grows by exactly what was handed out; jobs follow the queue; after a solution the reply is empty; the invariant is kept. |
| Scheduler.JobServer.NextJob | communication/server.hpp:347-375 | Every pass of the loop hands out a positive number within the request. |
| Scheduler.JobServer.StartInstances | communication/server.hpp:348-375 | The body of the loop is HandOutOne, and its unsigned subtraction does not wrap. |
| Scheduler.JobServer.ProcessDoneProcessing | communication/server.hpp:242-305 | For a returned instance that is counted, of the size that is known, the asserts hold and no subtraction wraps; statistics and TERMINATE are sent exactly when all requests have been returned; the invariant is kept. |
| Scheduler.JobServer.RecordReturned | communication/server.hpp:242-287 | The counters, the statistics and the rescheduling test of a returned task. |
| Scheduler.JobServer.SendStatisticToManager | communication/server.hpp:225-239 | The statistics of the tasks with a started instance are sent, in order, and at most once. |
| Scheduler.JobServer.SendTerminationToWorkers | communication/server.hpp:127-150 | TERMINATE is sent at most once. |
| Scheduler.JobServer.ProcessFoundSolution | communication/server.hpp:197-222 | A solution is remembered and the workers are terminated. |
| Scheduler.HandOutOneKeepsValid | communication/server.hpp:347-375 | Each hand-out is positive and within the request; queue, flags and the global counter stay consistent. |
| Scheduler.AddFileKeepsValid | communication/server.hpp:53-76 | A new task keeps the queue duplicate-free and equal to the scheduled tasks. |
| Scheduler.DoneKeepsValid | communication/server.hpp:273-304 | A returned instance keeps the scheduler invariant, and the global counter covers it. |
| Scheduler.NeverRescheduled | communication/server.hpp:278-287 | The branch that puts a task back into the queue is never taken. |
| Scheduler.JobsOfReply | communication/server.hpp:346-369 | A reply has at most one job of a task of which any number may run, and that task leaves the queue with it. |
| Scheduler.AllReturnedIsComplete | communication/server.hpp:298-303 | In an unsolved run, when all requests are returned, every task has exactly its required number of started instances, or at least one if any number was allowed. |
| WorkerQueues.TaskQueues.CreateTasks | worker_task.hpp:222-261 | Queues the instances of a reply in order and subtracts their number from the unsigned counter. |
| WorkerQueues.TaskQueues.CreateCovered | worker_task.hpp:222-261 | For a reply within the request the subtraction does not wrap, and the result is that of the steps of the state machine. |
| WorkerQueues.TaskQueues.GetTask | worker_task.hpp:264-281 | Takes the first task of the queue, if there is one. |
| WorkerQueues.TaskQueues.FinishTask | worker_task.hpp:308-312 | A finished task is appended and the counter grows by one without wrapping. |
| WorkerQueues.TaskQueues.ReturnFirst | worker_task.hpp:321-343 | Sends FOUND_SOLUTION for a solution and DONE_PROCESSING for a processed task, and throws otherwise. |
| WorkerQueues.FlattenedHolds | worker_task.hpp:232-246 | A reply puts as many instances of every task into the queue as its jobs say. |
| WorkerQueues.AllCreatedIs | worker_task.hpp:228-246 | The steps that create tasks, taken one after the other, queue the whole reply and subtract its size. |
| Workers.StepKeepsHeld | worker.cpp:92-165 | No step of a worker creates or destroys an instance of a task. |
| Workers.StepKeepsOk | worker.cpp:84-165 | Every step keeps: waiting plus queued plus busy threads equals the thread count, one open request at most, replies fit the request, only processed instances are reported. |
| Workers.ThreadKeepsCounted | worker_task.hpp:284-318 | Taking, executing and finishing a task keeps the count of threads. |
| Workers.CreateKeepsCounted | worker_task.hpp:228-246 | Queuing a job keeps the count of threads and the cover of what is still to be queued. |
| Workers.ReceiveKeepsHeld | communication/worker.hpp:14-23 | A received reply is queued, or recorded as dropped if the worker stops. |
| Workers.ReturnKeepsHeld | worker_task.hpp:321-343 | A returned task leaves the worker as a message, or is recorded as dropped if it was not processed. |
| Workers.ProbeFindsTerminate | worker.cpp:115-119 | A probed message that is processed without being received is always TERMINATE. |
| Protocol.StepKeepsInv | communication/server.hpp:382-417 | Every step of server, manager and workers keeps the invariant of the whole system: scheduler, links, conservation, histories and report; a step that takes a DONE_PROCESSING message does so if its size agrees with the known one. |
| HonestResults.StepKeepsHonest | worker_task.hpp:104-209 | Every step keeps: each result at a worker, in a message or at the server is a result of the file of its task, and a believed solution has a solved file. |
| HonestResults.HonestSizesAgree | communication/server.hpp:250-258 | The asserts about the number of variables and clauses hold for every DONE_PROCESSING message. |
| HonestResults.RunKeepsInv | communication/server.hpp:382-417 | Both invariants hold in every state of every run. |
| Results.ExecutionIsResult | worker_task.hpp:104-209 | What the execution of a task returns is a result of its file as the system expects it. |
| Results.SolvedIsSatisfiable | worker_task.hpp:183-185 | A reported solution of a modelled file comes with an assignment that satisfies all its clause lines. |
| Protocol.DoneIsCounted | communication/server.hpp:273-276 | A DONE_PROCESSING message never underflows a counter. |
| Protocol.DoneKeepsConserved | communication/server.hpp:273-276 | A returned instance leaves the counter of its task together with its message. |
| Protocol.ReplyKeepsConserved | communication/server.hpp:362-378 | Handed-out instances enter the counters together with the reply that carries them. |
| Protocol.ReplyKeepsHistory | communication/server.hpp:339-379 | The jobs of all replies so far add up to started plus processing instances of every task. |
| Protocol.DoneKeepsHistory | communication/server.hpp:242-287 | The statistics of every task are those of all messages received so far. |
| Protocol.TerminationKeepsInv | communication/server.hpp:127-150 | Broadcasting TERMINATE changes no counter. |
| Runs.HandedOutIsAccountedFor | communication/server.hpp:242-379 | In every state of every run every instance handed out was returned or is held by a worker or a message, and never more than required are handed out. |
| Runs.ServerNeverFails | communication/server.hpp:250-276 | In no run does an assertion of the server fail, about the size of a formula or about the instances in processing, or a subtraction wrap. |
| Runs.WorkersNeverWrap | worker_task.hpp:222-318 | In every run, at every worker, the threads add up, what is to be queued fits into instances_to_get, and no stale message is processed. |
| Runs.OneReport | communication/server.hpp:225-239 | The statistics are sent at most once, and the server stops only after that. |
| Runs.UnsolvedRunIsComplete | communication/server.hpp:298-303 | In an unsolved run, at the report, exactly n instances of a task with n > 0 were handed out and returned; a task with n = 0 was handed out in exactly one job that was returned completely. |
| Runs.ReportedIsFlat | communication/manager.hpp:137-150 | What the manager computes from the report of any run equals the aggregation of all messages received before it. |
| Runs.ReportUndefinedIff | communication/manager.hpp:134-143 | In a report of any run the averages per variable and per clause are undefined if and only if no returned run of some task has flipped anything. |
| Runs.ReportRatios | communication/manager.hpp:134-143 | Otherwise they are the instance-weighted means of the ratios of the tasks, with the sizes of the submitted files. |
| Runs.FoundSolutionIsReal | communication/server.hpp:197-200 | In every run over modelled files, if the server believes that a solution was found, some submitted file has an assignment that satisfies all its clause lines. |
| Runs.UnsatisfiableIsNeverSolved | communication/server.hpp:197-200 | No run over modelled files without a solution ever finds one. |
| Runs.StoppedIsFinished | communication/server.hpp:307-336 | When the server has stopped, the statistics were sent, nothing is left to hand out, every worker has ended, and every message of every worker was read. |
| Solutions.SolutionKnownIff | communication/server.hpp:197-222 | In every state of every run the server knows of a solution if and only if it has received a solved result or such a result is the next message of some worker; FOUND_SOLUTION stands directly in front of every solved result. |
| Solutions.NothingAfterSolution | communication/server.hpp:339-346 | Once the server knows of a solution, it never forgets it and hands out nothing more. |
| Reporting.ReportIffAllBack | communication/server.hpp:289-304 | In every run the statistics have been sent if and only if at some time everything that was handed out was back, and a solved result was among it or nothing was left to hand out. |
| Termination.TerminateIsNeverLost | communication/worker.hpp:44-67 | Every worker that is attached when TERMINATE is sent has taken it or has it in its channel, in every later state. |
| Termination.ProbeStops | worker.cpp:115-119 | A worker that probes a message stops. |
| Termination.TerminatedIsQuiet | worker.cpp:92-165 | A worker that has taken TERMINATE requests nothing, queues nothing and starts to execute nothing any more. |
| Termination.LeavesInOrder | worker.cpp:157-171 | A worker that has left has stopped, its threads have ended, it has returned every result unless it has lost an instance, and its DISCONNECT is taken or its last message. |
| Termination.LateWorkerRunsForever | communication/server.hpp:127-150 | A worker that is accepted after TERMINATE was sent never learns of it and never leaves, and the server never stops. |
| Termination.EveryWorkerIsActivated | communication/server.hpp:62-121 | As soon as there is a file, every worker was activated or has ACTIVATE_WORKER in its channel. |
| Termination.StopsIffLastHasLeft | communication/server.hpp:307-336 | TERMINATE is sent with the first solution or report at the latest, and the server has stopped if and only if there were workers, all have left, the statistics were sent and nothing is left to do. |
| Ordering.SubmittedIsKept | communication/server.hpp:53-65 | A submitted file becomes the next task and stays it, with the number of instances that was asked for. |
| Ordering.NewestFirst | communication/server.hpp:59-65 | Every job of a reply is of a file of which something is left to hand out, and all newer such files have a job in front of it. |
| Ordering.RepliesAreFull | communication/server.hpp:346-375 | A reply never exceeds the request, and falls short of it only if afterwards nothing is left to hand out of any task. |
| Ordering.RequestFillsThreads | worker.cpp:122-127 | A worker requests exactly as many instances as it has threads that neither have a task nor have one waiting in the queue. |
| Ordering.QueueIsFifo | worker_task.hpp:222-281 | What a worker has put into its queue is, in order, what its threads have taken and then what the queue holds. |
| Ordering.ThreadsAreKept | worker.cpp:84-90 | A worker keeps the number of threads with which it was accepted. |
| Delivery.ResultsArriveInOrder | worker_task.hpp:308-343 | What the threads of a worker have finished is, in order and unchanged, what the server has received from it, then what is in its channel, then what it has not yet returned. |
| Drops.DroppedBlocksTheEnd | communication/server.hpp:298-336 | An instance that was dropped before the report keeps the server running without a report forever. |
| Drops.DroppedOnlyAfterTermination | communication/worker.hpp:14-23 | Before TERMINATE is sent only a worker that has failed drops instances. |
| Scenarios.TerminationDropsInstance | worker.cpp:92-165 | For every file a reachable state in which TERMINATE has made a worker drop a queued instance before the report. |
| Scenarios.ReportWithoutAverages | communication/manager.hpp:134-143 | A reachable state whose report comes from a run solved without a flip, so that the manager divides 0 by 0. |
| Statistics.TaskSummary | communication/server.hpp:248-271 | The record of a task holds the exact sums of its messages and the instance-weighted mean of their speeds. |
| Statistics.MinFlipsIsLeast | communication/server.hpp:268-271 | The minimum is the smallest number of flips of a solved run, or the initial value if there is none. |
| Statistics.CountersTellMessages | communication/server.hpp:230-236 | A task has started instances if and only if a message named it, and no flips if and only if none of its messages reports one. |
| Statistics.Manager.ProcessSendStatistics | communication/manager.hpp:127-150 | One message adds its instances, flips and solutions to the totals; the new mean speed times the new count is the old mean times the old count plus the share of the message, and so are the means of the ratios unless one is 0/0. |
| Statistics.Manager.ReceiveReport | communication/manager.hpp:127-150 | The totals after all messages of a report. |
| Statistics.TwoLevelsAreFlat | communication/manager.hpp:137-150 | Aggregating per task and then over tasks gives the exact sums and the instance-weighted mean speed over all messages, with no division by zero. |

## Left out

- MPI set-up, accept, barriers, port names and the disconnect handshake: only the contents of messages
  and their order per channel are modelled; messages are never lost.
- Serialisation and the negotiation of transfer sizes.
- The index walk of `send_termination_to_workers`: TERMINATE reaches every attached worker. A manager's
  TERMINATE without any attached worker, on which that function asserts, is not a step of the model.
- The number that ADD_WORKERS carries and its check; each accepted worker is one step.
- Liveness: nothing says that a run ends. What is proved is a case in which it cannot.
- `get_task` and `worker_func` as loops: the threads are steps of the state machine. A thread may take
  a task after the flag `running` was cleared, as the race in the source allows. Each change of
  `instances_to_get` is one atomic step, although the source makes it under two different mutexes.
- Reading the lines of a file and converting characters to numbers: lines are sequences of tokens.
- LoadFormula: does not cover files in which a configuration line takes back a variable in use, because
  then the writes into the index may leave it; `SoundIffCovers` says which files these are. If only
  dropped clauses use the variable, the writes stay inside all the same, and that is not modelled.
- Execute: does not cover these files, nor files in which a tautology shares a variable with another
  clause, because the solver is only modelled for exact ranges; `FlipsAreSafeIffApart` says what goes
  wrong there, and that it need not go wrong in every search is left open. Of results of such files
  the runs only know their sizes.
- Double-checked loading of a shared formula in `cnf_formula::initialize` and its mutex.
- Moving and swapping bitfields, printing them, and references from the subscript that are kept
  beyond the next access.
- Floating-point rounding, the polynomial and exponential probability functions themselves, and the
  random device that seeds the generator.
- Timing fields and the computation of flips per second from clocks; the speed of a run is a parameter.
- Widths of `num_t` in locations and of the 64-bit statistics: these are unbounded; only the 16-bit
  counters, the 32-bit sum of the index, the 32-bit counter of the worker and the conversion of
  declared numbers are bounded.
- `static_clause_3sat`, the C `rand` generator, unclean clauses, the command line, all output.
