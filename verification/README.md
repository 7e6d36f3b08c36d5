# Fyra's optimizer, modelled and proved in Dafny

Fyra is a small optimizing compiler back end. Its passes are worklist, fixpoint and rewrite
algorithms over an SSA form. This project models the hardest of them and proves what they
promise; the models follow the code branch by branch, and where the code does not keep a
promise, the project says for which inputs.

`dafny verify dfyconfig.toml` checks everything.

## One meaning for all passes

`IR.dfy` defines functions (blocks of instructions in layout order), states and steps: leading
phis are assigned at once, a terminator leads to the next block, any other operation does what
a *machine* allows. The machine is a parameter: a relation between an operation, its arguments
and memory, and its result and the memory afterwards. A division by zero, say, is an operation
without a result, and a run that comes to one is stuck. `Scalar.dfy` gives the folder's
integer arithmetic on masked 64-bit patterns, for the passes whose point is arithmetic.

`Simulation.dfy` says what it means that one function preserves another: it returns whatever
the other returns, by the same blocks and with the same memory; it returns nothing else unless
the other can get stuck on the way; and it gets stuck nowhere else. A relation between states
that steps keep in both directions is enough for that.

## The passes

**Sparse conditional constant propagation.** `SCCP.dfy` is the worklist engine as a class with
the source's fields; `Lattice.dfy` has the transfer functions and their monotonicity,
`SCCPSoundness.dfy` what a fixpoint says about runs and why the rewrite preserves them.
`SCCPExact.dfy` says exactly what the engine finds, opcode by opcode and with calls or
without: which entries are constant, which edges and blocks executable, what is replaced.
Folding is a parameter, bound only to agree with the machine. A value instruction without
operands is never evaluated by the engine, and loses soundness: for functions without calls
`SCCPBareValue.dfy` proves that the engine's result describes a run exactly as long as the run
has executed no such instruction, and has a loop with a stack slot that the pass turns into
one that never ends. `ScalarExact.dfy` says what the folder makes of integers, opcode by
opcode. It reads the operands of a comparison at the width of its result, which is always 32:
signed comparisons of 64-bit words are folded right only where they come out alike at 32 bits,
and `SCCPComparison.dfy` proves of a function that returns one that the pass keeps its meaning
exactly then.

**Division by constants.** `SignedMagic.dfy` proves the search for magic numbers (Hacker's
Delight, 2nd edition, Figure 10-1) and the division theorem; `DivisionStrengthReduction.dfy`
builds the instruction sequences and proves them against the folder at every numerator.
`Patterns.dfy` has the arithmetic of patterns. The exact condition: a 32-bit divisor stored
zero-extended as 2^31 is read as +2^31 by the pass and as -2^31 by the folder, and only the
quotient by that divisor is wrong. Unsigned divisors have a search of their own
(`UnsignedMagic.dfy`), whose exit test does not compare what it should: `UnsignedDivision.dfy`
proves that quotient and remainder by a 32-bit constant are right at every numerator exactly
for powers of two and for divisors of 2^32 + 1, such as 641, where the constant is stored
zero-extended. By 3, say, they are wrong.

**Dominance.** `CFGBuilder.dfy`, `Dominators.dfy`, `DominanceFrontier.dfy` and
`NaturalLoops.dfy`, over the paths of `ControlFlow.dfy`. The graph has an edge where the first
Jmp, Br, Jnz or Ret of a block leads, and no other. The set iteration gives dominance from the
entry exactly when every other block has a predecessor; the frontiers are the dominance
frontiers exactly when the entry does not have exactly one predecessor; the walk up the tree
has no end exactly from a block that is not reached and is not the only such block.

**List scheduling.** `InstructionScheduler.dfy` builds the dependence graph, heights and ready
list; `Reordering.dfy` and `BlockReordering.dfy` say why the order it chooses changes nothing,
for runs that return and for runs that get stuck; `SchedulingRuns.dfy` puts the two together.
A final Jnz or Jz the code takes for an operation of latency one. `LastInSchedule.dfy` says
exactly when the greedy order keeps it last: by the time it is picked all that is left has its
priority, and among equals the first to have become ready goes first; so whatever the other
operations of latency one without dependents depend on must be placed no later than the
condition. If the condition comes from another block, such operations must depend on nothing.
Then nothing changes either. `SchedulerBranch.dfy` has a block where the branch does not stay.
`SchedulerExact.dfy` spells the opcodes out: what is moved, which 25 operations keep their
order, that on a machine where these count themselves any order with the same effect keeps
theirs, and what goes first. Blit is not among them: `SchedulerBlit.dfy` has a load that
overtakes it.

**Dead code.** `DeadCode.dfy` (mark and sweep), `UnreachableBlocks.dfy` and
`UnreachableRuns.dfy`, `DeadStores.dfy`, and the loop around them in
`DeadInstructionElimination.dfy`. `Erasure.dfy` has what erasing instructions has in common
with constant propagation. `DeadCodeExact.dfy` says what is kept, opcode by opcode, and that
elimination preserves all functions exactly on machines where no opcode writes memory but
those that are kept for their own sake: ExternCall and Blit must not. The removal of dead
stores goes by the names of pointers, and takes any later store for one that overwrites:
`DeadStoreExamples.dfy` has two functions that it changes, one through an aliased load and one
through a narrower store. What is exact is said of lines of accesses on the machine of
`ByteMemory.dfy`, which has loads and stores of all opcodes, whatever the pointers are: over
stores alone the scan is harmless exactly when each store that it removes is followed by one
at least as wide to the same name (`DeadStoreLines.dfy`), and with loads in between a store
may be left out exactly when, besides, each load reads only what some store after the removed
one has written by the load's own name, or comes after the store that makes up for the removed
one (`AliasedLoads.dfy`). Where pointers of different names do not overlap only loads by the
same name matter, and the whole scan changes nothing that is loaded, nor memory, unless a
store is followed by a narrower one to its name (`SeparatePointers.dfy`). For whole functions
and any lawful machine, `DeadStoreRuns.dfy` and `DeadStoreChains.dfy` prove that nothing
changes where what follows is as wide and nothing between the two touches memory, or only
stores do. `CompactStores.dfy` finds such order from the start: stores that name one pointer,
back to a call or a load from it that no elimination removes, must end in the widest. That
order survives all rounds; it may be asked of the given function, or of what is left when
unreachable blocks and unused instructions have gone.

**Affine analysis.** `AffineForms.dfy` and `AffineAnalysis.dfy`: soundness of every result,
cached or fresh, and agreement with direct evaluation. `AffineExact.dfy`: when that succeeds,
operation by operation, and with which coefficients.

**Inlining.** `CallGraph.dfy` and `FunctionInliner.dfy`: the search for call chains is exact,
and the unbounded loop ends because a weight drops by one at each inlined call. No return of
the callee is left in the caller.

**Unrolling.** `ValueCloner.dfy` (substitution), `LoopUnroll.dfy` (the pieces),
`UnrollBlocks.dfy` (the new blocks, and the function with them), `UnrollEquivalence.dfy` and
`UnrollTheorems.dfy`. `BlockRuns.dfy`, `LoopBlocks.dfy` and `UnrolledBlocks.dfy` say what runs
of the loop and of the new blocks are, step by step: so everything that stands in the loop's
two blocks counts, and `UnrolledRuns.dfy` compares the two functions from the preheader to the
exit. `UnrollOutside.dfy` is about the rest of the function. When an even number of rounds is
made, the unrolled loop agrees exactly if the test also fails one step beyond the exit.
`UnrollWords.dfy` says when that is on machine words: the number of rounds is computed from
start, bound and step, and one step more, if it is even, must not wrap to where the test holds
again; room for two steps beyond the bound is enough. A 32-bit counter from 2^31 - 3 below
2^31 - 1 does wrap. All this is for a header that goes on where its test holds. The code does
not look which way the branch is: a loop that leaves where its test holds becomes one that
never makes as many rounds, and none where the loop makes two or more
(`UnrollTheorems.LeavesOnTrue`).

**Vectorising.** `TripSplit.dfy` (the arithmetic of the split) and `SplitVisits.dfy` (which
indices the two emitted loops visit), `VectorReduction.dfy` (lanes, collapse, epilogue),
`AliasGuard.dfy` (classification and run-time test) and `VectorMemory.dfy` (chunks of loads
and stores). The emitted loops visit what the original loop visits exactly when the bounds are
in order, or the count is below one chunk, or it is a multiple of one; with bounds out of
order they then visit nothing. Otherwise the epilogue may add a term the original loop never
sees, and the vector loop may fill elements it never touches: the guard does not look at the
order of the bounds.

Where the code departs from what its comments say, the model follows the code: the scheduler's
comment counts a branch among the terminators it keeps last, but only Br, Jmp and Ret are; the
fallback of the scheduler is proved to have nothing to do.

## Model

| member | source | states |
|---|---|---|
| SparseConditional.SCCP.Initialize | src/transforms/SCCP.cpp:842-853 | every value instruction starts at Top, and no block, edge or worklist entry is left over from an earlier use |
| SparseConditional.SCCP.SetLatticeValue | src/transforms/SCCP.cpp:861-884 | the entry becomes the join of the old and the new one, and the users are queued, each at most once, exactly when the entry changed |
| SparseConditional.SCCP.EvaluatePhi | src/transforms/SCCP.cpp:889-921 | the loop over operand pairs, with its early exits, yields the value that PhiValueAbove and PhiValueLeast characterise |
| SparseConditional.SCCP.EvaluateCall | src/transforms/SCCP.cpp:955-983 | a call is Bottom unless it is direct, all arguments are constant and the evaluator gives a constant |
| SparseConditional.SCCP.EvaluateOperands | src/transforms/SCCP.cpp:994-1021 | Bottom if an operand is, the fold if all are constant, Top while an operand is still Top |
| SparseConditional.SCCP.AddEdge | src/transforms/SCCP.cpp:923-953 | a new executable edge keeps everything accounted for: its target is queued, so its phis will be seen |
| SparseConditional.SCCP.VisitBranch | src/transforms/SCCP.cpp:936-953 | after the visit the branch has all edges its condition allows; the invariant holds and the potential does not grow |
| SparseConditional.SCCP.Visit | src/transforms/SCCP.cpp:886-1022 | a visit removes the instruction from the exempt set, keeps the invariant (every instruction of every executable block is stable, queued, or a phi of a queued block, and nothing has been given up without a reason), and shrinks the potential or changes nothing |
| SparseConditional.SCCP.VisitBlock | src/transforms/SCCP.cpp:782-792 | the first visit of a block visits all its instructions, a later one its leading phis; afterwards nothing is exempt |
| SparseConditional.SCCP.DrainBlocks | src/transforms/SCCP.cpp:777-793 | the inner loop ends with no block queued, the invariant kept and the potential lower, or equal with the instruction worklist untouched |
| SparseConditional.SCCP.Propagate | src/transforms/SCCP.cpp:776-803 | both worklists drain; the result is a fixpoint in which no entry is lower than its operands make it, no edge is executable that no jump may take, and no block that no chain of such edges leads to; for functions without calls it is the finest of all fixpoints |
| SparseConditional.SCCP.CollectConstants | src/transforms/SCCP.cpp:810-825 | the list holds exactly the constant instructions of the block that are neither phis nor terminators |
| SparseConditional.SCCP.ReplaceConstants | src/transforms/SCCP.cpp:805-839 | replacing and erasing one by one amounts to one simultaneous rewrite of the function; reports a change exactly when something is erased |
| SparseConditional.SCCP.PerformTransformation | src/transforms/SCCP.cpp:762-840 | the whole pass: such a fixpoint, the finest one without calls, and the rewrite that it licenses |
| PropagationExact.EntryExactly | src/transforms/SCCP.cpp:986-1021 | what the engine ends at, opcode by opcode, with calls or without: in an executable block an operation with constant operands has what they fold to, one with an unknown operand or without a fold is Bottom, others wait; and which six opcodes are always Bottom |
| PropagationExact.PhiExactly | src/transforms/SCCP.cpp:889-921 | a phi is the constant that all known inputs over executable edges agree on, and Top while all of them are open |
| PropagationExact.CallIsConstant | src/transforms/SCCP.cpp:955-983 | a call is constant only if it is direct, its arguments are constant and the evaluator gives that constant |
| PropagationExact.EdgesExactly | src/transforms/SCCP.cpp:923-953 | the executable edges are exactly those that a jump or branch of an executable block may take, as far as its condition is known |
| PropagationExact.BlocksExactly | src/transforms/SCCP.cpp:776-803 | the executable blocks are exactly those that chains of executable edges lead to from the entry |
| PropagationExact.ReplacedExactly | src/transforms/SCCP.cpp:805-839 | an operation is replaced by a word exactly where it is of a foldable opcode and its operands are words that fold to it |
| Lattice.PhiValueAbove | src/transforms/SCCP.cpp:889-921 | the phi value is above the entries of all its executable inputs |
| Lattice.PhiValueLeast | src/transforms/SCCP.cpp:889-921 | and it is the least such entry |
| Lattice.TransferFalls | src/transforms/SCCP.cpp:886-1022 | as entries fall and edges are added, what an instruction evaluates to only falls: the worklist order cannot matter |
| Lattice.SuccessorsGrow | src/transforms/SCCP.cpp:923-953 | as the condition falls, the set of executable successors only grows |
| PropagationSoundness.PhiDescribed | src/transforms/SCCP.cpp:889-921 | on an executable edge the phi value describes the word that the run assigns |
| PropagationSoundness.StepDescribed | src/transforms/SCCP.cpp:886-1022 | each step of a run from a described state takes an executable edge, or none, and defines described values |
| PropagationSoundness.RunDescribed | src/transforms/SCCP.cpp:776-803 | for every fixpoint, and every run that has executed no operation making a value out of no operands: each edge taken is executable, each value equals its Constant entry, and none has entry Top |
| PropagationSoundness.Soundness | src/transforms/SCCP.cpp:776-803 | for every run and every fixpoint: each edge taken is executable, each value equals its Constant entry, and none has entry Top |
| PropagationSoundness.RewritePreservesRuns | src/transforms/SCCP.cpp:805-839 | the rewritten function returns what the original does, by the same blocks and with the same memory; it can differ only where the original gets stuck |
| BareValue.Stalls | src/transforms/SCCP.cpp:992 | with a value instruction without operands the engine may stop at a solution that executes only the entry block |
| BareValue.EngineStalls | src/transforms/SCCP.cpp:992 | without calls the engine does end there: the entry block alone, no edges, the value at Top |
| BareValue.RunEscapes | src/transforms/SCCP.cpp:992 | such a solution does not describe all runs: the restriction to instructions with operands is needed |
| BareValue.DescribesExactly | src/transforms/SCCP.cpp:992-1021 | without calls the engine's result describes a run exactly when the run has executed no operation that makes a value out of no operands |
| BareValue.WaitingLoopExists | src/ir/IRBuilder.cpp:686-700 | a stack slot is reserved by such an operation: a loop with one, and a machine that folding agrees with |
| BareValue.EngineKnows | src/transforms/SCCP.cpp:776-803 | what the engine ends at for that loop |
| BareValue.WrongRewrite | src/transforms/SCCP.cpp:805-839 | the loop returns, and what the pass makes of it never does |
| ScalarExact.ArithmeticExactly | src/transforms/SCCP.cpp:69-95 | folded sums, differences, products, negations, complements and left shifts are those of the integers behind the patterns, modulo 2^w |
| ScalarExact.DivisionExactly | src/transforms/SCCP.cpp:72-83 | signed quotients go towards zero, with the remainder that belongs to them; nothing is folded for a divisor of zero |
| ScalarExact.UnsignedDivisionExactly | src/transforms/SCCP.cpp:76-87 | unsigned quotient and remainder; nothing is folded for a divisor of zero |
| ScalarExact.BitwiseExactly | src/transforms/SCCP.cpp:88-95 | and, or, exclusive or and complement, bit by bit |
| ScalarExact.ConversionsExactly | src/transforms/SCCP.cpp:108-116 | a sign extension keeps the integer of 8, 16 or 32 bits; all other conversions and copies keep the low bits |
| ScalarExact.EqualityExactly | src/transforms/SCCP.cpp:97-98 | words are folded to equal exactly if they are, whatever the width of the result |
| ScalarExact.ComparisonsExactly | src/transforms/SCCP.cpp:61-106 | signed comparisons of w-bit words are folded right, for all words, exactly where the type of the result is w bits wide; unsigned ones always |
| ScalarExact.WideComparison | src/ir/IRBuilder.cpp:391-397 | results of comparisons have 32 bits, so 2^31 in 64 bits is folded to less than nought |
| ScalarExact.FoldsExactly | src/transforms/SCCP.cpp:68-121 | the opcodes that fold, and division by zero does not |
| FoldedComparison.ComparisonFound | src/transforms/SCCP.cpp:47-126 | in a function that returns the comparison of two constants of w bits the engine finds what they compare to at 32 bits |
| FoldedComparison.ComparisonKeptExactly | src/transforms/SCCP.cpp:805-839 | the pass keeps the meaning of that function exactly where the constants compare alike at w and at 32 bits, on any machine that compares words at their own width |
| Erasure.ErasurePreserves | src/transforms/SCCP.cpp:827-836 | erasing instructions, with words standing in for those still used, preserves all runs whenever every run confirms the words and the erased instructions leave memory alone |
| SignedMagic.CriticalBounds | src/transforms/DivisionStrengthReduction.cpp:64-67 | the critical value lies between abs(d) - 1 and 2^31, and one more is the last multiple of abs(d) not above 2^31, or 2^31 + 1 for negative d |
| SignedMagic.DivideStart | src/transforms/DivisionStrengthReduction.cpp:69-72 | the starting pair is quotient and remainder of 2^31 |
| SignedMagic.Double | src/transforms/DivisionStrengthReduction.cpp:77-90 | one doubling step turns the reduced quotient and remainder of 2^p into those of 2^(p+1) |
| SignedMagic.ExitTest | src/transforms/DivisionStrengthReduction.cpp:91-93 | the test on delta and r1 goes on exactly while the error bound of the method is not met |
| SignedMagic.EnoughAt62 | src/transforms/DivisionStrengthReduction.cpp:92-93 | the bound is met at p = 62 at the latest, so the early return is never taken |
| SignedMagic.OddDividesNoPower | src/transforms/DivisionStrengthReduction.cpp:92-93 | a divisor of 2^31 + 1 divides no power of two, which is what the largest critical value needs for the bound at p = 62 |
| SignedMagic.MultiplierBound | src/transforms/DivisionStrengthReduction.cpp:95-98 | the multiplier q2 + 1 is positive and below 2^32 |
| SignedMagic.CastBack | src/transforms/DivisionStrengthReduction.cpp:95-101 | the cast to 32 bits and the numerator correction together recover the signed multiplier |
| SignedMagic.Search | src/transforms/DivisionStrengthReduction.cpp:68-103 | the loop ends with the least shift that meets the error bound, and a valid multiplier for it |
| SignedMagic.ComputeSignedMagic32 | src/transforms/DivisionStrengthReduction.cpp:56-104 | invalid exactly for 0, 1 and -1; otherwise a magic number in the sense of MagicQuotient |
| SignedMagic.MagicQuotient | src/transforms/DivisionStrengthReduction.cpp:268-297 | for every divisor with abs(d) at least 2 and every 32-bit n: multiplying, shifting and adding the sign is division truncated towards zero |
| DivisionStrengthReduction.EmitProduct | src/transforms/DivisionStrengthReduction.cpp:273-279 | the emitted extension, product, shift and truncation compute the high word of the product at every numerator |
| DivisionStrengthReduction.EmitHigh | src/transforms/DivisionStrengthReduction.cpp:281-285 | with the correction it is the high word of the product with the true multiplier |
| DivisionStrengthReduction.EmitSign | src/transforms/DivisionStrengthReduction.cpp:293-296 | adding the sign bit rounds towards zero |
| DivisionStrengthReduction.EmitMagic | src/transforms/DivisionStrengthReduction.cpp:273-297 | the emitted sequence computes the quotient at every 32-bit numerator |
| DivisionStrengthReduction.AdjustedQuotient | src/transforms/DivisionStrengthReduction.cpp:253-260 | the floor of the adjusted numerator is the truncated quotient by a power of two |
| DivisionStrengthReduction.EmitPowerOfTwo | src/transforms/DivisionStrengthReduction.cpp:248-267 | the emitted shifts compute the quotient by a power of two, or by its negation, at every numerator, for 32 and 64 bits |
| DivisionStrengthReduction.AndPredecessor | src/transforms/DivisionStrengthReduction.cpp:248 | the test with the predecessor recognises exactly the powers of two |
| DivisionStrengthReduction.Log2 | src/transforms/DivisionStrengthReduction.cpp:250-251 | the shift found is the logarithm |
| DivisionStrengthReduction.EmitQuotient | src/transforms/DivisionStrengthReduction.cpp:238-299 | which divisors are reduced, and that the value emitted is the quotient by the divisor as the code reads it |
| DivisionStrengthReduction.ProcessSigned | src/transforms/DivisionStrengthReduction.cpp:238-313 | for every stored constant and both widths, of a signed division or remainder: something is emitted exactly for the reducible divisors, nothing otherwise; and what is emitted replaces the instruction exactly unless it is a 32-bit division by the constant stored as 2^31 |
| DivisionStrengthReduction.StoredExactly | src/transforms/DivisionStrengthReduction.cpp:196 | the stored constants these theorems are about: all integers of the width, their patterns extended by zeros or by the sign |
| DivisionStrengthReduction.ReplacesExactly | src/transforms/DivisionStrengthReduction.cpp:238-310 | a remainder always agrees with the folder; a quotient does exactly unless the 32-bit divisor is stored as 2^31 |
| DivisionStrengthReduction.WrongAtHalfRange | src/transforms/DivisionStrengthReduction.cpp:240-297 | that divisor is read as +2^31 here and as -2^31 by the folder, and the quotients of -2^31 differ |
| DivisionStrengthReduction.HalfRange | src/transforms/DivisionStrengthReduction.cpp:240-297 | the two readings and the two quotients |
| UnsignedMagic.ComputeUnsignedMagic32 | src/transforms/DivisionStrengthReduction.cpp:12-54 | the search ends by p = 63, with the first exponent that passes its test, the rounded up reciprocal there, and no need for the add indicator; no product of the test reaches 2^64 |
| UnsignedMagic.OneTooMuch | src/transforms/DivisionStrengthReduction.cpp:35-43 | for any divisor that is neither a power of two nor one of 2^32 + 1 the product gives one too much at some numerator: the test lets the search stop too early |
| UnsignedMagic.UnsignedExactly | src/transforms/DivisionStrengthReduction.cpp:12-54 | the product is the quotient at every 32-bit numerator exactly for the divisors of 2^32 + 1 |
| UnsignedMagic.RightAndWrong | src/transforms/DivisionStrengthReduction.cpp:38 | 641 and 6700417 are such, and 3 is not |
| UnsignedDivision.EmitUnsignedMagic | src/transforms/DivisionStrengthReduction.cpp:213-236 | the emitted extension, product, shifts and truncation compute the shifted product at every numerator |
| UnsignedDivision.EmitUnsignedQuotient | src/transforms/DivisionStrengthReduction.cpp:201-237 | which divisors are reduced, and by what: nothing for one, a shift for a power of two, the product for others of 32 bits |
| UnsignedDivision.UnsignedReplaces | src/transforms/DivisionStrengthReduction.cpp:201-308 | quotient and remainder have the bits of the operation at every numerator exactly when the constant is stored zero-extended and is a power of two or, at 32 bits, a divisor of 2^32 + 1 |
| UnsignedDivision.ProcessUnsigned | src/transforms/DivisionStrengthReduction.cpp:201-313 | the unsigned branch for every stored constant: what is replaced, and exactly where that is right |
| UnsignedDivision.ProcessInstruction | src/transforms/DivisionStrengthReduction.cpp:177-314 | all four operations: exactly which constants are replaced, and for which of them the replacement is the operation |
| CFGBuilder.LinkBlock | src/transforms/CFGBuilder.cpp:15-91 | one block adds the edges of its first terminator, or of its fall-through |
| CFGBuilder.Run | src/transforms/CFGBuilder.cpp:8-93 | predecessor and successor lists are mutually inverse, free of repetition, and hold exactly the flow of control |
| CFGBuilder.EdgesExactly | src/transforms/CFGBuilder.cpp:27-91 | the edges, opcode by opcode: where the first Jmp, Br, Jnz or Ret of a block leads, and to the next block in layout from one that has none of these; a block whose first one is Ret has no successor |
| CFGBuilder.EdgeIsTaken | src/transforms/CFGBuilder.cpp:43-86 | none is too many: a step of some run takes the edge of a jump, and each of the two of a branch on a computed condition |
| CFGBuilder.RunOnPath | src/transforms/CFGBuilder.cpp:27-39 | the blocks that any run enters form a path of the graph from the entry |
| CFGBuilder.DominatorsAreVisited | src/transforms/DominatorTree.cpp:40-68 | a run that is in a block has been in every block that dominates it |
| Dominators.NewDomSet | src/transforms/DominatorTree.cpp:47-61 | the new set is the block and what all its predecessors have in common |
| Dominators.DomSets | src/transforms/DominatorTree.cpp:30-68 | the in-place iteration ends, with each set holding exactly the blocks on every path from the entry, or from a block without predecessors |
| ControlFlow.EntryDominance | src/transforms/DominatorTree.cpp:47-61 | dominance from all those roots is dominance from the entry exactly when every other block has a predecessor |
| Dominators.DominatorTree.Select | src/transforms/DominatorTree.cpp:76-95 | the two loops find a strict dominator that all others dominate, if there is one |
| Dominators.IdomUnique | src/transforms/DominatorTree.cpp:80-95 | a reachable block has at most one immediate dominator, so the iteration order does not matter |
| Dominators.IdomExists | src/transforms/DominatorTree.cpp:80-95 | and it has one as soon as it has a strict dominator |
| Dominators.DominatorTree.FindIdoms | src/transforms/DominatorTree.cpp:70-96 | the map holds exactly the immediate dominators |
| Dominators.DominatorTree.BuildChildren | src/transforms/DominatorTree.cpp:98-103 | the children of a block are exactly those it immediately dominates |
| Dominators.DominatorTree.Run | src/transforms/DominatorTree.cpp:10-104 | from any graph: immediate dominators and children by paths |
| Dominators.DominatorTree.GetImmediateDominator | src/transforms/DominatorTree.cpp:106-111 | what is returned is an immediate dominator of the block, and nothing is returned exactly where there is none |
| Dominators.DominatesThroughIdom | src/transforms/DominatorTree.cpp:122-132 | a strict dominator of a block dominates its immediate dominator, and conversely |
| Dominators.WalkStep | src/transforms/DominatorTree.cpp:125-130 | each step of the walk keeps the answer and descends in the tree |
| Dominators.DominatorTree.DominatesWalk | src/transforms/DominatorTree.cpp:122-132 | the walk ends from every reached block, and says exactly whether a dominates it; from the only block that is not reached it ends too, and says yes exactly for the block itself and where it has a parent |
| Dominators.IdomTree | src/transforms/DominatorTree.cpp:70-104 | every reachable block but the entry has exactly one immediate dominator, which is reachable and has fewer dominators: they form a tree |
| Dominators.EntryDominatesAll | src/transforms/DominatorTree.cpp:33-38 | the entry dominates every block, where every other block has a predecessor |
| Dominators.UnreachedCycle | src/transforms/DominatorTree.cpp:125-130 | two blocks that only reach each other are each other's immediate dominators |
| Dominators.WalkEndsExactly | src/transforms/DominatorTree.cpp:122-132 | the walk up has no end exactly from a block that is not reached and is not the only such block, and then it meets no reached block |
| Frontiers.DominanceFrontier.Walk | src/transforms/DominanceFrontier.cpp:10-15 | a runner adds the block to exactly the frontiers it belongs to through this predecessor |
| Frontiers.DominanceFrontier.Run | src/transforms/DominanceFrontier.cpp:5-19 | where nothing unreached leads into a join, the frontiers gain exactly the blocks with two predecessors that the definition by dominance puts there |
| Frontiers.OnePredNoFrontier | src/transforms/DominanceFrontier.cpp:8 | a block with one predecessor, other than the entry, is in no frontier |
| Frontiers.EntryFrontier | src/transforms/DominanceFrontier.cpp:8 | an entry with one predecessor is in that predecessor's frontier, and the test on the number of predecessors misses it |
| Frontiers.JoinsSuffice | src/transforms/DominanceFrontier.cpp:8 | looking at joins alone loses nothing exactly when the entry does not have one predecessor |
| Frontiers.FrontiersExact | src/transforms/DominanceFrontier.cpp:5-19 | the result is the dominance frontier exactly when the entry does not have one predecessor |
| NaturalLoops.FindBackEdges | src/transforms/LoopInvariantCodeMotion.cpp:28-40 | exactly the edges whose target dominates their source |
| NaturalLoops.Loop.Expand | src/transforms/LoopInvariantCodeMotion.cpp:53-57 | one step of the worklist keeps what has been collected, and what is waiting, right |
| NaturalLoops.Loop.FindExits | src/transforms/LoopInvariantCodeMotion.cpp:61-67 | the exits are exactly the blocks of the loop with a successor outside |
| NaturalLoops.Loop.Build | src/transforms/LoopInvariantCodeMotion.cpp:42-68 | the header and exactly the blocks that reach the latch without passing through the header |
| NaturalLoops.HeaderDominates | src/transforms/LoopInvariantCodeMotion.cpp:42-59 | the header of a back edge dominates every block of its loop |
| NaturalLoops.EnteredAtHeader | src/transforms/LoopInvariantCodeMotion.cpp:53-57 | every edge into the loop goes to its header |
| NaturalLoops.GoesRound | src/transforms/LoopInvariantCodeMotion.cpp:42-59 | every block of the loop is on a path from the header and back |
| InstructionScheduler.Split | src/transforms/InstructionScheduler.cpp:48-70 | phis, operations and terminator, each in their order |
| InstructionScheduler.NodeMap | src/transforms/InstructionScheduler.cpp:79-91 | each operation of the block has its node |
| InstructionScheduler.OperandNodes | src/transforms/InstructionScheduler.cpp:101-114 | each operation of the block among the operands, once |
| InstructionScheduler.BuildDag | src/transforms/InstructionScheduler.cpp:93-157 | the lists are mutually inverse, without repetition, and hold exactly the pairs of which the later uses the earlier or both touch memory |
| SchedulerExact.EdgesExactly | src/transforms/InstructionScheduler.cpp:96-157 | the edges lead from definitions to uses, and between any two of the 25 opcodes that the source lists |
| SchedulerExact.MemoryListedExactly | src/transforms/InstructionScheduler.cpp:117-142 | what the theorems on reordering ask of a machine is that all but these 25 opcodes ignore memory |
| SchedulerExact.ScheduleKeepsMemory | src/transforms/InstructionScheduler.cpp:143-156 | in every schedule these operations keep their order |
| SchedulerExact.OrderIsSeen | src/transforms/InstructionScheduler.cpp:143-156 | and have to: on a machine where each of them counts itself in memory, an order with the same effect keeps theirs |
| SchedulerExact.PartsExactly | src/transforms/InstructionScheduler.cpp:53-70 | what is moved: all but phis and Br, Jmp and Ret |
| SchedulerExact.TerminatorExactly | src/transforms/InstructionScheduler.cpp:62-66 | of these the last one ends what is made of the block |
| SchedulerExact.LatencyExactly | src/transforms/InstructionScheduler.cpp:12-23 | the latencies: 5 for a call, 4 for Load and floating multiplication and division, 3 for Mul, Div, Rem and vectors, 1 for all else |
| SchedulerExact.HigherFirst | src/transforms/InstructionScheduler.cpp:188-211 | of two that are ready the one with the longer way to go, or else the longer latency, is placed first |
| SchedulerExact.FreeByLatency | src/transforms/InstructionScheduler.cpp:188-211 | operations that depend on nothing in the block, and nothing on them, are placed by latency, and in their order where it is equal |
| InstructionScheduler.ComputeHeights | src/transforms/InstructionScheduler.cpp:159-167 | the recurrence over successors |
| InstructionScheduler.HeightBounds | src/transforms/InstructionScheduler.cpp:159-167 | no chain of dependences has more latency than the height of its start |
| InstructionScheduler.HeightAttained | src/transforms/InstructionScheduler.cpp:159-167 | and one has as much: the height is the critical path |
| InstructionScheduler.InitialReady | src/transforms/InstructionScheduler.cpp:169-175 | at first the nodes without predecessors are ready |
| InstructionScheduler.PickBest | src/transforms/InstructionScheduler.cpp:189-197 | the first ready node with the greatest height and, among those, the greatest latency |
| InstructionScheduler.Release | src/transforms/InstructionScheduler.cpp:204-210 | the counters drop, and exactly the successors whose predecessors are now all placed become ready |
| InstructionScheduler.DrainReady | src/transforms/InstructionScheduler.cpp:187-211 | the loop ends, each round having picked the best ready node |
| InstructionScheduler.NothingLeft | src/transforms/InstructionScheduler.cpp:213-218 | the fallback has nothing to add |
| InstructionScheduler.Fallback | src/transforms/InstructionScheduler.cpp:213-218 | it adds exactly what is still owned |
| InstructionScheduler.ScheduleIsTopological | src/transforms/InstructionScheduler.cpp:187-211 | the greedy order is a permutation of the nodes in which every node follows its predecessors |
| InstructionScheduler.ScheduleKeepsOrder | src/transforms/InstructionScheduler.cpp:96-157 | hence operations that depend on each other keep their order |
| Reordering.SwapFirst | src/transforms/InstructionScheduler.cpp:116-156 | neighbours that do not depend on each other may be exchanged: the same values and memory result |
| Reordering.StuckSwap | src/transforms/InstructionScheduler.cpp:116-156 | and the exchange may get stuck wherever the original may |
| Reordering.ReorderingHasSameEffect | src/transforms/InstructionScheduler.cpp:187-211 | any permutation that keeps the order of dependent operations has the effect of the original from every state, and may get stuck from the same states |
| InstructionScheduler.ScheduleHasSameEffect | src/transforms/InstructionScheduler.cpp:78-218 | the scheduled operations are the same ones and have the same effect |
| InstructionScheduler.ScheduleBasicBlock | src/transforms/InstructionScheduler.cpp:44-225 | phis first, then a schedule, then the terminator; blocks of two instructions, or without operations, stay as they are |
| InstructionScheduler.Run | src/transforms/InstructionScheduler.cpp:34-42 | every block is scheduled; reports a change exactly when one had operations to schedule |
| BlockReordering.ReorderingPreservesReturns | src/transforms/InstructionScheduler.cpp:182-222 | a function whose blocks keep phis, terminators and the joint effect of the operations returns exactly what it did |
| BlockReordering.ReorderingPreserves | src/transforms/InstructionScheduler.cpp:182-222 | and gets stuck exactly where it did: each of the two functions preserves the other |
| SchedulingRuns.SchedulingPreserves | src/transforms/InstructionScheduler.cpp:34-225 | the scheduled function and the original preserve each other: each returns what the other does, by the same blocks and with the same memory, and gets stuck where the other does |
| SchedulerExact.SchedulingPreservesListed | src/transforms/InstructionScheduler.cpp:44-225 | the same, in terms of the 25 opcodes, which may do to memory whatever they like, calls and allocations included |
| SchedulerBlit.BlitOvertaken | src/transforms/InstructionScheduler.cpp:117-142 | Blit is not one of them: a load from where it copies to is placed ahead of it |
| SchedulerBlit.BlitMissed | src/transforms/InstructionScheduler.cpp:117-142 | so the scheduled function returns what was there before, and does not preserve the original |
| InstructionScheduler.ScheduleIsOrder | src/transforms/InstructionScheduler.cpp:187-211 | a schedule is a permutation of the operations in which none overtakes one it depends on |
| SchedulingRuns.LastStaysExactly | src/transforms/InstructionScheduler.cpp:62-69 | of all orders that keep dependent operations in theirs, each keeps the last operation last exactly when every other has one behind it that depends on it |
| SchedulingRuns.NeededStays | src/transforms/InstructionScheduler.cpp:62-69 | in particular the scheduler then keeps the last operation last |
| LastInSchedule.FirstComeFirstOut | src/transforms/InstructionScheduler.cpp:188-210 | of two operations of one priority, the one ahead in the ready list is placed first |
| LastInSchedule.LooseBehind | src/transforms/InstructionScheduler.cpp:188-210 | what is placed after an operation of latency one without dependents is such an operation too |
| LastInSchedule.LastOutExactly | src/transforms/InstructionScheduler.cpp:187-211 | the last node, if of that kind, is placed last exactly when it is never ready before another of that kind is |
| LastInSchedule.LastStaysWhen | src/transforms/InstructionScheduler.cpp:62-69 | a branch stays last in the order the scheduler picks exactly when whatever the other operations of latency one without dependents depend on is placed no later than what the branch does |
| LastInSchedule.LastStaysAlone | src/transforms/InstructionScheduler.cpp:62-69 | where its condition comes from another block, exactly when those operations depend on nothing in the block |
| SchedulingRuns.BranchReordered | src/transforms/InstructionScheduler.cpp:34-225 | a block whose branch the scheduler keeps last keeps its effect |
| SchedulerBranch.BranchOvertakes | src/transforms/InstructionScheduler.cpp:62-69 | a Jnz counts as an operation, and a shorter critical path behind it does not hold it back |
| SchedulerBranch.ScheduledBranchNeverReturns | src/transforms/InstructionScheduler.cpp:62-69 | the function with the overtaking branch returns nothing, on any machine |
| SchedulerBranch.BranchReturns | src/transforms/InstructionScheduler.cpp:62-69 | although the original returns wherever its operations have results |
| DeadCode.MarkAllRoots | src/transforms/DeadInstructionElimination.cpp:243-252 | all effects and terminators are marked and queued, and nothing else |
| DeadCode.MarkOperands | src/transforms/DeadInstructionElimination.cpp:262-268 | the operands that are instructions are marked, and the new ones queued |
| DeadCode.MarkLive | src/transforms/DeadInstructionElimination.cpp:240-270 | the marked set is the least one that holds all effects and terminators and is closed under operands |
| DeadCode.SweepBlock | src/transforms/DeadInstructionElimination.cpp:62-75 | exactly what is marked stays, in its order |
| DeadCode.EliminateDeadInstructions | src/transforms/DeadInstructionElimination.cpp:56-77 | the function without the unmarked instructions; the count is the number of instructions gone |
| DeadCode.EliminationPreservesRuns | src/transforms/DeadInstructionElimination.cpp:56-77 | it returns what the original does; it can differ only where the original gets stuck |
| DeadCodeExact.MarkedExactly | src/transforms/DeadInstructionElimination.cpp:192-270 | marked is exactly what a call, system call, store, return, jump or branch needs through any number of operands |
| DeadCodeExact.SweptExactly | src/transforms/DeadInstructionElimination.cpp:56-82 | and everything else is swept away |
| DeadCodeExact.EliminationExactly | src/transforms/DeadInstructionElimination.cpp:56-82 | elimination preserves all functions exactly on machines where no other opcode writes memory |
| UnreachableBlocks.InsertTargets | src/transforms/DeadInstructionElimination.cpp:230-236 | each block among the operands is inserted, and pushed if it is new |
| UnreachableBlocks.FindReachableBlocks | src/transforms/DeadInstructionElimination.cpp:211-238 | exactly the blocks that a chain of terminators from the entry leads to |
| UnreachableBlocks.LeadsExactly | src/transforms/DeadInstructionElimination.cpp:201-238 | one block leads to another exactly if the last return, jump or branch of it names it |
| UnreachableBlocks.RemovedIncoming | src/ir/PhiNode.cpp:46-57 | removing the input from one block leaves the inputs from all others as they were |
| UnreachableBlocks.DetachFrom | src/transforms/DeadInstructionElimination.cpp:95-99 | the leading phis of the exit, and no other instruction, lose an input |
| UnreachableBlocks.EliminateBlock | src/transforms/DeadInstructionElimination.cpp:91-115 | the block is gone with its instructions; uses of either are null; phis of its exits have lost its inputs |
| UnreachableRuns.EliminateUnreachableBlocks | src/transforms/DeadInstructionElimination.cpp:79-126 | exactly the unreachable blocks go; what stays is as it was but for operands that are gone; reports a change exactly when a block goes |
| UnreachableRuns.SameStep | src/transforms/DeadInstructionElimination.cpp:79-126 | in a reachable block the two functions have exactly the same steps |
| UnreachableRuns.TrimPreserves | src/transforms/DeadInstructionElimination.cpp:79-126 | no run can tell: each of the two functions preserves the other, so both return the same and get stuck alike |
| DeadStores.OverwrittenStep | src/transforms/DeadInstructionElimination.cpp:143-181 | how the fact that a pointer is stored to before it is read changes from one instruction to the one before |
| DeadStores.ScanInstruction | src/transforms/DeadInstructionElimination.cpp:139-182 | the two pointer sets of the scan, one instruction on; exactly a dead store is marked for removal |
| DeadStores.ScanBlock | src/transforms/DeadInstructionElimination.cpp:135-182 | marks exactly the stores whose pointer is stored to again before a load from it or a call |
| DeadStores.DeadByOpcodes | src/transforms/DeadInstructionElimination.cpp:129-190 | the dead stores, opcode by opcode: eight stores, eleven loads, calls and system calls |
| DeadStores.RemoveInstructions | src/ir/BasicBlock.cpp:45-56 | the marked instructions go, the others keep their order |
| DeadStores.EliminateDeadStores | src/transforms/DeadInstructionElimination.cpp:128-190 | the function without its dead stores; the count is the number of instructions gone |
| DeadStoreRuns.DeadStoresPreserveRuns | src/transforms/DeadInstructionElimination.cpp:128-190 | all runs are preserved where each removed store is followed by one at least as wide to its pointer, with nothing between that touches memory |
| DeadStoreChains.AgreeBoth | src/transforms/DeadInstructionElimination.cpp:128-190 | memories that stores to some places would make one: a store that both sides make leaves them so, what it fills no longer among the places |
| DeadStoreChains.DeadStoreChainsPreserveRuns | src/transforms/DeadInstructionElimination.cpp:128-190 | removing dead stores preserves all runs where each is made up for by one at least as wide with only stores and bystanders in between, on machines whose stores do not look at memory and whose later stores win |
| DeadStoreExamples.AliasedLoadMissed | src/transforms/DeadInstructionElimination.cpp:143-152 | a load through another pointer that holds the same address is overlooked: removal then changes what a function returns, on a machine that keeps every law |
| ByteMemory.ByteMachineStoreLaws | src/transforms/DeadInstructionElimination.cpp:128-190 | a machine whose memory is bytes, with stores of all widths, obeys those laws |
| ByteMemory.ByteRoundTrip | src/target/architecture/x64/X64Architecture.cpp:2182-2203 | on that machine Storeb writes one byte and no other, and Loadub and Loadsb read it back, extended by zeros or by sign |
| ByteMemory.HalfRoundTrip | src/target/architecture/x64/X64Architecture.cpp:2182-2203 | the same for two bytes |
| ByteMemory.WordRoundTrip | src/target/architecture/x64/X64Architecture.cpp:2182-2203 | for four |
| ByteMemory.LongRoundTrip | src/target/architecture/x64/X64Architecture.cpp:2182-2203 | and for eight |
| ByteMemory.TypedRoundTrip | src/target/architecture/x64/X64Architecture.cpp:2190-2200 | Store, Load, VStore and VLoad go by the type |
| DeadStoreExamples.NarrowStoreLeavesBytes | src/transforms/DeadInstructionElimination.cpp:159-173 | a narrower store is taken to overwrite a wider one: removal then changes memory |
| DeadStoreLines.WrittenOverExactly | src/transforms/DeadInstructionElimination.cpp:159-173 | a store may be left out of a line of stores, whatever the pointers, values and memory, exactly when it writes nothing or a later store to the same name is at least as wide |
| DeadStoreLines.ScanExactly | src/transforms/DeadInstructionElimination.cpp:135-182 | over a line of stores the whole scan is harmless, whatever the pointers, values and memory, exactly when that holds of each store it removes |
| AliasedLoads.UnnoticedExactly | src/transforms/DeadInstructionElimination.cpp:143-173 | a store may be left out of a line of stores and loads of all widths, whatever the pointers, values and memory, exactly when it writes nothing, or a later store to its name is at least as wide and each load reads nothing or comes after a store that decides what it reads |
| SeparatePointers.UnnoticedApartExactly | src/transforms/DeadInstructionElimination.cpp:129-190 | the same where pointers of different names do not overlap: then only loads by the store's own name matter |
| SeparatePointers.ScanKeepsLoads | src/transforms/DeadInstructionElimination.cpp:129-190 | there the whole scan changes nothing that any kept instruction loads, nor memory, unless a store is followed by a narrower one to its name |
| CompactStores.CompactSuperseded | src/transforms/DeadInstructionElimination.cpp:128-190 | where stores are in order, every store found dead is of the harmless kind: superseded, or made up for |
| CompactStores.KeepsCompact | src/transforms/DeadInstructionElimination.cpp:36-51 | removing what is neither a call nor needed by one, and of stores only dead ones, keeps the order |
| CompactStores.AnchoredLive | src/transforms/DeadInstructionElimination.cpp:240-270 | whatever reachable calls and terminators need is marked live, so a load among it keeps stores apart for good |
| CompactStores.SweptCompact | src/transforms/DeadInstructionElimination.cpp:56-77 | the sweep and the removal of dead stores keep the order |
| CompactStores.TrimmedCompact | src/transforms/DeadInstructionElimination.cpp:79-126 | so does the removal of unreachable blocks |
| DeadInstructionElimination.Round | src/transforms/DeadInstructionElimination.cpp:36-51 | a round that changes something makes the function lighter; one that does not has found nothing unreachable, nothing unmarked and no dead store |
| DeadInstructionElimination.PerformTransformation | src/transforms/DeadInstructionElimination.cpp:30-54 | the outer loop ends; nothing is left to eliminate; a change is reported exactly when the function got lighter; and where stores are in order, in the given function or once what is unreachable or unused has gone, the result does what the function did |
| AffineForms.LeafSound | src/transforms/AffineAnalysis.cpp:127-143 | a symbolic leaf describes itself |
| AffineForms.ConstantSound | src/transforms/AffineAnalysis.cpp:158-167 | a constant describes itself |
| AffineForms.ScaleSound | src/transforms/AffineAnalysis.cpp:218-237 | scaling constant and coefficients describes the product, modulo the width |
| AffineForms.MergeSound | src/transforms/AffineAnalysis.cpp:435-494 | adding or subtracting forms term by term describes the sum or difference, and the leaves stay pairwise distinct |
| AffineForms.ExtensionsMerged | src/transforms/AffineAnalysis.cpp:435-494 | the difference of a zero- and a sign-extension of one 32-bit leaf is taken for nought, which it is exactly where the leaf is not negative |
| AffineAnalysis.MergeAffine | src/transforms/AffineAnalysis.cpp:435-494 | the nested loops, with their overflow and range checks, succeed exactly when the merge does, with its result |
| AffineAnalysis.ScaleForm | src/transforms/AffineAnalysis.cpp:218-237 | the same for scaling |
| AffineAnalysis.CycleGood | src/transforms/AffineAnalysis.cpp:52-67 | a value met while it is in progress is a sound leaf |
| AffineAnalysis.CacheHit | src/transforms/AffineAnalysis.cpp:69-74 | a cached form may be used whatever is in progress |
| AffineAnalysis.Analysis.AnalyzeMul | src/transforms/AffineAnalysis.cpp:169-238 | a product with one constant: sound, and direct evaluation's result unless the budget ran out |
| AffineAnalysis.Analysis.AnalyzeShl | src/transforms/AffineAnalysis.cpp:240-282 | the same for shifts by a constant in range |
| AffineAnalysis.Analysis.AnalyzeAddSub | src/transforms/AffineAnalysis.cpp:284-314 | the same for sums and differences |
| AffineExact.ScaleExactly | src/transforms/AffineAnalysis.cpp:215-238 | scaling succeeds exactly if the constant and all coefficients fit the width, and these are the products |
| AffineExact.MergeExactly | src/transforms/AffineAnalysis.cpp:435-494 | merging forms of one width succeeds exactly if the constant and the totals of all merged leaves fit and none is the number that cannot be negated; the coefficients are the sums or differences |
| AffineExact.LeavesExactly | src/transforms/AffineAnalysis.cpp:79-138 | a constant is itself and every other value that is no sum, difference, product, shift or extension a leaf, as wide as its type |
| AffineExact.ShiftExactly | src/transforms/AffineAnalysis.cpp:240-280 | a shift is affine exactly if it is by a constant from 0 up to below 63 and the width, and what it makes of its operand fits |
| AffineExact.ConstantsExactly | src/transforms/AffineAnalysis.cpp:176-200 | a product of constants exactly if it fits |
| AffineExact.ProductExactly | src/transforms/AffineAnalysis.cpp:202-238 | a product with one constant exactly if what it makes of the other factor fits |
| AffineExact.NoConstantFactor | src/transforms/AffineAnalysis.cpp:202-213 | a product without one never |
| AffineExact.SumExactly | src/transforms/AffineAnalysis.cpp:284-314 | a sum or difference of affine operands exactly if their widths agree and the totals fit |
| AffineAnalysis.Analysis.AnalyzeImpl | src/transforms/AffineAnalysis.cpp:44-156 | any result, cached, cyclic or fresh, is sound; the cache stays sound; the set in progress is restored; the budget bounds the work |
| AffineAnalysis.Analysis.Analyze | src/transforms/AffineAnalysis.cpp:15-42 | under every cache and every budget a valid result equals the value in every environment, modulo its width, with distinct leaves; where arithmetic does not feed into itself it is the result of direct evaluation, and with budget enough for the expression it is valid exactly when that is |
| FunctionInliner.CalleeCanReach | src/transforms/FunctionInliner.cpp:31-48 | what the search has visited, when it fails, is closed under calls and free of the target |
| FunctionInliner.CanReach | src/transforms/FunctionInliner.cpp:55-60 | from an empty set the search decides exactly whether a nonempty chain of calls leads to the target |
| FunctionInliner.CanInline | src/transforms/FunctionInliner.cpp:50-69 | all conditions: not itself, has a body, not recursive, does not lead back to the caller, not above the threshold |
| FunctionInliner.CloneCalls | src/transforms/FunctionInliner.cpp:556-592 | the cloned blocks call exactly what the callee calls |
| FunctionInliner.InliningKeepsReturns | src/transforms/FunctionInliner.cpp:564-571 | the inlined blocks hold no return: the caller's returns are those it had, in their order |
| FunctionInliner.InlinedSize | src/transforms/FunctionInliner.cpp:550-640 | what is added is the callee's instructions, and a phi exactly where the call has a value and the callee returns one at more than one place |
| FunctionInliner.CallerCalls | src/transforms/FunctionInliner.cpp:433-640 | what the caller calls before and after the call is inlined |
| FunctionInliner.InliningAddsNoReach | src/transforms/FunctionInliner.cpp:433-640 | no chain of calls appears that was not there |
| FunctionInliner.ChainStays | src/transforms/FunctionInliner.cpp:433-640 | no chain disappears, except to the callee |
| FunctionInliner.SameRecursive | src/transforms/FunctionInliner.cpp:433-640 | exactly the same functions are recursive |
| FunctionInliner.InliningDropsWeight | src/transforms/FunctionInliner.cpp:375-427 | the expansion weight of the caller drops by exactly one at each inlined call |
| FunctionInliner.InlineFirst | src/transforms/FunctionInliner.cpp:377-426 | either one call is inlined, or none is allowed and wanted |
| FunctionInliner.InlineInto | src/transforms/FunctionInliner.cpp:375-427 | the loop ends after as many rounds as the weight drops, with no allowed and wanted call left |
| FunctionInliner.RunOnModule | src/transforms/FunctionInliner.cpp:362-431 | chains of calls never appear and recursion stays as it was; nothing changes only in a module where no call is allowed and wanted, and after a last pass without change none is left in any function |
| ValueCloner.CloneBlocks | src/transforms/LoopUnroll.cpp:352-366 | the clones of the instructions that are neither phis nor jumps, each with the map as it was then, and the map afterwards |
| LoopBlocks.ClonedShape | src/transforms/LoopUnroll.cpp:352-366 | of a block that ends in a jump or branch everything between the phis and that is cloned, in order: all opcodes but Phi, Jmp, Jnz, Jz and Br |
| ValueCloner.LookupFinds | include/transforms/LoopUnroll.h:32-37 | where no replacement is null, a lookup finds the replacement, or the value itself |
| ValueCloner.Clone | include/transforms/LoopUnroll.h:39-45 | the operands of a clone are looked up one by one |
| ValueCloner.CloneRuns | include/transforms/LoopUnroll.h:39-65 | an instruction and its clone have the same results in corresponding environments |
| ValueCloner.Substitution | include/transforms/LoopUnroll.h:39-65 | whatever the originals do, the clones do, and the environments correspond again under the extended map |
| ValueCloner.SubstitutionBack | include/transforms/LoopUnroll.h:39-65 | and conversely |
| LoopUnroll.NewPhis | src/transforms/LoopUnroll.cpp:301-309 | a fresh phi for each header phi, and the map to them |
| LoopUnroll.LatchMap | src/transforms/LoopUnroll.cpp:372-376 | the values that the next body starts from; looking a missing one up inserts a null |
| LoopUnroll.CloneBody | src/transforms/LoopUnroll.cpp:352-366 | header and latch cloned once, nothing else changed |
| LoopUnroll.FinalPhis | src/transforms/LoopUnroll.cpp:496-525 | the inputs of the phis at the exit; the one from the epilogue is null exactly when the latch value is not defined in the loop |
| LoopUnroll.UnrollBodies | src/transforms/LoopUnroll.cpp:301-403 | the unrolled header with its test one step ahead, and two bodies, the second starting from the first one's latch values |
| LoopUnroll.UnrollLoop | src/transforms/LoopUnroll.cpp:285-527 | the unrolled loop as a whole: maps, clones, tests, back edge, epilogue |
| UnrollBlocks.BuildBlocks | src/transforms/LoopUnroll.cpp:285-597 | the six new blocks with their phis, jumps and branches; the loop's blocks are gone from the function, and all other blocks and the layout are as they were |
| UnrollBlocks.UnrollInFunction | src/transforms/LoopUnroll.cpp:210-597 | both together, from the loop in its function |
| UnrollOutside.RunsOutside | src/transforms/LoopUnroll.cpp:533-553 | outside the loop operations do what they did, the phis at the exit standing for those of the header |
| UnrollOutside.JumpsOutside | src/transforms/LoopUnroll.cpp:555-564 | jumps and branches go where they went, and the preheader to the new header for the old one |
| UnrollOutside.ExitReceives | src/transforms/LoopUnroll.cpp:566-578 | what a phi of the exit received from the header it receives from the new last block, and from other blocks what it did |
| LoopBlocks.LoopRunsExactly | src/transforms/LoopUnroll.cpp:209-270 | n rounds of the loop are exactly what steps of its function make that enter latch and header n times and end with the condition zero |
| UnrolledBlocks.UnrolledRunsExactly | src/transforms/LoopUnroll.cpp:301-527 | n pairs and the epilogue are exactly what steps make that enter the new blocks in that order |
| UnrollTheorems.EntersAlike | src/transforms/LoopUnroll.cpp:303-309 | from the preheader the phis of both loops get corresponding values |
| UnrollTheorems.UnrolledFollows | src/transforms/LoopUnroll.cpp:301-527 | for every number of rounds of the loop (where it is even, given that the test also fails one step beyond the exit) the unrolled loop makes half as many pairs and the odd one in the epilogue, with the same memory and the same final phi values |
| UnrollTheorems.LoopFollows | src/transforms/LoopUnroll.cpp:301-527 | whatever the unrolled loop does, the loop does, given that the header has results and that a test that fails also fails one step on |
| UnrollTheorems.SameRoundsExactly | src/transforms/LoopUnroll.cpp:318-343 | the unrolled loop makes the same number of rounds exactly when that number is odd or the test also fails one step beyond the exit |
| UnrollTheorems.StepAgrees | src/transforms/LoopUnroll.cpp:137-181 | where the step does not wrap, a test that holds one step on holds now, for all values and bounds, exactly when the step goes the way of the comparison |
| UnrollTheorems.LeavesOnTrue | src/transforms/LoopUnroll.cpp:331-343 | a loop that leaves where its test holds is unrolled into one that goes on there: it never makes as many rounds, and none where the loop makes two or more |
| UnrollWords.TripsCount | src/transforms/LoopUnroll.cpp:137-181 | the closed form, from start, bound, step and comparison, counts exactly the rounds whose test holds |
| UnrollWords.WordsLoopTrips | src/transforms/LoopUnroll.cpp:137-181 | on words of any width up to 64 bits, signed or unsigned, a loop whose counter does not wrap makes as many rounds as were counted |
| UnrollWords.RoomIsEnough | src/transforms/LoopUnroll.cpp:318-343 | room for two steps beyond the bound and one from the start meets the conditions of both directions |
| UnrollWords.SameRoundsOnWords | src/transforms/LoopUnroll.cpp:318-343 | the unrolled loop makes the same number of rounds exactly when one step more than those counted from start, bound and step, if they are even, does not wrap to where the test holds again |
| UnrollWords.UnrolledFollowsOnWords | src/transforms/LoopUnroll.cpp:301-527 | under that condition the unrolled loop does what the loop does, in half as many pairs and perhaps one epilogue round |
| UnrollWords.LoopFollowsOnWords | src/transforms/LoopUnroll.cpp:301-527 | where one step more than the rounds counted does not wrap, the loop does whatever the unrolled loop does |
| UnrolledRuns.UnrolledRunsFollow | src/transforms/LoopUnroll.cpp:301-565 | step by step: whatever the function does from the preheader through its loop, on words, the function with the new blocks does, and at the exit memory and the values of the header's phis are the same, for a counter that does not wrap to where its test holds again and latch values defined in the loop |
| UnrolledRuns.LoopRunsFollow | src/transforms/LoopUnroll.cpp:301-565 | and whatever the new blocks do from the preheader through the epilogue, the loop does, where its header has results and one step more does not wrap |
| UnrollWords.SecondWind | src/transforms/LoopUnroll.cpp:318-343 | a 32-bit counter from 2^31 - 3, by one, below 2^31 - 1: two rounds, and no unrolled run of two rounds, because the step after them wraps to -2^31 |
| TripSplit.CountIsRounds | src/transforms/LoopVectorizer.cpp:1076-1086 | with ordered bounds the computed trip count is the number of rounds of the scalar loop, or zero where rounding up wraps |
| TripSplit.CountRoundsUp | src/transforms/LoopVectorizer.cpp:1076-1086 | the count is rounded up; over all 32-bit words by twos that wraps, and nought is counted for 2^31 rounds |
| TripSplit.EnteredExactly | src/transforms/LoopVectorizer.cpp:1096 | the vector loop is entered exactly for a count of at least one chunk that is no negative word |
| TripSplit.AndMask | src/transforms/LoopVectorizer.cpp:1097 | masking with minus a power of two takes the remainder away |
| TripSplit.OrderedSplit | src/transforms/LoopVectorizer.cpp:1076-1104 | with ordered bounds the vector loop takes whole chunks of real rounds and leaves less than one |
| SplitVisits.ScalarRounds | src/transforms/LoopVectorizer.cpp:1844-1850 | a loop that counts up by a positive step without wrapping makes as many rounds as were counted |
| SplitVisits.ChunksAreVisits | src/transforms/LoopVectorizer.cpp:1730-1739 | the lanes of the vector rounds are consecutive counters of the scalar loop |
| SplitVisits.EmittedUnique | src/transforms/LoopVectorizer.cpp:1423-1426 | the emitted loops visit one list of indices |
| SplitVisits.SplitRounds | src/transforms/LoopVectorizer.cpp:1076-1104 | whatever the bounds, both emitted loops end, after so many rounds; with bounds out of order neither goes round exactly when the count is a multiple of a chunk |
| SplitVisits.SplitExactly | src/transforms/LoopVectorizer.cpp:1076-1104 | the emitted loops visit exactly what the original loop visits, in its order, if and only if the bounds are in order, or the count is below one chunk, or it is a multiple of one |
| SplitVisits.UnorderedRight | src/transforms/LoopVectorizer.cpp:1423-1426 | bounds out of order, with a count of one chunk: neither emitted loop goes round, like the original |
| SplitVisits.UnorderedEpilogue | src/transforms/LoopVectorizer.cpp:1844-1850 | bounds out of order where the epilogue makes one round that the original loop does not |
| SplitVisits.UnorderedVector | src/transforms/LoopVectorizer.cpp:1423-1426 | bounds out of order where the vector loop makes 96 rounds that the original loop does not |
| VectorReduction.CombineAssociates | src/transforms/LoopVectorizer.cpp:1743-1754 | the reduction operation is associative on 32-bit words, wrapping included |
| VectorReduction.CombineCommutes | src/transforms/LoopVectorizer.cpp:1743-1754 | and commutative |
| VectorReduction.CombineIdentity | src/transforms/LoopVectorizer.cpp:840-855 | and the chosen identity is one |
| VectorReduction.CollapseLanewise | src/transforms/LoopVectorizer.cpp:1790-1796 | collapsing lanewise combined vectors combines the collapsed vectors |
| VectorReduction.CollapseChunk | src/transforms/LoopVectorizer.cpp:1790-1796 | collapsing a chunk of terms is folding them in order |
| VectorReduction.LaneAddress | src/transforms/LoopVectorizer.cpp:1591-1599 | the lanes of a contiguous access are the elements that the scalar rounds address, modulo 2^64 |
| VectorReduction.LoadChunk | src/transforms/LoopVectorizer.cpp:1587-1627 | the lanes loaded are the next terms of the scalar loop, with step one or by gathering |
| VectorReduction.VectorLoop | src/transforms/LoopVectorizer.cpp:1628-1650 | after any number of chunks, none if the end lies behind, the collapsed lanes are the fold of the terms so far |
| VectorReduction.HorizontalCollapse | src/transforms/LoopVectorizer.cpp:1790-1796 | the loop over the lanes |
| VectorReduction.ScalarLoop | src/transforms/LoopVectorizer.cpp:2025-2053 | the epilogue continues the sequential fold |
| VectorReduction.FoldOfVisits | src/transforms/LoopVectorizer.cpp:2025-2053 | folding what counters visit that do not wrap is the sequential fold |
| VectorReduction.RunReduction | src/transforms/LoopVectorizer.cpp:1775-1850 | for add, multiply, signed minimum and maximum, every start, all bounds and every positive step that the counter does not wrap at: the vectorised reduction folds what the emitted loops visit, which is the sequential fold wherever the split is right |
| VectorReduction.UnorderedSum | src/transforms/LoopVectorizer.cpp:1775-1850 | where it is not: adding ones, the emitted loops give one more than the original loop |
| AliasGuard.ClassifyMemory | src/transforms/LoopVectorizer.cpp:299-345 | unsafe exactly when two accesses of one base include a store; otherwise the checks are, once each, the ordered pairs of bases with a store that are not both allocations |
| AliasGuard.ChecksExactly | src/transforms/LoopVectorizer.cpp:299-345 | two bases, the smaller first, are among the checks exactly if an access of the one and an access of the other include a store and they are not both allocations |
| AliasGuard.EvaluateGuard | src/transforms/LoopVectorizer.cpp:1158-1196 | the conjunction of the pairs' tests |
| AliasGuard.GuardIsSound | src/transforms/LoopVectorizer.cpp:1158-1196 | for all bounds a true test means that the start is not negative, neither range leaves the address space, and the two ranges up to the bound as an unsigned word are disjoint |
| AliasGuard.GuardIsExact | src/transforms/LoopVectorizer.cpp:1158-1196 | unless the count wraps, the test is true exactly then, but for a base at address zero |
| VectorMemory.LoadSeesStart | src/transforms/LoopVectorizer.cpp:1617-1627 | where accesses are apart a load sees the memory from before the loop, whatever has been stored since |
| VectorMemory.StoreExplained | src/transforms/LoopVectorizer.cpp:1700-1720 | each store adds its own bytes to what memory holds, and disturbs no other |
| VectorMemory.Determined | src/transforms/LoopVectorizer.cpp:1585-1722 | which stores have been made determines memory: their order does not |
| VectorMemory.ScalarExplained | src/transforms/LoopVectorizer.cpp:1585-1722 | the scalar loop makes all stores |
| VectorMemory.VectorRound | src/transforms/LoopVectorizer.cpp:1615-1722 | one round of the vector loop, operation by operation over all lanes, makes exactly the stores of that many scalar rounds |
| VectorMemory.VectorLoop | src/transforms/LoopVectorizer.cpp:1585-1722 | after the vector loop exactly the stores of the rounds before the split point have been made; none if it lies behind |
| VectorMemory.ChunksThenScalar | src/transforms/LoopVectorizer.cpp:1585-1722 | chunks up to any point and scalar rounds from there leave every byte as the scalar loop does |
| VectorMemory.GuardedIsApart | src/transforms/LoopVectorizer.cpp:1158-1207 | where the count is worth a vector loop, accesses that pass the classification and the guard are apart, whatever the order of the bounds |
| VectorMemory.MayVectorize | src/transforms/LoopVectorizer.cpp:1158-1207 | the vector loop may run exactly when every pair of accesses passes, and then, if the allocations are, the accesses are apart |
| VectorMemory.RunVersionedLoop | src/transforms/LoopVectorizer.cpp:1106-1215 | classification, guard, vector loop and epilogue together leave memory as the scalar loop does, for all memories, bases, bounds and vector factors for which the split is right or the guard fails; and otherwise as the iterations at the visited indices do |
| VectorMemory.UnorderedMemory | src/transforms/LoopVectorizer.cpp:1158-1207 | bounds out of order for which the guard passes and the vector loop writes to memory, where the original loop makes no round |

## Left out

- SparseConditional.SCCP.EvaluateCall: the evaluation of pure callees is a parameter of the engine, bound only to agree with the machine; its budgets and the order in which it assigns phis are not part of this model.
- SparseConditional.SCCP.EvaluateOperands: folding of vectors and floating point is part of the fold parameter; constants are identified by their value.
- SparseConditional.SCCP.Propagate: that the result is the finest fixpoint is stated for functions without calls, because the evaluator of calls need not be monotone.
- PropagationSoundness.Soundness: runs that fall through the end of a block without a terminator are stuck there.
- UnsignedDivision.ProcessInstruction: the magnitude of the least 64-bit integer, whose negation overflows in the source, is taken as 2^63; computeSignedMagic64 is never called; the sum for multipliers beyond 32 bits is never emitted (UnsignedMagic.ComputeUnsignedMagic32).
- CFGBuilder.LinkBlock: see CFGBuilder.Run.
- Dominators.DominatorTree.DominatesWalk: asked where the walk ends for every answer (WalkEndsExactly says where it does not).
- Frontiers.DominanceFrontier.Run: where something unreached leads into a join the source may not end; Frontiers.FrontiersExact asks that all blocks are reached.
- NaturalLoops.FindBackEdges: every block with successors is reached; dominance of others is asked by a walk that may not end.
- Dominators.DominatorTree.Select: blocks are visited in the order of their numbers, where the source goes by addresses; IdomUnique says that this cannot matter.
- CFGBuilder.Run: a Br with one operand is not well formed here; edges out of Jz blocks follow the source, which falls through, and runs of such functions are left out of RunOnPath.
- NaturalLoops.Loop.Build: preheaders, nesting of loops and hoisting.
- InstructionScheduler.ScheduleBasicBlock: nodes are positions rather than pointers; which instructions are vector instructions is a parameter.
- SchedulingRuns.SchedulingPreserves: for blocks of phis, operations and one Br, Jmp or Ret, or a Jnz or Jz that the scheduler keeps last, on machines where only the listed operations touch memory (SchedulerExact.MemoryListedExactly); Blit, VAStart, VAArg and Hlt are not ordered by the code (SchedulerBlit.BlitMissed).
- DeadCode.EliminationPreservesRuns: on machines where only the listed operations change memory; ExternCall, Blit and Hlt are not on the list (DeadCodeExact.EliminationExactly).
- UnreachableBlocks.FindReachableBlocks: for functions with at most one terminator in each block; labels occur in terminators and phis only.
- UnreachableBlocks.EliminateBlock: use lists are not modelled; a use of what is gone becomes null wherever it stands.
- UnreachableBlocks.RemovedIncoming: block names are unique; the source also takes an incoming block of the same name for the one removed (PhiNode.cpp:51).
- UnreachableBlocks.DetachFrom: the same.
- DeadStoreRuns.DeadStoresPreserveRuns: for whole functions sufficient conditions only: this one, and DeadStoreChains.DeadStoreChainsPreserveRuns with stores in between. A load between the two stores is allowed by neither; when one is harmless is said of lines of accesses (AliasedLoads.UnnoticedExactly, and SeparatePointers.ScanKeepsLoads for pointers apart; VGather and VScatter, which go lane by lane, are no part of such lines). What stays open is when a function with an aliased load in between is nevertheless unchanged for the addresses it does use.
- DeadInstructionElimination.PerformTransformation: meaning is stated for functions whose stores to one pointer, back to a call or an anchored load from it, are in order, with only bystanders, loads from the pointer and, on machines with StoreLaws, other stores in between; VScatter, which writes several places, is none of the stores that may make up for one.
- AffineAnalysis.Analysis.Analyze: extensions and truncations are left out, as are values of different widths: the code merges a sign- and a zero-extension of one leaf (AffineForms.ExtensionsMerged). A term records its leaf, coefficient, width and sign, not the value it was stripped from.
- AffineAnalysis.Analysis.AnalyzeImpl: the same cases (AffineAnalysis.cpp:107-116).
- FunctionInliner.InliningAddsNoReach: a module is its direct calls, returns and other instructions; what inlined code computes is not modelled.
- FunctionInliner.InlineFirst: profitability and the legality of calls in loops are an arbitrary predicate.
- LoopUnroll.UnrollLoop: analyzeLoopLegality and the extraction of phi operands are left out; the loop is given by its phis, initial values, latch values and two blocks; phis at the exit stand for header phis only.
- UnrollBlocks.BuildBlocks: a phi at the exit for each header phi, used outside or not; use lists and names of instructions are not modelled.
- LoopUnroll.FinalPhis: phis at the exit of values that are not header phis.
- UnrollTheorems.LoopFollows: a header operation without a result stops the loop and not its unrolling, which tests without it; so headers with results only.
- UnrollTheorems.UnrolledFollows: the while form (condUsesIV), with a header that does not change memory and no stripped extensions.
- UnrolledRuns.UnrolledRunsFollow: from the preheader to the exit; what follows is said instruction by instruction (UnrollOutside), not as a theorem on whole runs.
- VectorReduction.RunReduction: the emitted loops are modelled as what they do, not as instructions; the counter of the original loop does not wrap (SplitVisits.SplitExactly asks the same); positive step and 32-bit integer terms only: negative steps, widening, floating point and predication are left out.
- VectorMemory.RunVersionedLoop: step one, one element size, values computed lane by lane from what the iteration has loaded; bases in no check, and pairs of allocations, are taken to keep apart.
- VectorMemory.VectorLoad: a contiguous access is its lanes one after another.
- runPostDominator: its selection test is the reverse of the one for dominators (DominatorTree.cpp:207).
- PhiInsertion, the e-graph, InstCombine, GVN, SLP, LICM's hoisting, parsing, printing, code generation and linking.
