# Verification of the vectorizer's run-time models, the portable vector scalarizer and its reports

This project models, in Dafny 4.11, the parts of the compiler repository whose correctness is a
statement about all inputs and all runs, and proves those statements.
`dafny verify dfyconfig.toml` checks everything.

## What is modelled

**Vector-length-agnostic loops.** `VectorLength` states which vector length a `vsetvl` may return
(section 6.3, "Constraints on Setting vl", of the RISC-V "V" Vector Extension 1.0). The loop models
in the test scripts take `min(remaining, vlmax)`; every loop here is proved for *every* allowed
choice, including a different choice each time the same request is made.

- `StripMining`: signed strides, reverse chunks addressed by a low base plus non-negative offsets.
- `AliasRuntime`: the overflow-checked run-time alias check, with every conversion to `uintptr_t`
  written out.
- `ByteMemory`, `LoopInterchange`, `AffineLoop`, `VersionedLoop`: little-endian words in one byte
  memory, the interchange of operations and iterations that vectorizing a loop body is, and the
  alias-versioned loop for any straight-line body of loads and stores at arbitrary, possibly
  overlapping or misaligned bases, guarded by any number of combined checks. `KernelMeaning` says
  what such loops leave in memory, word by word and byte by byte.
- `ElementLoops`: two chunks per iteration. `IfConversion`: both arms of a diamond executed under
  complementary masks, where inactive and tail lanes hold arbitrary values.
- `Reduction`: add, mul, and, or, xor on 32-bit wrapping words; a vector reduction may combine its
  lanes in any order and any tree shape. `ReductionMeaning` says which number that is.

**The portable vector scalarizer.** `Oir` is the integer part of the intermediate representation
with the tests' interpreter: two-phase phis, a value table, a flat memory. Vector operations have
their all-lanes meaning in the same interpreter. `LaneLowering`, `GuardLayout` and `Scalarizer` are
the pass: a lane map built in layout order, one scalar phi per lane, one guarded diamond per
conditional lane, blocks split and phi predecessors redirected. The chain to the main theorem is
`LaneCorrectness` and `InstrCorrectness` (one instruction), `GuardLayout` (diamonds as blocks),
`Simulation` and `Preservation` (phis, blocks, runs), `Dominance` and `LaneMapFacts` (static single
assignment form supplies the invariant of every block), `ScalarizerTheorem` (all runs).
`Acceptance` and `ScalarizerRejections` show which functions are rejected, `ScalarOutput` what the
output looks like, `ScalarizerExample` applies the theorem to the tests' masked-memory function on
all inputs. `OperationLaws` and `LaneLaws` pin every operation of the interpreter down in arithmetic,
bit by bit (`Digits`) and lane by lane, without naming the functions that interpret it;
`VectorMeaning` and `Interpreter` tie the interpreter to order-free descriptions and to its loop.

**Small protocols.** `RvvRuntime` is the lock-free once-cache of the vector probe as a transition
system over any number of concurrent calls. `PerfBaseline` and `PerfGate` are the baseline
comparison and the gate on it. `CostModel` is the per-file and aggregate decision summary.
`ReportMerge` is the merging of report lists.

## Findings

- `runtime/alias_runtime.h:13-14` promises zero for every invalid or overflowing description. When a
  count is zero the code returns one, whatever the other description
  (`AliasRuntime.EmptyStreamHidesAnInvalidOne`, with inputs in `AliasRuntime.InvalidDescriptionsAnswerOne`).
  This is still sound, as an empty stream touches nothing. When neither count is zero the promise holds
  for all streams if and only if `UINTPTR_MAX` is at least `INT32_MAX` (`AliasRuntime.FailsClosedIffWide`).
- The alias check is sound for all streams if and only if `UINTPTR_MAX` is at least `INT32_MAX`, and
  descriptions are exact under the same condition (`AliasRuntime.AnswersAreSoundIffWide`,
  `AliasRuntime.DescriptionsAreExactIffWide`). On every narrower `uintptr_t` a count or an element size
  is truncated and the answer is one for streams that share a byte
  (`AliasRuntime.NarrowAnswerIsUnsound`, `AliasRuntime.NarrowUintptrTruncatesTheSpan`).
- The alias check is complete, never rejecting streams that share no byte, exactly for the strides -1,
  0 and 1; for every other stride it rejects some pair of streams without a common byte
  (`AliasRuntime.CompleteExactly`, which also covers strides so long that two elements do not fit).
- Among well-typed functions in layout order the scalarizer rejects exactly those in which an explicit
  vector length does not resolve to the constant lane count, or a lane index resolves to a constant out
  of range (`Acceptance.TypedIsAccepted`). `ScalarizerRejections` has a family of functions for each: a
  run-time length and a wrong literal length (`LengthMustBeLaneCount`), a length and an index extracted
  from constant lanes (`ExtractedLengthIsRead`, `ExtractedIndexIsChecked`).
- Merging the same remote history twice raises `KeyError` exactly when the first merge took over a
  row without `run_id` (`ReportMerge.HistoryIsIdempotent`).
- `by_transform` and `total_decisions` agree exactly when every decision has one of the three known
  actions (`CostModel.TransformsSumToTotal`).

## Model

| member | source | states |
|---|---|---|
| VectorLength.SetVL | scripts/loop_vectorizer_infra_tests.py:2951-2963 | any vector length section 6.3 allows; it is positive while elements remain and never exceeds them |
| VectorLength.LegalBounds | scripts/loop_vectorizer_infra_tests.py:2957 | the scripts' `min(remaining, vlmax)` is one allowed answer, and every allowed answer makes progress without overshooting |
| VectorLength.LegalExactly | scripts/loop_vectorizer_infra_tests.py:2951-2963 | an answer is allowed if and only if it exceeds neither number, is the request when that fits, and otherwise covers at least half of it or is VLMAX |
| VectorLength.ScheduleLength | scripts/loop_vectorizer_infra_tests.py:2951-2963 | every legal sequence of vector lengths covers the request in exactly ceil(avl/vlmax) chunks, however the tail is balanced |
| StripMining.InRange | scripts/loop_vectorizer_infra_tests.py:2907-2919 | the scalar loop condition holds exactly for the first ceil(n/abs(stride)) iterations |
| StripMining.AddressesExact | scripts/loop_vectorizer_infra_tests.py:2907-2919 | the address list contains exactly the in-range addresses congruent to the start |
| StripMining.AddressesStepByStride | scripts/loop_vectorizer_infra_tests.py:2907-2919 | the list starts at 0 or at n - 1, moves by the stride, and stops only when one more stride leaves the array; it is empty exactly without elements |
| StripMining.AddressesAreMultiples | scripts/loop_vectorizer_infra_tests.py:2907-2919 | an advancing stride visits exactly its multiples below n, a receding one exactly the x with n - 1 - x a multiple |
| StripMining.ScalarStrideAddresses | scripts/loop_vectorizer_infra_tests.py:2907-2919 | the scalar loop visits the address list and leaves with the stated induction value |
| StripMining.IndexedChunkAddresses | scripts/loop_vectorizer_infra_tests.py:2921-2949 | lane addresses equal low base plus index; indices are non-negative, bounded and pairwise distinct; no lane when the length is zero |
| StripMining.VlaStrideAddresses | scripts/loop_vectorizer_infra_tests.py:2951-2964 | for every n, non-zero stride, VLMAX and legal lengths: same addresses in the same order and same exit value as the scalar loop |
| StripMining.InductionBounds | scripts/loop_vectorizer_infra_tests.py:1200-1265 | no induction value leaves the array by a full stride, so nothing wraps once n plus the stride fits |
| StripMining.ReverseByteOffsetsFitInt32 | scripts/loop_vectorizer_infra_tests.py:2988-2997 | for reverse strides up to 4, 16384 minimum lanes and vscale 2048 every scaled byte offset fits i32 |
| StripMining.AddressesInBounds | scripts/loop_vectorizer_infra_tests.py:2966-2997 | every address either loop touches is inside the array |
| AliasRuntime.CheckedMulUintptr | runtime/alias_runtime.c:17-22 | succeeds exactly when the product is representable, and then stores it unwrapped; otherwise stores nothing |
| AliasRuntime.CheckedAddUintptr | runtime/alias_runtime.c:24-29 | succeeds exactly when the sum is representable, and then stores it unwrapped; otherwise stores nothing |
| AliasRuntime.DescribeRange | runtime/alias_runtime.c:31-58 | for every width of `uintptr_t`: succeeds exactly when the range computed from the converted count, stride and size fits, with no intermediate check rejecting one that fits, and stores precisely that range |
| AliasRuntime.UntruncatedDescription | runtime/alias_runtime.c:31-58 | if the conversions truncate nothing, exactly the representable streams are described, and by their hulls |
| AliasRuntime.DescriptionsAreExactIffWide | runtime/alias_runtime.c:40-44 | descriptions are exact on all streams if and only if `UINTPTR_MAX` is at least `INT32_MAX` |
| AliasRuntime.HullIsSmallest | runtime/alias_runtime.c:31-58 | the hull encloses every touched byte and both its ends are touched |
| AliasRuntime.RangesDisjoint | runtime/alias_runtime.c:60-73 | for every width of `uintptr_t`: the answer as a condition on the two computed ranges, empty streams first |
| AliasRuntime.AnswerExactly | runtime/alias_runtime.c:60-73 | for streams of every stride, in terms of touched bytes alone: the answer is one if and only if a count is zero, or both streams lie in the address space and one lies entirely below the other |
| AliasRuntime.TrueAnswerIsSound | runtime/alias_runtime.c:60-73 | for streams that the conversions do not truncate, a true answer means no touched byte is shared, for all strides and empty streams, and non-empty streams do not leave the address space |
| AliasRuntime.AnswersAreSoundIffWide | runtime/alias_runtime.c:60-73 | true answers are sound for all pairs of streams if and only if `UINTPTR_MAX` is at least `INT32_MAX` |
| AliasRuntime.NarrowAnswerIsUnsound | runtime/alias_runtime.c:42-44 | the failing input on every narrower width: an element size converted to zero |
| AliasRuntime.UnitStrideFillsHull | runtime/alias_runtime.c:31-58 | for strides -1, 0 and 1, and for single elements, every byte of the hull is touched |
| AliasRuntime.DenseAnswerIsExact | runtime/alias_runtime.c:60-73 | on representable streams without gaps the answer is true if and only if no byte is shared |
| AliasRuntime.CompleteExactly | runtime/alias_runtime.c:60-73 | for every pair of strides: every false answer on representable streams has a shared byte if and only if both strides leave no gap (-1, 0, 1, or too long for two elements) or one is INT32_MIN |
| AliasRuntime.GapIsRejected | runtime/alias_runtime.c:60-73 | for every other stride a concrete pair of representable streams that shares no byte is rejected, in both argument orders |
| AliasRuntime.InterleavedStreamsAreRejected | runtime/alias_runtime.c:60-73 | an instance: two interleaved streams of stride two share no byte and are rejected |
| AliasRuntime.EmptyStreamHidesAnInvalidOne | runtime/alias_runtime.c:65-70 | when the code refuses one description, or one of two untruncated descriptions is invalid, the answer is one if and only if one of the counts is zero |
| AliasRuntime.FailsClosedIffWide | runtime/alias_runtime.h:13-14 | invalid descriptions with non-zero counts are always answered zero if and only if `UINTPTR_MAX` is at least `INT32_MAX` |
| AliasRuntime.InvalidDescriptionsAnswerOne | runtime/alias_runtime.h:13-14 | inputs against the header comment: a zero count on either side of a stride of INT32_MIN, of a negative count, of an overflowing range |
| AliasRuntime.NarrowUintptrTruncatesTheSpan | runtime/alias_runtime.c:40-44 | on every `uintptr_t` too narrow for some count the check answers one for two streams that both touch byte 1 |
| ByteMemory.LoadBack | scripts/loop_vectorizer_infra_tests.py:201-253 | a word stored at any address, wrapping included, is the word loaded there |
| ByteMemory.LittleEndian | scripts/loop_vectorizer_infra_tests.py:201-253 | a word is its four bytes, the lowest address lowest |
| ByteMemory.LoadElsewhere | scripts/loop_vectorizer_infra_tests.py:201-253 | a store does not change a word that shares no byte with it |
| ByteMemory.StoresCommute | scripts/loop_vectorizer_infra_tests.py:201-253 | stores to words that share no byte commute |
| LoopInterchange.LastLaneMoves | src/pass/oir/OIRVectorization.cpp:2350-2420 | the last lane of a chunk can wait until all other lanes are through, whenever no operation depends on a later operation of an earlier iteration |
| LoopInterchange.ChunkIsScalar | src/pass/oir/OIRVectorization.cpp:2350-2420 | operation by operation for all lanes equals iteration by iteration, for any body, chunk and step semantics with that property |
| AffineLoop.OperationsCommute | src/pass/oir/OIRVectorization.cpp:884-915 | accesses of different iterations commute unless they overlap and one is a store |
| AffineLoop.HazardlessIsInterchangeable | src/pass/oir/OIRVectorization.cpp:884-915 | a body without conflicts against earlier iterations may be interchanged |
| AffineLoop.RunIsScalar | scripts/loop_vectorizer_infra_tests.py:201-253 | the run that keeps the registers of all iterations is the plain scalar loop |
| VersionedLoop.ScalarKernel | scripts/loop_vectorizer_infra_tests.py:201-253 | the scalar loop over any straight-line body leaves the memory of n scalar iterations and its live-out |
| AffineLoop.ChunkOfBodyIsScalar | scripts/loop_vectorizer_infra_tests.py:2303-2323 | without hazards one vector chunk of any straight-line body equals as many scalar iterations as it has lanes |
| VersionedLoop.TrueAnswerSettles | src/pass/oir/OIRVectorization.cpp:742-766 | a true answer on the emitted arguments of a pair means that no word of one access shares a byte with a word of the other, in any two iterations |
| VersionedLoop.SameLaneIsSettled | src/pass/oir/OIRVectorization.cpp:899-905 | a pair that names the same advancing lane address needs no check as long as its stream does not wrap |
| VersionedLoop.TrueAnswersExcludeHazards | src/pass/oir/OIRVectorization.cpp:742-766 | if all checks answer one and they cover the pairs not settled before, the body has no hazard |
| VersionedLoop.CheckPairs | src/pass/oir/OIRVectorization.cpp:742-766 | the check block computes the conjunction of the answers of all pairs |
| VersionedLoop.CheckExcludesHazardsExactly | runtime/alias_runtime.c:40-44 | for the kernel `b[i] = a[i] + 7` and any address space of at least 9 bytes, the check excludes every hazard if and only if the size is at least `INT32_MAX` |
| VersionedLoop.NarrowAnswerAllowsAHazard | runtime/alias_runtime.c:40-44 | in every smaller address space the answer can be one although iteration 1 loads what iteration 0 stores |
| VersionedLoop.VectorKernel | src/pass/oir/OIRVectorization.cpp:2350-2420 | the strip-mined vector loop over any hazard-free body equals the scalar loop for every legal choice of lengths |
| VersionedLoop.VersionedKernel | src/pass/oir/OIRVectorization.cpp:703-789 | main theorem: for every straight-line body of loads and stores with any lane functions and supported strides, every memory, bases, signed trip count, covering list of checks and legal lengths, the versioned loop leaves the memory and live-out of the scalar loop |
| KernelMeaning.LoadStoreRun | scripts/loop_vectorizer_infra_tests.py:201-253 | after n iterations of a load and a store, of any strides, that no earlier store interferes with, element i of the store stream is the lane function of element i of the old load stream, and no other byte changed |
| KernelMeaning.LoadsInOrder | scripts/loop_vectorizer_infra_tests.py:217-234 | with two loads the stored value sees their words in body order |
| KernelMeaning.AddSevenRun | scripts/loop_vectorizer_infra_tests.py:229-234 | the scalar kernel leaves (a[i] + 7) mod 2^32 in b[i] for every i below n and changes no other byte |
| KernelMeaning.AddSevenKernel | scripts/loop_vectorizer_infra_tests.py:201-253 | the versioned kernel, whichever loop runs, leaves (a[i] + 7) mod 2^32 in b[i] for every i below n and changes no other byte |
| VersionedLoop.OverlapBreaksAnUncheckedChunk | scripts/loop_vectorizer_infra_tests.py:2303-2323 | without the check, with the store stream one element ahead, chunk and scalar loop leave different memories whenever the first store changes the word it writes |
| ElementLoops.ScalarElements | scripts/loop_vectorizer_infra_tests.py:1394-1402 | what the scalar element loop leaves in the array |
| ElementLoops.InterleavedElements | scripts/loop_vectorizer_infra_tests.py:1394-1421 | two chunks per iteration, the second on what the first leaves (possibly none): the scalar array, and induction variable and pointer end at the trip count |
| IfConversion.TouchedExactly | scripts/loop_vectorizer_infra_tests.py:3376-3385 | the touched list holds exactly the iterations below the trip count whose predicate holds |
| IfConversion.TouchedInOrder | scripts/loop_vectorizer_infra_tests.py:3376-3385 | each of them is listed once, in iteration order |
| IfConversion.ScalarDiamond | scripts/loop_vectorizer_infra_tests.py:3376-3383 | what the branchy scalar loop leaves in both arrays and which iterations took the then-arm |
| IfConversion.MasksPartitionActiveLanes | scripts/loop_vectorizer_infra_tests.py:3183-3225 | then-mask and else-mask partition exactly the active lanes by the scalar predicate, whatever the agnostic lanes hold |
| IfConversion.MaskedStore | scripts/loop_vectorizer_infra_tests.py:3386-3401 | only lanes below the vector length with their mask bit set reach memory |
| IfConversion.ArmsChoose | scripts/loop_vectorizer_infra_tests.py:3183-3225 | on every active lane the arm that counts and the merged value are what the scalar branch computes |
| IfConversion.VlaDiamond | scripts/loop_vectorizer_infra_tests.py:3354-3410 | for every trip count, VLMAX, legal lengths, predicate and agnostic content: same arrays, same ordered then-touched lanes, induction variable ends at the trip count |
| IfConversion.ScalarThenOnly | scripts/loop_vectorizer_infra_tests.py:2245-2251 | what the scalar loop with a guarded second store leaves in the array and which iterations took the guard |
| IfConversion.VlaThenOnly | scripts/loop_vectorizer_infra_tests.py:2224-2277 | the then-only form: same array and touched lanes as the scalar loop, none at or beyond the trip count |
| Reduction.OpLaws | scripts/loop_vectorizer_infra_tests.py:1573-1589 | the five wrapping 32-bit operations are commutative and associative |
| Reduction.FoldPermuted | scripts/loop_vectorizer_infra_tests.py:1626-1659 | a fold depends only on the multiset of its lanes |
| Reduction.UnorderedIsOrdered | scripts/loop_vectorizer_infra_tests.py:1626-1659 | any tree over the accumulator and any permutation of the lanes gives the left fold |
| Reduction.ScalarReduction | scripts/loop_vectorizer_infra_tests.py:1639-1645 | the scalar loop computes the left fold from the seed |
| Reduction.VlaReduction | scripts/loop_vectorizer_infra_tests.py:1646-1661 | chunked unordered reduction equals the scalar fold for every legal lengths; zero trips return the seed |
| Reduction.ResiduesPermuteTheChunk | scripts/loop_vectorizer_infra_tests.py:1785-1796 | the four residue passes over a chunk visit exactly the lanes of the chunk |
| Reduction.ChainIsFold | scripts/loop_vectorizer_infra_tests.py:1762-1768 | the chain of four reductions over one chunk is the element-order fold |
| Reduction.UnrolledReduction | scripts/loop_vectorizer_infra_tests.py:1775-1797 | unrolled by four: residue by residue equals element order, for every group count, VLMAX, legal lengths and operation |
| ReductionMeaning.CombineAt | scripts/loop_vectorizer_infra_tests.py:1573-1589 | each bit of a bitwise combination follows the truth table of its two bits |
| ReductionMeaning.FoldMeans | scripts/loop_vectorizer_infra_tests.py:1573-1589 | the fold that all three reductions compute: seed plus sum and seed times product modulo 2^32; bit k is set when all, some or an odd number of seed and lanes have it set |
| Oir.ExecuteCompose | scripts/portable_vector_scalarizer_infra_tests.py:493-611 | running n and then m blocks is running n + m |
| Interpreter.Run | scripts/portable_vector_scalarizer_infra_tests.py:472-612 | the interpreter loop with its step limit computes the specified outcome |
| Interpreter.LimitExactly | scripts/portable_vector_scalarizer_infra_tests.py:494-611 | what finishes within ten thousand blocks is the outcome; longer runs and a wrong argument count fail |
| Interpreter.RunOneBlock | scripts/portable_vector_scalarizer_infra_tests.py:495-608 | one block: two-phase phis, then instructions in order, then the branch or return |
| OperationLaws.BinaryLaw | scripts/portable_vector_scalarizer_infra_tests.py:517-537 | a binary instruction defines its result and nothing else: sum, difference, product, truncated quotient and remainder, or the truth table on every bit; it fails exactly on a zero divisor |
| OperationLaws.ComputesOneValue | scripts/portable_vector_scalarizer_infra_tests.py:520-534 | these laws admit one value only |
| OperationLaws.CompareLaw | scripts/portable_vector_scalarizer_infra_tests.py:539-564 | a comparison defines one exactly when its relation holds, else zero |
| OperationLaws.AddressLaws | scripts/portable_vector_scalarizer_infra_tests.py:566-594 | addresses are sums, conversions keep the value, loads and stores touch the cell they name and fail outside the memory |
| LaneLaws.VectorBinaryLaw | src/pass/oir/OIRPortableVectorScalarizerPass.cpp:742-757 | every lane of a vector operation is computed from the same lane of the operands; it fails exactly when some divisor lane is zero |
| LaneLaws.VectorCompareLaw | src/pass/oir/OIRPortableVectorScalarizerPass.cpp:758-773 | every lane of a vector comparison is the truth value of its relation |
| LaneLaws.VPBinaryLaw | src/pass/oir/OIRPortableVectorScalarizerPass.cpp:969-990 | active lanes are computed, the others passed through; only a zero divisor in an active lane fails |
| LaneLaws.VPCompareLaw | src/pass/oir/OIRPortableVectorScalarizerPass.cpp:991-1013 | active lanes are compared, the others passed through |
| LaneLaws.MaskedLoadLaw | src/pass/oir/OIRPortableVectorScalarizerPass.cpp:1014-1039 | active lanes read p + k, the others are passed through; it fails exactly when an active lane leaves the memory |
| LaneLaws.GatherLaw | src/pass/oir/OIRPortableVectorScalarizerPass.cpp:1058-1083 | the same for lanes that read p + indices[k] |
| LaneLaws.SplatAndStepLaw | src/pass/oir/OIRPortableVectorScalarizerPass.cpp:774-795 | splats repeat their scalar, step vectors count from zero |
| LaneLaws.SelectLaw | src/pass/oir/OIRPortableVectorScalarizerPass.cpp:837-852 | each lane is the first choice where the condition is not zero, else the second |
| LaneLaws.ShuffleLaw | src/pass/oir/OIRPortableVectorScalarizerPass.cpp:816-836 | a shuffle picks lanes of the concatenation of its operands |
| LaneLaws.InsertAndExtractLaw | src/pass/oir/OIRPortableVectorScalarizerPass.cpp:633-661 | insertion replaces and extraction reads the indexed lane, and other indices are undefined |
| LaneLaws.MaskedStoreLaw | src/pass/oir/OIRPortableVectorScalarizerPass.cpp:1040-1057 | the cells p + k of active lanes hold their lane, all others are unchanged; it fails exactly when an active lane leaves the memory |
| LaneLaws.ScatterLaw | src/pass/oir/OIRPortableVectorScalarizerPass.cpp:1084-1100 | the same for the cells p + indices[k], the last active lane of a cell winning |
| LaneLaws.ReduceLaw | src/pass/oir/OIRPortableVectorScalarizerPass.cpp:1102-1116 | a reduction defines the sum, product, minimum or maximum of seed and active lanes, or bit by bit whether all, some or an odd number of them have the bit |
| LaneLaws.TerminatorLaw | scripts/portable_vector_scalarizer_infra_tests.py:595-607 | a branch takes its first target exactly on a non-zero condition; a return gives its operand and the memory |
| LaneLaws.EdgeLaw | scripts/portable_vector_scalarizer_infra_tests.py:500-508 | a phi takes the operand of the first edge from the predecessor and fails without one |
| VectorMeaning.PhiOrderIsIrrelevant | scripts/portable_vector_scalarizer_infra_tests.py:495-510 | two-phase reading makes the result independent of the order of a block's phis |
| VectorMeaning.StoreMeaning | scripts/portable_vector_scalarizer_infra_tests.py:336-370 | a masked store or scatter leaves in each cell what its last active writer stored and changes no other |
| VectorMeaning.StoreFaults | scripts/portable_vector_scalarizer_infra_tests.py:652-676 | it fails exactly when an active lane leaves the memory; inactive lanes cannot fault |
| LaneCorrectness.ConditionalRuns | src/pass/oir/OIRPortableVectorScalarizerPass.cpp:545-589 | a guarded value runs its taken code only when the condition holds and otherwise yields the false value |
| LaneCorrectness.LaneRuns | src/pass/oir/OIRPortableVectorScalarizerPass.cpp:742-1082 | the scalar code of one lane yields that lane of the all-lanes result, or fails with it, and touches no other value |
| InstrCorrectness.LanesRun | src/pass/oir/OIRPortableVectorScalarizerPass.cpp:969-1082 | the lanes of a lane-wise operation, run one after the other, together give the vector result or its failure |
| InstrCorrectness.EffectsRun | src/pass/oir/OIRPortableVectorScalarizerPass.cpp:1040-1100 | guarded stores and scatters give the memory of the vector store or its failure |
| InstrCorrectness.ReductionRuns | src/pass/oir/OIRPortableVectorScalarizerPass.cpp:1102-1116 | the accumulator chain gives the reduction of the active lanes into the seed |
| InstrCorrectness.CombineRuns | src/pass/oir/OIRPortableVectorScalarizerPass.cpp:673-709 | the code of one combine computes the operation, minimum and maximum by a guarded choice |
| InstrCorrectness.DynamicExtractRuns | src/pass/oir/OIRPortableVectorScalarizerPass.cpp:633-646 | the chain of comparisons picks the indexed lane |
| InstrCorrectness.InstrRuns | src/pass/oir/OIRPortableVectorScalarizerPass.cpp:1118-1218 | the scalar code of any accepted instruction simulates it: same memory, same failure, same values by lane |
| GuardLayout.RunEmitted | src/pass/oir/OIRPortableVectorScalarizerPass.cpp:522-620 | splitting a block at its guards executes exactly the guarded code, in at most two extra blocks per guard |
| Scalarizer.BlocksArePlaced | src/pass/oir/OIRPortableVectorScalarizerPass.cpp:1298-1331 | the blocks emitted for different source blocks never overwrite each other |
| Simulation.PhisRead | src/pass/oir/OIRPortableVectorScalarizerPass.cpp:726-740 | along every edge the lane phis read the lanes of what the vector phis read, or both find no edge |
| Simulation.PhisAssign | src/pass/oir/OIRPortableVectorScalarizerPass.cpp:711-724 | assigning the lane phis makes every phi's value available by lane |
| Preservation.BlockSimulated | src/pass/oir/OIRPortableVectorScalarizerPass.cpp:1298-1331 | one source block is simulated by the blocks emitted for it |
| Preservation.RunSimulated | scripts/portable_vector_scalarizer_infra_tests.py:493-611 | block simulation lifts to runs of any length, loops included |
| Dominance.BeforeIsTransitive | src/pass/oir/OIRPortableVectorScalarizerPass.cpp:1303-1324 | in SSA form what is available before a definition is available wherever the definition is |
| Dominance.EdgeKeeps | src/pass/oir/OIRPortableVectorScalarizerPass.cpp:1303-1324 | what is available at a block's entry is available at the end of each reachable predecessor |
| LaneMapFacts.BuildMapFacts | src/pass/oir/OIRPortableVectorScalarizerPass.cpp:1313-1323 | the layout-order walk records for every vector value exactly what its lowering under the final map yields |
| ScalarizerTheorem.SSAIsCertified | src/pass/oir/OIRPortableVectorScalarizerPass.cpp:1298-1331 | SSA form alone supplies the simulation invariant of every reachable block |
| ScalarizerTheorem.ScalarizationPreservesRuns | src/pass/oir/OIRPortableVectorScalarizerPass.cpp:1298-1331 | main theorem: for every accepted SSA function, input and run length, the scalarized function returns, fails or keeps running as the vector function does |
| ScalarizerTheorem.ScalarizedRunsAreSourceRuns | scripts/portable_vector_scalarizer_infra_tests.py:639-676 | conversely every finished scalarized run is the run of the vector function |
| ScalarizerTheorem.LimitedRunsAgree | scripts/portable_vector_scalarizer_infra_tests.py:493-612 | the interpreter with its step limit gives both functions the same outcome whenever the limit leaves room for the guards |
| ScalarizerTheorem.LimitedScalarizedRun | scripts/portable_vector_scalarizer_infra_tests.py:493-612 | what the scalarized function returns within the step limit the vector function returns within it |
| Acceptance.TypedIsAccepted | src/pass/oir/OIRPortableVectorScalarizerPass.cpp:622-672 | a well-typed function whose vector operands are defined earlier in layout order is scalarized if and only if every explicit vector length resolves to the constant lane count and no lane index resolves to a constant out of range |
| Acceptance.DirectIsAccepted | src/pass/oir/OIRPortableVectorScalarizerPass.cpp:622-672 | when indices and vector lengths are literals or plain run-time values: scalarized if and only if all literal indices are in range and all vector lengths are the literal lane count |
| ScalarizerRejections.LengthMustBeLaneCount | scripts/portable_vector_scalarizer_infra_tests.py:853-876 | the tests' function with a run-time vector length is rejected, and so is every literal length but the lane count |
| ScalarizerRejections.ExtractedLengthIsRead | src/pass/oir/OIRPortableVectorScalarizerPass.cpp:664-672 | a vector length extracted from constant lanes is accepted exactly when the constant is the lane count |
| ScalarizerRejections.ExtractedIndexIsChecked | src/pass/oir/OIRPortableVectorScalarizerPass.cpp:622-631 | a lane index extracted from constant lanes is accepted exactly when the constant is in range |
| ScalarOutput.ScalarizedIsScalar | src/pass/oir/OIRPortableVectorScalarizerPass.cpp:1252-1264 | no vector instruction and no vector phi is left |
| ScalarOutput.AccessesAreGuarded | scripts/portable_vector_scalarizer_infra_tests.py:667-675 | every address and access of every output block is a source access, belongs to a lane whose mask bit is a constant one, or stands in an arm whose only entry is the branch on the mask bit of its own lane |
| ScalarizerExample.MemoryIsAccepted | scripts/portable_vector_scalarizer_infra_tests.py:336-370 | the tests' masked-memory function is well formed and is scalarized |
| ScalarizerExample.MemoryIsSSA | scripts/portable_vector_scalarizer_infra_tests.py:336-370 | it is in SSA form, so the main theorem applies to it |
| ScalarizerExample.MemoryRuns | scripts/portable_vector_scalarizer_infra_tests.py:652-666 | its outcome for every base, flag and memory: 24 and untouched memory when disabled, the sum of three cells when enabled, failure outside the memory |
| ScalarizerExample.ScalarizedMemoryRuns | scripts/portable_vector_scalarizer_infra_tests.py:652-666 | its scalarized form has that outcome for every base, flag and memory |
| RvvRuntime.ProbeFailsClosed | runtime/rvv_runtime.c:118-153 | the probe says yes exactly on consistent support, and no in every other case |
| RvvRuntime.StepKeepsInvariant | runtime/rvv_runtime.c:155-173 | every atomic step of every call keeps the cache invariant, and never changes a decided cache |
| RvvRuntime.CacheChangesAtMostOnce | runtime/rvv_runtime.c:165-172 | in every interleaving the cache is written at most once |
| RvvRuntime.LookupsAgree | runtime/rvv_runtime.c:155-173 | all completed lookups of a run return the decision of one winning probe, even when racing probes disagree |
| RvvRuntime.AvailableExactly | runtime/rvv_runtime.c:175-191 | a call answers one exactly when the winning probe found consistent support and its own control query read ON |
| RvvRuntime.AvailableByReplies | runtime/rvv_runtime.c:118-191 | the answer as a condition on reply bits: bit 21 of the capability word, error 38 or key 4 with bit 2 of its value, and a control word whose lowest two bits hold 2 |
| RvvRuntime.WaitFree | runtime/rvv_runtime.c:155-191 | every own step brings a call closer to its end, no other call sets it back, and it can always step |
| PerfBaseline.VerdictExactly | scripts/compare_perf_baseline.py:118-157 | improvement and regression verdicts as bounds on the two times and the evidence |
| PerfBaseline.EvidenceExactly | scripts/compare_perf_baseline.py:118-157 | when each of the five verdicts arises, from hashes, counts, samples and times alone |
| PerfBaseline.RowExactly | scripts/compare_perf_baseline.py:418-451 | the numbers of a row: times, observed difference, percentage times baseline as a hundred times the saving, effective time |
| PerfBaseline.RowsInOrder | scripts/compare_perf_baseline.py:412-416 | every common case with two times has exactly one row, in case order |
| PerfBaseline.ImportantExactly | scripts/compare_perf_baseline.py:447-451 | an important regression is exactly a judgeable slowdown of at least 20% and 50ms; the evidence floor is implied |
| PerfBaseline.Compare | scripts/compare_perf_baseline.py:400-503 | the aggregation loop yields the counts, totals, status, rows and sorted regressions of the specification |
| PerfBaseline.SortOrdered | scripts/compare_perf_baseline.py:502-503 | the important rows are listed worst first, and none is lost or added |
| PerfBaseline.ListedWorstFirst | scripts/compare_perf_baseline.py:502-503 | an earlier entry has a lower percentage, or the same and at least the same loss |
| PerfBaseline.SortIsStable | scripts/compare_perf_baseline.py:502-503 | entries with equal keys stay in case order, which determines the list |
| PerfBaseline.Conservation | scripts/compare_perf_baseline.py:424-483 | wins, losses and ties add up to the rows, and the total delta is the sum of observed deltas of measurable rows only |
| PerfBaseline.OverallRegressionExactly | scripts/compare_perf_baseline.py:477-498 | overall REGRESSION exactly at 10% above a positive baseline total, and then some case is a REGRESSION |
| PerfBaseline.OverallExactly | scripts/compare_perf_baseline.py:477-498 | when each of the seven overall statuses arises, from the kinds of rows and the two totals |
| PerfBaseline.EffectiveIsMonotone | scripts/compare_perf_baseline.py:440-451 | with the evidence fixed the effective time and the importance never decrease with the measured time |
| PerfBaseline.TotalsAreMonotone | scripts/compare_perf_baseline.py:473-475 | raising current times never lowers the current total, the baseline total or the number of important regressions |
| PerfGate.RegressionReasons | scripts/check_perf_regression.py:29-61 | the reasons, in order, for every payload; none exactly for a non-blocking status and an empty list |
| PerfGate.StatusTextsAreRead | scripts/check_perf_regression.py:11-39 | status texts are distinct, and the ones that do not block are exactly those of the six statuses other than REGRESSION |
| PerfGate.Gate | scripts/check_perf_regression.py:29-61 | on written payloads: the overall reason exactly for REGRESSION, then every important regression, worst first, and nothing else |
| PerfGate.GateExactly | scripts/check_perf_regression.py:29-61 | the gate fails exactly when the judged total is 10% up or some judgeable case is 20% and 50ms slower |
| PerfGate.GateIsMonotone | scripts/check_perf_regression.py:29-61 | raising current times with all other evidence fixed never turns a failing gate into a passing one |
| CostModel.TallyCounts | scripts/compare_perf.py:555-566 | a key's entry is the number of decisions with that key, and only such keys have entries |
| CostModel.Collect | scripts/compare_perf.py:506-620 | the loop over one file's decisions computes every counter and table |
| CostModel.CollectIsHomomorphic | scripts/compare_perf.py:506-620 | collecting a concatenation is adding the two summaries, key by key |
| CostModel.OneDecision | scripts/compare_perf.py:555-608 | what one decision contributes to every sum and table, for each action text, with the tables' key texts spelled out |
| CostModel.Aggregate | scripts/compare_perf.py:1097-1181 | the loop over files adds OK summaries table by table and only notes the status of the others |
| CostModel.AggregateIsOnePass | scripts/compare_perf.py:1097-1181 | aggregating per-file summaries equals one pass over the decisions of all OK files |
| CostModel.StatusExactly | scripts/compare_perf.py:1172-1174 | the aggregate is OK exactly when there are files and all are OK; otherwise it names exactly the others' statuses |
| CostModel.ReasonsSumToRejected | scripts/compare_perf.py:590-604 | both reject-reason tables always sum to the rejected count |
| CostModel.TransformsSumToTotal | scripts/compare_perf.py:555-613 | the transform table sums to at least the total, and to the total exactly when all actions are known |
| ReportMerge.HistoryKeepsEverything | scripts/merge_report_history.py:24-41 | the local history stays a prefix, no run is lost, and what follows are exactly the remote rows with a new `run_id`, in remote order and as often as they occur |
| ReportMerge.HistoryIsIdempotent | scripts/merge_report_history.py:34-35 | merging again changes nothing exactly when the rows taken over carry `run_id`, and raises otherwise |
| ReportMerge.HistoryIsAssociative | scripts/merge_report_history.py:24-41 | merging three lists in either grouping gives the same list |
| ReportMerge.HistoryKeepsRemoteDuplicates | scripts/merge_report_history.py:35 | duplicates inside the remote list are kept |
| ReportMerge.HistoryOfTwo | scripts/merge_report_history.py:34-40 | beside one local run a remote run is taken over exactly when the identifiers differ, a missing one reading as null; a local run without one raises |
| ReportMerge.MergeIndexRows | scripts/merge_report_history.py:53-70 | the loop with its growing key set computes the specified merge |
| ReportMerge.IndexAddsEachNewKeyOnce | scripts/merge_report_history.py:53-70 | the local index stays a prefix and each new non-empty key is added once |
| ReportMerge.IndexOfTwo | scripts/merge_report_history.py:53-67 | beside one local report: a non-empty identifier decides, the URL counts only without one, a report with neither is dropped |
| ReportMerge.IndexIsIdempotent | scripts/merge_report_history.py:44-71 | merging the same remote again never changes the index |
| ReportMerge.IndexIsAssociative | scripts/merge_report_history.py:44-71 | merging three indices in either grouping gives the same list |

## Left out

- VersionedLoop.VersionedKernel: the byte memory is the whole address space and holds at least `INT32_MAX` bytes, the size the check needs; accesses are 32-bit words at constant strides, and bodies with branches or carried registers are the subject of the other loop modules.
- AliasRuntime.TrueAnswerIsSound: `__yoolang_ranges_disjoint` is a cast of its two pointers to `uintptr_t` and has no member of its own.
- VectorLength.SetVL: section 6.3's rule that equal requests get equal answers is not assumed, which makes every loop theorem stronger.
- Interpreter.Run: floating-point values and casts; integers are unbounded, so 64-bit overflow, which the C++ interpreter leaves undefined, is not modelled.
- ScalarizerTheorem.ScalarizationPreservesRuns: runs that use a dynamic lane index outside the vector are undefined and promise nothing; inactive lanes take the passthrough operand, as the scalarizer chooses, rather than arbitrary agnostic contents.
- Acceptance.TypedIsAccepted: operands of vector operations must come earlier in layout order; a function that uses an extracted or reduced scalar before that point is rejected by the model and outside this lemma, although the pass accepts it.
- The scalarizer edits blocks in place through use lists; the model builds the new blocks as values and does not capture instruction identity or name uniqueness strings.
- Vector arguments, calls, returns, object loads and stores at the fixed calling boundary, vector values in globals, undefined shuffle lanes, `undef` operands and bit casts.
- Transaction, verifier and textual round trip around the scalarizer, and its counters and diagnostics codes.
- Loop-level minimum and maximum reductions, ordered floating-point reductions, and multi-level unrolling other than by four; lane minimum and maximum are in the scalarizer part.
- Signed overflow in the reduction models is wrapping 32-bit arithmetic, as the emitted code has it.
- Legality analysis, cost decisions, alias-group choice and remark text of the vectorizer.
- Memory orders of the probe cache: the cache is the only shared datum, so atomic steps are sequentially consistent; replies of `getauxval`, `hwprobe` and `prctl` are arbitrary inputs; the non-Linux stub that answers zero.
- PerfBaseline.Compare: rows, hashes, counts and times are taken as decoded; the case order is any order without repetition; geometric mean, speedup columns, text output and the instruction-count report are left out.
- PerfGate.RegressionReasons: the status is taken as stripped text and reasons as data, not as formatted lines.
- CostModel.Collect: fields are taken with their defaults filled in; a non-integer gain, which raises in the script, is not modelled, nor are the codegen and stage metrics.
- ReportMerge.MergeIndexRows: file reading and writing, and JSON values of `id` that are equal as text only after conversion; an absent local history, on which the script does nothing, is not an empty list here.
- Bit packing of constant masks and other fixture builders in the test scripts; constants enter the model as lists of lanes.
- Other compiler passes, register allocation, assembly emission, `sylib.c`, subprocess, JSON and HTML code.
