# Verified models of a memory and heterogeneous-compute benchmark suite

The suite measures memory latency, bandwidth and atomics on CPUs and GPUs. Behind the timing loops
stand four pieces of logic that everything measured depends on. This project models them in Dafny
and proves what they are for.

**The pointer chase** (`multichase/permutation.c`, `multichase/multichase.c`, `multichase/br_asm.c`).
Threads shuffle the elements of an arena, TLB group by TLB group, and thread them into cyclic linked
lists, several per arena, kept apart by a table of permutations (the mixer). A long variant splices
one permutation after the other into one cycle. The finished list can be rewritten in place: into
two-word objects (critword, critword2), or into x86-64 machine code that jumps from node to node and
returns after every chunk.
The arena is modelled byte by byte (`Memory`), the mixer as the table of numbers it is (`Layout`), a
list as the sequence of its cells (`Chase.IsRing`), machine code by a small machine that decodes and
runs it (`BranchCode`). The methods that build and rewrite a chase are at the same time proved to be
runs of a program of single loads and stores (`Builder`) that touches only objects of its thread; from
this follows that the threads may build at the same time, access by access (`Interleaving`,
`Building`), and that all chases are finished when the startup barrier lets the first thread chase or
main sample (`Launch`). Encodings are those of the Intel 64 and IA-32 Architectures Software
Developer's Manual, volume 2: chapter 4 for MOV (REX.W B8+rd io) and RET (C3), chapter 3 for JMP (FF /4).

**The controlled experiment** (`experiments/triad_partition_controlled/`). The planner lays out the
phases of a campaign; the analyzer counts kernels in a measurement window although it knows the
clock offset of each worker only up to an interval, computes for how long all workers were active,
pairs isolated and concurrent phases, and decides which configurations are complete. The proofs say
that the reported figures hold for every offset that the clock markers allow, and that planner and
analyzer agree.

**Protocols between threads.** The startup barrier of `multichase/multichase.c`, the ping-pong of
`multichase/pingpong.c`, the sample handshake of `multichase/multiload.c`, and the split atomic
histogram of `atomics/histo.hip` are step systems: a state, one function for the next atomic action
of a thread, and a run under an arbitrary schedule. The results hold in every state of every run.

**Where the code does not do what one might expect.** The models follow the code; these are proved
as lemmas that name an input or an exact condition.

- Asking the branch compiler for one node per chunk can make it divide by zero; exactly for rings
  whose length lies between a power of two divided by the square root of two and that power
  (`ChunkSize.OneNodeChunksFailExactly`). All other positive requests convert every ring with room in
  its nodes (`BranchCompiler.ConvertPointersToBranches`). The only caller asks for 200.
- critword and critword2 do not check their offset. Below 8 the two words of an object overlap, and it
  depends on the addresses whether the chase survives. critword leaves the cycle through both words if
  and only if the offset is positive and, for every step from p to q, the bytes of q that the pointer
  p + offset covers are the same anyway (`Critword.CritwordSplit`, `Critword.KeepsWord`); at offset 0
  no memory holds such a cycle (`Critword.ZeroOffsetNeverSplits`), offset 4 fails for a step from 0x100 to
  0x200, and offset 7 works for steps to multiples of 256 and no others (`Critword.OffsetsBelowEight`).
  critword2 always leaves the second cycle, and the first one if and only if the second words agree with
  the parts of the pointers they cover (`Critword.Critword2`, `Critword.KeepsPointer`).
- The startup barrier of multichase tests its count with `if`, not `while`. It holds throughout a run
  if and only if no woken thread takes the mutex back before all workers have arrived, whenever it was
  woken (`Startup.BarrierHoldsExactly`); without wakeups of their own that is always so
  (`Startup.TimelyIsHarmless`). One early return lets a worker branch into an arena that is still
  being written (`Startup.SpuriousWakeupBreaksBarrier`), or lets main sample before anything is built
  (`Startup.MainCanSampleEarly`). It cannot make the arena executable too soon (`Startup.WritersAreSafe`). The barrier of the ping-pong has the same weakness
  (`PingPong.SetupHoldsExactly`, `PingPong.OddCanBeTooEarly`); its alternation does not depend on it.
- multiload's main waits for ever if a measured rate truncates to zero MiB/s; sampling can end exactly
  if no rate does (`Handshake.FinishesIffAllDeliver`).
- The histogram validates exactly if the rounded total fits the data type of the table
  (`Histogram.ValidatesIffTotalFits`); with 32-bit cells, 2^32 increments fail although none is lost
  (`Histogram.LargeTotalFails`). Without threads a requested total always fails
  (`Histogram.NoThreadsNoTotal`).
- The ping-pong reports the true number of handovers, up to the 20002 not published yet, if and only if
  the even thread never publishes more than 214748 times between two samples
  (`PingPong.ReportIsCloseExactly`); otherwise the 32-bit counter wraps, and there are runs in which it
  does (`PingPong.CounterCanWrap`).

## Files

| file | content |
|---|---|
| `Wrappers.dfy`, `Numbers.dfy` | options and results; division, powers of two, cyclic indices, sums |
| `Permutations.dfy` | the inside-out shuffle and the permutation test |
| `Memory.dfy`, `Layout.dfy` | the arena; sizes, the mixer table, the address of a cell |
| `Chase.dfy`, `LongChase.dfy` | the plain and the long chase |
| `Overlap.dfy`, `Critword.dfy` | pointer stores that overlap; the critical-word rewrites of a finished chase |
| `ChunkSize.dfy`, `Encoding.dfy`, `BranchCode.dfy`, `BranchCompiler.dfy` | the rewrite into machine code, and the machine |
| `Accesses.dfy`, `Builder.dfy`, `Interleaving.dfy` | programs of single accesses; the building thread as one; many of them on one memory |
| `ThreadStart.dfy`, `Building.dfy` | one thread; all threads in one arena, in turn and at the same time |
| `Intervals.dfy`, `Clocks.dfy`, `Phases.dfy` | intervals, counting under clock uncertainty, one phase |
| `Schedule.dfy`, `Pairing.dfy`, `Campaign.dfy` | the plan, the pairing, the verdict |
| `Startup.dfy`, `PingPong.dfy`, `Handshake.dfy`, `Histogram.dfy` | the protocols |
| `Launch.dfy` | building and the startup barrier together |

## Model

| member | source | states |
|---|---|---|
| Permutations.Draw | multichase/permutation.h:116 | a draw with limit l lies between 0 and l, both included |
| Permutations.ChoicesAt | multichase/permutation.c:45-49 | choice i of a shuffle is the next word modulo i+1 |
| Permutations.ChoicesOfWords | multichase/permutation.c:45-49 | every vector of choices t_i <= i is drawn from some words |
| Permutations.ShuffledIsPermutation | multichase/permutation.c:42-50 | whatever is drawn, the shuffle makes a permutation of base, ..., base+nr-1 |
| Permutations.ChoicesRebuild | multichase/permutation.c:42-50 | every permutation is made by the shuffle from some vector of choices t_i <= i, constructed by undoing the rounds |
| Permutations.ShuffledInjective | multichase/permutation.c:42-50 | two vectors of choices that make the same permutation are equal |
| Permutations.ShuffleIsBijection | multichase/permutation.c:42-50 | every permutation of base, ..., base+nr-1 comes from exactly one vector of choices, so uniform choices give uniform permutations |
| Permutations.ShuffleOfExample | multichase/permutation.c:42-50 | the choices 0, 1, 0, 3 make the permutation 2, 1, 0, 3 |
| Permutations.GenRandomPermutation | multichase/permutation.c:42-50 | the loop writes that permutation into the given part of the array, uses one draw per element, and leaves the rest of the array as it was |
| Permutations.GenOrderedPermutation | multichase/permutation.c:52-58 | writes base, base+1, ... in order and nothing else |
| Permutations.GenPermutation | multichase/permutation.h:54-57 | through the function pointer, either generator leaves its permutation in place: the shuffle of the next nr words, or counting up, which takes no words |
| Permutations.MarkValues | multichase/permutation.c:68-76 | the marking loop fails exactly if a value occurs twice; otherwise the bit vector holds exactly the values that occur |
| Permutations.GapInByte | multichase/permutation.c:77-82 | a byte that is not full refutes the permutation |
| Permutations.GapInLastByte | multichase/permutation.c:83-88 | so does a last partial byte that is not exactly the mask of the remaining values |
| Permutations.NoGap | multichase/permutation.c:77-90 | if no test fails, the values are a permutation |
| Permutations.IsAPermutation | multichase/permutation.c:60-91 | for values inside the bit vector, the answer is 1 if and only if the array is a permutation of 0, ..., nr_elts-1, partial last byte included |
| Memory.BytesRoundTrip | multichase/br_asm.c:88-94 | the eight little-endian bytes of a pointer give back the pointer |
| Layout.SizesRound | multichase/multichase.c:805-824 | after rounding, stride divides tlb_locality, which divides total_memory, and neither is rounded by more than it has to be |
| Layout.ChaseArgs.RoundSizes | multichase/multichase.c:800-834 | main accepts the sizes exactly if the stride holds a pointer and has a slot for every chase; the rounded sizes as numbers; they nest, and a slot holds an object |
| Layout.MixerCount | multichase/permutation.c:98-103 | the number of mixers is a power of two, at least 64 and at least what is wanted, and if above 64 less than twice of that |
| Layout.FillColumn | multichase/permutation.c:126-128 | one permutation is stored as one column of the transposed table, the columns before it stay |
| Layout.ChaseArgs.GenerateMixer | multichase/permutation.c:93-133 | every column of the mixer table is a permutation of the slots: column c is the c-th one made from the words |
| Layout.MixerEntry | multichase/permutation.c:123-129 | entry c of row j of the table is entry j of the c-th permutation that was made |
| Layout.CellIs | multichase/permutation.c:177 | the cell of element x in a row is at x*stride + mixer[row*nr_mixers + x mod nr_mixers] * (stride/nr_mixer_indices) |
| Layout.EveryEntryOnce | multichase/permutation.h:41-57 | any nr_mixers consecutive elements take their slots from all entries of the row, each from another |
| Layout.SlotHoldsObject | multichase/multichase.c:826-827 | with stride / object_size slots, a slot is at least as large as an object |
| Layout.CellInElement | multichase/permutation.c:177 | a cell and the slot behind it lie inside their own element of the arena |
| Layout.CellsApart | multichase/permutation.c:177 | slots of different (row, element) pairs never overlap |
| Chase.RingIsOneCycle | multichase/multichase.c:104-113 | a ring is one cycle: from the head every cell is visited once, and the chase is back exactly after every multiple of its length |
| Chase.FillBlock | multichase/permutation.c:158-164 | the permuted groups are filled one by one with permutations of their own elements; the groups are made of the first nr_tlb_groups words and part b of the words nr_tlb_groups + b*nr_elts_per_tlb on |
| Chase.NestedIsPermutation | multichase/permutation.c:161-167 | permuted blocks of permuted groups are a permutation of all elements |
| Chase.GeneratePermutation | multichase/permutation.c:146-167 | the permutation of all elements, nested by TLB group, made of exactly these words |
| Chase.RandomBlock | multichase/permutation.c:156-164 | for the random generator: the order of the groups and the elements of each group are the shuffles of their words |
| Chase.EveryBlockIsDrawn | multichase/permutation.c:156-164 | every permutation of the groups with every permutation inside each group is made of some words |
| Chase.EveryOrderIsDrawn | multichase/permutation.c:156-187 | so every such order, read from any element on, is the order of some random chase |
| Chase.Invert | multichase/permutation.c:169-175 | the inverse undoes the permutation on both sides |
| Chase.Thread | multichase/permutation.c:181-187 | every cell holds the address of the cell of its successor, and no byte outside the cells of this row changes |
| Chase.NestedGroupsTogether | multichase/permutation.c:161-187 | read cyclically from any position, all elements of a TLB group are visited consecutively |
| Chase.ThreadedRing | multichase/permutation.c:177-187 | cells linked in an order that is a permutation form one ring, one slot apart |
| Chase.GenerateChase | multichase/permutation.c:136-193 | for any words, all total_memory/stride cells of the row form one cycle, in the order of the permutation made of these words, read from element 0; groups together; the head is the cell of element 0; nothing else in the arena changes |
| LongChase.RowsOf | multichase/permutation.c:206-207 | with mixer_idx below total_par, the rows of a long chase exist |
| LongChase.BlocksReadyIsPermutation | multichase/permutation.c:232-255 | the separately generated blocks make one permutation that maps every block to itself |
| LongChase.VisitOnce | multichase/permutation.c:288-290 | inside a block, the value 0 comes up again only after the whole block |
| LongChase.LongSuccessor | multichase/permutation.c:283-300 | the threading rule leads from each value of a block to the next one, and from the last one to the first of the next block |
| LongChase.LongOrderIsPermutation | multichase/permutation.c:277-301 | the long order visits every value of every block once, block by block |
| LongChase.LongGroupsTogether | multichase/permutation.c:242-247 | inside every block the elements of a TLB group are visited consecutively |
| LongChase.LongCellIs | multichase/permutation.c:272 | the cell of value v: element v mod nr_elts, at the slot of row mixer_idx*nr_iteration + v/nr_elts |
| LongChase.LongCellsApart | multichase/permutation.c:272 | cells of different values, hence also of different blocks, are different slots |
| LongChase.ThreadLong | multichase/permutation.c:279-301 | the threading loop reaches its end exactly if all its cells were NULL; then every cell points to its successor; only cells of its rows change |
| LongChase.GenerateChaseLong | multichase/permutation.c:198-307 | one cycle of nr_iteration*nr_elts cells, block by block back to the start, each block one permutation with its groups together, made of the next words in turn; the NULL assertion fails exactly if a cell was not NULL before, and there the program of the thread ends too |
| Overlap.OverwrittenFront | multichase/multichase.c:498-499 | a pointer stored at p+offset, and then another one at p: the cell at p+offset holds the high bytes of the second followed by those of the first |
| Overlap.OverwrittenBack | multichase/multichase.c:486 | a pointer in the cell at p, and then another one stored at p+offset: the cell at p holds the low bytes of both |
| Critword.Critword2 | multichase/multichase.c:480-489 | wherever no word overlaps a word of another object, at every offset: the words at the offset form a cycle of their own; the chase itself is intact if and only if each second word agrees with the part of the pointer it covers, so always from offset 8 on; only these words change |
| Critword.CopyShadows | multichase/multichase.c:480-489 | the second chase is at every moment where the first is, offset bytes higher |
| Critword.CritwordSplit | multichase/multichase.c:492-502 | under the same condition the n-cycle becomes one 2n-cycle p, p+offset, q, q+offset, ... if and only if the offset is positive and each pointer to a second word agrees with the part of that word it covers, so always from offset 8 on; rewritten during the walk; only these words change |
| Critword.ZeroOffsetNeverSplits | multichase/multichase.c:492-502 | at offset 0 no memory holds the 2n-cycle of any chase |
| Critword.OffsetsBelowEight | multichase/multichase.c:492-502 | offset 7 keeps a step of the chase exactly if it leads to a multiple of 256; offset 4 breaks a step from 0x100 to 0x200, and what critword2 leaves of a pointer to 0x100 |
| Critword.ObjectsHaveRoom | multichase/multichase.c:404-420 | inside objects that do not overlap, every offset up to 8 bytes before the end keeps the words of different objects apart |
| Critword.SplitKeepsOrder | multichase/multichase.c:492-502 | after 2k loads the new chase is where the old one was after k, and the load between reads the second word of the same object |
| BranchCompiler.CycleLen | multichase/br_asm.c:8-16 | the walk counts the cells of the ring |
| BranchCompiler.EmitMovImm64Rax | multichase/br_asm.c:88-94 | ten bytes: the opcode of a 64-bit move to RAX and the pointer, and nothing else is written |
| BranchCompiler.EmitJmpToRax | multichase/br_asm.c:96-100 | two bytes: jump to RAX |
| BranchCompiler.EmitRet | multichase/br_asm.c:102-105 | one byte: return |
| ChunkSize.RoundedLog2IsNearest | multichase/br_asm.c:111-113 | the exponent k is the nearest: 2^(2k-1)*c^2 <= R^2 <= 2^(2k+1)*c^2 |
| ChunkSize.NearestUnique | multichase/br_asm.c:111-113 | there is only one such exponent |
| ChunkSize.ChunkSizeIsGood | multichase/br_asm.c:111-115 | for a requested size of at least 2 the chunk size is positive and the left-over nodes are fewer than the chunks |
| ChunkSize.ChunkSizeNearRequest | multichase/br_asm.c:111-113 | the chunk size is within a factor of the square root of two of the request, up to rounding down |
| ChunkSize.BaseChunkSizeIs | multichase/br_asm.c:111-113 | a ring no longer than the request is one chunk; a longer one is divided by the power of two nearest to the quotient |
| ChunkSize.OneNodeChunksFailExactly | multichase/br_asm.c:111-115 | a request of 1 gives chunk size 0 if and only if the length r has a power of two p with r < p and p^2 < 2*r^2 |
| BranchCompiler.CompileNode | multichase/br_asm.c:119-137 | a node is compiled exactly if bytes 8 to 11 are zero; then its code for the old pointer is written over it and nothing else; otherwise nothing changes |
| BranchCompiler.CodeStored | multichase/br_asm.c:128-136 | the bytes written are the instructions: load the old pointer, then return or jump |
| BranchCompiler.TakeChunk | multichase/br_asm.c:120 | dividing the remaining nodes by the remaining chunks never divides by zero, gives s or s+1, and leaves a rest that can be shared out again |
| BranchCompiler.ConvertPointersToBranches | multichase/br_asm.c:109-140 | for every request that does not divide by zero: succeeds exactly if every node has room; returns that chunk size s; emits exactly floor(R/s) returns, cuts the ring into chunks of s or s+1 nodes with a return at the last node, a single one if the ring is no longer than the request; compiles every node although the pointers are overwritten during the walk; the same as a program of single accesses to the nodes, which aborts where the compiler does |
| BranchCode.RunNode | multichase/br_asm.c:88-105 | what executing the code of a node does |
| BranchCode.RunToCut | multichase/br_asm.c:128-136 | entering a chunk anywhere executes it to its end and returns the node after it |
| BranchCode.VisitsBracketed | multichase/multichase.c:195-202 | q calls visit between q*s and q*s+q nodes, so counting s per call undercounts by at most one each |
| BranchCode.CallsWalkTheRing | multichase/multichase.c:195-202 | q calls walk round the ring in order, and the returned pointer is the next chunk |
| BranchCode.BranchesFollowPointers | multichase/br_asm.c:107-140 | meaning preserved: the compiled code visits, for any number of calls, the nodes the pointer chase visited, in the same order |
| BranchCode.OneChunkIsOneTurn | multichase/br_asm.c:128-136 | in a ring of one chunk every node but the last jumps, and one call visits the whole ring and returns the head |
| ThreadStart.GenerateOne | multichase/multichase.c:465-477 | with its mixer index a thread gets a complete cycle in its own rows, on any arena; a long chase on zeroed objects never aborts |
| ThreadStart.RewriteOne | multichase/multichase.c:479-513 | the rewrite by the name of the chase, on any arena and at any offset inside the object, keeps to the objects of the chase; branch conversion of zeroed objects finds its room |
| ThreadStart.BuiltKept | multichase/multichase.c:465-513 | what one chase has built survives any change outside its objects |
| ThreadStart.FinishedKept | multichase/multichase.c:465-513 | building in some rows leaves finished chases of other rows alone |
| ThreadStart.StartThread | multichase/multichase.c:465-513 | one thread adds its chases, rewritten, each made of its share of the words of the thread; all earlier ones stay finished; what the thread does is a run of the building program that touches only its own addresses |
| Building.StartAllThreads | multichase/multichase.c:887-903 | one after the other, the threads finish every chase, whatever is drawn, each thread from words of its own; the arena has to be zeroed only for long chases and branches |
| ThreadStart.BranchChaseRuns | multichase/multichase.c:195-206 | any number of calls of a finished branch chase walks its cells in order; a call visits the recorded chunk size or one more; in a chase of at most 200 cells every call goes round once and returns the head |
| Building.PlainChasesApart | multichase/multichase.c:467-477 | objects of different (thread, parallel index, element) triples are disjoint and inside the arena |
| Building.LongChasesApart | multichase/multichase.c:467-477 | the same for long chases, block by block |
| Building.OwnedDisjoint | multichase/multichase.c:465-477 | the byte sets of the chases of different threads are disjoint |
| Builder.DidNode | multichase/br_asm.c:119-137 | converting a node is a load, four byte tests and the stores of its code, one byte at a time |
| Builder.DidLink | multichase/permutation.c:282-299 | linking a cell is a store, after a test that it is NULL in a long chase |
| Builder.LinkAborts | multichase/permutation.c:282 | a cell that is not NULL ends the program of the thread before it is written |
| Builder.NodeAborts | multichase/br_asm.c:126-131 | a byte behind the pointer that is not zero ends the program of the thread before the node is written |
| Interleaving.EachAsIfAlone | multichase/multichase.c:889-903 | threads whose accesses, run alone, keep to their own addresses: in every interleaving each is where it would be alone, and so are its addresses |
| Interleaving.EveryInterleavingIsSequential | multichase/multichase.c:889-903 | an interleaving of such threads that has come to its end has left exactly the memory that running them in turn leaves |
| Building.ConcurrentBuild | multichase/multichase.c:889-903 | the threads of multichase are such programs: in every interleaving of their single loads and stores that has come to its end, all chases of all threads are finished; and enough turns for each thread bring every schedule to its end |
| Building.SetUp | multichase/multichase.c:800-876 | main up to the threads: refuses exactly the strides that are too small; otherwise the sizes, the slots and the mixer are those of its arguments, and the arena is zero |
| Building.BuildAll | multichase/multichase.c:800-903 | from the arguments on: main refuses exactly the strides that are too small; otherwise, on the mapped arena, all chases are finished in every interleaving, with the sizes and the mixer of the arguments, and with as many rows for each chase as its kind asks for |
| Intervals.NormalIsCanonical | experiments/triad_partition_controlled/analyze.py:13-23 | two lists in normal form that cover the same instants are equal |
| Intervals.Merge | experiments/triad_partition_controlled/analyze.py:13-23 | the normal form (sorted, non-empty, gaps between) of exactly the same instants |
| Intervals.Intersect | experiments/triad_partition_controlled/analyze.py:26-39 | of two normal forms: exactly the common instants, in normal form |
| Intervals.NormalLength | experiments/triad_partition_controlled/analyze.py:42-44 | in normal form the lengths add up to the number of covered instants |
| Intervals.Duration | experiments/triad_partition_controlled/analyze.py:42-44 | the number of covered instants, each counted once |
| Clocks.CalibrationBounds | experiments/triad_partition_controlled/analyze.py:46-60 | succeeds exactly with two ordered brackets that have one marker each, and consistent offsets that differ by at most 100 us; then [lo, hi] is exactly the set of consistent offsets; the reported error is what is wrong |
| Clocks.MarkerDecides | experiments/triad_partition_controlled/analyze.py:51-57 | the only marker with the name of a calibration decides which offsets explain it: those that bring its timestamp between the two readings |
| Clocks.OffsetsOfExample | experiments/triad_partition_controlled/analyze.py:46-60 | for two markers at 400 and 1400, seen between 1000 and 1100 and between 2000 and 2100, the offsets are 600 to 700 |
| Clocks.AlwaysInsideExactly | experiments/triad_partition_controlled/analyze.py:73-74 | the test for a complete kernel means: inside the window for every offset |
| Clocks.MayTouchExactly | experiments/triad_partition_controlled/analyze.py:73-76 | complete or boundary means: touching the window for some offset |
| Clocks.SurelyActiveExactly | experiments/triad_partition_controlled/analyze.py:77-81 | the busy interval is exactly the instants of the window at which the kernel is active for every offset |
| Clocks.TraceCounts | experiments/triad_partition_controlled/analyze.py:62-83 | succeeds exactly if its checks hold; complete, boundary and busy mean what the three lines above say; the reported error is what is wrong |
| Clocks.CountsBracketTruth | experiments/triad_partition_controlled/analyze.py:62-83 | for every consistent offset, complete <= kernels truly inside the window <= complete + boundary |
| Clocks.BatchExactly | experiments/triad_partition_controlled/analyze.py:92-96 | the tests for a complete and for a boundary batch mean: its launches ran inside the window, wherever between the readings they ran; or some may have run in it |
| Clocks.HostCounts | experiments/triad_partition_controlled/analyze.py:85-98 | accepts exactly consecutive batches of eight of which one is complete, and counts complete and boundary launches |
| Clocks.HostCountsBracketTruth | experiments/triad_partition_controlled/analyze.py:85-98 | wherever the launches of a batch fell between its two readings, the same bracket holds |
| Clocks.HostBoundaryAtMostTwoBatches | experiments/triad_partition_controlled/analyze.py:85-98 | the host boundary never exceeds 16 launches |
| Phases.ReduceTraced | experiments/triad_partition_controlled/analyze.py:148-163 | a traced worker is accepted exactly if its calibration and its trace pass the checks; its row bounds the truth for each consistent offset; its busy intervals are exactly where one kernel is active for all of them |
| Phases.ReduceWorker | experiments/triad_partition_controlled/analyze.py:136-163 | a worker is accepted exactly if its result is there, is the one planned, and its timing passes; its row holds |
| Phases.CheckPhase | experiments/triad_partition_controlled/analyze.py:126-135 | the checks of the phase as a whole, stated over its processes and devices; the reported error is what is wrong |
| Phases.OverlapIsSound | experiments/triad_partition_controlled/analyze.py:152-164 | for every choice of consistent offsets, all workers are truly active for at least the time for which all are certainly busy |
| Phases.ReducePhase | experiments/triad_partition_controlled/analyze.py:122-167 | a phase is accepted if and only if all its checks hold and, if traced, its workers are certainly busy together for nine tenths of the two-second window; the reported overlap is that time, and a lower bound of the true one for every choice of offsets |
| Phases.AcceptPhase | experiments/triad_partition_controlled/analyze.py:157-167 | an accepted phase has one row per device, in order; its rate times 2*10^9 is 805306368 bytes for each kernel certainly inside the window, or for each launch of the complete batches where nothing was traced |
| Phases.RateIsCertain | experiments/triad_partition_controlled/analyze.py:148-162 | for every consistent offset, the rate is at most the bytes of the kernels truly inside the window, over its two seconds |
| Phases.HostRateIsCertain | experiments/triad_partition_controlled/analyze.py:155-162 | neither does the rate of an untraced phase exceed the truth, wherever the launches of a batch fell |
| Phases.AggregateBracketsTruth | experiments/triad_partition_controlled/analyze.py:157-167 | the sums over the devices: useful bytes <= true bytes <= useful plus boundary bytes |
| Schedule.CampaignConfigsAreGood | experiments/triad_partition_controlled/run_campaign.py:17 | the seven configurations are distinct, and their names contain no slash |
| Schedule.MakeSchedule | experiments/triad_partition_controlled/run_campaign.py:25-47 | the nested loops produce the plan, entry by entry: repeat, configuration, condition, devices and path of every position; odd repeats end with the concurrent phase and even ones begin with it; configurations and devices rotate |
| Schedule.EachPlaceOnce | experiments/triad_partition_controlled/run_campaign.py:34-36 | each configuration is at each place of the order in exactly one of the seven repeats |
| Schedule.PlanSize | experiments/triad_partition_controlled/run_campaign.py:31-47 | 49*(n+1) phases for n devices |
| Schedule.PathInjective | experiments/triad_partition_controlled/run_campaign.py:44-45 | a path determines configuration, repeat and phase name |
| Schedule.PathsDistinct | experiments/triad_partition_controlled/run_campaign.py:43-46 | no two phases of the plan share a path |
| Pairing.PairPhases | experiments/triad_partition_controlled/analyze.py:180-203 | succeeds exactly on groups with one concurrent phase and one matching isolated phase per device, all rates positive; each row sets a device's concurrent rate against its own isolated rate; the spread is the range of the concurrent rates in units of their mean, the variation their mean squared distance from the mean in units of its square; the reported error is what is missing |
| Pairing.SpreadMeans | experiments/triad_partition_controlled/analyze.py:201-203 | the spread is never negative, and zero exactly if all devices are equally fast |
| Pairing.VariationMeans | experiments/triad_partition_controlled/analyze.py:201-203 | the variation is never negative, at most the square of the spread, and zero exactly if the spread is |
| Pairing.SpreadOfTwo | experiments/triad_partition_controlled/analyze.py:201-203 | for two rates the spread is twice their difference over their sum |
| Pairing.VariationOfTwo | experiments/triad_partition_controlled/analyze.py:201-203 | and the variation the square of their difference over their sum |
| Pairing.DeviationsAre | experiments/triad_partition_controlled/analyze.py:201-203 | the sum of the squared distances is the sum of the squares less the mean times the total |
| Pairing.ConditionExactly | experiments/triad_partition_controlled/analyze.py:182-183 | the phases of a condition, each as often as it occurs |
| Campaign.CollectPhases | experiments/triad_partition_controlled/analyze.py:216-228 | exactly the phases that agree with their predeclared entry and with the campaign, in order |
| Campaign.ReduceAll | experiments/triad_partition_controlled/analyze.py:216-228 | the results are exactly those of the acceptable phases, as planned and with their rates |
| Campaign.GroupPhases | experiments/triad_partition_controlled/analyze.py:231-234 | one group per key that occurs, holding its phases in order |
| Campaign.PairGroups | experiments/triad_partition_controlled/analyze.py:236-245 | exactly the keys whose group can be paired, each once, with the table of its pairs |
| Campaign.Summarize | experiments/triad_partition_controlled/analyze.py:247-249 | complete means: exactly the repeats 1 to 6 have been paired |
| Campaign.Analyze | experiments/triad_partition_controlled/analyze.py:205-289 | the pairs and the verdict on every configuration and on the campaign, for any entries and results |
| Campaign.GroupIsBlock | experiments/triad_partition_controlled/analyze.py:231-234 | grouping the accepted phases of a plan gives back its blocks |
| Campaign.BlockPairable | experiments/triad_partition_controlled/analyze.py:180-198 | a block passes the pairing checks exactly if all of its phases were accepted |
| Campaign.CompleteExactlyWhenAccepted | experiments/triad_partition_controlled/analyze.py:213-256 | planner and analyzer agree: a configuration is complete if and only if all traced phases planned for it were accepted |
| Campaign.FullCampaignIsComplete | experiments/triad_partition_controlled/analyze.py:247-251 | a campaign with all phases accepted is complete in every configuration |
| Campaign.NoIssuesExactly | experiments/triad_partition_controlled/analyze.py:213-289 | there are no issues if and only if all 49*(n+1) planned phases were accepted and the campaign status is complete |
| Campaign.RowsFromRaw | experiments/triad_partition_controlled/analyze.py:180-203 | every pair row comes from two planned phases of the same trial, one of all devices and one of this device alone, and holds their rates |
| Campaign.SlowdownIsRatio | experiments/triad_partition_controlled/analyze.py:192-200 | the slowdown of a device times the kernels counted for it together is the kernels counted for it alone |
| Campaign.PlanAndAnalyze | experiments/triad_partition_controlled/analyze.py:205-289 | from the devices and what the phases have left: accepted if and only if every planned phase is there, is the one planned, and passes, and the campaign status is complete; then every block has its table of pairs; every pair row comes from the kernels counted in two phases of its trial |
| Startup.StepKeeps | multichase/multichase.c:528-545 | every action of every thread keeps the invariant of count, mutex, sleepers and arena |
| Startup.BarrierHoldsExactly | multichase/multichase.c:528-543 | throughout a run nobody is past its wait before all workers have arrived, if and only if no woken thread takes the mutex back before that |
| Startup.TimelyIsHarmless | multichase/multichase.c:537-541 | so it is if every wakeup without a broadcast comes when all have arrived, in particular if there are none |
| Startup.ReturnLetsThrough | multichase/multichase.c:538-545 | a thread that takes the mutex back too early chases, or samples, with its next step |
| Startup.NoEarlyStart | multichase/multichase.c:528-545 | in every such run, nobody chases and main does not sample before every worker has built its chases and arrived |
| Startup.NoSleeperLeft | multichase/multichase.c:537-542 | in every such run, nobody is left asleep after the last arrival has broadcast, main included |
| Startup.FlipIsSafe | multichase/multichase.c:530-536 | in every such run, no access of a builder meets an executable arena and no branch one that is not; the arena is flipped at most once, only for branch chases, after everything is built and before anybody is let through |
| Startup.WritersAreSafe | multichase/multichase.c:529-537 | in every run, whatever wakeups there are: the arena becomes executable only after every worker has built its chases |
| Startup.FaultsAre | multichase/multichase.c:530-545 | a fault is exactly an access of a builder to an executable arena or a branch into one that is not |
| Startup.MutualExclusion | multichase/multichase.c:529-543 | in every run, whatever wakeups there are, the mutex is held by exactly the thread inside the critical section |
| Startup.NeverStuck | multichase/multichase.c:887-910 | until everyone has started, some thread can take a useful step |
| Startup.UsefulStepsDescend | multichase/multichase.c:887-910 | every useful step brings the start nearer |
| Startup.EveryoneStarts | multichase/multichase.c:887-910 | a schedule of useful steps is bounded, and can be extended until all workers chase and main samples |
| Startup.SpuriousWakeupBreaksBarrier | multichase/multichase.c:538-540 | a run in which one early return lets a worker branch into an unfinished arena |
| Startup.MainCanSampleEarly | multichase/multichase.c:905-910 | in every configuration with a worker, one early return lets main sample before any worker has built anything |
| Launch.RunTracks | multichase/multichase.c:465-545 | the threads building access by access on the shared memory and then arriving, under any schedule, are a run of the startup barrier in which each worker counts the accesses it has left |
| Launch.BuiltBeforeStart | multichase/multichase.c:465-545 | in every run without early returns, the programs of all threads are at their end when anybody is through the barrier and before the arena becomes executable |
| Launch.FinishedBeforeUse | multichase/multichase.c:465-545 | so in every such run of multichase, all chases of all threads are finished in the shared memory whenever a thread chases, main samples or the arena is executable; no builder accesses an executable arena, and no thread branches into one that is not |
| Launch.EveryoneBuildsAndStarts | multichase/multichase.c:465-545 | schedules of useful steps are bounded, and can be extended until everything is built and everyone has started |
| Launch.LaunchAll | multichase/multichase.c:800-910 | the same from the arguments on, for every schedule |
| PingPong.StepKeeps | multichase/pingpong.c:63-139 | every action keeps the invariant of word, turns and counts, with either exchange and whatever wakeups there are |
| PingPong.SetupHoldsExactly | multichase/pingpong.c:86-94 | throughout a run no thread is past its wait alone, if and only if no woken thread takes the mutex back before its buddy has arrived |
| PingPong.NoWakeupsAreOrderly | multichase/pingpong.c:86-94 | so it is if no wait ends without a broadcast |
| PingPong.SetupBarrierHolds | multichase/pingpong.c:81-95 | in such a run, who leaves the setup finds the word mapped and the buddy arrived; no sleeper is left; the flag is ready for the next pair |
| PingPong.OddCanBeTooEarly | multichase/pingpong.c:89 | one early return, and the odd thread uses the word before it exists |
| PingPong.StopEnds | multichase/pingpong.c:107-110 | once main has told the threads to stop, a thread in its loop exits after at most five steps of its own |
| PingPong.HandoversAlternate | multichase/pingpong.c:107-122 | in every run the wins strictly alternate, even first; even minus odd is 1 exactly while the word is the odd thread's, and 0 otherwise |
| PingPong.StepRefines | multichase/pingpong.c:129-139 | a step of the load-then-store exchange is a step of the compare-and-swap one, or changes nothing visible |
| PingPong.UnlockedRefinesLocked | multichase/pingpong.c:129-139 | every run with load-then-store is a run with compare-and-swap, with the same winners and samples |
| PingPong.CollectedIsPublished | multichase/pingpong.c:117-121 | whenever main swaps the counter to zero: collected plus pending plus wrapped is 20000 for every 10000 wins of the even thread |
| PingPong.CollectedBracketsHandovers | multichase/pingpong.c:303-305 | the reported count is never more than one ahead of the true handovers, and is within 20002 of them exactly if the counter has never wrapped |
| PingPong.NoWrapExactly | multichase/pingpong.c:117-121 | the counter has never wrapped if and only if the even thread never publishes more than 214748 times between two samples |
| PingPong.ReportIsCloseExactly | multichase/pingpong.c:303-305 | so the report is within 20002 of the true handovers if and only if main samples that often |
| PingPong.CounterCanWrap | multichase/pingpong.c:117-121 | there are runs that wrap, and report too little |
| Handshake.StepKeeps | multichase/multiload.c:426-456 | every action of a thread or of main keeps the invariant of requests, publications and collections |
| Handshake.DeliveredExactlyOnce | multichase/multiload.c:1326-1361 | in every run main has collected exactly one value per sample from each load thread, the one published for that sample |
| Handshake.NothingLost | multichase/multiload.c:1339-1361 | everything a thread adds to its count is collected once or still there, chase threads included |
| Handshake.CountIsZeroOnRequest | multichase/multiload.c:441 | a load thread that sees a new request always finds its count at zero |
| Handshake.WaitIsBounded | multichase/multiload.c:1342-1360 | main waits no longer than six steps of the thread it waits for, whatever the others do, if that thread has something to deliver |
| Handshake.ZeroRateBlocks | multichase/multiload.c:445-455 | a rate that truncates to zero for a sample keeps main from ever getting that sample |
| Handshake.FinishedRunIsFull | multichase/multiload.c:1314-1361 | a finished run has a value from every thread for every sample that was asked for, and no more |
| Handshake.FinishesIffAllDeliver | multichase/multiload.c:1314-1361 | sampling can end if and only if an end was asked for and no thread has a zero for any sample |
| Histogram.LcmIsMultiple | atomics/histo.hip:260-262 | the least common multiple is a common multiple |
| Histogram.LcmDivides | atomics/histo.hip:260-262 | and divides every common multiple |
| Histogram.SharesAddUpExactly | atomics/histo.hip:89-94 | the shares of the threads add up to the total if and only if it is a multiple of 2*lcm(cpu, gpu), or of the single thread count |
| Histogram.RoundedTotalIsLeast | atomics/histo.hip:258-273 | the rounded total is the least one, not below the requested, that can be shared out exactly |
| Histogram.RoundTotal | atomics/histo.hip:258-273 | main computes that total |
| Histogram.MakeWorkers | atomics/histo.hip:85-122 | the threads of both sides with their shares |
| Histogram.Begin | atomics/histo.hip:63-122 | main and run up to the threads: the rounded total, zero cells and the shares; so the runs below have a start |
| Histogram.HistogramConserved | atomics/histo.hip:23-33 | under every interleaving each cell is the number of times it was picked, the table sums to the increments made, and made plus left is what the threads have to do |
| Histogram.Validate | atomics/histo.hip:133-142 | the sum loop compares the sum modulo the data type with the total |
| Histogram.ValidatesIffTotalFits | atomics/histo.hip:126-142 | a finished run has made exactly the rounded total of increments, and validates if and only if the total fits the data type |
| Histogram.CanFinish | atomics/histo.hip:23-33 | every run can be brought to its end |
| Histogram.LargeTotalFails | atomics/histo.hip:133-138 | 2^32 increments of one CPU thread on 32-bit cells: none lost, and the validation fails |
| Histogram.NoThreadsNoTotal | atomics/histo.hip:258-266 | without threads a requested total is never validated |
| Histogram.CounterBracketsProgress | atomics/histo.hip:31-32 | between any two moments of any run, 200 times the advance of a counter is within 200 per thread of the increments really made |

## Left out

- GPU kernels, HIP allocation, mmap, mbind, NUMA, sysfs, sockets, subprocesses, CSV and JSON, command lines, clocks and printing: foreign calls or input and output. What they deliver is a parameter.
- Floating point: averages and deviations over repeats, rounding of rates, the STREAM tolerance. Counts and bytes are integers; the 90 percent test is the exact comparison 10*overlap >= 9*window; rates in the pairing are real numbers; the exponent of the chunk size is given by its integer characterisation, so the rounding inside `log2` and `lround` is not modelled.
- Machine integers of the chase builder: sizes are unbounded, so overflow of `size_t` products, of the `int` cycle length and of `1 << n` is not modelled. The 32-bit counters of the ping-pong and the width of histogram cells are.
- Layout.MixerCount: for a single chase the source takes the number of leading zeros of 0, which is undefined; the model gives what the following clamp to 64 intends.
- Permutations.Draw: `random_r` is an arbitrary stream of 64-bit words; how `rng_int` assembles such a word from four results is not modelled, and neither is the bias of the final modulo.
- Building.ConcurrentBuild: an access is a load or store of one pointer, or of one byte of code, and is indivisible; memory is sequentially consistent. The shuffle and its tables are private to a thread and cost no step.
- Critword.Critword2: offsets at which words of different objects overlap or leave the memory; the source does not check them, and the walk would read pointers it has overwritten.
- Critword.CritwordSplit: the same offsets.
- ThreadStart.RewriteOne: offsets beyond the end of the 64-byte objects, which reach into slots of other chases.
- BranchCompiler.ConvertPointersToBranches: the AArch64 variant, which has the same chunking with other instruction encodings and 16-byte code.
- Phases.ReducePhase: how many trace files there are, the rates derived from the counts other than the useful one, and which of several failed checks is reported (the single checks report what is wrong).
- Pairing.PairPhases: the coefficient of variation is the square root of the variation returned here.
- Campaign.PairGroups: groups are paired in some order; the source sorts the keys, which affects only the order of its output.
- Campaign.Analyze: the sensitivity table, the per-device summary and the files written.
- Schedule.MakeSchedule: at least one device (with none the source divides by zero); no claim that device order is balanced, since for a given configuration the shift takes few values.
- Startup.NoEarlyStart: the cache flush between building and arriving is part of building. A step of a worker that builds is one access in `Launch`, and one count in `Startup`.
- PingPong.HandoversAlternate: the communication array is updated after the handover and is therefore not exclusive; pauses, affinity and the variant based on fetch-and-add are left out.
- Handshake.FinishesIffAllDeliver: the 64-bit count does not wrap; measured rates are arbitrary numbers. multiload numbers its long chases with `parallelism` instead of all chases of all threads, so disjointness is stated for multichase only.
- Histogram.ValidatesIffTotalFits: floating-point tables, thread counts so large that 2*lcm overflows, and device-scope atomics mixed with CPU threads, which are not atomic with respect to each other.
- Histogram.MakeWorkers: that the number of GPU threads must be a multiple of the block size, and the endless timing mode (total 0).
- Histogram.CounterBracketsProgress: the counters do not wrap. The result holds for any shares, so also for the timing mode.
- The remaining benchmarks (memcpy lists, STREAM kernels, plots, shell scripts, topology): guards over parsed text, fixed data or kernels whose loops carry no further logic.
