# Koowaldah in Dafny

Koowaldah is a small kernel with a bundled C library. This project models the parts of it whose correctness is
hard to see by reading, and proves what they promise: the buddy page allocator, the arena of `malloc` and `free`,
CRC-32 and Adler-32, streaming SHA-1, `vsnprintf` and `strntoumax`, the run queue and the timers, the comb sort
behind `qsort`, and 64-bit division.

Each component comes in two layers. A value layer says what is computed, or which steps a state may take, and
carries the theorems about every input and every run. An imperative layer has the source's own loops, arrays,
link fields and field updates; its methods are proved to compute that value, or to take exactly such a step.

| module | what it holds |
|---|---|
| `Buddy`, `PageAlloc` | zones of aligned piles: partition, coalescing, completeness and canonical form over every run; the free lists and order fields of `kernel/page_alloc.c` |
| `Heap`, `Malloc`, `KernelBrk` | the heap as blocks in address order and its state machine, with an account of memory lost; the two chains of headers in `usr/klibc/malloc.c`, with `sbrk` and `brk`; the kernel's side of the break |
| `Crc32`, `Crc32Combine` | the bit-serial CRC of RFC 1952 section 8, the tables, the byte-wise and word-wise loops, combination by GF(2) matrices |
| `CrcPolynomial`, `CrcNumbers` | the CRC as the one remainder of a division of polynomials; its register in machine arithmetic, and the check value |
| `Adler32` | the per-byte definition of RFC 1950, deferred reduction, combination |
| `Sha1`, `Sha1Stream`, `Sha1Vector` | FIPS 180-1: the 80-word schedule and the rolling one, padding, streaming, and the digest of "abc" |
| `Format`, `Directives`, `Printf`, `Vsnprintf` | the text a format stands for, which formats have one, printing through a window of n characters, the format state machine |
| `Conversions`, `Spelling` | what the text of a conversion says about its argument and where it stands in its field; what a directive means, told from its spelling |
| `Strntoumax`, `RoundTrip` | reading numerals, and reading back what was printed |
| `KList0`, `Ring` | the rings of `include/klist0.h` |
| `Queues`, `DeltaList`, `Scheduling`, `Sleeping`, `Waiting`, `Preemption` | queues, timer list, the steps of scheduler and timers, and what every interleaving of them guarantees to sleepers, to threads that wait in a queue or for their turn, and about the ticks of a quantum |
| `Threads`, `Kernel` | the same on linked rings |
| `CombSort`, `Division` | `qsort` and `__udivmoddi4` |
| `Powers`, `Wrappers` | shared arithmetic and `Option` |

The main results, each for all inputs or all runs:

- Buddy allocator: `Buddy.RunKeepsInv`, `Buddy.RefusalMeansNoFreeRun`, `Buddy.RunReturnsToCanonicalForm`, and the
  methods of `PageAlloc.Zone` that take the steps these theorems are about.
- malloc: `Heap.RunKeepsValid`, `Heap.NoFitMeansNoFreeRun`, `Heap.RunLoses`, `KernelBrk.HandBacksRefused`, and
  `Malloc.Arena.Allocate` and `Deallocate` on the linked chains, which say when a request fails.
- Checksums: `CrcPolynomial.CrcIsRemainder`, `Crc32.Crc32Little`, `Crc32Combine.CombineOfParts`, `Adler32.Adler32`,
  `Adler32.CombineOfParts`.
- SHA-1: `Sha1.Transform`, `Sha1Stream.HashPieces`, `Sha1Vector.AbcDigest`.
- Printing and reading: `Vsnprintf.Vsnprintf`, `Spelling.DirectiveMeans`, `Conversions.ConversionReadsBack`,
  `Conversions.NumberPlaced`, `Directives.UndefinedMeansFails`, `RoundTrip.PrintedReadsBack`,
  `RoundTrip.DecimalReadsBack`.
- Threads and timers: `Scheduling.RunKeepsInv`, `Sleeping.TsleepNotEarly`, `Sleeping.WakesExactly`,
  `Waiting.RunsAtItsTurn`, `Waiting.WokenInOrder`, `Preemption.TurnAtQuantum`, `Preemption.RunsWithin`, and the
  methods of `Kernel.Kernel` on linked rings.
- `CombSort.Qsort`, `Division.UDivMod`.

Conventions. Integers are unbounded, and wrap-around is written out wherever it is not named under "Left out". CRC words
are sequences of 32 bits, SHA-1 words bit vectors.
Memory that the source reaches through pointers is a map from addresses or nodes to field values, one map per
field, so that aliasing and the order of updates are those of the source. A ghost parameter or field names a
position the pointers stand for. System calls, fresh memory and the argument list of `vsnprintf` are parameters.
A character format ends where its sequence ends. Constants are those of the i386 build: 32-bit `int`, `long` and
pointers, 16-byte arena headers, 32-byte page descriptors, 4096-byte pages.

Where the code and what is said about it differ, the model follows the code:

- The comment on `NMAX` is right, and `adler32` is exact on every checksum it can itself produce. For a start value
  with a second half above 65520 the one-byte path can leave that half 65521 too large (`Adler32.OverrunExample`);
  `Adler32.FastPathOverruns` is the exact condition.
- `free` takes a block that it hands back off both chains before it asks for the break to be lowered, and does not
  look at the answer. If the answer is no, the memory stays with the process and belongs to no block
  (`Heap.RefusedExample`). `Heap.RunLoses` shows that exactly such memory is lost, and `Heap.HeldIsOwned` that used
  and free blocks make up the memory held if and only if no hand-back was refused.
- The kernel's own `brk` adds to the size limit of the heap where it should set it, so that on this kernel every
  hand-back is refused (`KernelBrk.HandBacksRefused`).
- A string conversion has no output if its precision is a `*` with a negative argument followed by digits other than
  nines, as in `%.*5s` (`Directives.FailingExample`); `Directives.UndefinedMeansFails` gives the exact condition.
- `adler32_combine` yields 65521 where the checksum of the concatenation has a half equal to 0, for instance for
  two empty parts (`Adler32.CombineOfEmpty`). `Adler32.CombineOfParts` gives the exact condition.
- `SHA1Update` adds a 32-bit length to the fill level without a check; `Sha1Stream.BlockTestIsExact` is the
  exact bound up to which the test that follows is right.
- A number printed with tick marks is not read back by `strntoumax`, which stops at the first mark;
  `RoundTrip.PrintedReadsBack` gives the exact condition, `RoundTrip.TickedExample` a case. Decimal output with a
  leading zero is read as octal if the base is left open; `RoundTrip.DecimalReadsBack` gives the exact condition.
- `qsort` of no elements runs past the array, because the bound of its loop wraps around
  (`CombSort.BoundStaysInside`).
- A thread that goes to sleep moves the first thread of the run queue to the tail without switching to it
  (`Waiting.DepartureCostsFirst`).
- `isspace` of the bundled library counts backspace as a space.
- A released timer interval costs a tick of its own: the intervals behind it do not count down in that call.

## Model

| member | source | states |
|---|---|---|
| `PageAlloc.IdxOrder` | kernel/page_alloc.c:56-63 | the largest order below `MAX_ORDER` to which an index is aligned |
| `PageAlloc.IdxOrderMeaning` | kernel/page_alloc.c:56-63 | halving until the index is odd or the largest order is reached counts the alignment: the index is a multiple of 2^k if and only if k is at most the result |
| `PageAlloc.LargestOrder` | kernel/page_alloc.c:150-162 | the pile started at page i is aligned, fits the pages left, and no larger pile there would do both |
| `PageAlloc.MaximalMeansCoalesced` | kernel/page_alloc.c:149-171 | piles that are each as large as possible contain no two joinable buddies, so greedy construction leaves nothing to join |
| `PageAlloc.Zone.PlacePile` | kernel/page_alloc.c:166-170 | placing one pile keeps the partition of the pages so far, the lists and the order fields |
| `PageAlloc.Zone.PlaceAll` | kernel/page_alloc.c:149-171 | the loop cuts the pages into piles as large as alignment and the end of the zone allow |
| `PageAlloc.Zone.constructor` | kernel/page_alloc.c:112-179 | after initialization the piles partition [consumed_pages, total_pages), are fully coalesced, level k lists exactly the piles of order k in ascending order, and the opening pages hold their orders |
| `PageAlloc.FirstFitIsBest` | kernel/page_alloc.c:193-199 | the lowest sufficient non-empty level holds a best fit; if there is none, no free pile is large enough |
| `PageAlloc.Zone.CutDown` | kernel/page_alloc.c:205-216 | the splitting loop puts each lower half at the head of its level, changes no other list, and keeps the pile the state machine keeps |
| `PageAlloc.Zone.AllocPages` | kernel/page_alloc.c:184-221 | takes the allocation step on the head of the lowest sufficient level, or refuses and changes nothing; every list afterwards is given element by element, and the order fields agree with the piles |
| `PageAlloc.Zone.FindBuddy` | kernel/page_alloc.c:353-374 | the list search finds the buddy if and only if it is free, whichever side it is on |
| `PageAlloc.Zone.JoinUp` | kernel/page_alloc.c:351-376 | the merge loop ends on the pile into which the freed one coalesces, and its order stays below `MAX_ORDER` |
| `PageAlloc.Zone.FreePages` | kernel/page_alloc.c:344-382 | takes the freeing step; the merged pile is at the head of an existing level and contains the freed page |
| `Buddy.Halves` | kernel/page_alloc.c:208-214 | the two halves of an aligned pile are aligned, adjacent and buddies of each other |
| `Buddy.Buddies` | kernel/page_alloc.c:355-373 | a pile and its buddy are the two halves of one aligned parent |
| `Buddy.SplitKeepsInv` | kernel/page_alloc.c:205-216 | splitting down to any order keeps partition, alignment and coalescing |
| `Buddy.MergeKeepsInv` | kernel/page_alloc.c:351-378 | coalescing upward from any freed pile keeps partition and alignment and restores full coalescing |
| `Buddy.NextKeepsInv` | kernel/page_alloc.c:184-221 | every allocation, refusal and free keeps the partition, the alignment and the absence of joinable free buddies, over unchanged zone bounds |
| `Buddy.RunKeepsInv` | kernel/page_alloc.c:344-382 | the same for every state of every run of allocations and frees |
| `Buddy.AllocTakesFreePages` | kernel/page_alloc.c:184-221 | the pile handed out is the last 2^order pages of the pile taken, aligned and free before, and its pages are exactly those that leave the free set |
| `Buddy.FreeBlockInOnePile` | kernel/page_alloc.c:351-378 | in a coalesced zone an aligned run of free pages lies inside a single free pile |
| `Buddy.RefusalMeansNoFreeRun` | kernel/page_alloc.c:193-198 | a request finds no pile if and only if the zone has no aligned run of 2^order free pages |
| `Buddy.DecompositionUnique` | kernel/page_alloc.c:149-171 | a region has only one decomposition into aligned piles without joinable buddies |
| `Buddy.HistoryIndependence` | kernel/page_alloc.c:344-382 | the used pages alone determine every free list, whatever the order of past calls |
| `Buddy.RunReturnsToCanonicalForm` | kernel/page_alloc.c:344-382 | a run that comes back to the same used piles is back in the same state; with everything freed, every level is as initialization built it |
| `Buddy.AllocFreeRoundTrip` | kernel/page_alloc.c:184-221 | freeing what was just allocated restores the state, split piles included |
| `Heap.EmptyIsValid` | usr/klibc/malloc.c:143-231 | the heap before the first call satisfies the invariant |
| `Heap.NeedIsAligned` | usr/klibc/malloc.c:152-153 | the rounded request is a multiple of 16 that covers the request and a header of 16 bytes, by less than 16 more, and can hold a free header |
| `Heap.ChunkIsAligned` | usr/klibc/malloc.c:163-164 | the memory asked for is a multiple of 65536, covers the need, and exceeds it by less than 65536 |
| `Heap.FreeHandsBack` | usr/klibc/malloc.c:225-231 | freed memory leaves the arena if and only if the free block it joins has 65536 bytes and ends at the break |
| `Malloc.AlignUpMeans` | usr/klibc/sbrk.c:17-20 | the least multiple of 32 that is not below the break |
| `Heap.CarveKeepsInv` | usr/klibc/malloc.c:65-101 | carving a block keeps order, alignment and coalescing, owns the same addresses, and adds exactly one block in use, of the size asked for or less than 32 bytes more |
| `Heap.ReleaseKeepsInv` | usr/klibc/malloc.c:103-141 | freeing a block and joining it on both sides keeps the addresses owned, removes exactly that block from use, and leaves no two touching free blocks |
| `Heap.NextKeepsValid` | usr/klibc/malloc.c:143-231 | every step keeps the heap sorted, aligned, disjoint and coalesced, in memory held from sbrk below the break; malloc adds one fresh block, free removes one, a failure changes nothing; what becomes lost is exactly the block of a refused hand-back |
| `Heap.RunKeepsValid` | usr/klibc/malloc.c:143-231 | the invariant holds in every state of every run |
| `Heap.RunLoses` | usr/klibc/malloc.c:225-231 | over every run from the empty heap, memory held but owned by no block is exactly what refused hand-backs took off the chains; none of it ever comes back |
| `Heap.HeldIsOwned` | usr/klibc/malloc.c:225-231 | used and free blocks make up exactly the memory held from sbrk if and only if no hand-back was refused |
| `Heap.RefusedExample` | usr/klibc/malloc.c:229-230 | one chunk, freed and refused: the memory is lost |
| `KernelBrk.SetsBreakOnlyFromZero` | kernel/brk.c:25-51 | asked for an address of the heap, the kernel answers with it if and only if the size limit was zero and the heap stays within its limit |
| `KernelBrk.StepRefuses` | kernel/brk.c:25-51 | one call of malloc or free on this kernel: a hand-back is refused and the break does not go down |
| `KernelBrk.HandBacksRefused` | kernel/brk.c:25-51 | over every run on this kernel in which no 32-bit sum wraps around, every hand-back is refused and the break never goes down |
| `Heap.HandedIsFresh` | usr/klibc/malloc.c:143-206 | what malloc hands out overlaps no block in use |
| `Heap.FreeRunInOneBlock` | usr/klibc/malloc.c:129-137 | a run of free addresses lies inside a single free block |
| `Heap.NoFitMeansNoFreeRun` | usr/klibc/malloc.c:153-164 | the kernel is asked for memory if and only if no run of free addresses could hold the rounded request |
| `Malloc.Arena.constructor` | usr/klibc/malloc.c:143-231 | the empty arena: two rings with only the head |
| `Malloc.Arena.RemoveFromMainChain` | usr/klibc/malloc.c:37-47 | the all-block chain stays a ring, without that node |
| `Malloc.Arena.RemoveFromFreeChain` | usr/klibc/malloc.c:49-57 | the free chain stays a ring, without that node |
| `Malloc.Arena.SplitBlock` | usr/klibc/malloc.c:74-94 | the split on both chains: main chain in address order, free chain exactly the free blocks, headers tagged |
| `Malloc.Arena.UseWholeBlock` | usr/klibc/malloc.c:95-98 | the block leaves the free chain and is tagged used |
| `Malloc.Arena.MallocFromBlock` | usr/klibc/malloc.c:65-101 | the chains carry out the carving; the pointer is just behind the header |
| `Malloc.Arena.FreeLeft` | usr/klibc/malloc.c:103-127 | joins a left neighbour, or puts the block at the head of the free chain; no other block changes its place there |
| `Malloc.Arena.FreeRight` | usr/klibc/malloc.c:129-137 | joins a right neighbour and takes it off both chains |
| `Malloc.Arena.FreeArenaBlock` | usr/klibc/malloc.c:103-141 | the chains carry out the release; the block returned contains the freed one |
| `Malloc.Arena.Sbrk` | usr/klibc/sbrk.c:22-43 | succeeds if and only if the answer of the system is not below the increment added to the least multiple of 32 not below the break; the region starts at that multiple, and the answer is the new break |
| `Malloc.Arena.FindFit` | usr/klibc/malloc.c:155-161 | a free block that is large enough, or the proof that there is none |
| `Malloc.Arena.FindPlace` | usr/klibc/malloc.c:188-192 | the backward search finds the predecessor in address order |
| `Malloc.Arena.Grow` | usr/klibc/malloc.c:163-205 | fails if and only if the answer of the system is below the aligned break plus the request in whole chunks, and then changes nothing; otherwise the heap grows by those chunks and the request is carved from what they join up with |
| `Malloc.Arena.Allocate` | usr/klibc/malloc.c:143-206 | takes a fitting, growing or failing step of the heap and returns the address behind the header of the block handed out, which is the first on the free chain that is large enough if there is one; NULL for a request if and only if no free block is large enough and the system grants less than the chunks asked for; the free chain afterwards by value |
| `Malloc.Arena.ReturnToSystem` | usr/klibc/malloc.c:225-231 | a free block of at least a chunk that ends at the break leaves the arena; the break is lowered and the memory given up if and only if the system agrees |
| `Malloc.Arena.Deallocate` | usr/klibc/malloc.c:208-231 | takes the freeing step; the break moves exactly if a block is handed back and the system agrees; the free chain afterwards by value; a null pointer changes nothing |
| `Crc32.BitStepLinear` | usr/klibc/zlib/crc32.c:126-132 | one step of the polynomial division is linear over exclusive or |
| `Crc32.StepsLinear` | usr/klibc/zlib/crc32.c:126-132 | and so is any number of steps |
| `Crc32.ByteStep` | usr/klibc/zlib/crc32.c:126-132 | eight steps split into a table look-up of the low byte and a shift of the rest |
| `Crc32.WordStep` | usr/klibc/zlib/crc32.c:256-258 | thirty-two steps split into four look-ups, one per byte |
| `Crc32.FeedIsSteps` | usr/klibc/zlib/crc32.c:215 | feeding bits one by one is exclusive or followed by as many steps |
| `Crc32.RegisterConcat` | usr/klibc/zlib/crc32.c:219-251 | the register after A ++ B is the register after B started from that after A |
| `Crc32.MakePoly` | usr/klibc/zlib/crc32.c:110-124 | the loop sets bit 31 - e for every exponent e of the list |
| `CrcNumbers.PolyIsPattern` | usr/klibc/zlib/crc32.c:121-124 | that pattern is the number 0xEDB88320 |
| `CrcNumbers.StepIsNumberStep` | usr/klibc/zlib/crc32.c:129-130 | one step of the division is, on numbers, a shift to the right and an exclusive or with 0xEDB88320 if the bit shifted out is a one |
| `CrcNumbers.FeedIsNumberSteps` | usr/klibc/zlib/crc32.c:215 | a byte is fed by an exclusive or into the low bits and eight such steps |
| `CrcNumbers.NumInjective` | usr/klibc/zlib/crc32.c:215 | a register is known by its number |
| `CrcNumbers.CheckValue` | usr/klibc/zlib/crc32.c:219-251 | the CRC of the digits 1 to 9, from 0, is 0xCBF43926 |
| `CrcPolynomial.StepDivides` | usr/klibc/zlib/crc32.c:92-99 | one step multiplies by x, adds x^32 for a message bit, and takes the modulus away when a term of degree 32 arises |
| `CrcPolynomial.FeedDivides` | usr/klibc/zlib/crc32.c:80-99 | after every message the register is the remainder, with the bits that left the register as the quotient |
| `CrcPolynomial.RemainderUnique` | usr/klibc/zlib/crc32.c:86-91 | quotient and remainder of the division by x^32+x^26+x^23+x^22+x^16+x^12+x^11+x^10+x^8+x^7+x^5+x^4+x^2+x+1 are determined |
| `CrcPolynomial.CrcIsRemainder` | usr/klibc/zlib/crc32.c:80-99 | a word is the CRC of a buffer if and only if its complement is the remainder, for some quotient, of the message times x^32, with the complement of the initial value added to its first 32 terms, on division by that polynomial |
| `Crc32.TableEntry` | usr/klibc/zlib/crc32.c:127-132 | an entry is eight steps of the division |
| `Crc32.MakeCrcTable` | usr/klibc/zlib/crc32.c:106-149 | column k holds, for every byte, the register after that byte and k zero bytes |
| `Crc32.LookUp` | usr/klibc/zlib/crc32.c:215 | a table look-up and a shift do eight steps |
| `Crc32.FeedByte` | usr/klibc/zlib/crc32.c:215 | one look-up feeds the eight bits of a byte |
| `Crc32.FeedWord` | usr/klibc/zlib/crc32.c:256-258 | four look-ups feed the thirty-two bits of a little-endian word |
| `Crc32.Crc32Bytes` | usr/klibc/zlib/crc32.c:242-250 | the byte-wise loop computes the bit-serial CRC of every buffer from every initial value |
| `Crc32.LeadingBytes` | usr/klibc/zlib/crc32.c:272-275 | bytes up to a word boundary, whatever the starting alignment |
| `Crc32.Crc32Little` | usr/klibc/zlib/crc32.c:262-293 | the word-wise loop computes the bit-serial CRC for every buffer, length, alignment and initial value; `CrcPolynomial.CrcIsRemainder` and `CrcNumbers.CheckValue` say which polynomial that is |
| `Crc32.Crc32Entry` | usr/klibc/zlib/crc32.c:219-251 | a null buffer gives zero, any other its CRC |
| `Crc32Combine.TimesIsSteps` | usr/klibc/zlib/crc32.c:342-356 | a matrix that represents n zero bits acts on every vector as n steps do |
| `Crc32Combine.SquareRepresents` | usr/klibc/zlib/crc32.c:359-367 | squaring doubles the number of zero bits a matrix represents |
| `Crc32Combine.Gf2MatrixTimes` | usr/klibc/zlib/crc32.c:342-356 | the loop computes the product of matrix and vector |
| `Crc32Combine.Gf2MatrixSquare` | usr/klibc/zlib/crc32.c:359-367 | column by column, the square |
| `Crc32Combine.OneBitOperator` | usr/klibc/zlib/crc32.c:384-390 | a matrix of the polynomial and the shifted unit vectors represents one zero bit |
| `Crc32Combine.FillOneBitOperator` | usr/klibc/zlib/crc32.c:384-390 | started from the number 0xEDB88320, the initial matrix represents one zero bit |
| `Crc32Combine.ApplyZeros` | usr/klibc/zlib/crc32.c:398-418 | the even and odd loop applies exactly 8 * len2 zero bits |
| `Crc32Combine.Combine` | usr/klibc/zlib/crc32.c:370-423 | crc1 carried over len2 zero bytes, exclusive or crc2 |
| `Crc32Combine.RegisterAffine` | usr/klibc/zlib/crc32.c:370-423 | the register after B depends on its start by as many zero bits as B has |
| `Crc32Combine.CombineIsConcat` | usr/klibc/zlib/crc32.c:370-423 | that value is the CRC of A ++ B, for all byte strings |
| `Crc32Combine.CombineOfParts` | usr/klibc/zlib/crc32.c:370-423 | crc32_combine(crc(A), crc(B), length(B)) equals crc(A ++ B) |
| `Adler32.RawBound` | usr/klibc/zlib/adler32.c:11-13 | how large the two sums can get without reduction |
| `Adler32.NoOverflow` | usr/klibc/zlib/adler32.c:96-106 | over up to NMAX bytes, from any 16-bit sums, neither sum exceeds 2^32 - 1 |
| `Adler32.NmaxIsTight` | usr/klibc/zlib/adler32.c:11-13 | the bound in the comment holds for n if and only if n is at most NMAX |
| `Adler32.ReduceEarly` | usr/klibc/zlib/adler32.c:104-105 | reducing before more bytes are added does not change the sums modulo 65521 |
| `Adler32.DeferredIsSpec` | usr/klibc/zlib/adler32.c:96-121 | reducing once at the end is reducing after every byte, as RFC 1950 defines it |
| `Adler32.SpecConcat` | usr/klibc/zlib/adler32.c:57-125 | the checksum composes over concatenation |
| `Adler32.AddOne` | usr/klibc/zlib/adler32.c:70-78 | the one-byte path, for every start value |
| `Adler32.AddFew` | usr/klibc/zlib/adler32.c:85-94 | the short path agrees with the definition |
| `Adler32.AddBlocks` | usr/klibc/zlib/adler32.c:96-121 | the block loop agrees with the definition for every length |
| `Adler32.Adler32` | usr/klibc/zlib/adler32.c:57-125 | the result is the checksum of RFC 1950 for every start value and length, up to the one case of the one-byte path; a null buffer gives 1 |
| `Adler32.ProperStaysExact` | usr/klibc/zlib/adler32.c:57-125 | on proper checksums that case never arises, and the result is proper again |
| `Adler32.OverrunExample` | usr/klibc/zlib/adler32.c:70-78 | a start value for which the one-byte path overruns |
| `Adler32.KnownChecksum` | usr/klibc/zlib/adler32.c:57-125 | the checksum of the letters of "Wikipedia" is 0x11E60398 |
| `Adler32.JoinBits` | usr/klibc/zlib/adler32.c:148 | a bit of the joined word is set if and only if it is set in the first half or, sixteen places down, in the second |
| `Adler32.Combine` | usr/klibc/zlib/adler32.c:128-149 | for every pair of 32-bit words: both halves as the subtractions leave them, joined as the 32-bit or joins them |
| `Adler32.HalvesApart` | usr/klibc/zlib/adler32.c:144-148 | the halves keep to their sixteen bits if and only if two sums stay below given bounds |
| `Adler32.OverlapExample` | usr/klibc/zlib/adler32.c:144-148 | halves for which they do not |
| `Adler32.ProperCombined` | usr/klibc/zlib/adler32.c:128-149 | for checksums the halves are the representatives in 1..65521 of the sums of the concatenation |
| `Adler32.ConcatSums` | usr/klibc/zlib/adler32.c:137-143 | the sums of a concatenation from those of its parts |
| `Adler32.CombineOfParts` | usr/klibc/zlib/adler32.c:128-149 | the halves of the checksum of A ++ B with 65521 for 0; equal to that checksum if and only if neither half is 0 |
| `Adler32.CombineOfEmpty` | usr/klibc/zlib/adler32.c:128-149 | two empty parts: the checksum is 1 and the combination is not |
| `Sha1.Rotations` | usr/klibc/sha1hash.c:99 | a rotation to the left by 1, 5 or 30 moves bit i to bit i + k modulo 32 |
| `Sha1.RoundConstants` | usr/klibc/sha1hash.c:108-112 | the four constants are the integer parts of 2^30 times the square roots of 2, 3, 5 and 10 |
| `Sha1.WordRoundTrip` | usr/klibc/sha1hash.c:243-246 | a word is what its four bytes, the most significant first, read back as |
| `Sha1Stream.InitialPattern` | usr/klibc/sha1hash.c:188-192 | the start values, low byte first, are the bytes 01 23 45 67 up to EF, FE DC BA 98 down to 10, and F0 E1 D2 C3 |
| `Sha1.FastFIsF` | usr/klibc/sha1hash.c:108-112 | the shortened round functions are those of FIPS 180-1 section 5 |
| `Sha1.Round` | usr/klibc/sha1hash.c:108-112 | one macro with rotated names is one step of section 7 |
| `Sha1.NtohlLoads` | usr/klibc/sha1hash.c:103 | byte order: swapping a word as it lies in memory gives the big-endian word of its bytes |
| `Sha1.NextWord` | usr/klibc/sha1hash.c:103-105 | sixteen words suffice, in place: the slot rewritten in round t holds word t of the 80-word schedule, and words not yet reached are as they were in memory; `Sha1Vector.AbcDigest` fixes the schedule |
| `Sha1.EightyRounds` | usr/klibc/sha1hash.c:151-171 | the unrolled rounds on the rolling schedule give the state of section 7 |
| `Sha1.Transform` | usr/klibc/sha1hash.c:130-180 | the compression of one block, for every state and block; data outside the block is untouched |
| `Sha1Stream.PaddedLength` | usr/klibc/sha1hash.c:237-241 | message, 0x80 byte, fewer than 64 zero bytes and the length field fill whole blocks |
| `Sha1Stream.LengthFieldSpells` | usr/klibc/sha1hash.c:233-236 | the length field spells, most significant byte first, the number of bits modulo 2^64 |
| `Sha1Stream.CountCarry` | usr/klibc/sha1hash.c:207-209 | the carry test and the high part keep the two words at the 64-bit count of bits |
| `Sha1Stream.AbsorbConcat` | usr/klibc/sha1hash.c:213-215 | blocks can be absorbed in any number of calls |
| `Sha1Stream.Context.constructor` | usr/klibc/sha1hash.c:185-194 | the empty message |
| `Sha1Stream.Context.CountBytes` | usr/klibc/sha1hash.c:207-209 | count[1]:count[0] is 8 times the message length modulo 2^64 |
| `Sha1Stream.Context.HashData` | usr/klibc/sha1hash.c:213-215 | the inner loop absorbs all whole blocks |
| `Sha1Stream.Context.HashBlocks` | usr/klibc/sha1hash.c:210-215 | all blocks that the data completes are absorbed |
| `Sha1Stream.Context.TakeIn` | usr/klibc/sha1hash.c:210-219 | all blocks that the data completes are absorbed, and the rest of the data ends up in the buffer |
| `Sha1Stream.Context.Update` | usr/klibc/sha1hash.c:199-223 | the message is extended by the data: state, counter and buffer are those of the longer message |
| `Sha1Stream.BlockTestIsExact` | usr/klibc/sha1hash.c:210 | the 32-bit test is right if and only if fill level plus length stays below 2^32 |
| `Sha1Stream.Context.FinalCount` | usr/klibc/sha1hash.c:233-236 | the eight bytes are the big-endian bit length modulo 2^64 |
| `Sha1Stream.Context.PadZeros` | usr/klibc/sha1hash.c:238-240 | the padding loop ends with eight bytes to go |
| `Sha1Stream.Context.Final` | usr/klibc/sha1hash.c:228-246 | the digest of the padded message of FIPS 180-1 section 4 |
| `Sha1Stream.HashPieces` | usr/klibc/sha1hash.c:306-311 | however a message is cut into pieces, the digest is that of the whole |
| `Sha1Vector.AbcRegs` | usr/klibc/sha1hash.c:130-180 | the state after the only block of the padded message "abc" |
| `Sha1Vector.AbcDigest` | usr/klibc/sha1hash.c:68-70 | the digest of "abc" is A9993E36 4706816A BA3E2571 7850C26C 9CD0D89D |
| `Printf.Sink.Emit` | usr/klibc/vsnprintf.c:42 | the text grows by one character; the buffer shows as much of it as fits |
| `Printf.NumTextIsGrouped` | usr/klibc/vsnprintf.c:141-157 | the right-to-left loop with its countdown produces the digits in groups counted from the right |
| `Printf.GroupedLength` | usr/klibc/vsnprintf.c:94-95 | the number of tick marks reserved is the number printed |
| `Printf.Sink.EmitNumber` | usr/klibc/vsnprintf.c:135-157 | filling the reserved space backwards, with every write checked against n, shows the number through the same window |
| `Printf.CountDigits` | usr/klibc/vsnprintf.c:67-72 | the number of digits |
| `Printf.Measure` | usr/klibc/vsnprintf.c:58-104 | sign, digits, tick distance and total width of the number to be printed |
| `Printf.FormatInt` | usr/klibc/vsnprintf.c:44-166 | the window of n characters shows the text of the number and nothing else changes; the length returned does not depend on n |
| `Vsnprintf.EmitInt` | usr/klibc/vsnprintf.c:387-393 | a call with what room is left continues the same window |
| `Vsnprintf.EmitText` | usr/klibc/vsnprintf.c:395-436 | strings and characters, cut by a precision of -1 or more and padded to the width |
| `Vsnprintf.EmitConversion` | usr/klibc/vsnprintf.c:298-476 | every conversion prints its text and takes its arguments; what that text says is told by the members of `Conversions` |
| `Conversions.SignedArgMeans` | usr/klibc/vsnprintf.c:310-341 | the argument of d and i is taken as the value of its type, 8, 16, 32, 32 or 64 bits wide, that differs from it by a multiple of 2 to that width, and handed on in two's complement |
| `Conversions.UnsignedArgMeans` | usr/klibc/vsnprintf.c:355-384 | the argument of o, u, x and X is taken modulo 2 to the width of its type |
| `Conversions.ValuesUnique` | usr/klibc/vsnprintf.c:310-384 | there is only one such value |
| `Conversions.ConversionReadsBack` | usr/klibc/vsnprintf.c:299-393 | the text of d and i reads back in base 10 as the signed value, that of u, o, x, X, p and P in base 10, 8 and 16 as the unsigned value, for all flags, widths and precisions, if and only if no tick mark was printed or the value is zero |
| `Conversions.GroupedAt` | usr/klibc/vsnprintf.c:141-157 | counted from the right, every place number skip holds a tick mark and the digits fill the others |
| `Conversions.BodyAt` | usr/klibc/vsnprintf.c:58-59 | tick marks part groups of three digits, of four in base 16; letters are in the case that the conversion asks for |
| `Conversions.BodyDigits` | usr/klibc/vsnprintf.c:67-85 | the digits write the magnitude; there are as many as the precision asks for and at least one, and no more than needed but for the zero of %#o |
| `Conversions.IntTextPlaced` | usr/klibc/vsnprintf.c:106-163 | sign, prefix and digits stand at the left, at the right, or around zeros, in a field of the width asked for or as wide as they are |
| `Conversions.NumberPlaced` | usr/klibc/vsnprintf.c:299-393 | the same for every integer conversion, with the sign that the value has and the prefix that the conversion prints |
| `Conversions.StringPlaced` | usr/klibc/vsnprintf.c:395-436 | s and c show the first prec characters of the string, or of the one character, padded to the width on the side that the flags ask for |
| `Spelling.FlagsScanned` | usr/klibc/vsnprintf.c:206-231 | the flags set are those that occur |
| `Spelling.WidthScanned` | usr/klibc/vsnprintf.c:233-237 | a width is the number its digits write |
| `Spelling.PrecScanned` | usr/klibc/vsnprintf.c:251-254 | and so is a precision |
| `Spelling.RankScanned` | usr/klibc/vsnprintf.c:264-285 | each h is one step down from int, each l one up, each q and L two |
| `Spelling.DirectiveMeans` | usr/klibc/vsnprintf.c:192-476 | every directive spelled in the usual order, wherever it stands, converts the argument whose turn it is under the flags, width, precision and type that its spelling names, and hands on to the rest of the format |
| `Spelling.PlainTextMeans` | usr/klibc/vsnprintf.c:194-204 | text without a percent sign prints itself |
| `Vsnprintf.ScanStep` | usr/klibc/vsnprintf.c:192-285 | an iteration that prints nothing consumes a character or moves to a later state of the directive, so the machine ends |
| `Vsnprintf.ScanKeepsRest` | usr/klibc/vsnprintf.c:192-285 | character by character, the state machine parses flags, width, precision and modifiers as the format grammar does |
| `Vsnprintf.EndOfFormat` | usr/klibc/vsnprintf.c:192 | a directive cut short prints nothing |
| `Vsnprintf.PrintStep` | usr/klibc/vsnprintf.c:192-479 | an iteration that prints moves text from what is to come to what has been printed, unless it is a string conversion with a precision below -1 |
| `Directives.ScanPrecSign` | usr/klibc/vsnprintf.c:251-262 | a precision comes out below -1 if and only if its last star took a negative argument and has digits other than nines behind it |
| `Directives.UndefinedMeansFails` | usr/klibc/vsnprintf.c:192-479 | the output of a format is undefined if and only if a string conversion with such a precision is reached, told from the format and the arguments alone |
| `Directives.PrintableMeansText` | usr/klibc/vsnprintf.c:192-479 | a format has an output if and only if no directive in it fails |
| `Directives.StarAndDigit` | usr/klibc/vsnprintf.c:251-262 | a star, one digit and a string conversion: printable if and only if the argument is not negative or the digit is a nine |
| `Directives.FailingExample` | usr/klibc/vsnprintf.c:406-436 | `%.*5s` fails on every negative argument |
| `Vsnprintf.Vsnprintf` | usr/klibc/vsnprintf.c:168-488 | for every n and every format and argument list in which no string conversion ends up with a precision below -1: the first n - 1 characters of the unbounded output, a NUL, nothing written beyond, and the full length returned; `Spelling.DirectiveMeans` and `Conversions` say what the unbounded output is |
| `Strntoumax.DigitValMeans` | usr/klibc/strntoumax.c:11-22 | digits and letters of either case are worth their place in the row 0 to 9, a to z; no other character is a digit |
| `Strntoumax.SpaceCodes` | usr/klibc/ctypes.c:10-183 | the characters that count as spaces are 8 to 13, 32 and 160 |
| `Strntoumax.SkipSpaces` | usr/klibc/strntoumax.c:30-33 | where the spaces end |
| `Strntoumax.ReadRadix` | usr/klibc/strntoumax.c:45-63 | base and prefix, for base 0 and base 16 |
| `Strntoumax.ReadDigits` | usr/klibc/strntoumax.c:65-69 | the wrapping accumulator is the exact number modulo 2^64 |
| `Strntoumax.Strntoumax` | usr/klibc/strntoumax.c:24-76 | the value and end of the numeral in at most n characters, stopping at a NUL |
| `Strntoumax.ReadingUnique` | usr/klibc/strntoumax.c:24-76 | a text has only one reading |
| `RoundTrip.LeadingDigit` | usr/klibc/vsnprintf.c:67-72 | a zero leads if and only if there is more room than digits |
| `RoundTrip.DigitsRead` | usr/klibc/vsnprintf.c:151-156 | the digits printed for a number write that number |
| `RoundTrip.ReadParts` | usr/klibc/strntoumax.c:24-76 | how padding, sign, prefix, digits and the rest are read, in a given base or one announced by the prefix |
| `RoundTrip.ReadIntText` | usr/klibc/vsnprintf.c:44-166 | what strntoumax reads from the output of format_int, for all flags, widths and precisions |
| `RoundTrip.PrintedReadsBack` | usr/klibc/strntoumax.c:24-76 | printing and reading gives the value back modulo 2^64, for all 64-bit values and bases 2 to 16, and for base 0 after %#x and %#o, if and only if no tick mark was printed or the value is zero |
| `RoundTrip.TickedExample` | usr/klibc/vsnprintf.c:87-95 | 1000 printed with tick marks is not read back |
| `RoundTrip.ReadDecimal` | usr/klibc/strntoumax.c:45-56 | what is read from decimal output when the base is left open: all digits, or only octal ones behind a leading zero |
| `RoundTrip.DecimalReadsBack` | usr/klibc/strntoumax.c:45-56 | it is the value if and only if the value is zero, or no tick mark was printed and either no zero leads or the magnitude is below eight |
| `KList0.Links.Init` | include/klist0.h:58-59 | a ring of one node; all other links untouched |
| `KList0.Links.Empty` | include/klist0.h:125-128 | true if and only if the ring has no other node |
| `KList0.Links.Prepend` | include/klist0.h:66-73 | the node is in the ring just before the given one, or at the tail if that is the head; other nodes untouched |
| `KList0.Links.Append` | include/klist0.h:80-88 | the node is in the ring just after the given one; other nodes untouched |
| `KList0.Links.Unlink` | include/klist0.h:96-102 | the ring without the node, and the node a ring of its own |
| `DeltaList.DueIncreases` | kernel/timecore.c:86-112 | due times increase strictly along the list |
| `DeltaList.PlaceMeaning` | kernel/timecore.c:86-112 | the new interval goes behind exactly those due earlier |
| `DeltaList.InsertGivesDelay` | kernel/timecore.c:77-122 | the caller of tsleep has exactly `delay` ticks left, in an interval due then if there is one |
| `DeltaList.InsertKeepsOthers` | kernel/timecore.c:89-104 | every other interval keeps its queue and its remaining time |
| `DeltaList.InsertKeepsOrdered` | kernel/timecore.c:89-111 | only the first interval may be due at once, before and after |
| `DeltaList.CountdownDue` | kernel/timecore.c:57-65 | every interval comes one tick closer, or the first is released and the others keep their time |
| `Queues.RotateKeeps` | kernel/sched0.c:104-106 | moving the head to the tail leaves every thread in its queue |
| `Queues.MoveKeeps` | include/thread.h:91-137 | taking a thread from one queue and putting it at an end of another moves that thread and no other |
| `Scheduling.WakeKeepsInv` | kernel/sched0.c:40-62 | the first thread of the queue moves to the run queue, and nothing else moves |
| `Scheduling.LeaveBugs` | kernel/sched0.c:72-78 | the bug checks of sched0_dequeue fire if and only if the caller is not on the run queue or is alone there |
| `Scheduling.LeaveKeepsInv` | kernel/sched0.c:64-90 | the current thread moves to the given queue, and nothing else moves; no bug check fires |
| `Scheduling.SwitchKeepsInv` | kernel/sched0.c:93-135 | tick and yield keep the invariant, and the quantum stays between 1 and 100 |
| `Scheduling.SleepKeepsInv` | kernel/timecore.c:77-124 | the critical section of tsleep keeps the invariant and moves the caller alone |
| `Scheduling.DrainKeepsInv` | kernel/timecore.c:69-72 | the wake-up loop moves all sleepers of the interval to the run queue, and no other thread; none is in the queue that is freed |
| `Scheduling.UpdateKeepsInv` | kernel/timecore.c:51-75 | update_timers counts the list down and moves the sleepers of a released interval, and no other thread |
| `Scheduling.NextKeepsInv` | kernel/sched0.c:40-135 | no step sets off a bug check and every step keeps the invariant, if one thread never leaves the run queue |
| `Scheduling.NextConserves` | kernel/sched0.c:40-135 | the threads queued after a step are those queued before, and a new one if one was made |
| `Scheduling.RunKeepsInv` | kernel/sched0.c:40-135 | over every interleaving of enqueue, dequeue, tick, yield, tsleep, update_timers and thread creation: no bug check fires, each thread is in one queue at one place, none is lost |
| `Sleeping.SleepGivesDelay` | kernel/timecore.c:77-124 | after tsleep(delay) the caller sleeps with exactly `delay` ticks left |
| `Sleeping.SleepKeepsSleep` | kernel/timecore.c:86-112 | another thread going to sleep leaves a sleeper its time |
| `Sleeping.UpdateAndSleep` | kernel/timecore.c:51-75 | an update takes one tick off every sleeper or wakes those of the first interval |
| `Sleeping.NotEarly` | kernel/timecore.c:51-75 | over every interleaving a sleeper sleeps on as long as there have been no more updates than it had ticks left |
| `Sleeping.TsleepNotEarly` | kernel/timecore.c:77-128 | no caller of tsleep(delay) is released before the update number delay + 1 |
| `Sleeping.SleepsOn` | kernel/timecore.c:51-75 | without further sleeps a sleeper with d ticks left at position i sleeps through d + i updates |
| `Sleeping.WakesExactly` | kernel/timecore.c:51-75 | and is on the run queue after exactly one more |
| `Waiting.RunQueueAfter` | kernel/sched0.c:40-135 | the run queue after any step: woken threads first, head to tail on a turn, and head to tail after the current thread has left |
| `Waiting.WaitQueueAfter` | kernel/sched0.c:40-90 | every wait queue after any step: its first thread gone if it was woken, the current one behind the others if it came to wait, nothing else |
| `Waiting.WokenInOrder` | kernel/sched0.c:40-90 | over every run the threads of a wait queue that no timer uses are woken in the order in which they came |
| `Waiting.PositionAfter` | kernel/sched0.c:40-135 | the exact position of every other thread after any step |
| `Waiting.MovesUp` | kernel/sched0.c:93-135 | while no thread is woken and none leaves, every turn brings a waiting thread one place on |
| `Waiting.RunsAtItsTurn` | kernel/sched0.c:93-135 | the thread at position k is switched to by turn number k + 1 and by none before |
| `Waiting.OvertakenByWoken` | kernel/sched0.c:52-57 | a thread is overtaken by exactly the threads that a step wakes, as long as it does not go to the tail itself |
| `Waiting.DepartureCostsFirst` | kernel/sched0.c:75-80 | a departure switches to no one but moves the first thread left to the tail; no other loses its place |
| `Preemption.QuantumAfter` | kernel/sched0.c:52-135 | the quantum of every thread after any step: one less for the current thread on a tick that is not a turn, 100 for those that wake, leave or are switched from, and the same for all others |
| `Preemption.TurnAtOne` | kernel/sched0.c:100 | a tick is a turn if and only if one tick of the quantum is left |
| `Preemption.TicksCountDown` | kernel/sched0.c:93-116 | n ticks in a row, fewer than the quantum, take n off it and switch to no one |
| `Preemption.TurnAtQuantum` | kernel/sched0.c:93-116 | with q ticks of the quantum left, tick number q in a row is a turn and none before is |
| `Preemption.QuietQuantum` | kernel/sched0.c:93-135 | a step that is no turn, wakes no thread and sees none leave keeps the current thread and takes one off its quantum on a tick, nothing otherwise |
| `Preemption.SwitchedWithin` | kernel/sched0.c:93-135 | over every such run with 100 * k ticks and those left of the current quantum, the thread at position k is switched to |
| `Preemption.RunsWithin` | kernel/sched0.c:93-135 | over every such run the thread at position k is switched to within 100 * (k + 1) ticks |
| `Threads.PutLinked` | include/thread.h:91-110 | inserting a thread keeps every other ring, and krunq_head names the ring of every queued thread |
| `Threads.TakeLinked` | include/thread.h:115-122 | removing a thread keeps every other ring and leaves the thread alone |
| `Kernel.Kernel.InsertHead` | include/thread.h:91-98 | the thread is first in the ring of the queue, and krunq_head names it |
| `Kernel.Kernel.InsertTail` | include/thread.h:103-110 | the thread is last in the ring of the queue, and krunq_head names it |
| `Kernel.Kernel.RemoveThread` | include/thread.h:115-122 | the thread leaves the ring that krunq_head names |
| `Kernel.Kernel.RemoveHead` | include/thread.h:127-137 | the first thread of the queue, or none if it is empty |
| `Kernel.Kernel.RemoveTail` | include/thread.h:142-152 | the last thread of the queue, or none if it is empty |
| `Kernel.Kernel.Enqueue` | kernel/sched0.c:40-62 | takes the wake step; true if and only if there was a thread to wake |
| `Kernel.Kernel.Dequeue` | kernel/sched0.c:64-90 | takes the leaving step |
| `Kernel.Kernel.Tick` | kernel/sched0.c:93-116 | takes the tick step, which counts the quantum down or makes the turn, the switch left to the end of the interrupt |
| `Kernel.Kernel.TickInterrupt` | arch/i386/asm/irq.S:51-55 | takes the tick step, switch included; `Preemption.TurnAtQuantum` says at which tick that is |
| `Kernel.Kernel.Yield` | kernel/sched0.c:118-135 | takes the yield step |
| `Kernel.Kernel.FindPlace` | kernel/timecore.c:86-112 | the search loop stops where the sleep belongs, with what is left of the delay |
| `Kernel.Kernel.NewInterval` | kernel/timecore.c:96-101 | the new interval is in the timer ring at its place |
| `Kernel.Kernel.Tsleep` | kernel/timecore.c:77-124 | takes the sleep step |
| `Kernel.Kernel.WakeAll` | kernel/timecore.c:69-72 | empties the queue of a released interval and gives it up |
| `Kernel.Kernel.UpdateTimers` | kernel/timecore.c:51-75 | takes the update step |
| `Kernel.Kernel.Create` | kernel/fork.c:48-61 | a new thread in a queue of its own |
| `Kernel.Kernel.Start` | kernel/init.c:120-128 | the first thread puts itself on the run queue, which establishes the invariant with it as the thread that never leaves |
| `CombSort.NewGap` | usr/klibc/qsort.c:11-20 | the gap shrinks strictly from anything above 1, the jump of 9 and 10 to 11 and the wrap-around of the product included |
| `CombSort.GapRatio` | usr/klibc/qsort.c:11-20 | as long as the product does not wrap around, a gap becomes ten thirteenths of itself, rounded down, except that nine and ten become eleven |
| `CombSort.BoundStaysInside` | usr/klibc/qsort.c:34-36 | the 32-bit bound of the inner loop keeps it inside the array if and only if there is an element |
| `CombSort.SwapRemovesInversion` | usr/klibc/qsort.c:34-39 | swapping two neighbours out of order removes exactly one inversion |
| `CombSort.Pass` | usr/klibc/qsort.c:31-40 | one pass permutes; without a swap all pairs at that distance are in order; a swap at gap 1 lowers the inversions |
| `CombSort.Qsort` | usr/klibc/qsort.c:22-42 | terminates and leaves a sorted permutation, for every total preorder and at least one element |
| `Division.Justify` | usr/klibc/libgcc/__udivmoddi4.c:13-17 | the denominator shifted until its top bit is set, with the matching quotient bit |
| `Division.UDivMod` | usr/klibc/libgcc/__udivmoddi4.c:4-32 | quotient and remainder with num = quot * den + rem and rem < den, for every denominator but zero |

## Left out

- Sha1Stream.Context.Update: takes lengths up to where the 32-bit test is right, which `Sha1Stream.BlockTestIsExact` shows to be the exact bound.
- Sha1Stream.HashPieces: pieces of at most 2^32 - 64 bytes, within that bound for every fill level.
- CombSort.Qsort: not for zero elements, where the source runs past the array, as `CombSort.BoundStaysInside` shows; element size and address arithmetic are not modelled.
- Vsnprintf.Vsnprintf: not for a string conversion whose precision comes out below -1, for which the source has no output; `Directives.UndefinedMeansFails` says when that is. Overflow of widths and precisions beyond `int` and the narrowing of the result to `int` are not modelled.
- Vsnprintf.EmitConversion: `%n` takes its argument and prints nothing, but its store is not modelled.
- Vsnprintf.EmitText: not for a precision below -1, from which the source would count down without end.
- Heap.NeedIsAligned: does not model overflow of `size_t` in the rounded request.
- Malloc.Arena.Deallocate: for pointers that `malloc` returned and that are still in use; the checks under `DEBUG_MALLOC` and the `mmap` branch are not modelled.
- PageAlloc.Zone.FreePages: for pages that open a used pile. The free lists are sequences here; the links under them are those of module `KList0`. The `area_list` of a page is not modelled.
- PageAlloc.Zone.constructor: the counter of free pages, the global list of zones, addresses of pages and printing are not modelled.
- Kernel.Kernel.Tsleep: the allocation of an interval succeeds; what the source does when it fails is not modelled.
- Kernel.Kernel.Dequeue: where a bug check would fire, the model requires that it does not; `Scheduling.LeaveBugs` says when that is, and `Scheduling.RunKeepsInv` that it does not happen.
- Spelling.DirectiveMeans: for the spellings that C describes; several stars or stars next to digits are read as the source reads them (`Format.Render`), but are not told in these terms.
- Spinlocks and interrupt flags: each locked section is one step. `last_tick`, priorities and the system-wide list of threads are not modelled.
- The unrolled loops of the checksums (DO8, DO16, DOLIT32) are written as loops, and the reduction without division (NO_DIVIDE) is not modelled.
- Crc32.MakeCrcTable: the byte-reversed tables, which only the big-endian branch uses.
- Crc32.Crc32Entry: the big-endian branch `crc32_big`, the mirror image of the little-endian case.
- KernelBrk.HandBacksRefused: for requests so large that the kernel's 32-bit sum wraps around, the limit can come back to zero, and a hand-back can then succeed.
- Wiping of the SHA-1 context after the digest, and the base-64 output of the program around it.
- `deflate` and `compress`: they rest on files that are not part of the repository.
- Slices, `galloc`, `kqueue`, memory areas, file systems, drivers, loaders and assembly.
- Signed division wrappers and the other conversions of the C library.
