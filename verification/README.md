# Verified models of the Oat repository's core algorithms

This project models the parts of the repository that carry state, loops and arithmetic with hard
correctness properties, and proves those properties. Each part is a module or a small group of them.

| part | modules | what it models |
|---|---|---|
| BrainF compiler | `BrainFSource`, `BrainFFacts`, `BrainFIR`, `BrainFCode`, `BrainFCompiler`, `BrainFCorrect`, `BrainFTheorems`, `BrainFSsa` | the source language, a block/phi target with its machine, the one-pass compiler as a class whose methods append to blocks in place, and the proof that its output means what the text means |
| SoftBound/CETS runtime | `Temporal`, `FreeMap`, `HeapWrappers`, `MetadataTrie`, `QSort`, `ShadowStack` | locks and keys with the free list threaded through lock cells, the linear-probing free map with tombstones, `malloc`/`free`/`realloc` as their clients, the two-level metadata trie and its copying, the sort that moves metadata with bytes, and the shadow stack |
| Measurement engine | `Blake2sMixing`, `Blake2s`, `Measurement` | BLAKE2s as a streaming state, and the path of an event from the normal world to a digest and two blobs |
| JIT example | `Barrier` | the mutex and condition-variable barrier as interleaved steps of any number of threads |
| Symbol extraction | `Itanium` | the mutually recursive scanners for nested names, as recursive functions and as the loops that run them |
| Syringe pump controller | `Sha1`, `Base64` | streaming SHA-1 and the index-driven Base64 encoder |

Where the original updates an object, a buffer or a table in place, the model is a class (or a method
over an array) and each method is proved against a function of its old state; what the original
promises is then proved of those functions. A method often takes ghost parameters that name values for its
contract; they have no effect. Longer bodies of the original are cut into several methods at the places
where a contract can be stated.

Machine words are bounded explicitly: 32-bit words of the hash functions are bit-vectors, counters
and addresses are integers with their wrap-around or their range written out. Memory that was never
written reads as zero, as fresh `mmap` memory does. Where the code and its comments disagree the
model follows the code, with these exceptions, where the text does not compile or can never succeed
as written: the dispatch in `hello_world_ta.c:300-309` is read as the `else if` chain it is meant to be, with
`CFV_EVENT_HINT_CONDBR` for the undeclared `CFV_EVENT_CONDBR`, and the parameter-type checks there are left
out. What line 297 stores for a branch is the truth value of `a == 1`, not a letter.

Some definitions are reached through a function-valued parameter or ghost field (`Blake2sState.f`,
`Sha1Context.f`, `Enclave.h`, the alphabets and groups of `Base64`). That keeps bit-level bodies out of the
proofs about streaming and grouping; `Faithful`, `Genuine` and `IsTable` say that they are the real functions, and
the constructors establish it.

## Main results

- **Meaning preserved.** For every bracket-balanced text, tape size and input, the compiled function and
  the source agree on tape, head, input consumed and output, fault together, and stop together
  (`SemanticPreservation`, `StopTogether`); when they do not stop they write the same for ever (`EndlessOutput`).
  `Parse` accepts exactly the balanced texts.
- **Well-formed code.** Every block has one terminator, every phi one entry per predecessor, and every
  definition dominates its uses (`ProgramWellFormed`).
- **Bounds.** With the flag the error block is reached exactly when a maximal run of moves ends off the tape
  (`CheckedIsSafe`), and an access goes off it uncaught exactly when there is no memory at all and the first command
  is not a move (`StuckExactly`, with `EmptyTapeIsUnsafe` for the smallest such program).
- **Temporal safety.** Over whole runs the check passes exactly for live handles, as long as keys stay
  below the addresses of the lock region (`TemporalSafety`); with one key more it fails (`KeyBoundIsSharp`).
- **Free map.** Adding succeeds exactly while there is room, live pointers stay reachable, strangers
  abort, over every legal history (`AddSucceeds`, `LegalRunsSucceed`, `StrangersAbort`).
- **Heap wrappers.** In every run that frees and reallocates only what it holds, checks pass exactly for held
  blocks and stack frames (`HeapDiscipline`). C allows such programs, and yet the runtime aborts them: exactly when
  the free map is full, at a `realloc` of null, and at a `realloc` that fails (`AbortsExactly`, with
  `FailedReallocAborts` for the input). `StaleFree` says when freeing with a dead handle goes unnoticed, and what
  that does to live blocks; `StaleFreeHarms` is a run in which it does, for every size of the free map.
- **Trie and copying.** The trie is the flat map of its slots. `CopyMetadata` says what every slot has after a copy
  and, by a condition on the trie before it, exactly when a copy is complete. It is not when a bulk copy finds no
  source table (`StaleCopy`), nor when a copy slot by slot begins inside its own source (`RepeatingCopy`), which
  `realloc` can bring about, since it passes the new size.
- **Sorting.** For any base and element size `MyQsort` permutes the elements and leaves them in order, with their
  metadata when elements fill whole slots, and touches nothing else.
- **Hashes.** BLAKE2s and SHA-1 give the digest of the concatenation for every split into updates
  (`Blake2s.Stream`, `Sha1.Stream`), and the BLAKE2s rounds are a bijection (`MixingIsABijection`).
- **Measured runs.** The storage gains exactly the digest, targets and outcomes of the events between start
  and quote, whatever the buffer sizes (`Execute`, `MeasuredRun`). An event type wider than 32 bits is cut when it
  crosses; `MisreadExactly` and `MeasuredRun` say exactly when that changes an event, or what a run leaves behind.
- **Barrier.** Safe in every interleaving, never deadlocked, and every run ends after exactly
  `4(N + 1) - 1` steps (`BarrierIsSafe`, `NoDeadlock`, `EveryRunEnds`).
- **Round trips.** Nested names, printed in the order of section 5.1 of the Itanium C++ ABI, parse back exactly when
  a substitution stands directly behind the N and takes no arguments, and no argument is a function type or an
  argument pack (`NestedParsesExactly`); `FunctionTypeLost`, `QualifiedSubstitutionMistaken` and `ArrayBoundFails` are
  names on which the scanners fail. Base64 decodes back (`RoundTrip`).

## Model

| member | source | states |
|---|---|---|
| BrainFFacts.ReadingIsUnique | oat-llvm40/examples/BrainF/BrainF.cpp:12-22 | a text, comments included, denotes at most one program |
| BrainFFacts.ReadIsBalanced | oat-llvm40/examples/BrainF/BrainF.cpp:12-22 | a text that denotes a program has matched brackets |
| BrainFFacts.CoalesceIsMaximal | oat-llvm40/examples/BrainF/BrainF.cpp:344-380 | in coalesced commands no two neighbours are moves and no two are changes: each is a maximal run |
| BrainFFacts.CoalesceExec | oat-llvm40/examples/BrainF/BrainF.cpp:344-380 | replacing runs by their net command changes nothing that unchecked execution does: output, input consumed, tape, head, fault, or running on |
| BrainFFacts.CheckedExec | oat-llvm40/examples/BrainF/BrainF.cpp:253-275 | while no run leaves the tape, checked execution is unchecked execution, and on a tape of at least one byte it never faults |
| BrainFFacts.OneOutcome | oat-llvm40/examples/BrainF/BrainF.cpp:12-22 | a run that ends has one outcome, however many rounds it is allowed: every bound by which it has ended gives the same, and so does every larger one |
| BrainFFacts.CoalesceIsSmall | oat-llvm40/examples/BrainF/BrainF.cpp:344-380 | net counts stay below the length of the text, so they fit the 32-bit counter |
| BrainFCompiler.BrainF.constructor | oat-llvm40/examples/BrainF/BrainF.cpp:65-190 | the entry block sets up tape, limit and head; the end and error blocks are complete; writing starts behind the set-up |
| BrainFCompiler.BrainF.Emit | oat-llvm40/examples/BrainF/BrainF.cpp:209-244 | one instruction is appended to the block being written, which has no terminator yet; no other block changes |
| BrainFCompiler.BrainF.Terminate | oat-llvm40/examples/BrainF/BrainF.cpp:268-274 | a block gets its terminator once |
| BrainFCompiler.BrainF.WriteRead | oat-llvm40/examples/BrainF/BrainF.cpp:209-224 | the code of a read lies at the point of writing, and writing goes on behind it with the same head |
| BrainFCompiler.BrainF.WriteWrite | oat-llvm40/examples/BrainF/BrainF.cpp:226-244 | the same for a write |
| BrainFCompiler.BrainF.WriteChange | oat-llvm40/examples/BrainF/BrainF.cpp:278-290 | the same for a run of changes |
| BrainFCompiler.BrainF.WriteMove | oat-llvm40/examples/BrainF/BrainF.cpp:246-276 | the same for a run of moves, with the check and the new block when bounds are checked |
| BrainFCompiler.BrainF.WriteCheck | oat-llvm40/examples/BrainF/BrainF.cpp:254-274 | two unsigned comparisons and their disjunction branch to the error block or to a new block, where writing goes on |
| BrainFCompiler.BrainF.OpenLoop | oat-llvm40/examples/BrainF/BrainF.cpp:292-308 | the test block begins with a phi that has one entry so far, from the block before the loop; writing goes on in the body |
| BrainFCompiler.BrainF.CloseLoop | oat-llvm40/examples/BrainF/BrainF.cpp:432-464 | the phi gets its second entry, from the end of the body; the test block is completed and the phi behind the loop written |
| BrainFCompiler.BrainF.ReadChar | oat-llvm40/examples/BrainF/BrainF.cpp:328-423 | after each character the symbols held denote exactly the text read so far, and a run goes on only while its kind repeats |
| BrainFCompiler.Take | oat-llvm40/examples/BrainF/BrainF.cpp:338-421 | one command character either extends the run, becomes current, or is read ahead; nothing read is lost |
| BrainFCompiler.BrainF.Fetch | oat-llvm40/examples/BrainF/BrainF.cpp:324-423 | the reading loop stops with a current symbol, and with one symbol read ahead exactly behind a run |
| BrainFCompiler.BrainF.WriteOut | oat-llvm40/examples/BrainF/BrainF.cpp:204-290 | writing out a symbol extends the compiled commands by the command it stands for |
| BrainFCompiler.BrainF.WriteLoop | oat-llvm40/examples/BrainF/BrainF.cpp:292-312 | a nested call consumes exactly through the matching bracket and leaves the compiled loop behind |
| BrainFCompiler.BrainF.Turn | oat-llvm40/examples/BrainF/BrainF.cpp:202-424 | one turn of the outer loop keeps what is read and what is written in step and leaves less to do |
| BrainFCompiler.BrainF.Finish | oat-llvm40/examples/BrainF/BrainF.cpp:426-475 | the end of a loop or of the program: which of the two aborts happens, and otherwise that the code is complete |
| BrainFCompiler.BrainF.Readloop | oat-llvm40/examples/BrainF/BrainF.cpp:192-476 | the text consumed denotes the commands returned, up to the closing bracket or the end; the code written is that of their coalesced form; aborts report an excess or a lack of brackets |
| BrainFCompiler.Parse | oat-llvm40/examples/BrainF/BrainF.cpp:60-476 | the compiler accepts exactly the balanced texts, and what it returns is then the program for the commands that the text denotes |
| BrainFCorrect.CheckIsExact | oat-llvm40/examples/BrainF/BrainF.cpp:256-266 | the emitted comparisons, on wrapped 64-bit addresses, see precisely whether the head is off the tape after a move of less than 2^31 |
| BrainFCorrect.SimRead | oat-llvm40/examples/BrainF/BrainF.cpp:209-224 | running the code of a read does what the read means, the fault off the tape included |
| BrainFCorrect.SimWrite | oat-llvm40/examples/BrainF/BrainF.cpp:226-244 | the same for a write |
| BrainFCorrect.SimChange | oat-llvm40/examples/BrainF/BrainF.cpp:278-290 | the same for a change, modulo 256 |
| BrainFCorrect.SimMove | oat-llvm40/examples/BrainF/BrainF.cpp:246-276 | the same for a move, into the error block exactly when the checked head is off the tape |
| BrainFCorrect.SimTest | oat-llvm40/examples/BrainF/BrainF.cpp:292-312 | entering the test block from either side runs the loop as the source does, for any number of rounds |
| BrainFCorrect.SimSeq | oat-llvm40/examples/BrainF/BrainF.cpp:192-476 | compiled commands, run from their start, follow the source whatever it does |
| BrainFTheorems.SemanticPreservation | oat-llvm40/examples/BrainF/BrainF.cpp:192-476 | without the flag, for every text, tape size, input and number of rounds: same final tape, head, rest of input and output; or both still running, with the same tape, input and output; or both at a fault |
| BrainFTheorems.EndlessOutput | oat-llvm40/examples/BrainF/BrainF.cpp:192-476 | a program that never ends writes the same for ever: what the function has written after k steps is a beginning of what the source has written in k rounds, and later it has written precisely that |
| BrainFTheorems.StopTogether | oat-llvm40/examples/BrainF/BrainF.cpp:192-476 | the function stops if and only if the source ends, with the flag and without |
| BrainFTheorems.CheckedIsSafe | oat-llvm40/examples/BrainF/BrainF.cpp:118-127 | with the flag and at least one byte no run gets stuck, and with any memory, even none, the complaint is made if and only if some maximal run of moves ends off the tape |
| BrainFTheorems.StuckExactly | oat-llvm40/examples/BrainF/BrainF.cpp:118-127 | with the flag, some run gets stuck if and only if there is no memory and the first command is not a move |
| BrainFTheorems.FlagIsInvisible | oat-llvm40/examples/BrainF/BrainF.cpp:253-275 | while the head stays on the tape the functions with and without the flag end alike, as the source does |
| BrainFTheorems.EmptyTapeIsUnsafe | oat-llvm40/examples/BrainF/BrainF.cpp:118-127 | the smallest such program: with no memory, a lone write gets stuck in spite of the flag |
| BrainFSsa.EdgesInside | oat-llvm40/examples/BrainF/BrainF.cpp:192-476 | code for a stretch of commands branches only to blocks made for it, to the end block or to the error block |
| BrainFSsa.GateDominates | oat-llvm40/examples/BrainF/BrainF.cpp:292-312 | a stretch is entered only through its first block, which dominates the blocks inside |
| BrainFSsa.ProgramWellFormed | oat-llvm40/examples/BrainF/BrainF.cpp:192-476 | one terminator for each block, one entry for each predecessor in each phi, one definition for each register, dominating its uses |
| Temporal.Runtime.constructor | oat-trampoline-lib/softboundcets.c:61-72 | the state in which the runtime starts: no free lock, both lock regions unused, keys from 2 |
| Temporal.Runtime.AllocateLockLocation | oat-trampoline-lib/softboundcets.h:1086-1113 | the newest freed lock is used again, or else the next new one |
| Temporal.Runtime.MemoryAllocation | oat-trampoline-lib/softboundcets.h:1192-1198 | an allocation takes the next key and writes it to its lock |
| Temporal.Runtime.MemoryDeallocation | oat-trampoline-lib/softboundcets.h:1066-1084 | a freed lock holds the link to the locks freed before it |
| Temporal.Runtime.StackMemoryAllocation | oat-trampoline-lib/softboundcets.h:1176-1190 | a stack allocation takes the next key and the next stack lock |
| Temporal.Runtime.StackMemoryDeallocation | oat-trampoline-lib/softboundcets.h:1052-1064 | the newest stack lock is cleared and given back |
| Temporal.Runtime.DereferenceCheck | oat-trampoline-lib/softboundcets.h:977-1016 | a dereference passes exactly when the lock holds the key |
| Temporal.StepInv | oat-trampoline-lib/softboundcets.h:1052-1113 | every allocation and free keeps the free list linked, acyclic and apart from live locks, live locks unshared, and keys unrepeated |
| Temporal.RunsInv | oat-trampoline-lib/softboundcets.h:1052-1113 | so does every run |
| Temporal.CheckIsExact | oat-trampoline-lib/softboundcets.h:977-1016 | in any such state, with keys below the lock addresses, the check of an issued handle passes if and only if the handle lives |
| Temporal.TemporalSafety | oat-trampoline-lib/softboundcets.h:977-1113 | the same after any run from the start, whatever is allocated and freed in between and however locks are used again |
| Temporal.FreedCheck | oat-trampoline-lib/softboundcets.h:1066-1084 | what a free does to the check of every handle ever issued: while keys stay below the lock addresses, the check of the handle freed fails and no other changes |
| Temporal.KeyBoundIsSharp | oat-trampoline-lib/softboundcets.h:1066-1113 | one key beyond the bound there is, in every layout with room for two heap locks and a stack lock, a run that ends with a dead handle that passes |
| FreeMap.FreeMapTable.AddToFreeMap | oat-trampoline-lib/softboundcets.h:1216-1244 | the probing loop writes the pointer where the specification does, or aborts, as it does on a null pointer, and in how many probes |
| FreeMap.FreeMapTable.CheckRemoveFromFreeMap | oat-trampoline-lib/softboundcets.h:1247-1291 | the probing loop marks the slot that the specification does, or aborts, within one probe more than there are slots |
| FreeMap.AddFinds | oat-trampoline-lib/softboundcets.h:1224-1242 | adding fills the first vacant slot on the probe path, and fails only when there is none |
| FreeMap.RemoveFinds | oat-trampoline-lib/softboundcets.h:1259-1289 | removing marks a slot that holds the pointer with no empty slot before it, and fails only when an empty slot comes before every such slot |
| FreeMap.RemoveSucceeds | oat-trampoline-lib/softboundcets.h:1259-1289 | for any table, key and pointer: removing succeeds if and only if the probe meets the pointer before an empty slot |
| FreeMap.ProbesAll | oat-trampoline-lib/softboundcets.h:1226-1226 | a probe path from any key meets every slot |
| FreeMap.AddSucceeds | oat-trampoline-lib/softboundcets.h:1216-1244 | adding succeeds if and only if the pointer is not null and fewer pointers live than there are slots |
| FreeMap.AddKeeps | oat-trampoline-lib/softboundcets.h:1216-1244 | a legal add succeeds, the live pointers are then the old ones and the new one, and each is still reachable from its key |
| FreeMap.RemoveKeeps | oat-trampoline-lib/softboundcets.h:1247-1291 | removing a live pointer succeeds, drops it alone, and leaves every other one reachable past the tombstone |
| FreeMap.ReplaceKeeps | oat-trampoline-lib/softboundcets-wrappers.c:1605-1607 | removing a block and adding its new place under the same key succeeds even when the table is full |
| FreeMap.LegalRunsSucceed | oat-trampoline-lib/softboundcets.h:1216-1291 | no legal history of adds and removes ever aborts |
| FreeMap.StrangersAbort | oat-trampoline-lib/softboundcets.h:1247-1291 | removing a pointer that does not live aborts, from every key, except that the value 2 is taken for a deleted slot exactly when one is met before an empty slot |
| HeapWrappers.Wrappers.Malloc | oat-trampoline-lib/softboundcets-wrappers.c:1666-1696 | the two structures after an allocation, whether it succeeds, aborts on a full free map, or returns null |
| HeapWrappers.Wrappers.Free | oat-trampoline-lib/softboundcets-wrappers.c:1745-1778 | the lock is given back first and the free map searched then; a pointer it does not find aborts with the lock given back |
| HeapWrappers.Wrappers.Realloc | oat-trampoline-lib/softboundcets-wrappers.c:1580-1612 | lock and key stay; when another pointer comes back, null included, the old one is removed first and the other added then, and a null pointer aborts with the old one removed |
| HeapWrappers.MallocKeeps | oat-trampoline-lib/softboundcets-wrappers.c:1666-1696 | an allocation aborts if and only if the free map is full, and otherwise keeps the link between blocks, handles and the free map |
| HeapWrappers.FreeKeeps | oat-trampoline-lib/softboundcets-wrappers.c:1745-1778 | freeing null or a block that is held never aborts and keeps the link |
| HeapWrappers.ReallocKeeps | oat-trampoline-lib/softboundcets-wrappers.c:1580-1612 | reallocating null or a block that is held aborts if and only if the pointer changes from null or to null, and otherwise keeps the link |
| HeapWrappers.AbortsExactly | oat-trampoline-lib/softboundcets-wrappers.c:1580-1778 | a program that frees and reallocates only null and blocks it holds is aborted if and only if it comes to an allocation with the free map full, a realloc of null, or a realloc that the C library refuses |
| HeapWrappers.FailedReallocAborts | oat-trampoline-lib/softboundcets-wrappers.c:1605-1607 | the failing input: one allocation, and a realloc of it that returns null |
| HeapWrappers.HeapDiscipline | oat-trampoline-lib/softboundcets-wrappers.c:1580-1778 | after any such run the handle of each held block passes its check, and a handle passes only if a held block or a stack frame has it |
| HeapWrappers.StaleFree | oat-trampoline-lib/softboundcets-wrappers.c:1759-1771 | freeing with a dead handle a pointer that lives under another one: it passes if and only if the probe from the dead key meets the pointer before an empty slot; the lock has been given back by then, and a live block passes its check afterwards if and only if its lock is another |
| HeapWrappers.StaleFreeHarms | oat-trampoline-lib/softboundcets-wrappers.c:1759-1771 | the failing input, for every layout and every size of the free map: after an allocation, a free and an allocation at the same address, freeing with the first handle goes through the free map, and the live block fails its check from then on |
| HeapWrappers.ReallocNullAborts | oat-trampoline-lib/softboundcets-wrappers.c:1605-1608 | reallocating a null pointer is aborted, in every state, whatever comes back and under every key |
| MetadataTrie.Trie.constructor | oat-trampoline-lib/softboundcets.h:354-363 | a new trie stands for the map that is zero everywhere, and has no secondary table |
| MetadataTrie.Trie.Table | oat-trampoline-lib/softboundcets.h:770-780 | making a missing secondary table changes nothing that the trie stands for, and no other table |
| MetadataTrie.Trie.MetadataStore | oat-trampoline-lib/softboundcets.h:747-819 | a store changes the flat map at the slot of the address and nowhere else, and makes no table but that of the address |
| MetadataTrie.Trie.MetadataLoad | oat-trampoline-lib/softboundcets.h:899-969 | a load gives the entry of the flat map, zero where there is no table |
| MetadataTrie.Trie.MetadataMap | oat-trampoline-lib/softboundcets.h:824-847 | the address of an entry is that of the slot, when its table is present |
| MetadataTrie.Trie.AllocateRange | oat-trampoline-lib/softboundcets.h:1115-1138 | making the tables for a range is invisible, makes every one of them and no other |
| MetadataTrie.Trie.Allocate | oat-trampoline-lib/softboundcets.h:1140-1173 | making the table of an address and its neighbours is invisible, and makes no other |
| MetadataTrie.Trie.CopySlots | oat-trampoline-lib/softboundcets.h:429-474 | slot by slot, also when the ranges overlap: each destination slot has the entry of the slot it goes back to, through sources that had been written already |
| MetadataTrie.Trie.CopyBulk | oat-trampoline-lib/softboundcets.h:476-509 | in bulk, the destination slots take at once what the source slots held, or nothing when the source has no table |
| MetadataTrie.Trie.CopyMetadata | oat-trampoline-lib/softboundcets.h:398-510 | how many slots a call copies on each path, from where each has its entry, which tables it can make, and that a copy of whole slots is complete if and only if a condition on the trie before it holds |
| MetadataTrie.LastStoreWins | oat-trampoline-lib/softboundcets.h:747-969 | after any stores, a slot holds what was stored to it last |
| MetadataTrie.CopyIsComplete | oat-trampoline-lib/softboundcets.h:398-510 | the condition: slot by slot, the destination does not begin inside the source or the entries repeat anyway; in bulk, the source table exists or the destination was clear |
| MetadataTrie.StaleCopy | oat-trampoline-lib/softboundcets.h:475-480 | the failing run in bulk: on a new trie with one entry at address 0, a copy to there from an address without a table leaves that entry |
| MetadataTrie.RepeatingCopy | oat-trampoline-lib/softboundcets.h:429-474 | the failing run slot by slot: on a new trie with two entries, a block that moves up by 32 bytes over the edge of a table; the word that should get the second entry gets the first |
| QSort.Sorter.ExchangeBytes | oat-trampoline-lib/softboundcets-wrappers.c:2086-2090 | the bytes of two elements trade places, and no other byte changes |
| QSort.Sorter.ExchangeMetadata | oat-trampoline-lib/softboundcets-wrappers.c:2092-2142 | for any addresses and size, the slots of every eighth byte of the two elements are traded in order |
| QSort.Sorter.ExchangeElements | oat-trampoline-lib/softboundcets-wrappers.c:2080-2144 | two elements of the array are exchanged, bytes, and metadata when elements fill whole slots, and everything outside the array stays |
| QSort.Sorter.CompareExchange | oat-trampoline-lib/softboundcets-wrappers.c:2157-2160 | neighbours change places unless they are strictly in order |
| QSort.Sorter.Sink | oat-trampoline-lib/softboundcets-wrappers.c:2156-2160 | an element sinks to its place among those before it |
| QSort.Sorter.MyQsort | oat-trampoline-lib/softboundcets-wrappers.c:2150-2164 | for any base and element size the elements are permuted, and for a total preorder they end in order; with their metadata when elements fill whole slots; bytes and metadata outside the array stay |
| QSort.ItemsExchanged | oat-trampoline-lib/softboundcets-wrappers.c:2080-2144 | exchanging the bytes of two elements, and trading their slots, is exchanging those two elements of the list and changing no other |
| ShadowStack.Stack.constructor | oat-trampoline-lib/softboundcets.c:143-151 | two zero words are an empty bottom frame |
| ShadowStack.Stack.AllocateShadowStackSpace | oat-trampoline-lib/softboundcets.h:255-268 | a new frame lies behind the old ones, which stay; its slots hold what was there before |
| ShadowStack.Stack.Load | oat-trampoline-lib/softboundcets.h:270-304 | a load gives the field of the argument in the top frame |
| ShadowStack.Stack.Store | oat-trampoline-lib/softboundcets.h:306-341 | a store changes that field and no other word of any frame |
| ShadowStack.Stack.DeallocateShadowStackSpace | oat-trampoline-lib/softboundcets.h:343-352 | the frames below are back, and the assertion on the saved size holds |
| ShadowStack.FlatLength | oat-trampoline-lib/softboundcets.h:255-268 | the words in use are the sum of the frame sizes with two words each |
| ShadowStack.FramesDisjoint | oat-trampoline-lib/softboundcets.h:255-268 | frames do not overlap |
| ShadowStack.FrameInPlace | oat-trampoline-lib/softboundcets.h:243-268 | each frame lies at that sum, behind the size of the one below and its own |
| ShadowStack.BelowUntouched | oat-trampoline-lib/softboundcets.h:255-352 | in any run, frames below its lowest depth are the same at its end |
| ShadowStack.Execute | oat-trampoline-lib/softboundcets.h:255-352 | the same for the calls as they are made on the words |
| ShadowStack.CallAndReturn | oat-trampoline-lib/softboundcets.h:255-352 | a call, any nested callee and the return give the caller its pointer, headers and slots back |
| Blake2sMixing.EveryWordRead | oat-measurement-engine-ta/ta/blake2s-ref.c:29-41 | each row of the message schedule lists all sixteen words and none twice, so each round reads every word exactly once |
| Blake2sMixing.GIsABijection | oat-measurement-engine-ta/ta/blake2s-ref.c:148-158 | G has an exact inverse for every two message words |
| Blake2sMixing.MixingIsABijection | oat-measurement-engine-ta/ta/blake2s-ref.c:160-204 | the ten rounds are undone by the inverse schedule, and undo it, for every message block |
| Blake2sMixing.HalfInPlace | oat-measurement-engine-ta/ta/blake2s-ref.c:150-157 | four statements of the macro leave the four words that half of G says, and the other twelve alone |
| Blake2sMixing.Columns | oat-measurement-engine-ta/ta/blake2s-ref.c:160-166 | the first four uses of G in a round, on the columns |
| Blake2sMixing.Diagonals | oat-measurement-engine-ta/ta/blake2s-ref.c:166-170 | the other four, on the diagonals |
| Blake2s.StoredIsLoaded | oat-measurement-engine-ta/ta/blake2s-ref.c:257-258 | loading a stored word gives the word |
| Blake2s.CounterStep | oat-measurement-engine-ta/ta/blake2s-ref.c:61-65 | the carry of the two counter words is that of one long counter |
| Blake2s.CounterExact | oat-measurement-engine-ta/ta/blake2s-ref.c:61-65 | below 2^64 the two words are the number of bytes itself |
| Blake2s.StartLoaded | oat-measurement-engine-ta/ta/blake2s-ref.c:76-146 | the parameter block loads as the word 0x0101kknn and seven zeros, which gives the start value of section 3.3 of RFC 7693 |
| Blake2s.Blake2sState.IncrementCounter | oat-measurement-engine-ta/ta/blake2s-ref.c:61-65 | the counter words advance as the low and high words of the byte count |
| Blake2s.Blake2sState.Compress | oat-measurement-engine-ta/ta/blake2s-ref.c:172-209 | compression in place is the function F of section 3.2 of RFC 7693 |
| Blake2s.Blake2sState.Init | oat-measurement-engine-ta/ta/blake2s-ref.c:93-113 | an unkeyed stream is empty; bad lengths are refused |
| Blake2s.Blake2sState.InitKey | oat-measurement-engine-ta/ta/blake2s-ref.c:115-146 | a keyed stream has absorbed one block, the padded key; bad lengths and a null key are refused |
| Blake2s.Blake2sState.Update | oat-measurement-engine-ta/ta/blake2s-ref.c:214-239 | absorbing appends to the data; all but the last block, full or not, is compressed, and the counter is the bytes compressed |
| Blake2s.Blake2sState.Final | oat-measurement-engine-ta/ta/blake2s-ref.c:241-263 | the bytes written are the closing of everything absorbed, with nothing behind them; refusal of null, of a short buffer and of a second end, with nothing written |
| Blake2s.OneShot | oat-measurement-engine-ta/ta/blake2s-ref.c:265-292 | the one-shot call writes the hash of section 3.3 of RFC 7693 and nothing behind it, or refuses exactly for the bad arguments, null output included, and writes nothing |
| Blake2s.Stream | oat-measurement-engine-ta/ta/blake2s-ref.c:214-263 | for every key of at most 32 bytes, message and split into updates the digest is that of the whole message |
| Measurement.HalvesJoin | oat-trampoline-lib/cfv_bellman.c:190-194 | a 64-bit argument sent in halves is joined to itself |
| Measurement.ReceivedIsNarrowed | oat-measurement-engine-ta/ta/hello_world_ta.c:325-329 | the event received is the one sent with its type cut to 32 bits |
| Measurement.MisreadExactly | oat-trampoline-lib/cfv_bellman.c:190-194 | an event is taken for what it is if and only if its type fits in 32 bits or its low half is none of the four codes |
| Measurement.RunMisreadExactly | oat-trampoline-lib/cfv_bellman.c:190-194 | control records, targets and outcomes of a run arrive as emitted, all three, if and only if every event of it meets that condition |
| Measurement.WideTypeIsHashed | oat-trampoline-lib/cfv_bellman.c:190-194 | an event that is no control event, of type 2^32 + 0x10, is hashed as one |
| Measurement.Enclave.CfaInit | oat-measurement-engine-ta/ta/cfa.c:7-37 | a run begins with an empty hash and empty buffers and leaves the storage alone |
| Measurement.Enclave.ControlEvent | oat-measurement-engine-ta/ta/hello_world_ta.c:156-158 | source and target are absorbed, 16 bytes, low byte first |
| Measurement.Enclave.TraceAddrEvent | oat-measurement-engine-ta/ta/hello_world_ta.c:279-287 | blob and buffer together gain the target, flushed or not |
| Measurement.Enclave.TraceCondEvent | oat-measurement-engine-ta/ta/hello_world_ta.c:289-298 | blob and buffer together gain the outcome, flushed or not |
| Measurement.Enclave.HandleEvent | oat-measurement-engine-ta/ta/hello_world_ta.c:300-309 | each event is accounted for in exactly the hash, the targets or the outcomes, or in none of them |
| Measurement.Enclave.Verify | oat-measurement-engine-ta/ta/hello_world_ta.c:311-335 | the event joined from the parameters is handled |
| Measurement.Enclave.CfaQuote | oat-measurement-engine-ta/ta/hello_world_ta.c:337-364 | the storage has gained the targets, outcomes and digest of the run |
| Measurement.Prover.CfvInit | oat-trampoline-lib/cfv_bellman.c:97-135 | the gate opens and a run begins |
| Measurement.Prover.CfvQuote | oat-trampoline-lib/cfv_bellman.c:137-170 | the run ends and the gate closes |
| Measurement.Prover.HandleEvent | oat-trampoline-lib/cfv_bellman.c:177-202 | events are skipped while the gate is closed, sent while it is open |
| Measurement.Prover.Execute | oat-trampoline-lib/cfv_bellman.c:97-202 | after any disciplined sequence of calls both worlds are as the ledger of finished runs says |
| Measurement.MeasuredRun | oat-trampoline-lib/cfv_bellman.c:97-202 | events before and after do not count; the storage gains the BLAKE2s digest, targets and outcomes of those in between as they arrive, which are those emitted if and only if every type fits or has no code in its low half |
| Barrier.WaitForThreads.UnblockThreads | oat-llvm40/examples/ParallelJIT/ParallelJIT.cpp:219-234 | both counters are reset, and there is then one broadcast, which is not allowed before |
| Barrier.WaitForThreads.Block | oat-llvm40/examples/ParallelJIT/ParallelJIT.cpp:167-192 | the critical section of a worker, whose assertion follows from its precondition, and whether it broadcasts |
| Barrier.WaitForThreads.ReleaseThreads | oat-llvm40/examples/ParallelJIT/ParallelJIT.cpp:197-216 | the critical section of the releaser, and whether it broadcasts |
| Barrier.BroadcastWhenAllWait | oat-llvm40/examples/ParallelJIT/ParallelJIT.cpp:176-181 | a broadcast comes when every other thread waits |
| Barrier.StepKeeps | oat-llvm40/examples/ParallelJIT/ParallelJIT.cpp:167-234 | every step keeps the count of waiting workers, the owner of the mutex and the phase, and meets the assertion |
| Barrier.BarrierIsSafe | oat-llvm40/examples/ParallelJIT/ParallelJIT.cpp:167-234 | in every interleaving the assertion holds, nobody returns before all have arrived, and once all have nobody is left waiting |
| Barrier.NoDeadlock | oat-llvm40/examples/ParallelJIT/ParallelJIT.cpp:167-234 | some thread can always step until all have returned |
| Barrier.EveryRunEnds | oat-llvm40/examples/ParallelJIT/ParallelJIT.cpp:167-234 | no interleaving of N workers and a releaser takes more than 4(N + 1) - 1 steps, and exactly the complete ones take that many |
| Itanium.ParseName | oat-llvm40/utils/extract_symbols.py:224-242 | a name found is not empty and what is left is strictly shorter |
| Itanium.SkipArguments | oat-llvm40/utils/extract_symbols.py:246-276 | what is left behind a template argument list is strictly shorter, so the recursion ends on every input |
| Itanium.ParseParts | oat-llvm40/utils/extract_symbols.py:299-318 | what is left behind a nested name is strictly shorter, and the list only grows |
| Itanium.ParseItaniumName | oat-llvm40/utils/extract_symbols.py:224-242 | the three patterns in order, and nothing consumed when none matches |
| Itanium.SkipItaniumTemplate | oat-llvm40/utils/extract_symbols.py:246-276 | the loop computes the recursive scanner |
| Itanium.ParseItaniumNestedName | oat-llvm40/utils/extract_symbols.py:280-318 | the same for nested names |
| Itanium.NameParses | oat-llvm40/utils/extract_symbols.py:224-235 | a printed name is split off whole if and only if something follows a constructor or destructor; the deleting destructor `D0`, which no pattern of its own takes, needs a following E or a single last character |
| Itanium.ArgumentsSkipped | oat-llvm40/utils/extract_symbols.py:246-276 | a printed argument list of plain arguments, nested to any depth, is skipped exactly |
| Itanium.NumberSkipped | oat-llvm40/utils/extract_symbols.py:253-257 | the bound of an array type, and the number of a template parameter, is taken for a length: exactly what is skipped for every number |
| Itanium.SkipsStack | oat-llvm40/utils/extract_symbols.py:246-276 | the template scanner, exactly, on printed lists with templates, function types and argument packs in each other at any depth: it goes into a bracket and does not come out of it |
| Itanium.NestedParses | oat-llvm40/utils/extract_symbols.py:280-318 | for plain arguments: a printed nested name gives its list of names, each with whether it had arguments, and leaves the rest untouched, if and only if it has no substitution or one directly behind the N and without arguments |
| Itanium.NestedParsesExactly | oat-llvm40/utils/extract_symbols.py:280-318 | the same with function types and argument packs at any depth: parsed back if and only if the prefix is plain and there are none of them |
| Itanium.BracketCutsShort | oat-llvm40/utils/extract_symbols.py:246-318 | a function type or argument pack as the last argument of a component ends the parse at that component, with exactly the components behind it left over |
| Itanium.FunctionTypeLost | oat-llvm40/utils/extract_symbols.py:246-318 | the failing input `N1AIFvvEE1BE`: the last component is lost |
| Itanium.QualifiedSubstitutionMistaken | oat-llvm40/utils/extract_symbols.py:285-297 | the failing input `NKS_3fooE`: the substitution becomes part of the name |
| Itanium.ArrayBoundFails | oat-llvm40/utils/extract_symbols.py:253-257 | the failing input `N1AIA10_iE1BE`: no name at all |
| Sha1.Extend | oat-evaluation/rc-cb/pi_pcm.c:1099-1102 | the schedule is that of section 6.1.2 of FIPS 180-2 |
| Sha1.AllRounds | oat-evaluation/rc-cb/pi_pcm.c:1104-1141 | the four loops compute the eighty rounds of that section |
| Sha1.Sha1Context.DoTransform | oat-evaluation/rc-cb/pi_pcm.c:1093-1148 | a block is folded into the state as that section says |
| Sha1.Sha1Context.Update | oat-evaluation/rc-cb/pi_pcm.c:1165-1178 | absorbing appends to the message; whole blocks are folded in at once |
| Sha1.PaddingIsLeast | oat-evaluation/rc-cb/pi_pcm.c:1186-1198 | the padding is the least that section 5.1.1 of FIPS 180-2 asks for, at every length |
| Sha1.EightBytes | oat-evaluation/rc-cb/pi_pcm.c:1204-1211 | the eight shifts are the big-endian bytes of the length |
| Sha1.LongPadding | oat-evaluation/rc-cb/pi_pcm.c:1192-1198 | with 56 to 63 bytes left over the padding fills this block and goes on in another |
| Sha1.LastBlock | oat-evaluation/rc-cb/pi_pcm.c:1186-1211 | the last block, whether it holds message bytes or not, ends in the length |
| Sha1.Sha1Context.Final | oat-evaluation/rc-cb/pi_pcm.c:1180-1225 | the output is the digest of everything absorbed |
| Sha1.Stream | oat-evaluation/rc-cb/pi_pcm.c:1150-1225 | for every message of less than 2^64 bits and every split into updates, the digest of section 6.1.2 over the padded message |
| Base64.TableIsAlphabet | oat-evaluation/rc-cb/pi_pcm.c:1230-1239 | the table is the alphabet of RFC 4648: each entry has its index as value |
| Base64.Base64Encode | oat-evaluation/rc-cb/pi_pcm.c:1247-1283 | four characters are written for every three bytes begun, the encoding of section 4 of RFC 4648, and nothing behind them |
| Base64.EmittedAll | oat-evaluation/rc-cb/pi_pcm.c:1252-1280 | what the loop writes byte by byte, and what follows it, is the encoding group by group |
| Base64.RoundTrip | oat-evaluation/rc-cb/pi_pcm.c:1247-1283 | strict decoding gives the input back, for every input and both padding cases |

## Left out

- BrainF: the malloc, memset, free and puts calls are single instructions of the target; bitcode writing, the driver, names of values and tail-call flags are not modelled. A function compiled from an unbalanced text is not described, since the compiler aborts.
- BrainFTheorems.SemanticPreservation: for texts of fewer than 2^31 commands, tapes of fewer than 2^31 bytes and tapes that lie below 2^64, because counters and the tape size are 32 bits wide and addresses 64 in the code; standard input is a finite sequence and then end of file.
- Temporal.TemporalSafety: locks of the heap and of the stack are given back in the order the compiled program guarantees, and allocations stay inside the lock regions, which the code checks only in debug builds; `realloc` keeps lock and key and so does not appear.
- HeapWrappers: the pointer that the C library returns is a parameter, and a new one is no address of a live block, nor 2, the mark of a deleted slot; the assertion on null pointers is compiled in. Return metadata on the shadow stack, the metadata that `realloc` copies, `calloc` and the other library wrappers are not part of its runs.
- HeapWrappers.StaleFree: one step from a state of a legal run; what such a program does after it is not followed.
- MetadataTrie.Trie.Allocate: for addresses with a next entry in the primary table, which the code reads and writes without a check.
- MetadataTrie.Trie.CopyMetadata: the slots of a copy in bulk must not overlap, as `memcpy` demands; `realloc` passes the new size and so does not rule that out.
- QSort.Sorter.MyQsort: for at most 2^31 elements, since the inner counter is an `int`; the comparer sees bytes only and does not write. Where elements do not fill whole slots, what becomes of metadata inside the array is said only by `TradedAll`, one exchange at a time.
- ShadowStack.Stack.AllocateShadowStackSpace: the frame must fit in the 4096 words, which the code does not check; argument counts are not negative.
- ShadowStack.Stack.Load: the four loads are one method with the field as a parameter, and so are the four stores.
- Blake2s: tree hashing (the `last_node` flag, never set here), absorbing after the end, and asking a stream that is not at its end for more than 32 bytes, which reads beyond them.
- Measurement.Prover.Execute: a run is begun only when none is under way and ended only when one is; the data-flow events and their hash map are left out, because the map as written never stores a node. Sessions, parameter types, timing and the counters printed are not modelled, and writing to storage succeeds.
- Barrier: no spurious wake-ups, because the waits are not in loops; one release for exactly as many workers as there are; a critical section is one step, since the mutex admits nobody else.
- Itanium.NestedParsesExactly: for length-prefixed names, constructors and destructors, with qualifiers and a substitution, and arguments made of one-character codes, names, substitutions, templates, plain nested names, function types and argument packs. `C` or `D` directly before a length is excluded, since the scanner of names would take them together; numbers above 1 are left to `NumberSkipped`, and nested names as arguments that are not plain themselves are not covered.
- Itanium: operator names, which the scanner only approximates, standard abbreviations such as `St`, ABI tags, unnamed and closure types, local names, `decltype` and vector types, and literal or expression arguments, which it refuses, are not printed. Symbols hold no newline and no digits outside ASCII.
- Sha1: the copy in `rc-orig` has the same functions and is not modelled twice.
- Base64.Base64Encode: for outputs of fewer than 2^31 characters, since the counters are `int`s; the output buffer has room.
- The control programs themselves (GPIO, sockets, JSON, DMA, user interfaces), the Capstone printers, configuration scripts and LLVM headers: I/O, plumbing or little state.
