# Proved models of the simulators

This project models the algorithmic core of the SimpleScalar-based lab code and proves what each part keeps over
every run. `dafny verify dfyconfig.toml` checks all of it.

Most parts come in two layers. A specification on values (sequences, maps, records) says what an operation does and
carries the theorems. Classes with the fields, arrays and links of the C code, updated in place, are proved to
compute that specification; so every theorem also holds of the imperative form.

* **Tomasulo scheduler** (`lab3/tomasulo.c`). `Pipeline` has one function for each stage, `PipelineInvariant` what
  every stage keeps, `PipelineBroadcast`, `PipelineStart`, `PipelineIssue` and `PipelineFetch` the proofs that they
  do, `PipelineRun` whole runs. `PipelineTheorems`, `PipelineTermination`, `PipelineArbitration` and
  `PipelineProgress` hold the results; `Scheduler` is the imperative form with its circular queue. Slot 0 of the trace is a placeholder and
  slots 1.. hold the instructions.
* **Cache** (`lab4/cache.c`). `CacheSpec` is a cache as ordered lists of lines over a flat next level; `CacheMemory`
  proves that it behaves as flat memory, `CacheStack` the LRU stack property, `CacheRecency` that an LRU set holds
  exactly the blocks most recently used, `CacheQueue` what FIFO and random replacement hold, `CacheCount` the conservation of the counters, `CacheUnique` what the linked
  form relies on. `CacheSets` is one set with its way links and hash chains, and `CacheMachine` (in `Cache.dfy`) the
  whole cache with its last-block shortcut. `Prefetchers` and `PatternPrefetcher` say what the three prefetchers learn
  and ask for, `PrefetchTables` updates their tables, and `PrefetchingCache` runs cache and prefetcher together.
* **Simulated memory** (`lab3/memory.c`, `lab3/memory.h`) in `PageTable`; **system-call records and checkpoints**
  (`lab3/eio.c`) on top of it in `Transactions`, `EioTrace`, `EioReplay` and `Checkpoint`.
* **Branch predictors**: `Counters`, `Combining`, `DirectionParts` and `DirectionTables` (direction tables of
  `lab4/bpred.c`),
  `TargetBuffer` and `TargetBufferSet` (its BTB), `ReturnStack` and `StackRecovery` (its return stack); `TwoLevel`
  and `Predictors` (`lab2/predictor.cc`).
* **Evaluator** (`lab3/eval.c`) in `Lexer`, `Expressions` and `Evaluator`; **numerals** (`lab3/misc.c`) in `Numerals`;
  **event queue** (`lab3/eventq.c`) in `EventList` and `EventQueue`; **trace list** (`lab3/instr.c`) in `InstrTrace`.
* **Shared**: `Bits`, `Histories`, `Words`, `Decimals`, `Sequences`, `Recency` and `Wrappers` hold the arithmetic, integer
  widths and small sequence operations that several parts use.

## What the code does that its documentation does not say

Each of these is proved as it is in the code, with the exact condition under which the expected behaviour holds.

* The tracing access function records an access whether it faults or not. A record therefore replays exactly if faulting
  reads left in their buffers what memory holds and, for every address, the last write was done or found its byte there
  (`Transactions.RecordReplays`, `OutputsReplayIff`). System calls go through `mem_bcopy`, `mem_strcpy` and
  `mem_bzero`, which access single bytes; those never fault, so their records always replay (`BytesReplay`,
  `EioReplay.RecordThenReplay`).
* Servicing events at `t1` and then at `t2` leaves the same list, bits and cells as servicing at `t2` alone; callbacks,
  which receive the service time, see the same calls exactly if the times are equal or none was due at `t1`
  (`EventList.TwiceIsOnce`). Events of the same time run newest first.
* Recovering the return stack restores the top only. An entry survives a squashed path, wherever its calls come from,
  exactly if no call of the path reaches the entry's place round the table (`StackRecovery.SurvivesIff`); a path that
  never sinks below its start loses exactly as many of the oldest entries as it stacked at its highest
  (`ClimbingLoses`). A lone return loses nothing; a return and then a call lose the newest entry (`ReturnThenCall`).
* The confidence of the open-ended prefetcher does not settle at its maximum of 7: a constant stride makes it fall back
  to 6 at every other use (`PatternPrefetcher.ConstantStride`). Its limit on the degree and its test for a nonzero
  stride never decide anything (`ConfidenceBounded`).
* A prefetcher's own accesses always miss, since each block is probed first: `prefetch_hits` stays 0 in every run
  without explicit prefetch requests (`CacheCount.Conservation`).
* Random replacement draws a block number and leaves the way list alone, so the specification is given the way-list
  position of the block drawn.
* A look ahead drops an invalid character, since the code for an invalid token also marks an empty peek slot: `1 ? + 2`
  has the value 3 (`Expressions.ExprSound`). A sign after a hexadecimal digit `e` belongs to the constant
  (`Lexer.WordEnds`).
* With base 0 a sign hides the prefix of a hexadecimal numeral, which is then read in base 10 (`Numerals.ReadsSigned`).
* `mem_bcopy4` reports a fault only if it copies at least one word, and drops the bytes after the last whole word
  (`PageTable.Memory.MemBcopy4`). The smallest 64-bit integer round-trips, but with the range error set
  (`Numerals.SignedRoundTrip`).

## Model

| member | source | states |
|---|---|---|
| `PipelineTheorems.ProducersBroadcastFirst` | lab3/tomasulo.c:139-165 | In every run, when an instruction starts executing, the program-order latest earlier Int/Load/Fp writer of each register it reads has broadcast in a strictly earlier, nonzero cycle. |
| `PipelineTheorems.Terminates` | lab3/tomasulo.c:628-679 | For every trace of n instructions the end test holds after some cycle number from 1 to 11(n+1). |
| `PipelineTheorems.DoneIsQuiet` | lab3/tomasulo.c:268-318 | After any cycle the end test is true exactly when nothing is unfetched, queued, waiting, executing or on the bus and no map entry is set. |
| `PipelineTheorems.UnfetchedKeepsQueue` | lab3/tomasulo.c:554-616 | At the end of any cycle, an unfetched slot implies a nonempty queue: the test `fetch_index < sim_insn` never ends a run with a slot left. |
| `PipelineTheorems.CompleteAtEnd` | lab3/tomasulo.c:628-679 | When a run ends every slot was fetched; each instruction that uses a unit has dispatch < issue < execute, and writers broadcast no earlier than their latency allows, others never. |
| `PipelineTheorems.InProgramOrder` | lab3/tomasulo.c:508-544 | Dispatch and issue cycles strictly increase in program order, and no two instructions broadcast in the same cycle. |
| `PipelineTheorems.MapNamesYoungest` | lab3/tomasulo.c:155-165 | A map entry names an instruction if and only if that is the youngest issued writer of the register and its result has not been retired. |
| `PipelineTheorems.UnitsHoldResidents` | lab3/tomasulo.c:414-498 | An instruction is in a unit if and only if it is in a station of the same bank and has started; no station or unit table names an instruction twice. |
| `PipelineTheorems.StampsAreFinal` | lab3/tomasulo.c:349-402 | Over a run each of the four cycle numbers of an instruction is given once, with the number of the current cycle, and never changes. |
| `PipelineArbitration.AlwaysFair` | lab3/tomasulo.c:349-498 | At every point of every run: if a younger instruction of a bank started first, the older lacked an operand then; if a younger writer got the bus first, the older had not finished then. |
| `PipelineArbitration.ReadyLeftMeansBusy` | lab3/tomasulo.c:414-498 | After the start stage a ready instruction is left waiting only if every unit of its bank is busy. |
| `PipelineProgress.HeadIssues` | lab3/tomasulo.c:508-544 | In every cycle of every run the head of the queue leaves it, into a station if it uses a unit, unless every station of its bank is taken even after that cycle's releases. |
| `PipelineProgress.NextIsFetched` | lab3/tomasulo.c:554-616 | In every cycle the next slot that is no trap is fetched and dispatched, unless the queue is full even after that cycle's issue. |
| `PipelineProgress.OldestDueBroadcasts` | lab3/tomasulo.c:349-402 | In every cycle the bus goes to the oldest writer that has executed for its latency and not broadcast, and is empty only if there is none. |
| `PipelineProgress.StartsUnlessHeld` | lab3/tomasulo.c:414-498 | An issued instruction starts in the next cycle unless the true producer of an operand has not broadcast before it or every unit of its bank is busy in it. |
| `PipelineProgress.StationsHeld` | lab3/tomasulo.c:228-259 | After every cycle exactly those issued instructions hold a station that have not broadcast or, without a result, have not executed for their latency. |
| `PipelineArbitration.BroadcastFair` | lab3/tomasulo.c:349-402 | The broadcast stage keeps oldest-first arbitration. |
| `PipelineArbitration.StartKeepsFair` | lab3/tomasulo.c:414-498 | The start stage keeps oldest-first arbitration. |
| `PipelineStart.ReadyIsSafe` | lab3/tomasulo.c:202-226 | An issued instruction whose tags are resolved starts only after its true producers have broadcast, whether its tag named the producer or was empty. |
| `PipelineIssue.TagsCaptured` | lab3/tomasulo.c:139-153 | The tags captured at issue stand for the true producers: the producer itself, or empty if it has broadcast before. |
| `PipelineInvariant.RetireKeeps` | lab3/tomasulo.c:328-338 | Retiring keeps the invariant: the map names exactly the youngest unretired writers. |
| `PipelineBroadcast.BroadcastKeeps` | lab3/tomasulo.c:349-402 | The broadcast stage keeps the invariant and stamps the oldest finished writer alone. |
| `PipelineStart.StartKeeps` | lab3/tomasulo.c:414-498 | The start stage keeps the invariant. |
| `PipelineIssue.IssueKeeps` | lab3/tomasulo.c:508-544 | The issue stage, with popped control instructions and full stations, keeps the invariant. |
| `PipelineFetch.FetchKeeps` | lab3/tomasulo.c:554-616 | Fetch and dispatch keep the invariant: the queue holds exactly the fetched, unskipped, unissued slots in order. |
| `PipelineRun.StagesKeep` | lab3/tomasulo.c:653-670 | One iteration of the main loop keeps the invariant from stage to stage. |
| `PipelineTermination.OldestIsReady` | lab3/tomasulo.c:202-213 | With bus and units idle the oldest waiting instruction is ready. |
| `PipelineTermination.CycleLess` | lab3/tomasulo.c:653-670 | Every cycle of a run that is not over takes weight from some slot and gives none to any. |
| `PipelineTermination.GoesQuiet` | lab3/tomasulo.c:628-679 | From any point of a run nothing is left within as many cycles as there is weight left. |
| `Scheduler.InstrQueue.Push` | lab3/tomasulo.c:107-114 | The circular buffer's contents grow by one at the end. |
| `Scheduler.InstrQueue.Pop` | lab3/tomasulo.c:116-121 | The contents lose their first element. |
| `Scheduler.InstrQueue.Head` | lab3/tomasulo.c:123-127 | The first element, or none. |
| `Scheduler.InstrQueue.Tail` | lab3/tomasulo.c:129-136 | The last element, or none. |
| `Scheduler.Machine.UpdateQFromMapTable` | lab3/tomasulo.c:139-153 | The tags become those of the map table, and no other record changes. |
| `Scheduler.Machine.UpdateMapTable` | lab3/tomasulo.c:155-165 | Exactly the valid outputs' entries become the instruction. |
| `Scheduler.Machine.ReservInsert` | lab3/tomasulo.c:168-200 | The first free station takes the instruction, with tags read before its own outputs are renamed; a full bank changes nothing. |
| `Scheduler.Machine.ClearMapTableEntry` | lab3/tomasulo.c:215-226 | Entries of the outputs that still name the instruction are cleared, no others. |
| `Scheduler.Machine.FreeRsAndFu` | lab3/tomasulo.c:228-256 | The instruction leaves the stations and units of its bank, nothing else does. |
| `Scheduler.Machine.IsSimulationDone` | lab3/tomasulo.c:268-318 | True exactly if the specification's end test holds of the tables. |
| `Scheduler.Machine.CdbToRetire` | lab3/tomasulo.c:328-338 | Computes the retire stage on the abstract state. |
| `Scheduler.Machine.ExecuteToCdb` | lab3/tomasulo.c:349-402 | Scanning unit by unit while freeing finished instructions computes the broadcast stage. |
| `Scheduler.Machine.IssueToExecute` | lab3/tomasulo.c:414-498 | Serving free units in order, each with the oldest ready instruction, computes the start stage. |
| `Scheduler.Machine.DispatchToIssue` | lab3/tomasulo.c:508-544 | Computes the issue stage. |
| `Scheduler.Machine.FetchNext` | lab3/tomasulo.c:554-580 | Reads the chunked trace, skips traps and computes the fetch of one slot if the queue has room. |
| `Scheduler.Machine.FetchToDispatch` | lab3/tomasulo.c:591-616 | Computes fetch and the dispatch stamp of the queue's tail. |
| `Scheduler.Machine.RunCycle` | lab3/tomasulo.c:653-663 | One cycle keeps the invariant and computes one step of the run. |
| `Scheduler.Machine.Run` | lab3/tomasulo.c:628-679 | The main loop ends within 11(n+1) cycles, at the first cycle that passes the end test, with that state, and returns the next cycle number. |
| `CacheMemory.RunsLikeFlatMemory` | lab4/cache.c:806-1074 | Over any accesses and flushes, under LRU, FIFO and random replacement, cache plus next level go on standing for the flat memory on which the same writes are done. |
| `CacheMemory.ReadsLikeFlatMemory` | lab4/cache.c:806-1217 | Over any run every read returns what it would from the flat memory with the same writes before it. |
| `CacheRecency.HitIffRecent` | lab4/cache.c:840-1010 | In an LRU cache after any accesses and flushes from creation, an address hits if and only if its block is among the associativity many different ones of its set most recently used since the last flush. |
| `CacheRecency.RunHolds` | lab4/cache.c:192-257 | Every set then holds exactly those blocks, in that order. |
| `CacheQueue.HitIffFilled` | lab4/cache.c:888-900 | In a FIFO cache an address hits if and only if its block is among the associativity many last brought into its set since the last flush, however often blocks are used. |
| `CacheQueue.RunFills` | lab4/cache.c:888-1010 | Every set then holds exactly those blocks, in that order. |
| `CacheQueue.HitIffDrawn` | lab4/cache.c:888-900 | With random replacement an address hits if and only if its block was brought in with some draw and none later with the same draw, since the last flush. |
| `CacheQueue.RunSeats` | lab4/cache.c:888-1010 | Every place of a set then holds the block last brought in with that draw. |
| `CacheMemory.AcceptedMeans` | lab4/cache.c:828-836 | The accesses taken are those of a power of two many bytes, at a multiple of their number, all in one block. |
| `PrefetchingCache.AccessAll` | lab4/cache.c:761-1074 | Cache and prefetcher together, over a whole trace and any prefetcher: the cache makes the specification's run, each access with the targets that the tables give at that point. |
| `PrefetchingCache.Ask` | lab4/cache.c:761-781 | The targets at each use of a trace are the specification's, and the tables advance with it. |
| `CacheMemory.StepRefines` | lab4/cache.c:806-1217 | One operation of the cache is one step of the flat memory, and a read returns its bytes. |
| `CacheMemory.AccessView` | lab4/cache.c:806-1074 | An access changes the flat view exactly in the bytes that a write names, whatever it evicts, and keeps every clean block equal to memory. |
| `CacheMemory.ReadsView` | lab4/cache.c:97-137 | Each byte read is the flat view's byte at its address. |
| `CacheMemory.FlushView` | lab4/cache.c:1119-1155 | A flush leaves the flat view, and the next level alone holds it afterwards. |
| `CacheMemory.FlushAddrView` | lab4/cache.c:1158-1217 | Flushing one block leaves the flat view. |
| `CacheMemory.SwapView` | lab4/cache.c:888-970 | Replacing a line, after writing it back, changes only the new line's own block of the view. |
| `CacheMemory.LookupInsert` | lab4/cache.c:192-257 | Wherever a line is put into the way list, lookup by tag gains that line and nothing else. |
| `CacheMemory.BlockDecodes` | lab4/cache.c:62-71 | Every byte of a rebuilt block address decodes to the tag, set and offset it was built from. |
| `CacheMemory.CreatedRepresents` | lab4/cache.c:260-412 | A created cache stands for the next level it was created over. |
| `CacheStack.StackProperty` | lab4/cache.c:840-896 | Two LRU caches with the same sets and block size, fed the same accesses and flushes: every hit in the less associative is a hit in the more associative, across the boundary between linear search and hashing. |
| `CacheStack.HitsIncluded` | lab4/cache.c:1079-1116 | If each set of one cache holds a prefix of the other's tags, its hits are hits of the other. |
| `CacheStack.RunIncluded` | lab4/cache.c:806-1217 | Any accesses and flushes keep each set's valid tags, in order of use, a prefix of the larger cache's. |
| `CacheCount.Conservation` | lab4/cache.c:872-1043 | From creation, over any run and any prefetch targets: valid blocks = misses + prefetch misses - replacements - invalidations; invalidations = blocks flushed; hits + misses = demand accesses; read hits + misses = demand reads; prefetch hits + misses = prefetch accesses; dirty blocks + writebacks = writes to blocks clean or absent; writebacks <= replacements + invalidations. |
| `CacheCount.AccessCounts` | lab4/cache.c:872-1043 | An access adds one to exactly one of the four hit and miss counters, and of the read counters, as the probe and its kind say; dirty blocks + writebacks grow by one exactly if it writes to a block clean or absent. |
| `CacheCount.PrefetchCounts` | lab4/cache.c:761-781 | A prefetcher's accesses count only as prefetch misses, one for each target absent at its turn, and lose no change. |
| `CacheCount.FlushEmpties` | lab4/cache.c:1119-1155 | After a flush no block is valid, all that came in has gone out, and every block that was changed has been written back. |
| `CacheUnique.AccessConsistent` | lab4/cache.c:806-1074 | An access keeps tags unique in every set, and clean blocks equal to memory. |
| `CacheUnique.FlushAddrConsistent` | lab4/cache.c:1158-1217 | So does flushing one block. |
| `CacheUnique.FlushAtConsistent` | lab4/cache.c:1119-1155 | So does each block of a flush. |
| `CacheMachine.OnePlaceEach` | lab4/cache.c:143-257 | In a valid cache each block stands exactly once in its set's way list and, with hash tables, exactly once in the buckets, in the bucket of its tag. |
| `CacheMachine.CacheCreate` | lab4/cache.c:260-412 | Null exactly if one of the parameter checks fails; else a valid, empty cache of that geometry. |
| `CacheMachine.Cache.CacheAccess` | lab4/cache.c:806-1074 | Rejected exactly for a bad size, alignment or span, changing nothing; else fast hit, hit or miss with eviction and prefetches compute the specification's step, and reads return its bytes; keeps the last-block shortcut sound. |
| `CacheMachine.Cache.AccessBlock` | lab4/cache.c:840-1074 | Fast hit, search, slow hit and miss together compute the specification's access. |
| `CacheMachine.Cache.GeneratePrefetch` | lab4/cache.c:761-781 | Each target is probed and accessed if absent, while the enclosing access is still under way; computes the specification's prefetches. |
| `CacheMachine.Cache.CacheProbe` | lab4/cache.c:1079-1116 | True exactly if some valid line of the set has the tag; nothing changes. |
| `CacheMachine.Cache.CacheFlush` | lab4/cache.c:1119-1155 | Computes the specification's flush, writing back in way-list order. |
| `CacheMachine.Cache.CacheFlushAddr` | lab4/cache.c:1158-1217 | Invalidates the block if present, writes it back if dirty, moves it to the tail and forgets the last block. |
| `CacheSets.CacheSet.UpdateWayList` | lab4/cache.c:192-257 | The block moves to the head or the tail; all other blocks keep their order, and the links stay a doubly linked list. |
| `CacheSets.CacheSet.UnlinkHtabEnt` | lab4/cache.c:143-173 | The block leaves its bucket chain, all others stay in theirs. |
| `CacheSets.CacheSet.LinkHtabEnt` | lab4/cache.c:176-186 | The block enters the chain of its tag. |
| `CacheSets.CacheSet.FindBlk` | lab4/cache.c:848-870 | By hash chain or way list: a valid block with the tag, or null exactly if there is none. |
| `CacheSets.CacheSet.Hit` | lab4/cache.c:979-1016 | A hit touches the block and, under LRU, brings it to the head. |
| `CacheSets.CacheSet.FastHit` | lab4/cache.c:1028-1066 | A fast hit touches the block in place. |
| `CacheSets.CacheSet.Replace` | lab4/cache.c:888-970 | The victim of the policy is unlinked, written back if valid and dirty, refilled and linked in again; way list and hash chains agree. |
| `CacheSets.CacheSet.constructor` | lab4/cache.c:363-410 | The linking loops give one way list and hash chains that agree. |
| `CacheSets.CopyOut` | lab4/cache.c:97-117 | Any accepted size copies out exactly the block's bytes at the offset. |
| `CacheSets.CopyIn` | lab4/cache.c:118-137 | Any accepted size changes exactly the bytes at the offset. |
| `Prefetchers.NextLineIsNext` | lab4/cache.c:512-522 | The next-line prefetcher asks for the next block, round the end of the address space. |
| `Prefetchers.TableAnswersStride` | lab4/cache.c:545-619 | An instruction alone in its table entry, which it has not owned before, is answered at every use of a constant stride from the second use on, with the address a stride ahead, whatever other instructions do. |
| `Prefetchers.TableAnswers` | lab4/cache.c:545-619 | Such an instruction gets no answer at its first use, and then the answers of its own uses alone. |
| `Prefetchers.ClaimedAnswers` | lab4/cache.c:563-612 | The second use is answered with the address as far ahead as it came, and so is every further one of a constant stride. |
| `Prefetchers.ClaimedErratic` | lab4/cache.c:563-612 | If the second use comes with a stride, the later ones get no answer if and only if none of them repeats a stride. |
| `Prefetchers.RepeatIsAnswered` | lab4/cache.c:563-612 | Whatever an entry holds, a use that repeats the stride of the one before is answered with the address a stride ahead. |
| `Prefetchers.TableLocksOn` | lab4/cache.c:545-619 | An instruction alone in its table entry is, from its third use at a constant stride on, steady on it. |
| `Prefetchers.LocksOn` | lab4/cache.c:563-612 | From any state of an entry, uses of one stride make it steady on that stride exactly from a computed use on, at latest the third. |
| `Prefetchers.JumpsForgiven` | lab4/cache.c:563-612 | A steady entry keeps its stride and its predictions as long as jumps come one at a time. |
| `Prefetchers.ErraticUnanswered` | lab4/cache.c:563-612 | An entry without prediction, or transient, gives no answer if and only if no stride is repeated; the first repeated one is answered with the address a stride ahead. |
| `Prefetchers.Alone` | lab4/cache.c:545-619 | A table entry used by one instruction only is what that instruction's own uses make of it. |
| `PatternPrefetcher.ConstantStride` | lab4/cache.c:678-756 | After n uses at a constant stride the confidence is 0, then climbs from the third use to 7, then alternates between 6 and 7. |
| `PatternPrefetcher.ConstantStrideTargets` | lab4/cache.c:732-753 | Such a use asks for the next 0, 2, 3 or 4 blocks at its pace, by its number. |
| `PatternPrefetcher.CoversNext` | lab4/cache.c:678-756 | From the sixth use on each was asked for by the one before: its address if the stride is at least a block, else its block unless it stays in the block. |
| `PatternPrefetcher.Detects` | lab4/cache.c:640-658 | Once an entry is claimed a stride is detected if and only if it is not zero and within the tolerance of the one before, from the third use on. |
| `PatternPrefetcher.Fades` | lab4/cache.c:678-756 | While no use goes on as the one before, the stride is kept and the confidence falls by one at each use: fewer blocks are asked for at the old pace, then none. |
| `PatternPrefetcher.Drifts` | lab4/cache.c:678-756 | A stride that changes within the tolerance at each use is followed but costs confidence down to one, until nothing is asked for. |
| `PatternPrefetcher.ConfidenceBounded` | lab4/cache.c:661-756 | Over any uses confidence stays from 0 to 7 and at most four addresses are asked for, none exactly below the threshold. |
| `PatternPrefetcher.RingRemembers` | lab4/cache.c:640-658 | The ring holds the last eight addresses since the entry was claimed. |
| `PrefetchTables.Prefetcher.Stride` | lab4/cache.c:545-619 | Updates one table entry as specified and returns the specified targets. |
| `PrefetchTables.Prefetcher.OpenEnded` | lab4/cache.c:678-756 | The same for the open-ended prefetcher. |
| `PrefetchTables.Prefetcher.Generate` | lab4/cache.c:761-781 | Dispatches on the prefetch type; the other tables stay. |
| `PrefetchTables.Prefetcher.GenerateAll` | lab4/cache.c:761-781 | Over a whole trace the tables are the specification's runs, and each use's targets follow from the entry before it. |
| `PageTable.Memory.MemTranslate` | lab3/memory.c:77-107 | Returns the entry of the address or null and moves it to the front of its chain, all else in order: no translation and no byte changes; a miss is counted. |
| `PageTable.Memory.MemPage` | lab3/memory.h:119-127 | The same through the first entry of the chain; a miss is counted exactly if that is another entry, and the entry found is the first one afterwards. |
| `PageTable.Memory.MemNewpage` | lab3/memory.c:110-135 | Maps the page, zero-filled, first in its chain: no byte changes, and other pages are translated as before. |
| `PageTable.Memory.MemTickle` | lab3/memory.h:133-137 | Maps the page of the address if need be. |
| `PageTable.Memory.MemReadByte` | lab3/memory.h:151-160 | The byte of the flat memory, zero without a page. |
| `PageTable.Memory.MemWriteByte` | lab3/memory.h:162-168 | Exactly one byte changes, and a page is added exactly if the address had none. |
| `PageTable.Memory.MemAccess` | lab3/memory.c:140-219 | Faults exactly for a size that is no power of two or above a page, or a misaligned address, changing nothing; else the flat bytes are read or written. |
| `PageTable.FaultMeans` | lab3/memory.c:150-176 | The sizes accepted are 0 and the powers of two up to a page, the addresses their multiples; an access stays in one page. |
| `PageTable.Memory.MemBcopy` | lab3/memory.c:340-361 | Copies byte by byte, round the end of the space, without fault. |
| `PageTable.Memory.MemBcopy4` | lab3/memory.c:364-390 | Copies whole words only; faults exactly if there is a word and the address is misaligned. |
| `PageTable.Memory.MemBzero` | lab3/memory.c:393-412 | Exactly the named bytes become zero. |
| `PageTable.Memory.constructor` | lab3/memory.c:251-263 | No pages, and every byte zero. |
| `PageTable.Memory.PageAddresses` | lab3/memory.h:140-143 | Lists the base address of every page, bucket by bucket. |
| `PageTable.Memory.PagesCounted` | lab3/memory.h:114-142 | That list has each mapped page exactly once, and page_count entries. |
| `PageTable.PteAddrRecovers` | lab3/memory.h:106-116 | Tag and index give back the base address: every byte of the page decodes to them. |
| `PageTable.FrontLookup` | lab3/memory.c:88-103 | Moving an entry to the front keeps tags distinct and changes no lookup. |
| `Transactions.RecordReplays` | lab3/eio.c:490-565 | For any accesses that read before they write, recorded on one memory and used on another: checking the coalesced input blobs succeeds if and only if every read left in its buffer what the other holds; writing the output blobs does every write; no blob outgrows its allocation. |
| `Transactions.AppendedMeans` | lab3/eio.c:528-558 | Coalescing keeps both meanings of a blob list: what checking it checks and what writing it writes. |
| `Transactions.BytesFillBlobs` | lab3/eio.c:528-558 | Bytes written one after the other are coalesced into blobs of 256, as few as that takes. |
| `Transactions.OutputsReplayIff` | lab3/eio.c:507-564 | Writing the outputs gives the memory the call left if and only if for every address the last write was done or found its byte there. |
| `Transactions.BytesReplay` | lab3/memory.c:340-361 | Accesses of single bytes, which is all that system calls make, never fault, so both conditions hold. |
| `EioTrace.MemRec.Add` | lab3/eio.c:528-558 | The growing buffer holds the coalesced blobs and never overflows. |
| `EioTrace.Recorder.RecordRead` | lab3/eio.c:490-565 | Fails exactly after a write; else returns and records what the buffer then holds, and leaves the memory. |
| `EioTrace.Recorder.RecordWrite` | lab3/eio.c:490-565 | Records the bytes, then writes them unless that faults. |
| `EioTrace.Recorder.Perform` | lab3/eio.c:490-565 | A system call's accesses, faulting or not: fails exactly if a read follows a write; else memory and both records are the specification's. |
| `EioReplay.ReadTrace` | lab3/eio.c:635-811 | Accepts exactly a well-formed transaction whose count, PC, registers and memory inputs agree; then memory, R2 to R7 and break point are what it says. |
| `EioReplay.CheckInputs` | lab3/eio.c:707-736 | True exactly if every blob has the right form and equals memory. |
| `EioReplay.WriteOutputs` | lab3/eio.c:781-807 | Writes all blobs, or fails exactly on a malformed one. |
| `EioReplay.TransactionReplays` | lab3/eio.c:570-811 | A recorded transaction is accepted by any machine if and only if instruction count, PC, R2 to R7 and every byte that was read are the same there; it yields its registers, break point and writes, through 64-bit terms and back. |
| `EioReplay.WriteTrace` | lab3/eio.c:570-630 | Records a system call, or fails exactly if it reads after writing. |
| `EioReplay.RecordThenReplay` | lab3/eio.c:570-811 | Recorded on one machine and replayed on another: accepted if and only if the other is at the same instruction with the same inputs; then each address written has its last byte, R2 to R7 and break point are those of the call, and for byte accesses both machines hold the same bytes there; from equal memories, equal ones exactly under the condition on faulting writes. |
| `EioReplay.SameStartSameEnd` | lab3/eio.c:570-811 | A machine that starts alike accepts a record of byte accesses and ends with the same memory and registers. |
| `EioReplay.TransactionsAre` | lab3/eio.c:662-735 | The terms accepted are those of a count, a PC, six addresses, blobs, seven addresses and blobs, and no others. |
| `Checkpoint.CheckpointReadsBack` | lab3/eio.c:207-463 | A written checkpoint is accepted and gives back count, registers and layout; it gives back the memory if and only if what was there is zero wherever no page was saved. |
| `Checkpoint.PagesRestore` | lab3/eio.c:427-460 | Writing all saved pages over a memory gives the saved one if and only if that memory is zero outside them. |
| `Checkpoint.AllPagesListed` | lab3/eio.c:287-298 | The traversal lists every page that holds a nonzero byte, as many as page_count, which an int can hold. |
| `Checkpoint.DumpPages` | lab3/eio.c:287-298 | The page loop writes each page's base address and bytes. |
| `Checkpoint.WriteCheckpoint` | lab3/eio.c:207-303 | Writes the specification's terms for registers, layout and memory. |
| `Checkpoint.ReadCheckpoint` | lab3/eio.c:306-463 | Accepts exactly a stream that starts with a checkpoint; then registers, layout and pages are what it says. |
| `Checkpoint.CheckpointsAre` | lab3/eio.c:306-463 | The streams accepted are a header with twice 32 registers and at least as many pages as it says, and no others. |
| `Checkpoint.ReadRegs` | lab3/eio.c:329-348 | Accepts exactly a list of 32 addresses, and stores them cut to words. |
| `Checkpoint.ReadMisc` | lab3/machine.h:505-532 | Accepts exactly six terms of the right kinds, and stores them cut to their types. |
| `Checkpoint.SaveThenLoad` | lab3/eio.c:207-463 | Saved and loaded into an empty memory: count, registers, layout and every byte are equal. |
| `Words.WordBack` | lab3/machine.h:499-538 | A signed word survives sign extension to a 64-bit term and the cast back. |
| `Combining.NewCompetes` | lab4/bpred.c:582-603 | A new combining predictor, over any trace and any sharing of counters: at most twice the mistakes of either part plus half its choosing table, rounded up for the two-level part. |
| `Combining.CompetesWithBoth` | lab4/bpred.c:914-963 | The same from any tables: the excess is what the choosing counters were away from that part. |
| `Combining.MistakesSplit` | lab4/bpred.c:929-963 | The combination's mistakes are those of both parts together and those of its choosing counters on the disagreements. |
| `DirectionParts.HistoryBound` | lab4/bpred.c:504-530 | In any trace from creation, with and without exclusive or: a branch whose outcomes are determined by the last `width` before them, alone in its history register and its part of the level-two table, is mispredicted by the two-level part at most 2^width times. |
| `DirectionParts.LoneBranchLearnt` | lab4/bpred.c:582-603 | When the trace is that branch alone, the combination makes at most twice as many mistakes plus half its choosing table. |
| `DirectionParts.BiasBound` | lab4/bpred.c:533-535 | A branch that shares no bimodal counter with branches in its half megabyte is mispredicted by the bimodal part at most twice for each outcome of the rarer direction and once more. |
| `DirectionParts.ChoiceBound` | lab4/bpred.c:914-963 | At a branch that shares no choosing counter with branches in its half megabyte, the combination makes at most twice the mistakes of either part and one. |
| `Combining.BimodalBound` | lab4/bpred.c:533-535 | A new bimodal table is wrong at most twice for each branch of the rarer direction, and half its size. |
| `Counters.WrongBound` | lab4/bpred.c:914-927 | A table of two-bit counters is wrong at most twice for each time it is told one direction, plus the distance of its counters from the other. |
| `Counters.AlternatingIsWrong` | lab4/bpred.c:914-927 | The factor two is reached. |
| `DirectionTables.CombPredictor.Lookup` | lab4/bpred.c:491-603 | Returns the places and directions of all three tables and the chosen direction. |
| `DirectionTables.CombPredictor.Update` | lab4/bpred.c:827-963 | With the record of any lookup, however old: the recorded counters, the branch's history register and, on a disagreement, the choosing counter are updated; nothing else. |
| `DirectionTables.CombPredictor.Simulate` | lab4/bpred.c:553-985 | A trace in place gives the specification's tables and scores, within the bound. |
| `DirectionTables.NewTable` | lab4/bpred.c:225-231 | The flip-flop loop gives weakly not taken and weakly taken in turn. |
| `TargetBuffer.KeepsMostRecent` | lab4/bpred.c:843-984 | After any updates of nonzero addresses a set holds exactly the most recently updated different addresses, in that order and each once, then unused entries. |
| `TargetBuffer.HoldsLastTarget` | lab4/bpred.c:966-984 | Every used entry holds the last target of its branch. |
| `TargetBuffer.HitIffRecent` | lab4/bpred.c:669-690 | A branch hits if and only if it is among the as many different ones most recently updated, and then its last target is found. |
| `TargetBufferSet.BtbSet.Scan` | lab4/bpred.c:857-884 | Finds the match, if any, and both ends of the list; no assertion of the source can fail. |
| `TargetBufferSet.BtbSet.Lookup` | lab4/bpred.c:669-690 | The target of the matching entry, if any. |
| `TargetBufferSet.BtbSet.Update` | lab4/bpred.c:843-984 | The hit or the least recently used entry becomes the head of one doubly linked list over the set, with the new target. |
| `TargetBufferSet.BtbSet.UpdateAll` | lab4/bpred.c:843-984 | Over any updates the links stay such a list, in the specification's order. |
| `TargetBufferSet.NewRow` | lab4/bpred.c:141-151 | The linking loop gives one doubly linked list. |
| `ReturnStack.RemembersNewest` | lab4/bpred.c:647-666 | Over any calls and returns the circular stack remembers the newest part of the real one, so a return with a remembered entry is predicted right. |
| `ReturnStack.ExactIffShallow` | lab4/bpred.c:647-666 | Nothing is forgotten if and only if nesting never exceeds the size. |
| `ReturnStack.RetStack.Push` | lab4/bpred.c:659-666 | A call is remembered, the oldest entry is forgotten when full, and the top stays in range. |
| `ReturnStack.RetStack.Pop` | lab4/bpred.c:647-656 | A return with a known entry is predicted by it. |
| `ReturnStack.RetStack.Trace` | lab4/bpred.c:647-666 | Over a whole run every return with a remembered entry is predicted by the real return address. |
| `ReturnStack.RetStack.Recover` | lab4/bpred.c:723-733 | The top goes back; what the table still holds below it is known again. |
| `StackRecovery.SurvivesIff` | lab4/bpred.c:639-733 | An entry survives a squashed path, whatever the addresses of its calls, if and only if no call of it is put in the entry's place. |
| `StackRecovery.Squash` | lab4/bpred.c:639-733 | After any mispredicted path and recovery each entry is the target of the last call put in its place, or as it was without one; what is known is up to the newest that was overwritten. |
| `StackRecovery.ClimbingLoses` | lab4/bpred.c:639-733 | A path that never sinks below its start overwrites an entry if and only if its depth is at least the size less the path's greatest height. |
| `StackRecovery.ReturnThenCall` | lab4/bpred.c:639-733 | A lone squashed return loses nothing; a return and a call replace the newest entry, whatever the size. |
| `StackRecovery.CallReturns` | lab4/bpred.c:647-666 | Whatever came before, a call's return is predicted to the instruction after it if the calls between have returned and nest less deep than the size. |
| `TwoLevel.TraceBound` | lab2/predictor.cc:104-146 | In a whole trace from the initial tables an unaliased branch whose outcome is a function f of its history is mispredicted at most as often as f has taken histories, at most 64 times. |
| `TwoLevel.OutcomesBound` | lab2/predictor.cc:104-146 | In a whole trace from the initial tables a branch unaliased by its address bits whose outcomes are determined by the six before them is mispredicted at most once for each history that a taken branch follows. |
| `TwoLevel.MistakesAreLearnt` | lab2/predictor.cc:114-146 | For such a branch mispredictions are exactly the taken histories learnt meanwhile. |
| `TwoLevel.Alone` | lab2/predictor.cc:126-146 | An unaliased branch is predicted as if it were alone. |
| `TwoLevel.PeriodOfEightUnpredictable` | lab2/mb.c:10-12 | From any state n periods of seven taken and one not taken are mispredicted at least n times. |
| `TwoLevel.PeriodOfSevenLearnt` | lab2/mb.c:5-9 | From the initial tables a period of seven is mispredicted exactly six times in its first round, five times in its second and never again. |
| `TwoLevel.PeriodOfEightNeverLearnt` | lab2/mb.c:10-12 | From the initial tables n periods of eight are mispredicted exactly 2n + 11 times, 8 times if n is one. |
| `Predictors.TwoLevelPredictor.Predict` | lab2/predictor.cc:114-124 | The specification's prediction. |
| `Predictors.TwoLevelPredictor.Update` | lab2/predictor.cc:126-146 | Updates both tables as specified. |
| `Predictors.TwoLevelPredictor.Simulate` | lab2/predictor.cc:104-146 | Counts the specification's mistakes over a trace. |
| `Predictors.FieldSet` | lab2/predictor.cc:24-35 | Setting one two-bit field of a byte leaves the other three. |
| `Predictors.PackedCounters.SetCounter` | lab2/predictor.cc:30-35 | Exactly the named packed counter changes. |
| `Predictors.PackedCounters.Update` | lab2/predictor.cc:55-69 | The counter of the address counts, saturating; all others stay. |
| `Evaluator.EvaluatePrinted` | lab3/eval.c:937-1124 | The text of any expression tree, with any blanks between tokens, is used up and gives the right-associated value, or the first error of the tree: undefined identifier, bad constant or division by zero. |
| `Expressions.ExprParses` | lab3/eval.c:937-1067 | The recursive descent takes exactly the tokens of a tree and gives its value or its first error. |
| `Expressions.AcceptsTrees` | lab3/eval.c:937-1067 | Valid tokens are used up and give a value if and only if they are those of a tree with that value. |
| `Expressions.ExprSound` | lab3/eval.c:937-1067 | Whatever the tokens, when there is a value what was taken is a tree's tokens, but for invalid ones among them, and the value is the tree's. |
| `Expressions.QuotientTruncates` | lab3/eval.c:1013-1030 | Division gives the one quotient whose remainder is smaller than the divisor and zero or of the dividend's sign. |
| `Lexer.LexReadsBack` | lab3/eval.c:120-207 | Tokens printed with any blanks are read back. |
| `Lexer.WordEnds` | lab3/eval.c:150-192 | An identifier or constant begins and goes on with exactly the characters named, decided by position; all of them and no more are taken. |
| `Evaluator.EvalState.GetNextToken` | lab3/eval.c:120-207 | Returns and uses up the next token, from the peek slot or the text. |
| `Evaluator.EvalState.PeekNextToken` | lab3/eval.c:211-223 | Shows the next token and keeps it, unless it is invalid. |
| `Evaluator.EvalState.EvalFactor` | lab3/eval.c:937-991 | Computes the factor of the remaining tokens; the mutual recursion ends. |
| `Evaluator.EvalState.EvalTerm` | lab3/eval.c:995-1032 | The same for a term. |
| `Evaluator.EvalState.EvalSum` | lab3/eval.c:1036-1067 | The same for an expression. |
| `Evaluator.EvalState.EvalExpr` | lab3/eval.c:1095-1124 | Value or error of the descent, and where the unused text begins. |
| `Numerals.SignedRoundTrip` | lab3/misc.c:788-885 | Printing any signed 64-bit value and parsing it in base 10 gives it and stops at its end; the range error is set for the minimum only. |
| `Numerals.UnsignedRoundTrip` | lab3/misc.c:895-978 | The same for unsigned values, without range error. |
| `Numerals.PrintAndParse` | lab3/misc.c:547-885 | Printer and parser one after the other, in place. |
| `Numerals.ReadsSigned` | lab3/misc.c:788-885 | Any numeral in a base from 2 to 36, with white space, sign, prefix of base 16 and letters of either case, followed by no digit: its value, or the nearest in range, its end and the range error. |
| `Numerals.ReadsUnsigned` | lab3/misc.c:895-978 | The same without a sign, up to the largest unsigned value. |
| `Numerals.FormatSigned` | lab3/misc.c:547-588 | Sign and decimal digits of any signed value, the minimum included. |
| `Numerals.FormatUnsigned` | lab3/misc.c:590-603 | The decimal digits of any unsigned value, the high-bit ones through `_lowdigit`. |
| `Numerals.LowDigit` | lab3/misc.c:400-413 | A value with its high bit set is split into its remainder and quotient by ten. |
| `Numerals.CutDigit` | lab3/misc.c:571-586 | The digit computed in wrapped int arithmetic is the last digit of the long value. |
| `Numerals.PutDecimal` | lab3/misc.c:571-588 | The digit loop writes exactly the numeral before the given position. |
| `Numerals.ScanDigits` | lab3/misc.c:839-862 | Overflow is flagged exactly if the true numeral exceeds the maximum; else the value is exact. |
| `Numerals.MyAtoSq` | lab3/misc.c:788-885 | Value, end and range flag of the signed numeral in any base from 2 to 36. |
| `Numerals.MyAtoQ` | lab3/misc.c:895-978 | Value, end and range flag of the unsigned numeral. |
| `EventList.OnlyLaterLeft` | lab3/eventq.c:254-269 | After service exactly the events later than now remain, in order. |
| `EventList.TwiceIsOnce` | lab3/eventq.c:254-269 | Service at t1 and at t2 equals service at t2 in events, bits and cells; callbacks agree if and only if t1 = t2 or none was due at t1. |
| `EventList.BitAfter` | lab3/eventq.c:161-181 | After service a bit is set if and only if some event set it, or it was set, and no later one cleared it. |
| `EventList.CellAfter` | lab3/eventq.c:161-181 | After service a cell holds the value of the last flag event on it, or what it held, and what was added since. |
| `EventList.InsertedOrdered` | lab3/eventq.c:76-105 | Insertion keeps the list by time, the newest first among equals. |
| `EventList.WithoutMembers` | lab3/eventq.c:221-252 | Exactly the event of that id is gone. |
| `EventQueue.EventQ.Queue` | lab3/eventq.c:76-159 | The event goes to its place; pending and free records stay disjoint. |
| `EventQueue.EventQ.Execute` | lab3/eventq.c:184-218 | Exactly the named event acts, at time zero, and is gone; an unknown id changes nothing. |
| `EventQueue.EventQ.Remove` | lab3/eventq.c:221-252 | Exactly the named event is gone, without effect. |
| `EventQueue.EventQ.ServiceEvents` | lab3/eventq.c:254-269 | Exactly the due events act, in order, and are gone. |
| `InstrTrace.Trace.PutInstr` | lab3/instr.c:51-66 | The chunked list becomes one longer, with the instruction at its end. |
| `InstrTrace.Trace.GetInstr` | lab3/instr.c:69-79 | The instruction at the index. |

## Left out

- Tomasulo: opcode classes and operand lists are inputs; a store has no output register, as in the instruction set. The 32-bit cycle counter is unbounded here.
- Cache: latencies, `ready` and bus times, user data, `repl_addr` and statistics printing. Block address 0 and the last block of the address space are excluded: the code uses tag-set 0 for "no last block". Shifts and masks of power-of-two sizes are divisions and remainders.
- Cache data together with prefetching: the code passes a null buffer for prefetches, so blocks hold data only without a prefetcher.
- CacheMachine.Cache.CacheAccess: requires a block other than block 0 and within the next level, for which the code's shortcut and span check do not work; takes the random draw as an input.
- CacheMachine.Cache.GeneratePrefetch: takes the target addresses as an input; `PrefetchingCache.AccessAll` supplies those of the tables, for LRU and FIFO and for targets that are valid blocks.
- PageTable.Memory.MemNewpage: for an address without a page, as its only caller guarantees; a second page would hide the first.
- PatternPrefetcher.ConstantStride: the use counter, the multiplication by the stride and the difference of two strides do not overflow 32 bits here; `last_addr`, which is never read, is absent.
- PageTable.Memory.MemReadByte: halves, words and doubles through `MEM_READ` and `MEM_WRITE` are not modelled, nor `mem_strcpy`, `mem_dump` and the printing of statistics.
- EioReplay.ReadTrace: exit system calls, which are executed for real, and redirected program output are not modelled; nor is the text form of terms, which libexo reads and writes.
- EioReplay.RecordThenReplay: registers outside R2 to R7, which no record holds, stay as the replaying machine has them.
- Combining.CompetesWithBoth: each branch is looked up and updated before the next one, as in the in-order simulators.
- Branch prediction statistics, static predictors, and the direct-mapped BTB, which has no list; return targets do not wrap at 32 bits.
- The perceptron predictor of `lab2/predictor.cc`.
- Evaluator.EvaluatePrinted: identifiers and constants have the values that given functions say, in place of the user's evaluator and `strtol`, over mathematical integers.
- Expressions.ExprParses: mathematical integers; floating point is absent, and the token buffer has no size limit.
- Numerals.FormatSigned: widths, padding and the other conversions of `myvsprintf`.
- EventQueue.EventQ.ServiceEvents: callbacks are recorded and do not queue events themselves; the limit on events, which the code never reaches, and the wrap-around of ids are absent.
- Symbol tables, statistics, option parsing, loaders, the simulator drivers and the micro-benchmarks apart from the periods they claim.
