# Verification of NanoBoyAdvance

A Dafny model of the parts of the emulator and of its vendored archive reader that carry most of their state and
arithmetic, with proofs of what they promise. `dafny verify dfyconfig.toml` checks everything.

What the source changes in place is a class whose methods are proved against specification functions; what is promised
is then proved about those functions, for all inputs and all runs.

- **Event scheduler** (`scheduler.hh`, with the save state and halt loop around it). `EventHeap` specifies the heap
  operations on sequences, `SchedulerModel` the whole scheduler as a deterministic machine whose callbacks are arbitrary
  functions, and `Scheduler` the 64 pooled objects and their handles. `SchedulerRuns`, `SchedulerTermination`,
  `SchedulerTime`, `SchedulerHalt`, `SchedulerSave`, `SchedulerReplay`, `SchedulerLoading` and `SchedulerTies` prove what holds of its runs.
- **Deflate decoder** (`zip/inflate.c`). `Deflate` is a decoder for whole streams after RFC 1951, one element a step.
  `InflateTree`, `InflateSetup`, `InflateLookup`, `InflateInput`, `InflateWindow` and `Inflate` are the resumable decoder
  with its tables, reservoir and window; `InflateDriver` drives it through any cutting of input and output.
  `DeflateRules`, `DeflateEncoding` and `DeflateBlocks` are the inverse, told without the decoder's tables, and
  `DeflateParse` proves that nothing else is accepted.
- **LZMA decoder** (`LzmaDec.c`). `LzmaSymbol` is an automaton that says which probability comes next, run with and without
  updates in `LzmaRange`; `LzmaBudget` counts input; `LzmaDec` and `LzmaLookAhead` are the decoder and its read-only twin;
  `LzmaStream`, `LzmaOutput`, `LzmaLocal`, `LzmaBuffer` and `LzmaToBuf` go from symbols to calls with arbitrary pieces of a stream.
  `LzmaHistory` tells the registers from the symbols alone; `LzmaDecisions`, `LzmaWalk`, `LzmaEncoder` and `LzmaRoundTrip`
  are the inverse, down to the intervals of the range coder.
- **PPMd allocator** (`Ppmd7.c`). `PpmdSizes`, `PpmdBlocks`, `PpmdLists` and `PpmdGlue` say what size classes, blocks, free
  lists and glueing are; `PpmdAllocator` is the arena with its operations, and `PpmdGluing` says when it glues over any use of it.
- **RAR codes** (`huffman-rar.c`, `uncompress-rar.c`): `RarHuffman`, `RarSymbols`; with `CanonicalCode` and `Kraft` shared
  with Deflate. **CRC-32** (`crc32.c`): `ExclusiveOr`, `Crc32`, `CrcPolynomial`. **LZSS window** (`lzss.h`): `History`, `Lzss`.
  **Delta and branch filters** (`Delta.c`, `Bra.c`): `Delta`, `BranchFilters`,
  `BranchTargets`, `SparcRotation`, `MachineWords`, `BranchConverters`.
  **7z folders** (`7zArcIn.c`, `7zDec.c`): `SevenZipNumbers`, `SevenZipFolders`, `SevenZipWriter`, `SevenZipArcIn`,
  `SevenZipUnpack`. `Bits`, `LowBits`, `Logarithm` and `Modular` are shared arithmetic.

## Model

| member | source | states |
|---|---|---|
| EventHeap.HeapifyRepairs | src/nba/include/nba/scheduler.hh:277-290 | The doubly recursive sift-down of a node makes its subtree a heap again once both child subtrees are heaps, keeps every lower bound of the subtree's keys, and moves nothing outside the subtree, although two swaps can happen at one node. |
| EventHeap.RemoveOrders | src/nba/include/nba/scheduler.hh:254-267 | Removing any position by swapping in the last event and then sifting up or down keeps the min-heap order of the events that remain. |
| EventHeap.RemovePermutes | src/nba/include/nba/scheduler.hh:254-267 | Removal takes exactly the event at the given position out of the multiset of pending events and parks it directly behind the heap. |
| EventHeap.InsertIsCorrect | src/nba/include/nba/scheduler.hh:169-173 | Insertion with sift-up keeps the heap order and adds exactly the new event to the multiset of pending events. |
| EventHeap.TopIsMinimum | src/nba/include/nba/scheduler.hh:241-252 | The event in front of an ordered heap has a smallest key of all events of the heap. |
| Scheduler.Scheduler.constructor | src/nba/include/nba/scheduler.hh:83-98 | A new scheduler owns 64 pooled events, each of which knows its place, and is in the state that a reset of 64 blank events leaves. |
| Scheduler.Scheduler.Reset | src/nba/include/nba/scheduler.hh:106-112 | Clock 0, only the end-of-queue event pending at the largest time stamp, next uid 2. |
| Scheduler.Scheduler.Add | src/nba/include/nba/scheduler.hh:150-176 | The event objects in the heap array stay a permutation of the pool with `heap[i].handle == i`; the state moves as the model's insertion says; it panics exactly when the pool is exhausted or the priority exceeds 3; the returned object carries the new uid and the handle where it came to lie, and no other object changes its fields. |
| Scheduler.Scheduler.Cancel | src/nba/include/nba/scheduler.hh:185-187 | Cancelling removes exactly the event of the handle, wherever it has moved since it was added; parked events stay where they are. |
| Scheduler.Scheduler.Heapify | src/nba/include/nba/scheduler.hh:277-290 | The recursion on objects, handles and array does what the recursive specification does to the sequence of values, and never touches parked events. |
| Scheduler.Scheduler.GetEventByUID | src/nba/include/nba/scheduler.hh:189-199 | Returns null exactly when no pending event has the uid, and else the object at the first such position. |
| Scheduler.Scheduler.Step | src/nba/include/nba/scheduler.hh:245-252 | The dispatch loop on objects, whose callbacks add and cancel events while the dispatched one is still in the heap, ends in the state, environment and log of the model's loop for every callback, and panics exactly when the model does. |
| Scheduler.Scheduler.AddCycles | src/nba/include/nba/scheduler.hh:130-134 | The same for a stretch of cycles, with the clock set to its end. |
| Scheduler.Scheduler.CopyState | src/nba/include/nba/scheduler.hh:225-236 | Saves the keys, uids, user data and classes of the pending events in heap array order. |
| Scheduler.Scheduler.LoadState | src/nba/include/nba/scheduler.hh:201-223 | Adds the saved events other than the end-of-queue event on top of what is there, gives each its saved uid although `Add` had drawn a new one, and restores the uid counter at the end. |
| Scheduler.Scheduler.RestoreCore | src/nba/src/serialization.cc:8-12 | Reset, set the clock, load: the order of these three gives the state that the loading lemmas speak about. |
| SchedulerRuns.DispatchIsSound | src/nba/include/nba/scheduler.hh:246-251 | One iteration moves the clock to a pending event that is first in (time stamp, priority), and removes exactly that event even if its callback moved it in the heap. |
| SchedulerRuns.StepIsSound | src/nba/include/nba/scheduler.hh:245-252 | Every run of the loop: each dispatch takes a first event in (time stamp, priority) at its own time, time never moves backwards, what was pending or added is afterwards pending, dispatched or cancelled, uids stay unique and below the counter, the heap stays ordered with one end-of-queue event, and nothing due is left. |
| SchedulerRuns.ExactlyOnce | src/nba/include/nba/scheduler.hh:245-252 | Over a run, an event that was pending or got added ends in exactly one of three places, exactly once: still pending, dispatched, or cancelled; and no two of them share a uid. |
| SchedulerRuns.AddCyclesIsSound | src/nba/include/nba/scheduler.hh:130-134 | The same for `AddCycles`, which leaves the clock at the requested time with nothing due. |
| SchedulerTime.SplittingTimeIsUnobservable | src/nba/include/nba/scheduler.hh:130-134 | For every callback, `AddCycles(a)` followed by `AddCycles(b)` ends if and only if `AddCycles(a + b)` does, and then with the same state, heap layout included, the same environment, the same log of dispatched, added and cancelled events, and the same panic if there is one. |
| SchedulerTime.EndsOnce | src/nba/include/nba/scheduler.hh:130-134 | A call has at most one outcome, however many iterations it is given. |
| SchedulerTime.ChunksAreUnobservable | src/nba/include/nba/scheduler.hh:130-134 | The same for a stretch of time cut into any number of calls. |
| SchedulerTime.JumpIsSound | src/nba/include/nba/scheduler.hh:130-134 | Advancing to the time stamp of the next event in one call comes to the same as advancing cycle by cycle and testing any condition on the environment after every cycle, for a clock that has not reached the next event. |
| SchedulerHalt.JumpIffNotBusy | src/nba/src/core.cc:93-99 | At the place where the halt loop jumps to the next event, with an arbitrary DMA transfer function and wake-up condition: the jump comes to the same as waiting cycle by cycle, looking at wake-up and DMA each time, if and only if no transfer is due. |
| SchedulerHalt.TurnsAgreeIff | src/nba/src/core.cc:93-100 | A whole turn of the loop, with its DMA run and the second wake-up test after it, comes to the same as a turn that waits cycle by cycle if and only if the transfer does not leave another one due with the CPU still asleep. |
| SchedulerHalt.HaltLoopIsPolling | src/nba/src/core.cc:92-100 | When transfers leave no transfer due unless the CPU wakes up, the whole halt loop cannot be told from one that waits cycle by cycle: same state, environment, log and panics, for every number of turns. |
| SchedulerHalt.TransferIsDelayed | src/nba/src/core.cc:94-99 | A concrete transfer unit with two transfers due, where the jump delays the second one until the next event. |
| SchedulerTermination.AddCyclesTerminates | src/nba/include/nba/scheduler.hh:130-134 | With callbacks that add events only with a delay of at least one cycle, `AddCycles` ends after at most 64 dispatches for each cycle it covers, the current one included. |
| SchedulerTermination.ZeroDelayNeverEnds | src/nba/include/nba/scheduler.hh:245-252 | Without that rule it need not end: an event that is re-armed in its own cycle keeps the loop busy for ever. |
| SchedulerSave.LoadAfterSave | src/nba/src/serialization.cc:8-28 | Saving, resetting and loading never fails, and preserves the clock, the uid counter and exactly the pending events with time stamp, key, uid, user data and class; the heap order holds, and there is one end-of-queue event. |
| SchedulerSave.SameEventByUid | src/nba/include/nba/scheduler.hh:189-236 | A component that looks its event up by uid after loading finds an event exactly when there was one, and the same one. |
| SchedulerReplay.NextEventIff | src/nba/include/nba/scheduler.hh:245-252 | How much queries tell about the next event: all states that answer every query like a given one dispatch the same event next if and only if no other pending event has the key of the first one. |
| SchedulerReplay.RunsAlike | src/nba/include/nba/scheduler.hh:245-252 | Two states that answer every query alike run alike, dispatch by dispatch, while no dispatch is tied. |
| SchedulerReplay.LoadingIsUnobservable | src/nba/src/serialization.cc:8-28 | A save and load in the middle of a run cannot be noticed as long as no dispatch of the run is tied: same log, environment and queries afterwards. |
| SchedulerReplay.NoRunIsTied | src/nba/include/nba/scheduler.hh:245-252 | If the pending events have different keys, and the callback adds no event with a key that is pending or two events with one key, then no dispatch of any run is tied. |
| SchedulerReplay.LoadingWithKeysApart | src/nba/src/serialization.cc:8-28 | Under those conditions, which can be checked before the run, save and load cannot be noticed, whatever the outcome of the run, panics included. |
| SchedulerLoading.LoadKeepsFirst | src/nba/src/serialization.cc:8-28 | A save and load never changes which event comes first, whatever keys are tied. |
| SchedulerLoading.LoadKeepsSecondIff | src/nba/src/serialization.cc:8-28 | In every heap layout of the pending events the event that follows the first one is the same with and without a save and load, if and only if no two events other than the first share the least key. For the converse a layout is built that loading reorders. |
| SchedulerLoading.LoadingAfterFirst | src/nba/src/serialization.cc:8-28 | A save and load cannot be noticed in a run in which no dispatch but perhaps the first one is tied. |
| SchedulerTies.ThreeTiedIsReached | src/nba/include/nba/scheduler.hh:150-176 | Three additions with equal delay and priority to a fresh scheduler leave A, C, B and the end-of-queue event in this order in the heap array. |
| SchedulerTies.LoadingCanReorderTies | src/nba/src/serialization.cc:8-28 | From that state the uninterrupted run dispatches C after A, and the run that is saved and loaded in between dispatches B after A. |
| InflateTree.Tree.AddValue | thirdparty/unarr-1.1.1-patch/zip/inflate.c:127-175 | Inserting a key of 1 to 15 bits into fast table and overflow nodes adds exactly that code word; success means that it is a prefix of no code word nor the other way round, failure that there is such a conflict or that the code as a whole would need more than the 288 overflow pairs. |
| InflateTree.FillKeepsTree | thirdparty/unarr-1.1.1-patch/zip/inflate.c:133-145 | Copying a short code word into all table entries that end with its reversed bits keeps the meaning of every other entry. |
| InflateTree.GrowKeepsTree | thirdparty/unarr-1.1.1-patch/zip/inflate.c:147-166 | Giving an unused node its pair of overflow nodes keeps the meaning of all nodes, and no two paths share a pair. |
| InflateCapacity.NodesSuffice | thirdparty/unarr-1.1.1-patch/zip/inflate.c:127-166 | A canonical code of up to 288 symbols never runs out of overflow nodes, however far its insertion has got: this is why the missing bounds check for the first pair does no harm. |
| InflateSetup.SetupDynamicTree | thirdparty/unarr-1.1.1-patch/zip/inflate.c:231-258 | Succeeds if and only if every canonical code number fits into its length (no oversubscription), and then the tree holds exactly the canonical code words of section 3.2.2 of RFC 1951, one for each symbol with a length. |
| InflateSetup.SetupStaticTrees | thirdparty/unarr-1.1.1-patch/zip/inflate.c:212-229 | The four hand-written ranges build exactly the canonical codes of the fixed lengths of section 3.2.6 of RFC 1951. |
| InflateSetup.ConflictFreeFits | thirdparty/unarr-1.1.1-patch/zip/inflate.c:231-258 | Words of canonical code numbers, cut to their lengths, are free of prefix conflicts if and only if every number fits. |
| CanonicalCode.PrefixFree | thirdparty/unarr-1.1.1-patch/zip/inflate.c:242-246 | A canonical code whose numbers fit is prefix-free. |
| CanonicalCode.MisfitConflicts | thirdparty/unarr-1.1.1-patch/zip/inflate.c:242-246 | Where a number does not fit, its truncated word is in conflict with an earlier one, so that insertion notices every oversubscription. |
| DeflateCode.Covered | thirdparty/unarr-1.1.1-patch/zip/inflate.c:242-246 | A canonical code leaves no gap below its last number: every bit pattern up to there starts with a code word. |
| DeflateCode.ZerosComeFirst | thirdparty/unarr-1.1.1-patch/zip/inflate.c:177-195 | If the known bits followed by zeros start with no code word, then no continuation of them does: an empty table entry for a zero-padded key means that the stream is wrong. |
| DeflateCode.ZerosAreShortest | thirdparty/unarr-1.1.1-patch/zip/inflate.c:177-195 | The code word found for known bits padded with zeros is at most as long as that of any continuation that fits the table, so no bits are demanded that the true symbol does not need. |
| InflateLookup.GetValue | thirdparty/unarr-1.1.1-patch/zip/inflate.c:177-210 | Reading a symbol through fast table and overflow tree, resumed or not: success returns the symbol whose code word stands at this place and consumes exactly its bits; `NotDone` means that all input is used and that what is there is no complete code word; an error means that no continuation starts with a code word. On the fast path it never waits. |
| InflateInput.Reader.Ensure | thirdparty/unarr-1.1.1-patch/zip/inflate.c:100-110 | Fetching bytes into the 64-bit reservoir keeps the remaining stream and yields the bits unless the input ends before. |
| InflateInput.Reader.Take | thirdparty/unarr-1.1.1-patch/zip/inflate.c:112-118 | Taking bits removes exactly the next bits of the stream; the available count never goes below zero. |
| InflateInput.Reader.Flush | thirdparty/unarr-1.1.1-patch/zip/inflate.c:476-486 | The whole bytes handed back are those after the bits that are kept, so what remains of the stream is unchanged. |
| InflateWindow.Output.Put | thirdparty/unarr-1.1.1-patch/zip/inflate.c:120-125 | The 64 KiB ring always holds the last bytes of the unbounded output. |
| InflateWindow.Output.Look | thirdparty/unarr-1.1.1-patch/zip/inflate.c:393-399 | Looking up to 65536 bytes back in the ring finds the byte of the whole history. |
| Deflate.BudgetIff | thirdparty/unarr-1.1.1-patch/zip/inflate.c:334-391 | The 48 bits fetched for the fast path can be too few for a match exactly if a length symbol from 281 to 284 and distance symbol 30 or 31 both have code words of 15 bits. |
| Deflate.StaticBudget | thirdparty/unarr-1.1.1-patch/zip/inflate.c:212-229 | For the fixed codes they suffice. |
| Deflate.BudgetExceeded | thirdparty/unarr-1.1.1-patch/zip/inflate.c:334-391 | There are codes that the decoder accepts for which they do not. |
| DeflateSteps.DistanceSymbol | thirdparty/unarr-1.1.1-patch/zip/inflate.c:382-391 | For every distance symbol: too few bits, corrupt exactly if the distance reaches back before the start of the output or the symbol is 31, and else a copy from that distance. |
| DeflateSteps.SymbolThirtyIsAccepted | thirdparty/unarr-1.1.1-patch/zip/inflate.c:387-389 | Distance symbol 30 of the fixed code is accepted once there is enough output; symbol 31 is an error. |
| Inflate.Inflate.Process | thirdparty/unarr-1.1.1-patch/zip/inflate.c:273-474 | One call, resumed in any of the twelve steps and given any input and output space, advances the whole-stream decoder of RFC 1951 by exactly what it writes: the output continues the history, unused input stays, `Eos` comes only at the end of a correct stream, an error only for a corrupt one, and `NotDone` only when the output is full and another byte is due, or the input is used up and more of it is needed (or an error that a later call would report). What that decoder accepts and writes is pinned by `AcceptedIffWritten`. |
| InflateDriver.Drive | thirdparty/unarr-1.1.1-patch/zip/inflate.c:273-474 | Any sequence of calls, however input and output are cut, writes a prefix of what the whole-stream decoder writes: all of it when a call reports the end or an error, which happens only if the decoder ends so, and all of it when the input has been supplied and the last output buffer was not filled. |
| InflateDriver.OutputIsPrefix | thirdparty/unarr-1.1.1-patch/zip/inflate.c:273-474 | At every moment the output so far is a prefix of the output of the whole stream. |
| DeflateRules.LengthHasSymbol | thirdparty/unarr-1.1.1-patch/zip/inflate.c:75-84 | Every match length from 3 to 258 has, by the rule of section 3.2.5 of RFC 1951 and without a table, a symbol with extra bits for which the table's base and bits give the length back. |
| DeflateRules.SymbolHasLength | thirdparty/unarr-1.1.1-patch/zip/inflate.c:75-84 | Every length symbol with every value of its extra bits is what the rule writes for its length, but for the second form of 258: symbol 284 with all extra bits set. |
| DeflateRules.DistHasSymbol | thirdparty/unarr-1.1.1-patch/zip/inflate.c:86-96 | Every distance has its symbol in the same sense: up to 32768 one below 30, and up to 49152 one below 31. |
| DeflateRules.SymbolHasDistance | thirdparty/unarr-1.1.1-patch/zip/inflate.c:86-96 | Every distance symbol, the two of Deflate64 included, with every value of its extra bits is what the rule writes for its distance. |
| DeflateRules.ScatterTransmitted | thirdparty/unarr-1.1.1-patch/zip/inflate.c:413-419 | The 19 code lengths, transmitted in the order that the rule gives and cut after the last that is not zero, are put in place as they were. |
| DeflateRules.RepeatHasSymbol | thirdparty/unarr-1.1.1-patch/zip/inflate.c:438-457 | Every number of copied or zero lengths has its symbol and extra bits. |
| DeflateRules.SymbolHasRepeat | thirdparty/unarr-1.1.1-patch/zip/inflate.c:438-457 | And every repeat symbol with every value of its extra bits stands for such a number. |
| DeflateRules.FixedWords | thirdparty/unarr-1.1.1-patch/zip/inflate.c:212-229 | The code words of the fixed codes are those that section 3.2.6 of RFC 1951 lists, range by range. |
| DeflateEncoding.BlockRuns | thirdparty/unarr-1.1.1-patch/zip/inflate.c:330-400 | Literals and matches, given as lengths and distances and written by the rule of section 3.2.5 of RFC 1951 with an end-of-block symbol, decode to what they say, for every pair of usable codes. |
| DeflateEncoding.StoredRuns | thirdparty/unarr-1.1.1-patch/zip/inflate.c:320-328 | The bytes of a stored block come out unchanged. |
| DeflateBlocks.CodesRun | thirdparty/unarr-1.1.1-patch/zip/inflate.c:402-471 | The header of a dynamic block, written from 19 code lengths in the order of section 3.2.7 and from single, copied and zero lengths, is read back as exactly the two codes it was written for. |
| DeflateBlocks.RoundTrip | thirdparty/unarr-1.1.1-patch/zip/inflate.c:288-471 | Decoding undoes encoding: a stream written from any list of stored, static and dynamic blocks decodes to what the blocks stand for, and the bits after the last block are left. |
| DeflateParse.MatchParses | thirdparty/unarr-1.1.1-patch/zip/inflate.c:363-391 | A match that is accepted was written from a length and a distance within the output. |
| DeflateParse.HeaderParses | thirdparty/unarr-1.1.1-patch/zip/inflate.c:402-471 | A dynamic header that is accepted was written from code lengths whose codes fit. |
| DeflateParse.AcceptedIffWritten | thirdparty/unarr-1.1.1-patch/zip/inflate.c:273-474 | Decoding comes to its proper end exactly for the streams that are written from a list of blocks, and then with what the blocks stand for: nothing else is accepted and nothing of this is refused. |
| LzmaLiteral.LiteralIndices | thirdparty/unarr-1.1.1-patch/lzmasdk/LzmaDec.c:267-269 | The mask formula of the decoder and the shift formula of its read-only twin compute the same literal coder, for all lc up to 8, lp up to 4, positions and previous bytes. |
| LzmaRange.RunsAgree | thirdparty/unarr-1.1.1-patch/lzmasdk/LzmaDec.c:715-904 | Decoding a symbol without updating probabilities reads the same bits, uses the same input and finds the same symbol as decoding with updates, because no probability is used again after being updated within one symbol. |
| LzmaRange.WetKeepsBounds | thirdparty/unarr-1.1.1-patch/lzmasdk/LzmaDec.c:22-31 | Updates keep every probability between 31 and 2017. |
| LzmaRange.MoreInput | thirdparty/unarr-1.1.1-patch/lzmasdk/LzmaDec.c:70-80 | Input beyond what a symbol used does not change the symbol. |
| LzmaBudget.AtMostTwentyBytes | thirdparty/unarr-1.1.1-patch/lzmasdk/LzmaDec.h:48-51 | From a normalized range and bounded probabilities any symbol uses at most 20 bytes and leaves a normalized range: the constant `LZMA_REQUIRED_INPUT_MAX`, proved by a budget over exact powers instead of logarithms. |
| LzmaBudget.EnoughInput | thirdparty/unarr-1.1.1-patch/lzmasdk/LzmaDec.h:48-51 | So with 20 bytes at hand the decoder without input checks never reads beyond its input, and range and probabilities keep their bounds for the next symbol. |
| LzmaDec.LzmaDec.TryDummy | thirdparty/unarr-1.1.1-patch/lzmasdk/LzmaDec.c:715-904 | The look-ahead, which changes nothing, reports that input is missing exactly if decoding would run out of it, and otherwise the class of the very symbol that decoding finds and the place where decoding leaves the input. |
| LzmaDec.LzmaDec.DecodeSymbol | thirdparty/unarr-1.1.1-patch/lzmasdk/LzmaDec.c:255-545 | The decoder with its inlined bit macros and registers decodes the symbol of the automaton: input position, range, code, all probabilities, state, the four repeated distances, the dictionary byte written at once, and the length that is left to copy. What state and distances are is pinned by `RunRemembers`, what the automaton reads by `SymbolWalks` and `DecisionsDecode`. |
| LzmaStream.FirstSymbol | thirdparty/unarr-1.1.1-patch/lzmasdk/LzmaDec.c:655-668 | The early check of the code against `kBadRepCode` rejects exactly the streams whose first symbol repeats a match. |
| LzmaStream.SymbolKeepsSound | thirdparty/unarr-1.1.1-patch/lzmasdk/LzmaDec.c:234-611 | Every symbol of a stream leaves a sound state, and longer output. |
| LzmaStream.MatchIsShort | thirdparty/unarr-1.1.1-patch/lzmasdk/LzmaDec.c:426-461 | A match is at most 273 bytes long, so that its length cannot be mistaken for a marker value. |
| LzmaOutput.CopyMatch | thirdparty/unarr-1.1.1-patch/lzmasdk/LzmaDec.c:548-590 | Copying a match inside the ring dictionary, in one piece or byte by byte around its end, writes what the stream's history says, overlapping included, and stops at the output limit. |
| LzmaOutput.WriteRem | thirdparty/unarr-1.1.1-patch/lzmasdk/LzmaDec.c:615-652 | An interrupted match goes on where it stopped. |
| LzmaOutput.DecodeReal | thirdparty/unarr-1.1.1-patch/lzmasdk/LzmaDec.c:234-611 | The main loop decodes a number of symbols of the stream and stops at the output limit, at the input limit, at the end mark or at an invalid distance; dictionary, registers and pending length are then those of the stream. |
| LzmaOutput.DecodeReal2 | thirdparty/unarr-1.1.1-patch/lzmasdk/LzmaDec.c:671-700 | The limit that separates the symbols before and after the dictionary is full for the first time keeps `checkDicSize` what the comment promises. |
| LzmaLocal.SymbolsLocal | thirdparty/unarr-1.1.1-patch/lzmasdk/LzmaDec.c:946-1196 | Decoding symbols out of a piece of the stream is decoding them at the place of the piece. |
| LzmaLocal.RunGrows | thirdparty/unarr-1.1.1-patch/lzmasdk/LzmaDec.c:234-611 | Along any run states stay sound and the output only grows. |
| LzmaBuffer.Decoder.DecodeToDic | thirdparty/unarr-1.1.1-patch/lzmasdk/LzmaDec.c:946-1196 | One call with any piece of input and any output limit, stitching symbols across calls in the 20-byte buffer: all output so far stays a prefix of the decoded stream, the dictionary shows the end of it, exactly the reported number of bytes is used, the status means what it says, and the internal error `SZ_ERROR_FAIL` never occurs. |
| LzmaBuffer.Continues | thirdparty/unarr-1.1.1-patch/lzmasdk/LzmaDec.c:946-1196 | Of two moments of decoding one stream, the later continues the output of the earlier; nothing follows the end mark. |
| LzmaBuffer.CutsDoNotMatter | thirdparty/unarr-1.1.1-patch/lzmasdk/LzmaDec.c:946-1196 | Two decoders fed the same stream in pieces cut differently, with different output limits, have written outputs one of which is a prefix of the other; a decoder at the end mark has written the longer one. |
| LzmaToBuf.Wrap | thirdparty/unarr-1.1.1-patch/lzmasdk/LzmaDec.c:1210-1211 | Starting a full dictionary anew keeps the decoder in a valid state of the same stream, if distances fit into the dictionary. |
| LzmaToBuf.DecodeToBuf | thirdparty/unarr-1.1.1-patch/lzmasdk/LzmaDec.c:1200-1238 | Decoding into the caller's buffer, through as many rounds of the dictionary as it takes: the bytes written are exactly the next bytes of the stream, the rest of the buffer is untouched, the status means what it says, and the statuses for reached limits come only with a full buffer. |
| LzmaHistory.RunRemembers | thirdparty/unarr-1.1.1-patch/lzmasdk/LzmaDec.c:255-611 | Along every run of a stream the state is a function of the kinds of the last four symbols alone, the four distances are the last ones used with the latest in front, and the output is what the symbols say, copies included. |
| LzmaDecisions.NameOfPlace | thirdparty/unarr-1.1.1-patch/lzmasdk/LzmaDec.c:81-151 | Every probability of the format, named by what it decides and by the bits before it, has a place of its own in the decoder's array: the name can be told from the place. |
| LzmaWalk.LiteralWalks | thirdparty/unarr-1.1.1-patch/lzmasdk/LzmaDec.c:265-317 | The automaton takes the bits of a literal as they are written, and after a match under the probabilities that go with the bits of the match byte as long as they agree. |
| LzmaWalk.LengthWalks | thirdparty/unarr-1.1.1-patch/lzmasdk/LzmaDec.c:426-459 | It takes a length as written in its three ranges. |
| LzmaWalk.DistanceWalks | thirdparty/unarr-1.1.1-patch/lzmasdk/LzmaDec.c:462-530 | It takes a distance as written: slot, plain bits highest first, low bits lowest first. |
| LzmaWalk.SymbolWalks | thirdparty/unarr-1.1.1-patch/lzmasdk/LzmaDec.c:255-545 | From the first bit on, the automaton asks for exactly the probabilities under which a symbol was written, in this order, and ends with the symbol. |
| LzmaEncoder.NarrowedFits | thirdparty/unarr-1.1.1-patch/lzmasdk/LzmaDec.c:22-31 | The interval of a list of decisions lies within the range it starts from, and leaves a normalized range. |
| LzmaEncoder.DecisionsDecode | thirdparty/unarr-1.1.1-patch/lzmasdk/LzmaDec.c:20-31 | A number in the interval of some decisions decodes to exactly these: the range decoder with its adapted probabilities ends with the symbol, with what is left of the number, and with the chances that the decisions so far imply. |
| LzmaRoundTrip.LegalIffTaken | thirdparty/unarr-1.1.1-patch/lzmasdk/LzmaDec.c:523-546 | Exactly the matches within the output and the dictionary are taken; all others are an error, but for the mark that ends the stream. |
| LzmaRoundTrip.SymbolsDecode | thirdparty/unarr-1.1.1-patch/lzmasdk/LzmaDec.c:234-611 | A number in the interval of a list of symbols decodes to these symbols and to what they say. |
| LzmaRoundTrip.MarkDecodes | thirdparty/unarr-1.1.1-patch/lzmasdk/LzmaDec.c:513-528 | A match with the largest distance ends the stream. |
| LzmaRoundTrip.RoundTrip | thirdparty/unarr-1.1.1-patch/lzmasdk/LzmaDec.c:952-1000 | Decoding undoes encoding for whole streams: a zero byte and any number in the interval of some symbols pass the checks at the start and decode to the symbols and to what they say. |
| LzmaRoundTrip.StreamDecodes | thirdparty/unarr-1.1.1-patch/lzmasdk/LzmaDec.c:952-1000 | There is such a stream for every list of symbols, and it decodes to them whatever follows it. |
| PpmdSizes.Sizes.constructor | thirdparty/unarr-1.1.1-patch/lzmasdk/Ppmd7.c:52-63 | The construction loop fills both tables so that they are each other's inverse in the sense of the next rows. |
| PpmdSizes.ClassOf | thirdparty/unarr-1.1.1-patch/lzmasdk/Ppmd7.c:58-63 | The class of a number of units is the smallest one that holds it. |
| PpmdSizes.ClassOfUnits | thirdparty/unarr-1.1.1-patch/lzmasdk/Ppmd7.c:58-63 | The size of a class belongs to that class only. |
| PpmdSizes.RemainderFits | thirdparty/unarr-1.1.1-patch/lzmasdk/Ppmd7.c:137-147 | What is left of a block is covered exactly by one class, or by the next smaller class and a second one of at most three units, and the index computed for the second is right. |
| PpmdSizes.ClassHolds | thirdparty/unarr-1.1.1-patch/lzmasdk/Ppmd7.c:243-248 | A class is found from the size of a block without falling below the request. |
| PpmdSizes.NextClass | thirdparty/unarr-1.1.1-patch/lzmasdk/Ppmd7.c:714-718 | One unit more stays in the class or moves to exactly the next one. |
| PpmdBlocks.CutKeeps | thirdparty/unarr-1.1.1-patch/lzmasdk/Ppmd7.c:137-147 | Cutting a block changes neither the allocated blocks nor the set of free units. |
| PpmdBlocks.JoinKeeps | thirdparty/unarr-1.1.1-patch/lzmasdk/Ppmd7.c:220-228 | Nor does gluing a free block to its free neighbour. |
| PpmdBlocks.NextStarts | thirdparty/unarr-1.1.1-patch/lzmasdk/Ppmd7.c:220-224 | The unit behind a block is the first unit of the next block: glueing never lands inside a block. |
| PpmdLists.Push | thirdparty/unarr-1.1.1-patch/lzmasdk/Ppmd7.c:117-124 | Inserting a block into its free list, through links stored in the arena itself, keeps all 38 lists well formed, disjoint and complete. |
| PpmdLists.Pop | thirdparty/unarr-1.1.1-patch/lzmasdk/Ppmd7.c:127-134 | So does taking the first one. |
| PpmdGlue.GatherStep | thirdparty/unarr-1.1.1-patch/lzmasdk/Ppmd7.c:190-200 | Overwriting the link of a listed block with a header never loses the rest of its list. |
| PpmdGlue.SwallowNext | thirdparty/unarr-1.1.1-patch/lzmasdk/Ppmd7.c:220-228 | Swallowing a free neighbour keeps the long list readable, with a size of zero for entries that no longer exist. |
| PpmdGlue.SettledSwallow | thirdparty/unarr-1.1.1-patch/lzmasdk/Ppmd7.c:220-228 | Blocks that could not be glued any further stay so when their neighbours grow. |
| PpmdGlue.RunIsBig | thirdparty/unarr-1.1.1-patch/lzmasdk/Ppmd7.c:205-230 | When the walk is over, any run of free units of up to 128 units lies within one block: glueing misses nothing. |
| PpmdAllocator.Allocator.constructor | thirdparty/unarr-1.1.1-patch/lzmasdk/Ppmd7.c:1016-1063 | The arena after construction is in the state in which all other operations are safe. |
| PpmdAllocator.Allocator.RestartModel | thirdparty/unarr-1.1.1-patch/lzmasdk/Ppmd7.c:339-365 | Back to two allocated blocks, one of 128 units and the last unit, and empty lists; the units take seven eighths of the arena from its top, and the text starts at its bottom. |
| PpmdAllocator.Allocator.SplitBlock | thirdparty/unarr-1.1.1-patch/lzmasdk/Ppmd7.c:137-147 | The end of a block goes to the lists in one or two blocks; the same units are free, the same blocks allocated, and nothing outside that end is written. |
| PpmdAllocator.Allocator.GlueFreeBlocks | thirdparty/unarr-1.1.1-patch/lzmasdk/Ppmd7.c:162-250 | If every allocated block starts with a non-zero halfword: the free units before and after are exactly the same, allocated blocks and their contents are untouched, and afterwards any run of free units as long as a class is available as a block of that class or larger. |
| PpmdAllocator.Allocator.AllocUnitsRare | thirdparty/unarr-1.1.1-patch/lzmasdk/Ppmd7.c:254-284 | With the list empty and the gap too small: a block disjoint from all allocated ones or null, the first of the smallest class that serves or the units below the first one; null directly after glueing means that no run of free units was long enough; the count goes down by one exactly if no list serves, from 255 when the free blocks were glued, which happens exactly at zero. |
| PpmdAllocator.Allocator.AllocUnits | thirdparty/unarr-1.1.1-patch/lzmasdk/Ppmd7.c:287-301 | The same for an allocation, from the list of its class, from the gap, or the hard way, in this order; contents of allocated blocks are untouched, and the count changes only the hard way. |
| PpmdAllocator.Allocator.AllocContext | thirdparty/unarr-1.1.1-patch/lzmasdk/Ppmd7.c:526-536 | The same for one unit at the other end of the gap. |
| PpmdAllocator.Allocator.Release | thirdparty/unarr-1.1.1-patch/lzmasdk/Ppmd7.c:117-124 | Giving a block back removes exactly it from the allocated ones, and puts it in front of the list of its class. |
| PpmdAllocator.Allocator.ShrinkUnits | thirdparty/unarr-1.1.1-patch/lzmasdk/Ppmd7.c:896-909 | Statistics shrunk in place or moved keep their contents; the rest is free again, and no other block changes. |
| PpmdAllocator.Allocator.GrowUnits | thirdparty/unarr-1.1.1-patch/lzmasdk/Ppmd7.c:711-729 | Statistics with one more unit keep their contents; the old block is free when they moved, and nothing changed when memory ran out. |
| PpmdGluing.CountsDown | thirdparty/unarr-1.1.1-patch/lzmasdk/Ppmd7.c:254-284 | Along any run of allocations and releases without glueing, the count goes down by one with every search that no list serves, and by nothing else. |
| PpmdGluing.GluesInTime | thirdparty/unarr-1.1.1-patch/lzmasdk/Ppmd7.c:254-284 | Of more such searches than the count says, at most 256, one glues. |
| PpmdGluing.NextSearchGlues | thirdparty/unarr-1.1.1-patch/lzmasdk/Ppmd7.c:254-284 | After as many as the count says, the next search glues; if it gives nothing, no run of free units was long enough. |
| PpmdGluing.Serve | thirdparty/unarr-1.1.1-patch/lzmasdk/Ppmd7.c:254-301 | Whatever is asked of the allocator and given back to it in whatever order, its states form such a run. |
| RarHuffman.HuffmanCode.AddValue | thirdparty/unarr-1.1.1-patch/rar/huffman-rar.c:40-73 | Inserting a word succeeds exactly if it is no prefix of a word in the tree nor the other way round, and then adds exactly it. |
| RarHuffman.HuffmanCode.CreateCode | thirdparty/unarr-1.1.1-patch/rar/huffman-rar.c:75-97 | A list of lengths is accepted exactly if every canonical code number fits into its length, although the loop stops early when no symbol is left; the tree then holds exactly the canonical code. |
| RarHuffman.NextIsInsertable | thirdparty/unarr-1.1.1-patch/rar/huffman-rar.c:84-95 | When code numbers are handed out in canonical order, the next word can be inserted exactly if its number fits. |
| RarHuffman.HuffmanCode.MakeTable | thirdparty/unarr-1.1.1-patch/rar/huffman-rar.c:99-142 | Flattening succeeds exactly if no branch is missing within the table's depth, and then every entry is what walking the tree over its key finds; otherwise the entries before the first key that leads to a missing branch are right, and all others are as they were allocated. |
| Kraft.FitsIffKraft | thirdparty/unarr-1.1.1-patch/rar/huffman-rar.c:75-97 | Code numbers fit exactly if the lengths satisfy Kraft's inequality: what the two code builders accept, without reference to code numbers. |
| RarSymbols.BitReader.Check | thirdparty/unarr-1.1.1-patch/rar/uncompress-rar.c:37-40 | Fetching bytes keeps the remaining bits, and fails exactly if fewer bits remain than asked for. |
| RarSymbols.ReadNextSymbol | thirdparty/unarr-1.1.1-patch/rar/uncompress-rar.c:106-145 | Through the table or bit by bit, with any number of buffered bits, on first and later calls: the result and the bits consumed are those of the walk from the root; a call that fails to make the table consumes nothing; and later calls with the table that this leaves return symbol 0, consuming nothing, exactly if the key is buffered and not before the first one that leads to a missing branch. |
| RarSymbols.CompleteIsFilled | thirdparty/unarr-1.1.1-patch/rar/uncompress-rar.c:106-145 | For a code whose table can be made the last case does not arise. |
| RarSymbols.UnfilledInput | thirdparty/unarr-1.1.1-patch/rar/uncompress-rar.c:110-127 | It does arise: for the code with the words 0 and 10 and the input 11, where the walk fails. |
| RarSymbols.ReadIsCanonical | thirdparty/unarr-1.1.1-patch/rar/uncompress-rar.c:132-144 | A symbol is returned exactly if the stream starts with its canonical code word, and then exactly that is consumed. |
| RarSymbols.FailureIsCanonical | thirdparty/unarr-1.1.1-patch/rar/uncompress-rar.c:132-144 | No symbol is returned exactly if the stream starts with no code word. |
| Crc32.Crc.BuildTables | thirdparty/unarr-1.1.1-patch/common/crc32.c:18-39 | The first table, built by doubling, and the seven derived ones hold what shifting the register bit by bit gives. |
| Crc32.DoubledEntry | thirdparty/unarr-1.1.1-patch/common/crc32.c:25-30 | The entry of a sum of disjoint bit patterns is the exclusive or of their entries. |
| Crc32.FourOfMessage | thirdparty/unarr-1.1.1-patch/common/crc32.c:45-50 | Four bytes entered one by one come to the same as their little-endian number entered at once and shifted 32 times. |
| Crc32.EightOfMessage | thirdparty/unarr-1.1.1-patch/common/crc32.c:43-61 | Eight bytes through eight tables come to the same as eight bytes bit by bit. |
| Crc32.Crc.Update | thirdparty/unarr-1.1.1-patch/common/crc32.c:16-68 | The checksum of every byte string equals the bit-at-a-time reflected CRC-32 of section 8 of RFC 1952; that this is the remainder of a polynomial division is `ChecksumIsRemainder`. |
| Crc32.ChecksumOfConcat | thirdparty/unarr-1.1.1-patch/common/crc32.c:41-67 | The checksum of a concatenation is that of the second part started with that of the first. |
| CrcPolynomial.PolyIsReflected | thirdparty/unarr-1.1.1-patch/common/crc32.c:20 | The constant holds, in reverse order, the coefficients below x^32 of the generator with the exponents 32, 26, 23, 22, 16, 12, 11, 10, 8, 7, 5, 4, 2, 1 and 0. |
| CrcPolynomial.RegisterIsRemainder | thirdparty/unarr-1.1.1-patch/common/crc32.c:41-65 | The register after any message from any start is, reflected, the remainder of the message times x^32, with the start added in front, in the division by the generator over GF(2). |
| CrcPolynomial.RemainderIsUnique | thirdparty/unarr-1.1.1-patch/common/crc32.c:20 | A polynomial has only one remainder. |
| CrcPolynomial.ChecksumIsRemainder | thirdparty/unarr-1.1.1-patch/common/crc32.c:16-68 | The checksum is the one number whose complement, reflected, is that remainder. |
| Lzss.Lzss.constructor | thirdparty/unarr-1.1.1-patch/rar/lzss.h:75-84 | A new window stands for a past of zeros. |
| Lzss.Lzss.EmitLiteral | thirdparty/unarr-1.1.1-patch/rar/lzss.h:46-50 | The window stays the last bytes of zeros followed by everything emitted. |
| Lzss.Lzss.EmitMatch | thirdparty/unarr-1.1.1-patch/rar/lzss.h:52-59 | A match, overlapping or not, comes to copying byte by byte from the history, from exactly `offset` back for offsets within the window and modulo its size otherwise. |
| Lzss.Lzss.NextEdgeAfter | thirdparty/unarr-1.1.1-patch/rar/lzss.h:40 | The first position after the given one at which the window starts anew. |
| Lzss.Lzss.CopyBytes | thirdparty/unarr-1.1.1-patch/rar/lzss.h:61-73 | The copy in one or two parts returns exactly the requested slice of the history, and writes nothing else. |
| History.CopiedRepeats | thirdparty/unarr-1.1.1-patch/rar/lzss.h:55-57 | A copied match repeats, at each of its positions, what lies `back` before it, its own beginning included. |
| History.CopiedInParts | thirdparty/unarr-1.1.1-patch/lzmasdk/LzmaDec.c:615-652 | Copying can be interrupted and resumed anywhere. |
| Delta.Encode | thirdparty/unarr-1.1.1-patch/lzmasdk/Delta.c:16-86 | The in-place encoder, rotating the state for short data and running backwards two bytes at a time for long data, computes the encoding and moves the state on to the last raw bytes. |
| Delta.Decode | thirdparty/unarr-1.1.1-patch/lzmasdk/Delta.c:89-169 | The in-place decoder computes the decoding and moves the state on in the same way. |
| Delta.DecodedIs | thirdparty/unarr-1.1.1-patch/lzmasdk/Delta.c:89-169 | Decoding is the one solution of the equations that define the filter. |
| Delta.CodesAreDifferences | thirdparty/unarr-1.1.1-patch/lzmasdk/Delta.c:16-86 | Every byte is the sum modulo 256 of its code and of the byte one distance before it, which for the first bytes is in the state. |
| Delta.RoundTrip | thirdparty/unarr-1.1.1-patch/lzmasdk/Delta.c:16-169 | Decoding undoes encoding and encoding undoes decoding, for every distance, state and data. |
| Delta.EncodeInPieces | thirdparty/unarr-1.1.1-patch/lzmasdk/Delta.c:16-86 | Encoding consecutive pieces with the carried state encodes their concatenation. |
| Delta.DecodeInPieces | thirdparty/unarr-1.1.1-patch/lzmasdk/Delta.c:89-169 | So does decoding. |
| BranchFilters.Arm64Inverse | thirdparty/unarr-1.1.1-patch/lzmasdk/Bra.c:97-120 | Converting an ARM64 instruction forth and back, in either order and at any position, restores it, sign folding of ADRP included, and exactly the same instructions are recognized. |
| BranchFilters.ArmInverse | thirdparty/unarr-1.1.1-patch/lzmasdk/Bra.c:145-152 | The same for ARM branches. |
| BranchFilters.ThumbInverse | thirdparty/unarr-1.1.1-patch/lzmasdk/Bra.c:301-330 | The same for pairs of Thumb halfwords. |
| BranchFilters.PpcNeedsAlignment | thirdparty/unarr-1.1.1-patch/lzmasdk/Bra.c:178-192 | The PowerPC filter can be undone for all words if and only if the position is a multiple of four. |
| BranchFilters.SparcNeedsAlignment | thirdparty/unarr-1.1.1-patch/lzmasdk/Bra.c:226-254 | So can the SPARC filter, in the variant without rotations. |
| BranchTargets.ArmHoldsTarget | thirdparty/unarr-1.1.1-patch/lzmasdk/Bra.c:145-152 | An encoded BL holds, in its field, the address it leads to: eight beyond its own plus four times its offset, in words. So branches to one place become equal. |
| BranchTargets.ThumbHoldsTarget | thirdparty/unarr-1.1.1-patch/lzmasdk/Bra.c:301-330 | The same for a Thumb pair, whose address is four beyond its own plus twice its offset. |
| BranchTargets.PpcHoldsTarget | thirdparty/unarr-1.1.1-patch/lzmasdk/Bra.c:178-192 | The same for PowerPC, whose offset counts from the instruction. |
| BranchTargets.SparcHoldsTarget | thirdparty/unarr-1.1.1-patch/lzmasdk/Bra.c:226-254 | The same for a SPARC call within 2^22 instructions either way, wrapped into that range. |
| BranchTargets.Arm64HoldsTarget | thirdparty/unarr-1.1.1-patch/lzmasdk/Bra.c:97-105 | The same for an ARM64 BL. |
| BranchTargets.AdrpHoldsPage | thirdparty/unarr-1.1.1-patch/lzmasdk/Bra.c:107-120 | An encoded ADRP holds the number of the page it names, for offsets of up to 2^17 pages either way, wrapped into that range. |
| BranchTargets.FarPagesStay | thirdparty/unarr-1.1.1-patch/lzmasdk/Bra.c:111 | ADRP with a larger offset is left alone. |
| BranchTargets.OnlyArmCalls | thirdparty/unarr-1.1.1-patch/lzmasdk/Bra.c:127-154 | No word but an ARM BL changes. |
| BranchTargets.OnlyPpcCalls | thirdparty/unarr-1.1.1-patch/lzmasdk/Bra.c:158-194 | No word but a PowerPC BL changes. |
| BranchTargets.OnlyArm64Calls | thirdparty/unarr-1.1.1-patch/lzmasdk/Bra.c:97-120 | No other ARM64 instruction changes. |
| BranchTargets.OnlySparcCalls | thirdparty/unarr-1.1.1-patch/lzmasdk/Bra.c:219-233 | No other SPARC instruction changes. |
| BranchTargets.EqualTargets | thirdparty/unarr-1.1.1-patch/lzmasdk/Bra.c:75-256 | What the filters are for: in an encoded buffer, calls to one place have become one word, wherever they stand in it. |
| SparcRotation.RotatedNeedsAlignment | thirdparty/unarr-1.1.1-patch/lzmasdk/Bra.c:223-254 | So can the variant with rotations. |
| SparcRotation.RotationIff | thirdparty/unarr-1.1.1-patch/lzmasdk/Bra.c:223-254 | Both variants convert alike if and only if the position is a multiple of four; elsewhere the rotating one spoils the mark of every call. |
| MachineWords.WordsDecide | thirdparty/unarr-1.1.1-patch/lzmasdk/Bra.c:93-95 | A buffer is determined by its whole words, in either byte order, and the bytes behind them. |
| BranchConverters.BufferInverse | thirdparty/unarr-1.1.1-patch/lzmasdk/Bra.c:75-256 | Converting a whole buffer back undoes its conversion, whichever came first. |
| BranchConverters.UndoableIff | thirdparty/unarr-1.1.1-patch/lzmasdk/Bra.c:75-256 | Encoding can be undone for all buffers if and only if the start position keeps the alignment that the filter needs, which is none for ARM64 and ARM. |
| BranchConverters.BytesInverse | thirdparty/unarr-1.1.1-patch/lzmasdk/Bra.c:75-256 | Converting a buffer of bytes and back restores it, the bytes after the last whole word included. |
| BranchConverters.ByPosition | thirdparty/unarr-1.1.1-patch/lzmasdk/Bra.c:75-256 | Every instruction is converted by its own position: the start and four bytes for each instruction before it, cut to 32 bits. |
| BranchConverters.NativeTest | thirdparty/unarr-1.1.1-patch/lzmasdk/Bra.c:175-184 | The test for PowerPC branches on a word read in little-endian order recognizes exactly the branches. |
| BranchConverters.ConvertArm64 | thirdparty/unarr-1.1.1-patch/lzmasdk/Bra.c:75-123 | The in-place loop over a buffer of bytes converts each instruction by its own position, leaves the bytes after the last whole word alone, and returns where they start. |
| BranchConverters.ConvertArm | thirdparty/unarr-1.1.1-patch/lzmasdk/Bra.c:127-154 | The same, where branches are recognized by one byte. |
| BranchConverters.ConvertPpc | thirdparty/unarr-1.1.1-patch/lzmasdk/Bra.c:158-194 | The same for big-endian instructions. |
| BranchConverters.ConvertSparc | thirdparty/unarr-1.1.1-patch/lzmasdk/Bra.c:202-256 | The same, without rotations. |
| BranchConverters.ConvertSparcRotated | thirdparty/unarr-1.1.1-patch/lzmasdk/Bra.c:202-256 | The same, with rotations. |
| BranchConverters.ConvertThumb | thirdparty/unarr-1.1.1-patch/lzmasdk/Bra.c:260-337 | The scan over a buffer of bytes converts exactly the pairs that the left-to-right reading of the halfwords defines, leaves an odd byte alone, and returns where it stopped. |
| BranchConverters.ThumbBytesInverse | thirdparty/unarr-1.1.1-patch/lzmasdk/Bra.c:260-337 | Converting a buffer of bytes and back restores it. |
| BranchConverters.ThumbBufferInverse | thirdparty/unarr-1.1.1-patch/lzmasdk/Bra.c:260-337 | After conversion the scan recognizes the same pairs and stops at the same place, so that converting back restores the buffer. |
| BranchConverters.ThumbByPosition | thirdparty/unarr-1.1.1-patch/lzmasdk/Bra.c:260-337 | A pair is converted by its own position, wherever it stands, and halfwords that are in no pair stay. |
| SevenZipNumbers.SzData.ReadNumber | thirdparty/unarr-1.1.1-patch/lzmasdk/7zArcIn.c:205-240 | Reads the number that the leading one bits of its first byte describe, of one to nine bytes, or fails because the data end. Which numbers these are is pinned by `FormIsRead` and `NumberIsForm`. |
| SevenZipNumbers.SzData.ReadNumber32 | thirdparty/unarr-1.1.1-patch/lzmasdk/7zArcIn.c:243-264 | Succeeds exactly for numbers below 2^31 - 1. |
| SevenZipNumbers.SzData.SkipNumbers | thirdparty/unarr-1.1.1-patch/lzmasdk/7zArcIn.c:611-639 | Moves to exactly where reading as many numbers one by one would end, and fails, without moving, exactly when that fails. |
| SevenZipNumbers.NumberIsLocal | thirdparty/unarr-1.1.1-patch/lzmasdk/7zArcIn.c:205-240 | A number depends on its own bytes only. |
| SevenZipFolders.MainExists | thirdparty/unarr-1.1.1-patch/lzmasdk/7zArcIn.c:573-581 | Every folder has a coder whose output is bound to nothing: the check for one can never fail. |
| SevenZipFolders.UnusedExists | thirdparty/unarr-1.1.1-patch/lzmasdk/7zArcIn.c:584-591 | With fewer bonds than streams a stream is unbound: that check cannot fail either. |
| SevenZipFolders.FolderIsItsSlice | thirdparty/unarr-1.1.1-patch/lzmasdk/7zArcIn.c:688-806 | A folder parsed out of exactly its own bytes is the same folder. |
| SevenZipArcIn.GetNextFolderItem | thirdparty/unarr-1.1.1-patch/lzmasdk/7zArcIn.c:444-608 | Accepts exactly the well-formed folders within the decoder's limits, and returns the folder. |
| SevenZipArcIn.ScanFolder | thirdparty/unarr-1.1.1-patch/lzmasdk/7zArcIn.c:688-806 | Accepts exactly the well-formed folders within the scan's limits, and finds the length, the main coder and the number of packed streams of the same folder. |
| SevenZipArcIn.ItemsScan | thirdparty/unarr-1.1.1-patch/lzmasdk/7zArcIn.c:642-806 | The decoder's limits lie within those of the scan. |
| SevenZipArcIn.ScanAndRead | thirdparty/unarr-1.1.1-patch/lzmasdk/7zDec.c:615-627 | A folder that the scan accepts is accepted by the second parser, given just the recorded bytes, if and only if it is within the decoder's limits; it then uses all of them and finds the same main coder. |
| SevenZipUnpack.UnpackInfo.ReadFolders | thirdparty/unarr-1.1.1-patch/lzmasdk/7zArcIn.c:684-816 | The loop over all folders accepts exactly the lists of folders that are well formed, within the limits and served by the packed streams, and records where each starts. |
| SevenZipUnpack.PackCountIs | thirdparty/unarr-1.1.1-patch/lzmasdk/7zArcIn.c:736-816 | The number of packed streams that the scan computes is that of the folder. |
| SevenZipUnpack.UnpackInfo.DecodeFolder | thirdparty/unarr-1.1.1-patch/lzmasdk/7zDec.c:605-627 | For every recorded folder the comparison of the second parse with the recorded values never fails, and the folder is refused exactly if it is beyond the decoder's limits. |
| SevenZipWriter.FormIsRead | thirdparty/unarr-1.1.1-patch/lzmasdk/7zArcIn.c:205-240 | A number is read back from each of its forms with up to eight following bytes: as many one bits as bytes follow, the high part in the rest of the first byte, and the low part behind it. |
| SevenZipWriter.NumberIsForm | thirdparty/unarr-1.1.1-patch/lzmasdk/7zArcIn.c:205-240 | Whatever is read is the form that its first byte announces, of a number below 2^(7n+7) for n following bytes, and below 2^64 for eight. |
| SevenZipWriter.WrittenIsRead | thirdparty/unarr-1.1.1-patch/lzmasdk/7zArcIn.c:205-240 | Every number below 2^64 is read back from its shortest form. |
| SevenZipWriter.FolderIsRead | thirdparty/unarr-1.1.1-patch/lzmasdk/7zArcIn.c:444-608 | A folder written from coders with ids, stream counts and properties, from bonds, and from packed streams of which a single one is left out, is read back as it was, wherever it stands. |
| SevenZipWriter.PropsAreFound | thirdparty/unarr-1.1.1-patch/lzmasdk/7zArcIn.c:509-526 | The properties of every coder are found where the folder says. |
| SevenZipWriter.AcceptedIsFormed | thirdparty/unarr-1.1.1-patch/lzmasdk/7zArcIn.c:444-608 | A folder that is accepted binds the output of every coder but the main one, uses no stream twice, and packs exactly the streams that are not bound. |

## Findings

Where the source does not do what one would expect, the exact condition is proved.

| what | where | exactly when |
|---|---|---|
| A save and load can change the order in which events are dispatched. Loading adds the events in heap array order behind the end-of-queue event, so that the layout can differ. | src/nba/include/nba/scheduler.hh:201-223 | Never for the next event (`LoadKeepsFirst`). For the one after it, some layout of the pending events is reordered if and only if two events other than the first share the least key (`LoadKeepsSecondIff`). Nothing can be noticed in runs where only the first dispatch is tied (`LoadingAfterFirst`), and in no run if all keys are different and stay so (`LoadingWithKeysApart`). Three equal additions to a fresh scheduler suffice to see it (`ThreeTiedIsReached`, `LoadingCanReorderTies`). |
| The halt loop can delay a DMA transfer until the next event. `DMA::Run` ends with a cycle in which another channel can become active (src/nba/src/hw/dma/dma.cc:152-163), after which the loop jumps without looking. | src/nba/src/core.cc:94-99 | A turn of the loop differs from polling if and only if its transfer leaves another one due with the CPU asleep and the next event ahead (`TurnsAgreeIff`, `TransferIsDelayed`). |
| The PowerPC and SPARC filters do not restore their input at a start position that is not a multiple of four. | thirdparty/unarr-1.1.1-patch/lzmasdk/Bra.c:158-256 | They do if and only if it is one (`PpcNeedsAlignment`, `SparcNeedsAlignment`, `RotatedNeedsAlignment` for the other variant of SPARC, and for buffers `UndoableIff`). |
| The 48 bits fetched for Deflate's fast path can be one too few. | thirdparty/unarr-1.1.1-patch/zip/inflate.c:335 | If and only if a length symbol from 281 to 284 and distance symbol 30 or 31, which valid streams do not use, have code words of 15 bits (`BudgetIff`); the decoder accepts such codes (`BudgetExceeded`). |
| Distance symbol 30, which Deflate excludes, is accepted: the check is for more than 30. | thirdparty/unarr-1.1.1-patch/zip/inflate.c:388 | Symbol 30 always, as far as its distance lies within the output, and symbol 31 never (`DistanceSymbol`, `SymbolThirtyIsAccepted`). |
| Length symbol 284 with all five extra bits set, which section 3.2.5 of RFC 1951 leaves out, is accepted as a match of 258 bytes. | thirdparty/unarr-1.1.1-patch/zip/inflate.c:370 | It is the only second form of a length or distance (`SymbolHasLength`, `SymbolHasDistance`), and is among what `AcceptedIffWritten` says is accepted. |
| A Huffman code of RAR whose table could not be made keeps the partly filled table, and later calls may return symbol 0 without consuming anything. | thirdparty/unarr-1.1.1-patch/rar/uncompress-rar.c:110-127 | If and only if the buffered key is not before the first one that leads to a missing branch (`ReadNextSymbol`, `UnfilledInput`); never for codes whose table can be made (`CompleteIsFilled`). |
| `AddCycles` need not end when a callback adds an event with delay zero. | src/nba/include/nba/scheduler.hh:245-252 | It ends for callbacks with delays of at least one cycle (`AddCyclesTerminates`), and there is one with delay zero for which it does not (`ZeroDelayNeverEnds`). |
| The constructor registers `EndOfQueue` and then overwrites all callbacks with panics. | src/nba/include/nba/scheduler.hh:84-95 | Both panic, so nothing follows. |
| Checks that can never fail: that a 7z folder has a main coder and an unbound stream, that the second parse of a folder agrees with the first, and the internal error of the LZMA decoder. | thirdparty/unarr-1.1.1-patch/lzmasdk/7zDec.c:624-627 | `MainExists`, `UnusedExists`, `DecodeFolder`, `DecodeToDic`. |

## Left out

- PPU, APU, timers, IRQ, CPU instructions, bus timing and prefetch, user interface and configuration: they appear only as arbitrary callbacks, environments and transfer functions.
- Scheduler: callbacks name events by uid instead of by pointer, and by contract cancel neither the event being dispatched nor the end-of-queue event, keep time stamps below 2^62 - 1, and do not wrap the uid counter.
- Scheduler.Scheduler.Step: the number of iterations is a ghost parameter, so that runs that do not end have no outcome; `AddCyclesTerminates` says when there are none.
- JumpIsSound: says nothing of `dma.Run` and of the second wake-up test, which `HaltLoopIsPolling` includes, nor of the truncation to `int` in `GetRemainingCycleCount`, nor of the prefetch countdown in `Bus::Step`.
- HaltLoopIsPolling: the transfer unit is an arbitrary function; the rest of `Core::Run`, and the transfers themselves, are not modelled. Both loops may run past the limit to the next event.
- LoadingWithKeysApart: the condition on the callback is for every consistent view with different keys in which its event is pending and due, whether a run reaches it or not.
- Deflate64: chunks do matter for it, since a length symbol is rewritten before a point where the decoder may suspend.
- Inflate.Inflate.Process: streams whose codes could need 49 bits for one match (length symbols 281 to 284 with distance symbols 30 or 31, see `BudgetIff`) are outside of the domain; distance symbol 31 is an error as in the code, symbol 30 is accepted as in the code.
- Inflate.Inflate.Process: the step field is kept current at every transition, not only at returns; null arguments and calls after an error are not modelled; with all input used up `NotDone` may be returned where a later call reports an error.
- InflateTree.Tree.AddValue: the fixed array of nodes is a sequence that grows up to the same capacity.
- RarHuffman: doubling of the tree's capacity and lack of memory; truncated reads of the archive file.
- LzmaBuffer.Decoder.DecodeToDic: re-initialization with a kept dictionary, as LZMA2 does, and calls after an error are not modelled; nor is the wrapper `LzmaDecode`. That the code stays below the range is not claimed, since direct bits of corrupt data can break it.
- PPMd: everything but the allocator. Units are counted instead of bytes, the link of a free block lies over stamp and size as on little-endian machines, and that allocated blocks start with a non-zero halfword is the obligation of the model code that fills them.
- PpmdAllocator.Allocator.RestartModel: of the contents of the first contexts only the leading halfwords are stated.
- PpmdGluing.Serve: growing and shrinking are not among the operations; as to the count, `GrowUnits` is an allocation of the next class and `ShrinkUnits` does not touch it.
- Crc32: the static flag for the tables is a field of a class.
- Lzss: the mask of a window whose size is a power of two is the remainder by its size; negative lengths are not modelled.
- BranchConverters: IA-64 and x86 are not modelled. Native order is that of little-endian machines.
- SevenZipNumbers.SzData.ReadNumber32: the check against a `size_t` of 32 bits is left out; with 64 bits it never fails.
- SevenZipArcIn.GetNextFolderItem: which of the two error codes is returned is not stated.
- SevenZipArcIn.ScanFolder: nor is it here.
- SevenZipUnpack.UnpackInfo.ReadFolders: external folder data, the limit of the number of folders, the error codes, and the rest of `ReadUnpackInfo` after the folders are left out.
- SevenZipUnpack.UnpackInfo.DecodeFolder: the comparison of the caller's output size, and everything after the comparisons, are left out.
- Allocation failures, and everything else of the archive reader.
