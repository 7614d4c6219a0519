# A verified model of the XDMA scatter-gather DMA driver

The Xilinx XDMA driver moves data between host memory and a PCIe card. This
project models its four parts that have hard properties and proves those
properties with Dafny. `dafny verify dfyconfig.toml` checks all of it.

**From a request to moved bytes.** A read or write of `count` bytes at a card
address is cut into chunks of at most 8 MiB (`Requests`), each chunk into page
entries (`ScatterGather`), these are coalesced into blocks (`Coalescing`), and
the blocks become a table of linked descriptors with prefetch hints packed into
a control word (`Descriptors`, `Transfers`). `Device` is the other side: it
fetches descriptors in the blocks that the hints announce, within the table and
within one 4 KiB page, executes them, and stops at the one that is marked
STOPPED. `Copying` says what executing a descriptor does to the two memories.
The main results are that walking a compiled table by its hints executes each
descriptor once and in order (`Device.DeviceRunsCompiledTable`), and that a
whole request that succeeds is one flat copy and leaves all other bytes alone,
while one that fails has moved exactly a prefix (`Requests.TransferData`).
`Sharing` has several submitters on one engine, in interrupt mode, as a state
machine: in every interleaving each of them gets its own flat copy.
`Alignment` proves that one test of the user's buffer decides the alignment of
every descriptor.

**The queue of an engine.** `Queue` states as values what submitting and
servicing make of an engine, and proves the accounting against prefix sums and
the order, once-only retirement and restart over all runs. `Engines` is the
engine object, whose methods are proved against those functions. `Interrupts`
is the mask, schedule and unmask hand-off as a state machine over the words of
the mask registers.

**The receive ring.** `Ring` describes the 256-slot ring as values and proves
it a bounded FIFO; `RxEngine` has the methods that scan, pop and copy in place.
`RingSetup` makes the circular descriptor table and proves that the device goes
around it. `RingProtocol` runs the device, the service routine and a reader
concurrently in atomic steps, with 128 credits, and proves over all
interleavings that blocks are conserved, that the ring never overruns, and that
the reads return the packets of the stream.

**Bitstreams.** `BitHeader` proves the header parser against an encoder, and
`Download` the chunked downloads against the one-shot form.

A method that changes state is proved against a function of the old state; what
the driver promises is then proved about that function.

## Where the code and its promises part

These hold of the code as it is and are proved as such.

- A service call that still sees BUSY unlinks the head all the same. It keeps
  what every run relies on exactly when it found the engine stopped
  (`Queue.BusyServiceCondition`). If it did not and another transfer waits, the
  next call fails that one, though the device was never started on it
  (`Queue.BusyServiceFailsNext`).
- A service call keeps each submitted transfer either retired or queued exactly
  when the status shows no error. After an error the failed transfer stays
  queued, and the device is started on it again exactly when it was found
  stopped (`Queue.ErrorServiceCondition`). An error status that still shows BUSY
  leaves a running engine whose device has been stopped.
- `complete_cyclic` copies out what the popped results describe, whatever the
  blocks hold, exactly when all of them but the last are full, because copying
  splits the total length: `RxEngine.CopyMatchesIffFull`, and
  `RxEngine.CompleteMatchesIffFull` for the results that it pops.
- A service call that goes by the writeback word does not read the status. It
  completes a transfer that the device has executed to its end exactly when the
  status read last, which may be an older one, shows no error
  (`Requests.ServiceOnly`).
- Once the ring has overrun, the pop loop runs into results that it has cleared
  itself unless a packet ends before the first bad one: `Ring.OverrunPopFaults`.
- When `copy_to_user` fails, the number of uncopied bytes is returned as if it
  were a length, and the credits are given back: `RxEngine.RxEngine.CompleteCyclic`.
- The page count is kept in an `int`, and 2^44 bytes count as none
  (`ScatterGather.NrPagesIsPageCount` and `NrPagesTruncates`). A range whose
  count is truncated to one page gets one entry that does not hold it
  (`ScatterGather.TruncatedToOne`). No request gets there: `transfer_create` is
  called with at most 8 MiB.
- A failed ICAP burst ends the download without an error. All words of a body
  go out exactly when there is room at every reading of the vacancy and every
  burst but the last is flushed, and success means that they did exactly then
  (`Download.BodyGoesOut`, `Download.DownloadReports`).
- The comment above `char_sgdma_read_write` speaks of 255 pages for each
  transfer. The code takes 2048 pages, and so does the model.

## Model

| member | source | states |
|---|---|---|
| ScatterGather.SplitIsPartition | driver_src/driver/xdma-sgm.c:187-216 | The page entries of a range name each of its bytes once, in order, and no other byte. |
| ScatterGather.SplitAt | driver_src/driver/xdma-sgm.c:187-216 | Entry i is in the i-th page; only the first may start inside its page; each has 1 to PAGE_SIZE bytes. |
| ScatterGather.CapacitySuffices | driver_src/driver/xdma-sgm.c:50 | A mapper made for a byte count has room for every range of that size, wherever it starts. |
| ScatterGather.NrPagesIsPageCount | driver_src/driver/xdma-sgm.c:107-116 | The C page count is the number of pages touched exactly when that number fits an int. |
| ScatterGather.NrPagesOfNothing | driver_src/driver/xdma-sgm.c:107-116 | No bytes count as no page, or as one if they start within a page. |
| ScatterGather.NrPagesTruncates | driver_src/driver/xdma-sgm.c:107-116 | A range for which it does not: 2^44 bytes count as no page. |
| ScatterGather.TruncatedCountFires | driver_src/driver/xdma-sgm.c:187-204 | A truncated page count greater than 1 leaves more than a page for the last entry, which its BUG_ON forbids. |
| ScatterGather.TruncatedToOne | driver_src/driver/xdma-sgm.c:210-216 | A page count truncated to 1 takes the single-page branch: one entry, from the start on, of the count modulo 2^32, which is less than the range. |
| ScatterGather.TakenForOnePage | driver_src/driver/xdma-sgm.c:107-116 | A range for which that happens: 2^44 + 4096 bytes. |
| ScatterGather.SgCreateMapper | driver_src/driver/xdma-sgm.c:40-72 | No mapper for zero bytes or a truncated, negative number of entries; else an empty one with two entries more than whole pages. |
| ScatterGather.Mapper.Populate | driver_src/driver/xdma-sgm.c:187-216 | The filling loop leaves the partition in the scatter list, and its two count BUG_ONs cannot fire; a range taken for one page gets one entry. |
| ScatterGather.Mapper.GetUserPages | driver_src/driver/xdma-sgm.c:102-226 | Each error return and its cause, the pages released on failure, and on success the partition in the pinned frames, or one entry if the count is truncated to one page. |
| ScatterGather.Mapper.KernelPages | driver_src/driver/xdma-sgm.c:261-360 | The same for kernel memory, where a page that is not mapped is the failure. |
| Coalescing.CoalescingKeepsBytes | driver_src/driver/xdma-core.c:2860-2939 | Blocks laid end to end have the byte addresses of the entries laid end to end, in the same order. |
| Coalescing.BlockSizes | driver_src/driver/xdma-core.c:2884-2915 | With page entries, each block has 1 to 0x3ffff bytes. |
| Coalescing.BlocksAreMaximal | driver_src/driver/xdma-core.c:2877-2889 | A block is closed only at a gap or once it holds 258048 bytes, so that one more page could exceed the bound. |
| Coalescing.ForcedBlocks | driver_src/driver/xdma-core.c:2887-2888 | With forced descriptors, there is one block per entry. |
| Coalescing.DescriptorCountBound | driver_src/driver/xdma-core.c:2877-2918 | At most one block per entry, and at most 1 + gaps + total / 258048. |
| Coalescing.RangeByteAt | driver_src/driver/xdma-core.c:2969-2987 | Byte k of the mapped entries is the bus address of byte k of the virtual range. |
| Coalescing.ChunkFitsWritebackCount | driver_src/driver/xdma-core.c:1587-1590 | A chunk of 8 MiB has at most 2049 descriptors, so the writeback mask never rejects its count. |
| Descriptors.ApplyMeansFields | driver_src/driver/xdma-core.c:2088-2194 | Each helper changes, of the four packed fields, only those it is meant to, on every 32-bit word. |
| Descriptors.PackedFieldsAreIndependent | driver_src/driver/xdma-core.c:2088-2194 | Any sequence of helpers acts on the packed word as on a record of separate fields. |
| Descriptors.ReservedAndMagicSurvive | driver_src/driver/xdma-core.c:2088-2194 | Any sequence keeps bits 12 to 15, and keeps the magic once it is set. |
| Descriptors.DecodeIsExact | driver_src/include/xdma-core.h:386-400 | Packing the four fields of a word gives the word back. |
| Descriptors.LinkMeans | driver_src/driver/xdma-core.c:2088-2117 | Linking sets the next descriptor, or none, edits the control word and changes nothing else. |
| Descriptors.FillMeans | driver_src/driver/xdma-core.c:2224-2249 | Filling sets length, source and destination by direction and changes nothing else. |
| Transfers.DescAlloc | driver_src/driver/xdma-core.c:2013-2078 | The new descriptors are linked in order, the last to nothing, with magic, no length, no flags and hints for the rest of the list up to the limit. |
| Transfers.TransferBuild | driver_src/driver/xdma-core.c:2841-2940 | The loop fills descriptor j with block j at the device address after blocks 0 to j - 1, or at a constant one, and leaves the others. |
| Transfers.CompiledDescMeans | driver_src/driver/xdma-core.c:2224-2249 | Each field of a finished descriptor: block and device address as source and destination by direction, the byte count, the next descriptor, the magic, the hint, and flags 0x13 in the last and 0 in the others. |
| Transfers.FinishTable | driver_src/driver/xdma-core.c:3006-3028 | The list is terminated at the last used descriptor, and each gets the hint for the rest of the list. |
| Transfers.TableIsCompiled | driver_src/driver/xdma-core.c:2997-3028 | Allocating, building and finishing leave exactly the table specified for the blocks, though fewer descriptors may be used than were allocated. |
| Transfers.TransferCreate | driver_src/driver/xdma-core.c:2942-3034 | A transfer for a virtual range holds the compiled table of its coalesced pages. |
| Device.ExtraIsBounded | driver_src/driver/xdma-core.c:2130-2155 | A hint is the least of what is left of the list, 15 and the page of the next descriptor. |
| Device.HintStaysInPage | driver_src/driver/xdma-core.c:2130-2155 | The descriptors that a hint announces are in the table and in one 4096-byte page. |
| Device.CompiledIsWellHinted | driver_src/driver/xdma-core.c:3018-3028 | In a page-aligned table each hinted block is the next part of the list, in one page and within the used descriptors. |
| Device.WalkFollowsChain | driver_src/driver/xdma-core.c:2130-2155 | With such hints, prefetching by blocks executes what following the links one by one executes. |
| Device.DeviceRunsCompiledTable | driver_src/driver/xdma-core.c:910-917 | Started as engine_start programs it, the device executes every descriptor once, in order, and halts. |
| Copying.WritesFlat | driver_src/driver/xdma-core.c:2224-2249 | Blocks copied to the card leave the bytes of the blocks from the endpoint address on, and nothing else changed. |
| Copying.ReadsFlat | driver_src/driver/xdma-core.c:2224-2249 | Blocks read from the card into distinct addresses hold the card's bytes in order. |
| Copying.ReadsOnlyBlocks | driver_src/driver/xdma-core.c:2224-2249 | Host bytes that are in no block keep their value. |
| Copying.ExecuteCompiled | driver_src/driver/xdma-core.c:2906-2915 | Executing the first descriptors of a compiled table copies that many of its blocks. |
| Copying.BlocksMoveBytes | driver_src/driver/xdma-core.c:2860-2939 | Copying the first n blocks of a chunk moves exactly as many bytes of the user's range. |
| Copying.MovesCompose | driver_src/driver/xdma-core.c:3356-3359 | What two successive chunks move is what one chunk of their sum would move. |
| Copying.CarriesOn | driver_src/driver/xdma-core.c:3285-3366 | The next blocks carry a request on: in incrementing mode exactly their bytes are moved; in the other mode nothing changes but the memory that the request is to fill. |
| Requests.DeviceRunCopiesBlocks | driver_src/driver/xdma-core.c:910-917 | The device on a compiled table, stopped anywhere, has copied the blocks up to there. |
| Requests.ServiceOnly | driver_src/driver/xdma-core.c:1398-1489 | A service call on the only transfer, by interrupt or writeback, with any status, writeback flag and BUSY bit: which status it goes by, the state of the transfer, the list, the running flag and the device after it. One by writeback completes an executed transfer if and only if the status read last shows no error. |
| Requests.Monitor | driver_src/driver/xdma-core.c:3254-3283 | Waiting ends with the transfer judged by that service call, in interrupt and in poll mode, or with a signal and the transfer still queued. |
| Requests.RunTransfer | driver_src/driver/xdma-core.c:3325-3330 | One transfer, submitted to an idle engine: what has been copied, the state, the result code and the engine, for any status and writeback. |
| Requests.RunChunk | driver_src/driver/xdma-core.c:3299-3353 | One round of the chunk loop carries the request on by its whole length, or by a part of it: with -ERESTARTSYS if a signal ended the wait, else with -EIO; nothing moves if there is no memory for the transfer. |
| Requests.TransferData | driver_src/driver/xdma-core.c:3285-3366 | A request succeeds if and only if every chunk runs to its end and the status that its service call goes by shows no error; then it returns count, has moved exactly the request and advanced the position by count. Otherwise it returns -512 if the first chunk that did not ended by a signal, and -5 in every other case; the position has advanced by the chunks before the first that did not, whole chunks of 8 MiB; at least that prefix has been moved and nothing beyond the failed chunk. In non-incrementing mode results and position are the same and nothing but the target memory has changed. |
| Sharing.SharedFlatCopy | driver_src/driver/xdma-core.c:3285-3366 | In every interleaving of several submitters, the device and the service work: memory is the one in which exactly the first n[i] bytes of each request have been moved; n[i] is the whole of a request that returned its size, and ends within the unfinished chunk of one that returned -EIO. |
| Sharing.RequestDelivered | driver_src/driver/xdma-core.c:3285-3366 | A request that has returned its size is delivered, byte for byte, whatever the other submitters have done since. |
| Sharing.ReadyCanEnqueue | driver_src/driver/xdma-core.c:3307-3325 | In every good state a submitter with bytes left can queue any new transfer that fits its next chunk, and then waits for it. |
| Sharing.WaiterCanLeave | driver_src/driver/xdma-core.c:3274-3279 | A waiting submitter can be woken if and only if its transfer is off the queue, and be interrupted by a signal if and only if it is on it. |
| Sharing.WokenReturns | driver_src/driver/xdma-core.c:3331-3353 | A submitter whose transfer failed, or that gets no memory, returns -5; one whose transfer is completed goes on by its chunk, or returns the number of its bytes. |
| Sharing.InterruptedIffSignalled | driver_src/driver/xdma-core.c:3342-3347 | In every run a submitter has returned -512 if and only if a signal interrupted it. |
| Sharing.StepKeepsGood | driver_src/driver/xdma-core.c:3254-3283 | Each step keeps who waits for which transfer, what state that transfer is in and which bytes of each request have been moved. |
| Sharing.QueueRuns | driver_src/driver/xdma-core.c:1398-1489 | The device, running the compiled tables, never counts past the transfer that it was started on: every run here is one that the queue theorems speak of. |
| Sharing.UndisturbedRequestsSucceed | driver_src/driver/xdma-core.c:3331-3353 | If the device finishes every transfer, there is memory and no signal comes, no request returns an error. |
| Sharing.WaiterIsServed | driver_src/driver/xdma-core.c:1358-1388 | From every reachable state, device and service work alone bring a queued transfer to its end, within as many steps as descriptors and service calls are left up to it, and its submitter goes on by its chunk. |
| Alignment.MaskTestsCongruence | driver_src/driver/xdma-core.c:3044-3047 | The masked low bits agree exactly when the numbers are congruent modulo the power of two. |
| Alignment.MemoryModeNeedsCongruence | driver_src/driver/xdma-core.c:3068-3078 | In memory-mapped incrementing mode the check returns 0 if and only if buffer and position are congruent modulo the alignment, else -22. |
| Alignment.OtherModesNeedMultiples | driver_src/driver/xdma-core.c:3044-3066 | In the other modes it returns 0 if and only if the buffer is a multiple of the alignment, the size of the granularity, and, without streaming and in a synchronous request, the position of the alignment; else -22. |
| Alignment.AlignmentIsInherited | driver_src/driver/xdma-core.c:3068-3078 | The check passes if and only if host and device address of any one descriptor of any chunk are congruent modulo the alignment. |
| Alignment.CharSgdmaReadWrite | driver_src/driver/xdma-core.c:3384-3443 | A request in the wrong direction or out of alignment returns -22 and changes nothing; any other is carried out as above; of a streaming engine results and position only. |
| Queue.ServiceIsPrefixSum | driver_src/driver/xdma-core.c:1209-1235 | The retired prefix is the one whose descriptor sums enclose the count; all but its last are completed, and the last if and only if the count reaches its sum. |
| Queue.HeadFoundIffCovered | driver_src/driver/xdma-core.c:1269-1330 | Accounting finds its final transfer exactly when the count is covered by the queued descriptors. |
| Queue.PassedAccounts | driver_src/driver/xdma-core.c:1209-1235 | The descriptors of the transfers that the count runs past sum to less than the count, and with the next transfer's to no less. |
| Queue.EveryRunKeepsOrder | driver_src/driver/xdma-core.c:1398-1489 | From any settled state, every run keeps the engine running exactly while something is queued, and retired then queued transfers are the submitted ones in order. |
| Queue.QueueSafety | driver_src/driver/xdma-core.c:2334-2387 | The same from an idle engine: nothing submitted is stranded, lost or reordered. |
| Queue.RetiredOnce | driver_src/driver/xdma-core.c:1170-1238 | A transfer submitted once leaves SUBMITTED at most once, and none that has left is still queued. |
| Queue.BusyServiceCondition | driver_src/driver/xdma-core.c:1289-1318 | A service call without an error keeps the invariant of every run if and only if it found the engine stopped; `running` alone agrees with the queue also if transfers are left. |
| Queue.BusyServiceFailsNext | driver_src/driver/xdma-core.c:1289-1318 | The call that follows a BUSY one on a completed head fails the next transfer, which the device was not started on. |
| Engines.NothingIsCountedTwice | driver_src/driver/xdma-core.c:1466-1468 | On the engine: the second of these calls, which reads the same descriptor count, finds none that is not accounted for, and so fails the next transfer. |
| Queue.ErrorServiceCondition | driver_src/driver/xdma-core.c:1284-1287 | Retired then queued transfers stay the same if and only if the status shows no error; under an error the transfer that the count ends in is failed and queued, and the device is started again if and only if it was found stopped. |
| Engines.Engine.Start | driver_src/driver/xdma-core.c:876-931 | The registers hold the head's first descriptor and its first hint; the run counters start anew. |
| Engines.StatusBits | driver_src/driver/xdma-core.c:1277-1284 | BUSY is bit 0 of the status; the errors are bits 3, 4, 9 to 13 and 19 to 23, and no other. |
| Engines.AttributableMeans | driver_src/driver/xdma-core.c:1408-1468 | The count that a service call goes by is that of the writeback word, or of the register if the word has none, less what the run has already accounted for, in 32 bits. |
| Engines.Engine.Submit | driver_src/driver/xdma-core.c:2334-2387 | A transfer is refused on shutdown; else it is submitted and queued last, and an idle engine is started. |
| Engines.Engine.ServiceTransferList | driver_src/driver/xdma-core.c:1198-1238 | The loop completes the transfers that the count runs past, up to a cyclic one, changes no other state, and what is left of the count and what is dequeued add up to what they were. |
| Engines.Engine.Account | driver_src/driver/xdma-core.c:1293-1320 | Loop and final transfer together, on lists with or without a cyclic transfer: each of the worked-off transfers has its verdict, in order, and bears that state; the device is stopped by an error. |
| Engines.Engine.ServiceFinalTransfer | driver_src/driver/xdma-core.c:1269-1330 | The verdict on the head in each case; any of the error bits of the status fails it, whatever the count, leaves it queued and stops the device. |
| Engines.Engine.Resume | driver_src/driver/xdma-core.c:1358-1388 | A stopped engine is marked idle on shutdown, else started if anything is queued; a running one is left alone. |
| Engines.Engine.Service | driver_src/driver/xdma-core.c:1398-1489 | A service call does what the queue functions say for the count and status that it goes by, up to the first transfer that the count covers or a cyclic one; the transfers bear their verdicts, and after an error the device runs if and only if the engine was found stopped. |
| Engines.VerdictsShow | driver_src/driver/xdma-core.c:1198-1330 | After a service call each verdict that it gave is the state of its transfer, and transfers behind the last of them are in the state they were in. |
| Interrupts.BitsAreDisjoint | driver_src/driver/xdma-core.c:2592-2595 | The bits of two engines have nothing in common. |
| Interrupts.DisableMeans | driver_src/driver/xdma-core.c:1661-1698 | Writing a word to the disable register masks the engines it selects and no other. |
| Interrupts.EnableMeans | driver_src/driver/xdma-core.c:1492-1521 | Servicing an engine unmasks that engine and no other. |
| Interrupts.StepOnEngine | driver_src/driver/xdma-core.c:1638-1702 | Only the mask write masks an engine, exactly if it fired; only its own unmask step unmasks it; only the visit to its slot queues its work, exactly if it fired; only the start of its work takes it off the queue. |
| Interrupts.WordStepOnEngine | driver_src/driver/xdma-core.c:1638-1702 | The same of the bits of the mask register and of the word that the handler has read. |
| Interrupts.FiredStaysMasked | driver_src/driver/xdma-core.c:1661-1669 | After the mask write each engine that fired is masked until its own unmask step, in every run. |
| Interrupts.FiredBitStaysClear | driver_src/driver/xdma-core.c:1661-1669 | The same of its bit in the mask register. |
| Interrupts.FiredIsScheduled | driver_src/driver/xdma-core.c:1681-1698 | Once the handler has returned, the work of each engine that fired and is not yet unmasked is queued or servicing it. |
| Interrupts.HandlerPass | driver_src/driver/xdma-core.c:1638-1702 | One pass of the handler, for any word that it reads: it clears the mask bits that the word selects and queues the work of exactly those engines. |
| Interrupts.WorkPass | driver_src/driver/xdma-core.c:1492-1521 | One pass of a queued work item: its engine's mask bit is set, and it is off the queue. |
| Interrupts.EveryRunHandsOff | driver_src/driver/xdma-core.c:1638-1702 | In every interleaving, from any state with this property: a masked engine has its work queued or running, or the handler is about to queue it. |
| Interrupts.InterruptHandOff | driver_src/driver/xdma-core.c:1638-1702 | The same from the state after probing. |
| Interrupts.MaskedEngineCanProceed | driver_src/driver/xdma-core.c:1492-1521 | While an engine is masked some step of the handler or of its own work item is enabled that brings its unmasking nearer. |
| Interrupts.MaskedEngineIsUnmasked | driver_src/driver/xdma-core.c:1492-1521 | A run of such steps, no more than 35, unmasks it. |
| Interrupts.WordStepRefines | driver_src/driver/xdma-core.c:1638-1702 | Each step on the mask words, with its bit operations, is enabled when the step on sets of engines is and does what that does. |
| Interrupts.WordHandOff | driver_src/driver/xdma-core.c:1638-1702 | In every interleaving from probing on, an engine whose bit in the mask register is clear has its work queued or before the unmasking, or the handler has read its bit and not yet come to its slot. |
| Interrupts.MaskedBitIsSet | driver_src/driver/xdma-core.c:1492-1521 | No more than 35 steps of the handler and the engine's work item set that bit again. |
| RingSetup.SetResultAddresses | driver_src/driver/xdma-core.c:2258-2269 | Descriptor i gets result slot i as its source, 32 bytes after the one before. |
| RingSetup.SetAllControl | driver_src/driver/xdma-core.c:2271-2280 | Every descriptor gets the flags and keeps the rest of its control word. |
| RingSetup.TransferCyclic | driver_src/driver/xdma-core.c:2120-2127 | The last descriptor is linked to the first, the others stay. |
| RingSetup.CyclicTransferSetup | driver_src/driver/xdma-core.c:3995-4066 | The session starts as the receive protocol does: the ring fields are reset, 128 credits are written in credit mode; the transfer of 256 descriptors, one per page of the buffer, is cyclic, queued last, and an idle engine is started on it. |
| RingSetup.RingDescMeans | driver_src/driver/xdma-core.c:4024-4051 | Descriptor i stores 4096 bytes at page i of the receive buffer, reports 32 * i bytes into the result buffer, is followed by the next, the last by the first, and has the flags 0x12. |
| RingSetup.ResultSlotsApart | driver_src/driver/xdma-core.c:2258-2269 | The result slots do not overlap, follow each other in order and stay within the 8192 bytes of the result buffer. |
| RingSetup.DeviceRunsAround | driver_src/driver/xdma-core.c:4024-4051 | No descriptor stops the device; from any of them the links, and from the first the prefetching device, visit all 256 in order, for as long as it runs. |
| RingSetup.DeviceAtStep | driver_src/driver/xdma-core.c:4024-4051 | The k-th descriptor executed is k modulo 256. |
| RingSetup.WriteIsDescriptor | driver_src/driver/xdma-core.c:4024-4051 | What the receive protocol has the device write is the work of the descriptor that it is on: to that descriptor's page and result slot, and nowhere else. |
| Ring.ScanAppends | driver_src/driver/xdma-core.c:1043-1065 | A scan appends the maximal run of results with a status other than 0 and flags an overrun exactly when that fills the ring. |
| Ring.ScanIsRounds | driver_src/driver/xdma-core.c:1043-1065 | A scan is that many rounds of its loop. |
| Ring.EopCountMeans | driver_src/driver/xdma-core.c:1043-1050 | The packet ends that a scan counts are the scanned results with the lowest status bit set. |
| Ring.PopRemoves | driver_src/driver/xdma-core.c:3540-3593 | Without a fault, popping removes the oldest results: up to the first end of packet, or all. |
| Ring.PopClears | driver_src/driver/xdma-core.c:3583-3587 | The popped slots are zeroed and no other changes. |
| Ring.OverrunPopFaults | driver_src/driver/xdma-core.c:3545-3592 | Popping an overrun ring faults if and only if a bad result stands before every end of packet. |
| Ring.PopFaultsIffBadFirst | driver_src/driver/xdma-core.c:3545-3592 | Popping a ring that has not overrun faults if and only if a bad result is unread before, or as, the first end of packet. |
| Ring.FaultyMeans | driver_src/driver/xdma-core.c:3553-3573 | A result is bad if and only if the upper half of its status is not 0x52B4, or it has no bytes or more than 4096. |
| RxEngine.CopyMatchesIffFull | driver_src/driver/xdma-core.c:3503-3521 | Copying the sum of the lengths from the head on delivers, for every content of the buffer, the bytes that the results describe if and only if all blocks but the last are full. |
| RxEngine.CompleteMatchesIffFull | driver_src/driver/xdma-core.c:3524-3611 | The same for complete_cyclic: the length that it sums up over the results that it pops, and the bytes that these describe. |
| RxEngine.RxEngine.RingProcess | driver_src/driver/xdma-core.c:1030-1068 | The loop ends within 256 rounds in the scanned state and returns the number of packet ends scanned. |
| RxEngine.RxEngine.PopResults | driver_src/driver/xdma-core.c:3538-3595 | The locked loop leaves the popped state; its fault, credit and length are those of the popped results. |
| RxEngine.RxEngine.CopyCyclicToUser | driver_src/driver/xdma-core.c:3489-3522 | The blocks from the head on reach the user in order up to the length, or up to the block that cannot be copied. |
| RxEngine.RxEngine.CompleteCyclic | driver_src/driver/xdma-core.c:3524-3611 | On a fault nothing is copied and no credit given; on a failed copy its prefix is copied and credits are given; else as many bytes as the popped results describe are copied from the head on, their number returned and one credit given per block. |
| RingProtocol.CreditSafety | driver_src/driver/xdma-core.c:3524-3611 | In every interleaving, credits and the blocks written and not yet given back add up to 128; there is no overrun and no fault; the scan stops at the device's position; a block that may be written is none of those. |
| RingProtocol.PacketFraming | driver_src/driver/xdma-core.c:3613-3654 | In every interleaving the n-th read returns the n-th packet, byte for byte, and its length. |
| RingProtocol.FramingIsExact | driver_src/driver/xdma-core.c:3545-3593 | The packets and the packet begun hold all bytes of the stream in order, one packet per end mark. |
| RingProtocol.StepKeepsGood | driver_src/driver/xdma-core.c:3524-3611 | Every step of device, scan and reader keeps the conservation, the results, the data and the reader's relation to the framed stream. |
| RingProtocol.EveryStepIsProgress | driver_src/driver/xdma-core.c:3613-3654 | Every step but the start of a read leaves less to do. |
| RingProtocol.ReadIsNeverStuck | driver_src/driver/xdma-core.c:3445-3487 | While the packet being read has an end in the stream, some step is enabled. |
| RingProtocol.RunsAreBounded | driver_src/driver/xdma-core.c:3613-3654 | No run without a new read has more steps than remain. |
| RingProtocol.ReadCompletes | driver_src/driver/xdma-core.c:3613-3654 | A run within a read that can go no further has returned the packet being read, and its length, if it ends in the stream. |
| RingProtocol.EveryPacketCanBeRead | driver_src/driver/xdma-core.c:3613-3654 | For every stream there is a run from the beginning that delivers all of its packets, each with its length. |
| RingProtocol.PopStepsFollowLoop | driver_src/driver/xdma-core.c:3545-3593 | Uninterrupted pop steps end as the pop loop does. |
| RingProtocol.CopyStepsFollowLoop | driver_src/driver/xdma-core.c:3503-3521 | Uninterrupted copy steps deliver what the copy loop does. |
| BitHeader.ParsesExactlyEncodings | driver_src/driver/xdma-bit.c:207-346 | Parsing returns a header if and only if the buffer begins with its encoding, up to the byte behind the magic; the header length is the encoded length. |
| BitHeader.SuccessMeansEncoding | driver_src/driver/xdma-bit.c:207-346 | Whatever is accepted begins with the encoding of what was returned. |
| BitHeader.ParseHeader | driver_src/driver/xdma-bit.c:207-346 | The parser with its loops returns what the parsing function does, including which of a bad byte or a read outside the buffer comes first. |
| Download.Icap.HwicapWrite | driver_src/driver/xdma-bit.c:183-205 | A burst within the vacancy goes out as big-endian words; the result tells whether one of ten polls found it flushed. |
| Download.WordIsBigEndian | driver_src/driver/xdma-bit.c:183-205 | The first of the four bytes of a word is the most significant. |
| Download.Icap.Helper | driver_src/driver/xdma-bit.c:350-371 | Bursts never exceed the vacancy just read; what went out and whether that is all. |
| Download.Icap.Download | driver_src/driver/xdma-bit.c:408-421 | The chunk loop sends the words of the body in order, as far as the bursts go, and returns what the result function says. |
| Download.CooperativeDownload | driver_src/driver/xdma-bit.c:408-416 | Under any positive vacancies and successful polls, all length / 4 words go out. |
| Download.BodyGoesOut | driver_src/driver/xdma-bit.c:350-371 | All words of a body go out if and only if there is room at each reading that the vacancies provide for and each burst but the last is flushed; the loop completes if and only if the last is, too. |
| Download.GoesOutMeans | driver_src/driver/xdma-bit.c:350-371 | What that condition says of each reading. |
| Download.DownloadReports | driver_src/driver/xdma-bit.c:408-421 | Success means that the whole body is out if and only if that condition holds; an error is returned if and only if every burst was accepted and the device is not done in time. |
| Download.UnreportedFailure | driver_src/driver/xdma-bit.c:414-415 | From a device without room no word goes out and the download returns success. |
| Download.Mcap.Chunked | driver_src/driver/xdma-bit.c:686-697 | Unless a chunk cannot be copied from the user, the chunked form writes the words of the one-shot form. |
| Download.Mcap.OneShot | driver_src/driver/xdma-bit.c:928-935 | The one-shot form writes the first length / 4 big-endian words of the body. |

## Left out

- Addresses that wrap around at 2^64: page frames are below 2^52 - 1 and requests end below 2^64.
- Requests.TransferData: an engine that is idle when the request comes; `Sharing` has the case of several submitters, in interrupt mode, incrementing mode and without errors.
- Requests.TransferData: pinning succeeds, as its BUG_ONs demand. In non-incrementing mode, what a card does with a constant address is not modelled, so only that nothing but the target memory changes.
- Requests.TransferData: no service call finds BUSY without an error (`Queue.BusyServiceCondition` tells what such a call does). What the device does when an error has it started again comes after the result.
- ScatterGather.Mapper.GetUserPages: page counts that the mapper has room for and that are truncated to more than 1, where the BUG_ON of the last entry fires, or to 0 or less, where the table is initialised before its first entry (or a BUG_ON on the pinned pages fires). KernelPages leaves out the same.
- Queue.QueueSafety: service calls find BUSY clear and no error. The other cases have the three lemmas on a BUSY and on an error status. That the device never counts past its transfer is assumed here and proved in `Sharing.QueueRuns`.
- Engines.Engine.Service: a count that covers the whole list, where no transfer is left and a BUG_ON fires. The shutdown request flag is never set in the driver, but its branches are modelled.
- The loop that waits for a writeback word, and several pollers at once.
- RingProtocol.PacketFraming: credit mode, results without faults, full blocks but for the last of a packet, no signals, a user buffer that is long enough (the driver does not look at its length), and result memory that starts cleared.
- RingProtocol.CreditSafety: one open session that starts without leftover credits; writing a block and its result is one step of the device.
- RingProtocol.ReadIsNeverStuck: waiting and waking up are one condition, that something unread is at the head; the loop that waits again after a signal is left out.
- What a service call does around the scan of the ring: reading the status, waking the reader and stopping an engine that is no longer busy.
- A fault leaves the overrun flag set; what a reader then does is not followed.
- Alignment.CharSgdmaReadWrite: what a streaming engine moves, for which a device address means nothing.
- RingSetup.CyclicTransferSetup: its error exits, two of which keep the lock.
- Sharing.SharedFlatCopy: service calls find BUSY clear and no error; poll mode; submitters whose requests write to the same bytes; a signal that restarts the request; engines of both directions at once.
- Interrupts.InterruptHandOff: MSI and legacy mode; user interrupts and the MSI-X handlers are left out, and the mask words have eight engine bits.
- BitHeader.ParsesExactlyEncodings: buffers of less than 2^32 bytes.
- The length test between header and download, a sum of 32-bit values, and the register pokes around the downloads.
- Transfers.TransferCreate: chunks whose mapper can be made; where none can, a BUG_ON fires.
- Chaining of several transfers into one run, which the source switches off (CHAIN_MULTIPLE_TRANSFERS is 0), and the SD_ACCEL tests for a multiple of four bytes.
- The asynchronous path, which completes once per segment and does not advance its position between chunks.
- Performance counters, debug dumps, sysfs, probing, BAR mapping and the control registers.
- Byte order of descriptors in memory: they are values here.
