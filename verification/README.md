# Register drivers and buffers of an STM32F10x TCP server, verified

The project models the parts of the repository where packed registers or shared structures have to
agree with something simple, and proves that they do, over every run.

* **bxCAN driver** (`CanAccounts`, `CanTransmit`, `CanStatus`, `CanFrame`, `CanFifo`, `CanReceive`, `CanLink`,
  `CanFilter`, `CanMode`). Three transmit mailboxes are shared by the driver and the controller, which finishes
  transmissions between any two register accesses. Accounts of accepted, delivered, failed and pending frames are carried along and always
  agree with the registers. Frames survive packing and unpacking and are read in the order
  they arrived; each filter bank accepts exactly the frames its last configuration asks for;
  the mode handshake is right for every behaviour of the acknowledge bits.
* **pbuf and netbuf** (`PbufGraph`, `Pbuf`, `NetbufOwners`, `NetbufModel`, `Netbuf`, `NetbufRun`,
  `PbufSearch`). The heap is a graph of pointers. Reference counts are exactly the numbers of
  pointers, and `pbuf_free` releases exactly what nobody can reach any more. On top of that, netbufs
  refine lists of segments with a cursor.
* **ADC sequencer** (`Adc`), **GPIO, AFIO, EXTI** (`Gpio`, `Afio`, `Exti`): loops and field writes over
  many registers refine per-rank, per-pin and per-line tables.
* **Clock tree** (`Rcc`, `HseStartUp`): what the getter computes after any run of setters, how far it is
  off, and that it stays within 32 bits.
* **Interrupt priorities** (`Nvic`): two independent encoders agree; encoding and decoding are inverse
  and order-preserving for every number of priority bits.

`Words` is the theory below all registers: a word is its 32 bits, the C operators are defined bit by bit,
and reading and writing a field of any width at any place obeys the laws of an array.

Registers are fields of classes, the driver's functions are methods that change them step by step as the
C code does, and each method is tied to a specification function whose laws are proved as lemmas.
Methods named `Run` take any sequence of calls. The fields called `accounts`, `g` and `st` are ghost: they
say what the registers and pointers mean and are no part of the program.

## What the hardware and the callers are assumed to do

* CAN: a write of a one to RQCP clears RQCP, TXOK, ALST and TERR of that mailbox and a write of a zero
  does nothing; a request clears TME until the controller finishes; it finishes pending requests at any
  moment, well or badly. The full and overrun flags of a FIFO are cleared by writing ones. A FIFO
  has three places; the controller takes a release before the driver's next access. Filter words show an
  identifier as the reference manual of the family lays it out (RM0008, filter bank scale configuration). Acknowledge bits may
  change arbitrarily between two reads.
* ISER and ICER enable and disable where a one is written; BSRR and BRR likewise for output bits; a one
  written to the EXTI pending register clears. SWS follows SW in a step of its own.
* Parameter checks compile to nothing in this build (`User/system/stm32f10x_conf.h:72`); the checked ranges
  are the preconditions. The device is the connectivity line (`User/TcpServer.uvprojx:367`).
* A memory allocator succeeds or fails as it likes: `available` is a parameter. `LWIP_ERROR` runs its handler
  (`User/drivers/lwip/src/include/lwip/debug.h:74-75`).
* netbufs own their pbufs alone: nobody else takes a reference while the calls run. The graph of `PbufGraph`
  and the methods of `Pbufs.Heap` have no such assumption.

## Where the code does not do what its description says

Each of these is proved, with the exact condition under which the code is right.

* `CAN_CancelTransmit` clears the completion flags of other mailboxes, so a delivered frame is reported as
  failed (`CanStatus.DeliveredReadsAsFailed`); status answers are true over a run exactly when no cancel came
  over a delivered frame (`CanStatus.StatusOverRuns`), and a cancel is harmless to a mailbox exactly when its
  status is not a success (`CanStatus.CancelKeepsTruth`). The status of a mailbox that does not exist is
  pending (`CanTransmit.Transmitter.TransmitStatus`).
* `CAN_Receive` clears the full and overrun flags of the FIFO along with the release
  (`CanReceive.Receiver.Release`); a flag survives exactly when it was not up at the read
  (`CanReceive.ReleaseKeepsFlags`).
* An injected rank one past the stored length writes into the length field (`Adc.InjectedLengthKept`).
* `RCC_GetClocksFreq` takes 6.5 for 6 and PLL2's 20 for 17; it is accurate exactly when these factors do not
  reach the system clock (`Rcc.SysclkAccurate`, `Rcc.SixAndAHalfIsOff`).
* `netbuf_alloc` without memory leaves a set cursor pointing to a released pbuf (`Netbufs.Stack.Alloc`,
  `NetbufModel.SecondAllocSpoils`), exactly when it is the last call on the netbuf (`NetbufModel.StaleAfterRun`).
* `netbuf_chain` onto a netbuf that holds nothing loses the tail's pbufs for good (`NetbufRuns.Run`,
  `NetbufModel.EmptyHeadLoses`).
* `pbuf_dechain` counts released pbufs in eight bits and answers a dangling pointer after a multiple of 256
  (`Pbufs.Heap.Dechain`, `Pbufs.DechainDangles`).
* `pbuf_memfind` misses matches that begin inside a partial match, for every pattern with two different bytes
  that leaves room for one more, and the empty match in an empty chain (`PbufSearch.CompleteWhen`); looking for nothing at the very end of a chain
  answers a place in front of the start, and that is the only such case (`PbufSearch.FoundIsAMatch`).

## Model

| member | source | states |
|---|---|---|
| `CanTransmit.Transmitter.Transmit` | Stm32F10x_FwLib/src/stm32f10x_can.c:515-578 | With the controller finishing transmissions in every gap between accesses: mailbox 0, 1 or 2 is answered exactly when it is the first whose look found it empty, and NoMailBox (4) exactly when all three looks saw a busy one. The mailbox answered spells the message with its request bit set; accounts and registers still agree. |
| `CanTransmit.Transmitter.CancelTransmit` | Stm32F10x_FwLib/src/stm32f10x_can.c:643-660 | The abort of a mailbox that is still pending is requested, of no other mailbox. The whole of TSR is written back, so the completion flags that were read are cleared too, of every mailbox; the accounts say exactly which. |
| `CanTransmit.Transmitter.TransmitStatus` | Stm32F10x_FwLib/src/stm32f10x_can.c:589-634 | 2 (pending) exactly for a busy mailbox and for every number above 2, 1 (success) exactly for a delivered frame whose flags nobody cleared, else 0 (failed). |
| `CanTransmit.Transmitter.Run` | Stm32F10x_FwLib/src/stm32f10x_can.c:515-660 | Any run of sends, cancels, polls and controller steps keeps registers and accounts in agreement, so no accepted frame is overwritten before its mailbox empties. |
| `CanAccounts.ChoiceIsPicked` | Stm32F10x_FwLib/src/stm32f10x_can.c:523-540 | The answer of the three looks exists and is unique: the first empty mailbox, or none. |
| `CanAccounts.SendsThatFail` | Stm32F10x_FwLib/src/stm32f10x_can.c:515-578 | Anywhere in a run: a send is accepted if and only if its looks do not see three busy mailboxes, and always with fewer than three frames pending. |
| `CanAccounts.IdleIsFound` | Stm32F10x_FwLib/src/stm32f10x_can.c:523-540 | A mailbox that is idle when the call begins is found empty by its look. |
| `CanAccounts.Conservation` | Stm32F10x_FwLib/src/stm32f10x_can.c:515-660 | Over every run: the frames of the sends that did not see three busy mailboxes are the delivered, the failed and the pending ones, as multisets, and at most three are pending. |
| `CanAccounts.DoBalanced` | Stm32F10x_FwLib/src/stm32f10x_can.c:515-660 | One call with everything the controller does during it keeps that balance and accepts exactly the frame a send placed. |
| `CanAccounts.AfterHeld` | Stm32F10x_FwLib/src/stm32f10x_can.c:515-578 | A mailbox keeps its frame through any controller events exactly until one ends its transmission. |
| `CanAccounts.HeldOverRuns` | Stm32F10x_FwLib/src/stm32f10x_can.c:515-660 | A mailbox that holds a frame holds the same frame after any run of calls and events in which no event ends its transmission: no send overwrites it. |
| `CanAccounts.CancelHidesDelivery` | Stm32F10x_FwLib/src/stm32f10x_can.c:643-660 | Cancelling any mailbox turns the reported success of a delivered frame in an idle mailbox into failure. |
| `CanStatus.StatusOverRuns` | Stm32F10x_FwLib/src/stm32f10x_can.c:515-660 | Over any run of sends, cancels, polls and controller events: a status answer is the truth if and only if the frame was not delivered, or no cancel read TSR after the transmission was over without a later send into the mailbox. |
| `CanStatus.StatusFromReset` | Stm32F10x_FwLib/src/stm32f10x_can.c:515-660 | The same from reset. |
| `CanStatus.ClearedOverRuns` | Stm32F10x_FwLib/src/stm32f10x_can.c:515-660 | Over any run, which calls decide whether the completion flags of a mailbox are cleared: the last that cancelled over it or sent into it. |
| `CanStatus.StatusWithoutCancel` | Stm32F10x_FwLib/src/stm32f10x_can.c:515-634 | Without a cancel every status answer is the truth. |
| `CanStatus.CancelKeepsTruth` | Stm32F10x_FwLib/src/stm32f10x_can.c:643-660 | What a caller can check: a cancel keeps the answer true if and only if the status at its read of TSR is not a success. |
| `CanStatus.DeliveredReadsAsFailed` | Stm32F10x_FwLib/src/stm32f10x_can.c:515-660 | The run from reset, send, delivery, cancel of a mailbox never used, after which the delivered frame reads as failed. |
| `CanFrame.FilledHolds` | Stm32F10x_FwLib/src/stm32f10x_can.c:544-575 | Filling a mailbox in any earlier state makes its four words spell the frame: identifier of either kind, remote flag, length, eight bytes. |
| `CanReceive.Receiver.Receive` | Stm32F10x_FwLib/src/stm32f10x_can.c:671-712 | The message has identifier, remote flag, length, filter index and eight bytes from their places in the four words and so spells the oldest frame; the identifier of the other kind keeps its earlier value. The release bit is set, full and overrun are up only if they came up during the release and were down before, every other bit of the status register is kept. |
| `CanReceive.Receiver.Release` | Stm32F10x_FwLib/src/stm32f10x_can.c:702-735 | The same of the status register alone, for CAN_Receive and CAN_FIFORelease. |
| `CanReceive.ReleaseKeepsFlags` | Stm32F10x_FwLib/src/stm32f10x_can.c:702-711 | Writing back what was read keeps the full flag, and likewise the overrun flag, as the controller has it if and only if it was not up at the read; the release bit is always set. |
| `CanReceive.Receiver.MessagePending` | Stm32F10x_FwLib/src/stm32f10x_can.c:743-762 | The number of frames that wait. |
| `CanReceive.Receiver.Drain` | Stm32F10x_FwLib/src/stm32f10x_can.c:671-762 | As many calls of CAN_Receive as frames wait return those frames, in order, and leave none. |
| `CanReceive.Receiver.Run` | Stm32F10x_FwLib/src/stm32f10x_can.c:671-762 | Any run of arrivals and reads on both FIFOs, with frames arriving during releases: messages read and frames left are those of two queues of three places. |
| `CanFifo.ReadInOrder` | Stm32F10x_FwLib/src/stm32f10x_can.c:671-762 | Over any run, locked or unlocked: what was read and what waits are frames that arrived, in their order; the number missing is the number of arrivals that found the FIFO full, and nothing is missing if and only if none did. |
| `CanFrame.MasksAreTheDrivers` | Stm32F10x_FwLib/src/stm32f10x_can.c:545-575 | The request bit and the cleared length field are the literal masks of the driver. |
| `CanFrame.RoundTrip` | Stm32F10x_FwLib/src/stm32f10x_can.c:544-700 | On the words: a slot that got the words of a filled mailbox spells the frame that was sent, whatever the mailbox held before. |
| `CanLink.SendAndReceive` | Stm32F10x_FwLib/src/stm32f10x_can.c:515-712 | CAN_Transmit, the words copied into a FIFO, CAN_Receive until it is empty: the frames that waited are received and then the frame sent, whatever the controller does meanwhile, if there was a mailbox and room in the FIFO. |
| `CanFilter.Filters.FilterInit` | Stm32F10x_FwLib/src/stm32f10x_can.c:292-376 | Exactly the named bank changes: FR1 is the low mask and the low identifier in 16-bit scale, the high and the low identifier in 32-bit scale, FR2 the rest, and the four bits are scale, mode, FIFO and activation; each write to a bank's scale, mode, FIFO or words happens with FINIT set and the bank inactive; FINIT is clear on return. |
| `CanFilter.PairValue` | Stm32F10x_FwLib/src/stm32f10x_can.c:306-342 | Two half-words share a word, the high one in front. |
| `CanFilter.Filters.Run` | Stm32F10x_FwLib/src/stm32f10x_can.c:292-376 | After any run every bank accepts exactly the frames that the half-words of its last configuration ask for. |
| `CanFilter.AcceptsWhatIsAsked` | Stm32F10x_FwLib/src/stm32f10x_can.c:306-352 | The controller's test of a bank, over all frames, is membership in four short or two long identifiers, or equality under two short masks or a long one, by the half-words given. |
| `CanFilter.OnlyLastMatters` | Stm32F10x_FwLib/src/stm32f10x_can.c:292-376 | What a bank is after a run depends only on the last configuration naming it, however runs are joined. |
| `CanMode.Control.OperatingModeRequest` | Stm32F10x_FwLib/src/stm32f10x_can.c:774-848 | For every behaviour of the acknowledge bits: the wait ends at the first read that shows the mode or at the bound of 0xFFFF; success is exactly INAK without SLAK, neither, or SLAK without INAK at the final read; MCR has the two request bits of the mode. |
| `CanMode.Control.Init` | Stm32F10x_FwLib/src/stm32f10x_can.c:154-281 | BTR and the option bits are written only after a read that saw the acknowledge, each timing parameter in its field and each option in its bit; a failed entry changes nothing but the two request bits; success is what the last read shows. |
| `CanMode.AcknowledgedInTime` | Stm32F10x_FwLib/src/stm32f10x_can.c:181-184 | An acknowledge that comes within the bound and stays is never missed. |
| `CanMode.TimingIsPacked` | Stm32F10x_FwLib/src/stm32f10x_can.c:257-261 | The five shifted parts of BTR do not touch each other. |
| `CanMode.Control.WakeUp` | Stm32F10x_FwLib/src/stm32f10x_can.c:882-905 | Sleep is left, the wait is bounded, success is what the final read shows. |
| `CanMode.Control.EnterSleep` | Stm32F10x_FwLib/src/stm32f10x_can.c:856-874 | The request, and success judged by one look. |
| `Netbufs.Stack.New` | User/drivers/lwip/src/api/netbuf.c:55-79 | A new netbuf holding nothing, or nothing happens. |
| `Netbufs.Stack.Delete` | User/drivers/lwip/src/api/netbuf.c:86-96 | The netbuf is gone, its chain given back, nothing is lost; NULL is accepted. |
| `Netbufs.Stack.Alloc` | User/drivers/lwip/src/api/netbuf.c:106-123 | The old contents are given back and one new segment is held; when memory runs out the contents are gone and the cursor still points where it did, to no allocated pbuf. |
| `Netbufs.Stack.Free` | User/drivers/lwip/src/api/netbuf.c:130-138 | The contents are given back and the cursor cleared. |
| `Netbufs.Stack.Ref` | User/drivers/lwip/src/api/netbuf.c:149-165 | One segment referring to the caller's data, or an error with contents and cursor cleared. |
| `Netbufs.Stack.Chain` | User/drivers/lwip/src/api/netbuf.c:173-181 | The head holds its segments followed by the tail's, its cursor at the front, the tail netbuf gone; a head that held nothing gains nothing, and exactly then the tail's pbufs are lost. |
| `Netbufs.Stack.Data` | User/drivers/lwip/src/api/netbuf.c:192-205 | The segment at the cursor, or the error for no cursor or no netbuf. |
| `Netbufs.Stack.Next` | User/drivers/lwip/src/api/netbuf.c:217-229 | The cursor moves by one segment unless it is at the last, and the answer is -1, 1 or 0 accordingly. |
| `Netbufs.Stack.First` | User/drivers/lwip/src/api/netbuf.c:238-243 | The cursor goes to the first segment, or to none. |
| `Netbufs.Stack.ReadAll` | User/drivers/lwip/src/api/netbuf.c:192-243 | netbuf_first and repeated netbuf_data and netbuf_next see every segment once, in order, for any number of segments; the bytes are the concatenation. |
| `Netbufs.AnswersShape` | User/drivers/lwip/src/api/netbuf.c:210-229 | The answers of netbuf_next on the way are zeros, then 1, then -1; only -1 for a single segment. |
| `Netbufs.Stack.SoleOwnership` | User/drivers/lwip/src/api/netbuf.c:55-181 | With nothing lost, every allocated pbuf lies in the chain of exactly one live netbuf. |
| `Netbufs.Stack.TotalLength` | User/drivers/lwip/src/include/lwip/pbuf.h:86-93 | The total length of the first pbuf is the number of bytes of the netbuf, in 16 bits, after any calls. |
| `NetbufRuns.Run` | User/drivers/lwip/src/api/netbuf.c:55-243 | Every run of calls, with memory failing at will, refines the simple view, a list of segments and a cursor per netbuf; a pbuf is lost if and only if some netbuf_chain had a head that held nothing and a tail that held something. |
| `NetbufRuns.RunFromEmpty` | User/drivers/lwip/src/api/netbuf.c:55-243 | The same from an empty system. |
| `NetbufModel.CursorRule` | User/drivers/lwip/src/api/netbuf.c:106-243 | A cursor is stale after a command exactly when it was an allocation without memory on a set cursor, or the command left a stale cursor alone; every other command on the netbuf mends it. |
| `NetbufModel.StaleAfterRun` | User/drivers/lwip/src/api/netbuf.c:55-243 | Over any run a cursor is stale at the end if and only if the last command naming the netbuf is an allocation without memory that found the cursor set. |
| `NetbufModel.SecondAllocSpoils` | User/drivers/lwip/src/api/netbuf.c:106-123 | The concrete run that leaves a stale cursor. |
| `NetbufModel.OnlyNamedChange` | User/drivers/lwip/src/api/netbuf.c:86-243 | Netbufs a run does not name keep contents and cursor. |
| `NetbufModel.EmptyHeadLoses` | User/drivers/lwip/src/api/netbuf.c:173-181 | The concrete run that loses a pbuf. |
| `NetbufModel.JoinedUpGood` | User/drivers/lwip/src/api/netbuf.c:173-181 | Joining keeps sole ownership, cursors, and the total length of every pbuf of both chains. |
| `NetbufModel.CommandsMean` | User/drivers/lwip/src/api/netbuf.c:55-243 | What each call leaves of contents and cursor, outright. |
| `NetbufOwners.ReleasesItsChain` | User/drivers/lwip/src/api/netbuf.c:90-92 | Giving back a netbuf's head releases exactly that netbuf's pbufs. |
| `NetbufOwners.EmptiedSound` | User/drivers/lwip/src/api/netbuf.c:86-138 | No other netbuf's pbufs are touched by it. |
| `Pbufs.Heap.Alloc` | User/drivers/lwip/src/core/pbuf.c:310-349 | A fresh pbuf with one pointer to it, or NULL and no change (PBUF_RAM and PBUF_REF). |
| `Pbufs.Heap.Ref` | User/drivers/lwip/src/core/pbuf.c:722-732 | One more pointer from outside; the count stays the exact number of pointers. |
| `Pbufs.Heap.Free` | User/drivers/lwip/src/core/pbuf.c:617-694 | Gives up one pointer; counts stay exact, the number of released pbufs is returned in eight bits. |
| `PbufGraph.FreesExactlyTheUnreachable` | User/drivers/lwip/src/core/pbuf.c:582-694 | pbuf_free releases exactly the pbufs that no remaining pointer from outside can reach. |
| `PbufGraph.FreedIsAPrefix` | User/drivers/lwip/src/core/pbuf.c:600-613 | What goes is the part of the chain up to the first pbuf that is still held. |
| `PbufGraph.FreedCounts` | User/drivers/lwip/src/core/pbuf.c:600-613 | That pbuf's count drops by one, all others stay. |
| `PbufGraph.NothingLeaks` | User/drivers/lwip/src/include/lwip/pbuf.h:104-109 | With exact counts and no pointer from outside, no pbuf is allocated. |
| `PbufGraph.RemovedExact` | User/drivers/lwip/src/core/pbuf.c:640-688 | Releasing a pbuf hands its pointer on and keeps all counts exact. |
| `Pbufs.Heap.Cat` | User/drivers/lwip/src/core/pbuf.c:744-767 | The caller's pointer to the tail moves into the last pbuf of the head; every total length of the head chain grows by the tail's, in 16 bits; a NULL argument changes nothing. |
| `PbufGraph.JoinedChain` | User/drivers/lwip/src/core/pbuf.c:744-767 | The result is the chain head followed by tail. |
| `Pbufs.Heap.Chain` | User/drivers/lwip/src/core/pbuf.c:785-792 | As pbuf_cat, with the caller keeping its pointer; with a NULL head the count still goes up. |
| `Pbufs.Heap.Dechain` | User/drivers/lwip/src/core/pbuf.c:802-831 | The first pbuf stands alone with its own length, the rest loses the pointer, and the answer tells whether the rest is still allocated if and only if the number released is zero or no multiple of 256. |
| `Pbufs.DechainAnswer` | User/drivers/lwip/src/core/pbuf.c:802-831 | On the graph, for every chain and all counts: the eight-bit count of what goes is zero exactly when the first pbuf stays if and only if the number released is zero or no multiple of 256. |
| `Pbufs.DechainDangles` | User/drivers/lwip/src/core/pbuf.c:802-831 | A chain of 257 pbufs, built by pbuf_alloc and pbuf_cat, is dechained and the answer is a pointer to a released pbuf. |
| `Pbufs.Heap.OneChain` | User/drivers/lwip/src/include/lwip/pbuf.h:79-93 | From every pbuf there is exactly one chain. |
| `PbufSearch.FromTheHeap` | User/drivers/lwip/src/core/pbuf.c:1076-1085 | The lists the search walks are the chains of the heap's graph. |
| `PbufSearch.GetAt` | User/drivers/lwip/src/core/pbuf.c:1076-1092 | The byte at an offset of the chain's contents, zero behind the end. |
| `PbufSearch.MemCmp` | User/drivers/lwip/src/core/pbuf.c:1103-1127 | Zero for equal bytes, else one more than the first place that differs, bytes behind the end reading as zero; 0xffff for an offset behind the end. |
| `PbufSearch.MemFind` | User/drivers/lwip/src/core/pbuf.c:1139-1155 | The place the skipping search ends at, on the flat contents, for every pattern and start, including the wrap of the 16-bit counter. |
| `PbufSearch.FoundIsAMatch` | User/drivers/lwip/src/core/pbuf.c:1139-1155 | What is found is a match, and it lies at or behind the start if and only if the search was not for nothing at the very end of a chain that is not empty. |
| `PbufSearch.NothingBehindOneByte` | User/drivers/lwip/src/core/pbuf.c:1139-1155 | The smallest such case: looking for nothing behind one byte finds place 0. |
| `PbufSearch.ConstantIsFound` | User/drivers/lwip/src/core/pbuf.c:1139-1155 | For a pattern of equal bytes the first match is found. |
| `PbufSearch.FoundUnlessBegun` | User/drivers/lwip/src/core/pbuf.c:1139-1155 | A match is found, for any pattern, unless the pattern's first byte occurs between the start and the match. |
| `PbufSearch.CompleteWhen` | User/drivers/lwip/src/core/pbuf.c:1139-1155 | The search misses no match in any chain if and only if the pattern is not empty and consists of equal bytes or is as long as the longest chain. |
| `PbufSearch.AbInAab` | User/drivers/lwip/src/core/pbuf.c:1139-1155 | The smallest miss: ab in aab. |
| `Adc.Peripheral.Init` | Stm32F10x_FwLib/src/stm32f10x_adc.c:218-268 | The configuration fields of CR1, CR2 and the regular length are set, every other bit, all ranks included, is kept. |
| `Adc.Peripheral.RegularChannelConfig` | Stm32F10x_FwLib/src/stm32f10x_adc.c:590-677 | Exactly one rank field, in SQR3, SQR2 or SQR1, and one sample-time field, in SMPR2 or SMPR1, change. |
| `Adc.Peripheral.InjectedSequencerLengthConfig` | Stm32F10x_FwLib/src/stm32f10x_adc.c:993-1010 | Only the length field of JSQR changes. |
| `Adc.Peripheral.InjectedChannelConfig` | Stm32F10x_FwLib/src/stm32f10x_adc.c:930-984 | A rank within the stored length n lands in slot 4 - n + rank; the slot of any other depends on the length stored in the word, and bits pushed past bit 31 are lost. |
| `Adc.Peripheral.Run` | Stm32F10x_FwLib/src/stm32f10x_adc.c:218-1010 | Over any run the registers decode to the tables the calls describe. |
| `Adc.ApplyRefinesStep` | Stm32F10x_FwLib/src/stm32f10x_adc.c:590-1010 | Each call is one update of the 16-entry rank table, the 18-entry sample-time table, the lengths and the injected slots; an injected rank past the stored length overwrites the length or is lost. |
| `Adc.LastWriterWins` | Stm32F10x_FwLib/src/stm32f10x_adc.c:257-267 | Every rank, sample time and the length hold the last value written, over any run. |
| `Adc.InjectedSequence` | Stm32F10x_FwLib/src/stm32f10x_adc.c:969-1010 | Setting length n and configuring ranks 1..n in any order, with repeats and with regular calls between, gives the right-aligned sequence of the last channel per rank, length intact. |
| `Adc.InjectedLengthKept` | Stm32F10x_FwLib/src/stm32f10x_adc.c:969-983 | The length field survives an injected configuration if and only if the rank is not one past the stored length, or the channel's low bits repeat the field. |
| `Adc.MasksAreTheDrivers` | Stm32F10x_FwLib/src/stm32f10x_adc.c:69-134 | The fields the masks clear are the literal masks of the driver. |
| `Adc.ControlMasksAreTheDrivers` | Stm32F10x_FwLib/src/stm32f10x_adc.c:69-115 | The same for the two control registers. |
| `Gpio.Port.Init` | Stm32F10x_FwLib/src/stm32f10x_gpio.c:173-258 | For every pin mask: a selected pin has the mode's two configuration bits over the speed, or zero for an input; pull-down (0x28) clears and pull-up (0x48) sets the output bits on the mask; all other pins and output bits are kept. |
| `Gpio.Port.Run` | Stm32F10x_FwLib/src/stm32f10x_gpio.c:173-381 | Any run of configurations, sets and resets is last-writer-wins per pin. |
| `Gpio.OtherPinsDoNotMatter` | Stm32F10x_FwLib/src/stm32f10x_gpio.c:173-381 | A pin's final state depends only on the calls naming it. |
| `Gpio.OutputByLast` | Stm32F10x_FwLib/src/stm32f10x_gpio.c:173-381 | Over any run an output bit is set if and only if some set or pull-up raised it, or it was set, and no later reset or pull-down cleared it. |
| `Gpio.ConfigByLast` | Stm32F10x_FwLib/src/stm32f10x_gpio.c:173-258 | Over any run a pin has the mode and the speed of the last GPIO_Init naming it. |
| `Gpio.Port.SetBits` | Stm32F10x_FwLib/src/stm32f10x_gpio.c:358-365 | Exactly the masked output bits become one. |
| `Gpio.Port.ResetBits` | Stm32F10x_FwLib/src/stm32f10x_gpio.c:374-381 | Exactly the masked output bits become zero. |
| `Afio.Registers.PinRemapConfig` | Stm32F10x_FwLib/src/stm32f10x_gpio.c:549-599 | What becomes of each of the 32 bits of MAPR, for one-bit codes of either half, two-bit codes and debug port codes: the field takes the commanded value or zero, the write-only debug bits are written as ones, all else is kept. |
| `Afio.Registers.Remap` | Stm32F10x_FwLib/src/stm32f10x_gpio.c:549-599 | The same for any run of remaps. |
| `Afio.FieldHolds` | Stm32F10x_FwLib/src/stm32f10x_gpio.c:549-599 | A field keeps its last commanded value through any number of remaps of other fields. |
| `Afio.Registers.EXTILineConfig` | Stm32F10x_FwLib/src/stm32f10x_gpio.c:609-619 | One entry of the 16-entry pin-to-port table over four registers changes, the upper halves stay. |
| `Afio.Registers.SelectLines` | Stm32F10x_FwLib/src/stm32f10x_gpio.c:609-619 | Any run leaves the last port chosen for each line. |
| `Exti.Controller.EnableLines` | Stm32F10x_FwLib/src/stm32f10x_exti.c:101-149 | The selected lines leave both modes, enter the one named, and have the rising, the falling or both triggers by the code; no other line changes. |
| `Exti.Controller.DisableLines` | Stm32F10x_FwLib/src/stm32f10x_exti.c:101-149 | Only the one mode register loses the lines. |
| `Exti.Controller.DeInitialise` | Stm32F10x_FwLib/src/stm32f10x_exti.c:85-92 | Masks and triggers are cleared, pending lines 0..19 are cleared by writing ones. |
| `Exti.RunsStaySane` | Stm32F10x_FwLib/src/stm32f10x_exti.c:85-149 | From reset, over every run, no line is in both modes and every enabled line has a trigger. |
| `Exti.EnabledByLast` | Stm32F10x_FwLib/src/stm32f10x_exti.c:85-149 | A line is enabled in a mode exactly when the last call that decided it said so. |
| `Exti.TriggersByLast` | Stm32F10x_FwLib/src/stm32f10x_exti.c:85-149 | A line's triggers are those of the last enable naming it, unless a reset came later. |
| `Exti.Controller.Run` | Stm32F10x_FwLib/src/stm32f10x_exti.c:85-149 | Any run of calls, line by line. |
| `Exti.Controller.GetITStatus` | Stm32F10x_FwLib/src/stm32f10x_exti.c:224-241 | Some named line is pending and some named line is unmasked. |
| `Exti.StatusOfOneLine` | Stm32F10x_FwLib/src/stm32f10x_exti.c:224-241 | For a single line: pending and unmasked. |
| `Exti.Controller.ClearITPendingBit` | Stm32F10x_FwLib/src/stm32f10x_exti.c:249-255 | Exactly the named pending bits are cleared. |
| `Rcc.Clock.GetClocksFreq` | Stm32F10x_FwLib/src/stm32f10x_rcc.c:908-1031 | HCLK is SYSCLK by HPRE, PCLK1 is HCLK by PPRE1, PCLK2 is HCLK by PPRE2, ADCCLK is PCLK2 by two, four, six or eight, each rounded down, for the documented divider tables; SYSCLK is the oscillator, or accurate exactly with factors the getter knows. |
| `Rcc.Clock.Run` | Stm32F10x_FwLib/src/stm32f10x_rcc.c:378-1031 | After any run of setters and hardware switches each reported clock is the one above it divided by the last divider chosen for it. |
| `Rcc.ClocksAreTuned` | Stm32F10x_FwLib/src/stm32f10x_rcc.c:1006-1030 | The same for every clock tree, from the composed shifts. |
| `Rcc.BothPllsReported` | Stm32F10x_FwLib/src/stm32f10x_rcc.c:378-1003 | From any state, after the setters have put the crystal through PLL2 and the PLL: the reported system clock is the crystal times both factors by both dividers, up to the floors, if and only if neither factor is 20 or 6.5. |
| `Rcc.Clock.SetTo72MHz` | User/system/system_stm32f10x.c:1020-1070 | The repository's 72 MHz set-up, by the setters: 72, 72, 36 and 72 MHz, exactly. |
| `Rcc.LastDividersApply` | Stm32F10x_FwLib/src/stm32f10x_rcc.c:193-1030 | After any number of calls in any order, the dividers are the last ones chosen. |
| `Rcc.SettersCommute` | Stm32F10x_FwLib/src/stm32f10x_rcc.c:378-778 | Different setters commute on every bit of both registers, the two that write two fields included. |
| `Rcc.SetterAgain` | Stm32F10x_FwLib/src/stm32f10x_rcc.c:378-778 | Of two calls of one setter the second decides every bit. |
| `Rcc.Clock.Call` | Stm32F10x_FwLib/src/stm32f10x_rcc.c:378-778 | Every setter writes exactly its fields of its register. |
| `Rcc.ClocksAreOrdered` | Stm32F10x_FwLib/src/stm32f10x_rcc.c:1006-1030 | PCLK1, PCLK2 never exceed HCLK, HCLK never SYSCLK, ADCCLK never PCLK2. |
| `Rcc.Pll2PathError` | Stm32F10x_FwLib/src/stm32f10x_rcc.c:963-996 | On the PLL2 path the two floors never raise the frequency and cost less than m times (m2 + p1) over p1, for all numbers. |
| `Rcc.NoOverflow` | Stm32F10x_FwLib/src/stm32f10x_rcc.c:940-996 | With a PLL source up to 25 MHz and a PLL factor the library offers, if the PLL drives the system clock, no product leaves 32 bits; all other fields are arbitrary. |
| `Rcc.SysclkAccurate` | Stm32F10x_FwLib/src/stm32f10x_rcc.c:908-1003 | The system clock the getter reports is at most the exact frequency of crystal, true factors and dividers, and off by less than the floors cost, if and only if the PLL, when it drives the system clock, is not at 6.5 and is not fed by a PLL2 at 20; for all clock sources and dividers, whatever the fields that do not reach the system clock hold. |
| `Rcc.SixAndAHalfIsOff` | Stm32F10x_FwLib/src/stm32f10x_rcc.c:908-1003 | Out of reset the report is accurate; with the PLL at 6.5 on the crystal and PLL2 never configured it is not. |
| `Rcc.Clock.HCLKConfig` | Stm32F10x_FwLib/src/stm32f10x_rcc.c:608-620 | Its field, no other bit. |
| `Rcc.Clock.PCLK1Config` | Stm32F10x_FwLib/src/stm32f10x_rcc.c:634-646 | Its field, no other bit. |
| `Rcc.Clock.PCLK2Config` | Stm32F10x_FwLib/src/stm32f10x_rcc.c:660-672 | The APB1 code shifted into the APB2 field, no other bit. |
| `Rcc.Clock.ADCCLKConfig` | Stm32F10x_FwLib/src/stm32f10x_rcc.c:766-778 | Its field, no other bit. |
| `Rcc.Clock.SYSCLKConfig` | Stm32F10x_FwLib/src/stm32f10x_rcc.c:564-576 | Its field, no other bit. |
| `Rcc.Clock.PLLConfig` | Stm32F10x_FwLib/src/stm32f10x_rcc.c:378-393 | Source and factor by one write, no other bit. |
| `Rcc.Clock.PREDIV1Config` | Stm32F10x_FwLib/src/stm32f10x_rcc.c:426-441 | Source and divider by one write, no other bit. |
| `Rcc.Clock.PREDIV2Config` | Stm32F10x_FwLib/src/stm32f10x_rcc.c:454-468 | Its field, no other bit. |
| `Rcc.Clock.PLL2Config` | Stm32F10x_FwLib/src/stm32f10x_rcc.c:479-493 | Its field, no other bit. |
| `Rcc.MasksAreTheDrivers` | Stm32F10x_FwLib/src/stm32f10x_rcc.c:138-145 | The cleared fields are the literal masks of the driver. |
| `Rcc.PllMaskIsTheDrivers` | Stm32F10x_FwLib/src/stm32f10x_rcc.c:129 | The PLL fields are the literal mask of the connectivity line. |
| `HseStartUp.WaitForHSEStartUp` | Stm32F10x_FwLib/src/stm32f10x_rcc.c:304-326 | The wait ends at the first read that saw the flag or at the limit, 2^32 for a limit of zero, and the answer is what one more read sees. |
| `HseStartUp.EndsOnce` | Stm32F10x_FwLib/src/stm32f10x_rcc.c:304-326 | The behaviour of the flag determines where the wait ends. |
| `HseStartUp.SteadyOscillator` | Stm32F10x_FwLib/src/stm32f10x_rcc.c:304-326 | For an oscillator that stays ready: success if and only if it is ready by the bound. |
| `Nvic.BitsAddUp` | StCore/core_cm3.h:1634-1647 | For every number of priority bits and every group the two parts share the bits exactly. |
| `Nvic.DecodeOfEncode` | StCore/core_cm3.h:1634-1676 | Decoding an encoded pair gives both parts back, modulo their widths. |
| `Nvic.EncodeOfDecode` | StCore/core_cm3.h:1634-1676 | Encoding a decoded code gives its implemented bits back. |
| `Nvic.EncodeKeepsOrder` | StCore/core_cm3.h:1634-1647 | Codes are ordered as the pairs, preempt priority first. |
| `Nvic.Decode` | StCore/core_cm3.h:1665-1676 | The two parts by shifts and masks are quotient and remainder. |
| `Nvic.PriorityByteValue` | StCore/core_cm3.h:1586-1616 | The stored byte is the priority left-aligned, and reading shifts it back. |
| `Nvic.EncodersAgree` | Stm32F10x_FwLib/src/misc.c:121-133 | NVIC_Init's arithmetic, cut to a byte, equals NVIC_SetPriority of NVIC_EncodePriority, for every installable group and every pair. |
| `Nvic.Controller.Init` | Stm32F10x_FwLib/src/misc.c:112-144 | Enable bit and priority byte of exactly one interrupt, the byte 16 times the sub-priority and, above its g - 3 bits, the preemption priority, for every group g from 3 to 7. |
| `Nvic.ByteOfPair` | StCore/core_cm3.h:1586-1658 | The stored byte of an encoded pair, for every group and every number of priority bits. |
| `Nvic.Controller.Run` | Stm32F10x_FwLib/src/misc.c:112-144 | Over any run the enabled set and the priorities are what the last command per interrupt says, under write-one-to-set and write-one-to-clear registers. |
| `Nvic.Controller.PriorityGroupConfig` | Stm32F10x_FwLib/src/misc.c:96-103 | AIRCR is 0x05FA0000 plus the code, and the installed group reads back. |
| `Nvic.Controller.SetPriority` | StCore/core_cm3.h:1586-1592 | Exactly one byte changes, in the table of interrupts or of system handlers. |
| `Nvic.Controller.GetPriority` | StCore/core_cm3.h:1609-1616 | The stored byte divided by the unused steps; of a byte that NVIC_SetPriority stored, the implemented bits of the priority. |
| `Nvic.Controller.SetAndGetPriority` | StCore/core_cm3.h:1586-1616 | A priority set and read back is the priority modulo the implemented range. |
| `Nvic.Controller.EnableIRQ` | StCore/core_cm3.h:1502-1505 | Exactly one interrupt is added to the enabled set. |
| `Nvic.Controller.DisableIRQ` | StCore/core_cm3.h:1515-1518 | Exactly one interrupt is taken out of it. |
| `Words.ClearAndSet` | Stm32F10x_FwLib/src/stm32f10x_adc.c:596-612 | Clearing with a mask and joining a shifted value is a field write, for any width and place. |
| `Words.EntryWritten` | Stm32F10x_FwLib/src/stm32f10x_adc.c:590-677 | A table packed into a word behaves as an array. |

## Left out

- Registers are words of bits, not addresses: volatile access order matters only where an environment step is placed between accesses.
- CanTransmit.Transmitter.CancelTransmit: the abort request itself is not tied to the way the transmission ends; the controller may finish a frame either way at any moment with or without it.
- CanTransmit.Transmitter.TransmitStatus: reads TSR once; that a completion of another mailbox may come between two calls is covered by runs, not inside the call.
- CanReceive.Receiver.Run: the driver is taken to ask CAN_MessagePending before CAN_Receive; reading an empty FIFO gives back what its registers last showed.
- CanFilter.Filters.Run: speaks of each bank alone; which of several accepting banks decides, and the filter match index, are not modelled.
- CanLink.SendAndReceive: the bus is the copying of the words; arbitration, acknowledgement and filtering between two nodes are not modelled.
- Afio.Registers.PinRemapConfig: covers every remap of MAPR with a one-bit or two-bit field; remaps of MAPR2 (bit 31 set) shift by an amount C leaves undefined and are excluded, and the write-only debug port field is stated as written, not as read back.
- Rcc.SysclkAccurate: asks of a system clock from the PLL a source from 1000 Hz, far below any the device takes, to 25 MHz and multiplication codes the library offers; other sources may have any 32-bit frequency.
- Nvic.Controller.Init: requires a group that NVIC_PriorityGroupConfig can install (3 to 7); groups 0 to 2 make its subtraction wrap, and C leaves the shift by the result undefined.
- Nvic.Controller.Run: likewise speaks of runs under a group from 3 to 7.
- Pbufs.Heap.Ref: requires a count below 65535; at the limit the 16-bit count wraps and no longer counts pointers.
- Pbufs.Heap.Alloc: single pbufs only; the chains that PBUF_POOL builds, header room and custom pbufs are left out.
- Pbufs.Heap.Cat: takes the two chains as ghost parameters, which exist and are unique (`Pbufs.Heap.OneChain`), and asks that they share no pbuf, as two packets do.
- Pbufs.Heap.Chain: likewise for two chains that share no pbuf, and a tail whose count is below 65535.
- PbufSearch.MemCmp: requires offset plus length to fit 16 bits, as every call from pbuf_memfind does.
- Netbufs.Stack.Chain: requires two different netbufs; given one netbuf twice the code links the chain to itself and releases the netbuf it goes on using.
- Netbufs.Stack.Next: requires a set cursor that is not stale; with none the code reads through a NULL pointer, with a stale one it reads a released pbuf.
- Netbufs.Stack.Data: requires that the cursor is not stale; a released pbuf has no contents to speak of.
- Released pbufs are never handed out again in the model, so a stale cursor never comes to point to another netbuf's pbuf, as it may in memory that is reused.
- Netbuf addresses, ports and checksums, the memory pools, interrupt protection around counts, and the copying and header functions of pbuf.c.
- The ADC, GPIO, EXTI and clock functions that set, clear or read a single bit, calibration, DMA and interrupt flags: they would only add easy members.
- The drivers BKP, CEC, CRC, DAC, DBGMCU, DMA, FSMC, IWDG, PWR, RTC and WWDG: single-field reads and writes.
- SysTick, ITM, system reset, inline assembly, the TCP core of lwIP and the TCP server itself.
