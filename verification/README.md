# Verified models of the Rockchip Windows drivers

The drivers of this repository are mostly glue between Windows frameworks and
hardware registers.  Inside them are five pieces whose correctness the code
itself decides.  This project models those five in Dafny and proves what they
are for.

- **PL330 microcode compiler** (`Pl330*.dfy`).  The methods write bytes into a
  buffer at a running offset, as the C code does.  Each is proved to write the
  bytes of a structured program; a decoder and a small-step interpreter of the
  DMA thread (ARM DDI 0424, chapter "Instruction Set") give those bytes a
  meaning; and the meaning is proved to be the cyclic transfer that was asked
  for, beat by beat, for ever.
- **DesignWare EQOS rings and interrupts** (`Eqos*.dfy`).  The driver's queue
  callbacks are methods on a descriptor ring which a DMA engine works on at the
  same time: between any two accesses the engine may take any number of steps.
  The interrupt protocol is a state machine over the steps of the ISR, of any
  number of DPC instances and of the two notification setters.
- **SD hosts** (`Sd*.dfy`).  The circular search for a sampling phase, the clock
  and phase arithmetic, and both translations of a scatter-gather list into a
  descriptor table.
- **SPI polled engine** (`Spi*.dfy`).  A flow-controlled pump against hardware of
  any timing, and the gather and scatter of a sequence around it.
- **I2C** (`I2c*.dfy`).  The divider arithmetic against NXP UM10204 section 6.1,
  and the interrupt state machine that moves a message through a linked list of
  buffers in chunks of at most 32 bytes.

`Words.dfy` and `Arith.dfy` hold what they share: bytes and words as integers in
range, and facts about products, quotients and remainders.  Ghost fields number
things from the start of a queue or record what the other side has seen; no
datatype has a ghost part.  `dafny verify dfyconfig.toml` checks everything.

## What the proofs found

Where the code does not do what it is for on every input, the model keeps the
code as it is.  Each item names a member for an input and one for the exact
condition.

- A period shorter than one burst (32 bytes for audio), or no period at all, gives
  the eight-bit loop count 0, which the hardware takes as 256.  Input: a period of
  28 bytes moves 8220 (`ShortPeriodMovesTooMuch`).  Condition: a lap moves the
  bytes of its periods if and only if there is a period, it holds at least one
  burst, and it is a whole number of beats (`LapBytesExact`); it is the caller's
  buffer if and only if, besides, the buffer is a multiple of the period, since a
  remainder is never played (`LapIsTheBuffer`).
- A backward jump is cut to eight bits.  Input: one period of 417,792 bytes, whose
  loop body is 257 bytes long (`LongPeriodJumpsTooFar`).  Condition: a counted loop
  goes back to its start if and only if its body is at most 255 bytes
  (`LoopJumpExact`), the program to its first instruction if and only if all before
  the jump is (`ForeverJumpExact`); a caller can tell both from the burst count, the
  number of periods and the kind of transfer (`JumpsFitIff`).
- A channel has 512 bytes of microcode buffer, and nothing checks that its program
  fits.  Input: one period of 802,816 bytes makes a program of 522
  (`LongPeriodOverruns`).  Condition: it fits if and only if the periods written out
  take at most 488 bytes (`ProgramFitsIff`).
- The encodings of a forever loop end on loop 0 with a condition and of DMASTP
  collide.  Input: `ForeverEndIsStore`.  Condition: everywhere else, and only
  there, decoding inverts encoding (`DecodeEncode`).
- A segmentation packet that is all headers gets no LastDescriptor and would never
  be seen complete.  Input: `HeaderOnlyPacketHasNoLast`.  Condition: a packet's run
  is terminated if and only if it is not such a packet (`RunShape`).
- The driver announces a limit of 61 fragments, but a fragment longer than 0x3FFF
  bytes takes more than one descriptor; that no packet takes more than 61 is only
  asserted.  A packet that an empty ring has no room for stops the queue for good,
  whatever is called afterwards (`StaysStarved`).  Input: 61 fragments and a ring of
  64 (`LongPacketNeverFits`, `LongPacketStarves`).  Condition: a segmentation packet
  fits every empty ring of n if and only if its fragments make at most n - 3 pieces
  (`FitsEmptyRingIff`); a ring of 128 has room for every packet (`FitsByLengths`).
  An engine that has finished everything gets the next packet if and only if it
  fits (`TxQueueAdvance`).
- Packets marked to be ignored at the end of the transmit ring stay queued until a
  later packet needs a descriptor.  Input: one such packet on a started queue
  (`IgnoredPacketStays`).  Condition: NextIndex moves to where filling stopped if
  and only if a packet to be sent was passed, or none at all (`TxQueueAdvance`).
- On a slow I2C bus the data-update field counts down to 0, is decremented below
  it, and its ones spill over the upper half of the control register.  Input: 10 kHz
  from 24 MHz (`SlowBusUnderflows`).  Condition: it happens if and only if already
  the least value holds data too long (`SdaUpdateIs`, `AdaptDiv`); at the three
  nominal speeds it does not (`NominalSpeedsFit`).
- An I2C message that ends early comes to rest without a STOP condition, because it
  is not yet marked as the last one.  Input: a NACK in answer to START
  (`NackInStart`).  Condition: over every run, a message that has come to rest has
  sent STOP if and only if none of its interrupts came before the end with a NACK,
  or in Start or Write without the flag expected there (`Irq`).
- The wait of an I2C transfer is alertable, and an alert is not told from
  completion.  Input: an alert right after START returns success with nothing
  moved (`AlertedAtOnce`).  Condition: success means that the whole message was
  moved and stopped if and only if the machine was at rest when the wait ended
  (`XferSingle`).
- The event of a transfer is cleared when the next one begins, but a DPC that is
  still queued then sets it again.  Input: a message whose time runs out before its
  DPC runs; the next one returns success with nothing moved (`LeftOverDpc`).
  Condition: a message that times out leaves a DPC queued if and only if it was
  over by then; without one left over, a transfer that was signalled is complete
  or tells its error (`XferSingle`).
- Skipping ahead after a bad sampling phase can lose good ones.  Input: of 19
  working phases none is found (`NineteenCanBeLost`).  Condition: the search fails
  if and only if none of the phases 0, 20, ..., 340 and 359 works (`NoneGoodIff`);
  no working phase is lost if and only if every run of failing phases in front of a
  working one, other than 359, has a length divisible by twenty (`NothingLostIff`),
  and then the run chosen is a longest one of all that work.  In any case none is
  longer by more than 19 (`ExecuteTuning`).
- The eMMC clock can be faster than asked for.  Input: 374 kHz (`AskedTooSlow`).
  Condition: where it is set, it is if and only if less than 375 kHz is asked for.
  A rate may be refused after the clock has been set to it.  Input: 100 MHz
  (`RefusedButSet`).  Condition: it is if and only if it is at least 100 MHz in
  32-bit Hz (both `SdhcExtension.SetClock`).
- The SD card clock may have no divider slow enough.  Input: 187 kHz
  (`CardTooSlow`).  Condition: there is one if and only if the target, twice the
  card clock, is at least 375 kHz (`ReachableIff`).  The target is cut to 32 bits.
  Input: 2,147,484 kHz comes to 704 Hz (`TargetIsCut`).  Condition: it is what was
  asked for if and only if at most 2,147,483 kHz was (`TargetIsAsked`).
- The sum that rounds the SPI divider up may wrap.  Input: 4295 MHz asked for the
  default rate is only halved (`FastestClockIsHalved`).  Condition: the divider is
  the right one if and only if the sum does not wrap, or twice the rate asked for
  covers the clock, or no divider is great enough; so it is for every clock up to
  2147 MHz (`BaudrIs`).  The same sums of the SD clocks wrap without harm
  (`WrapIsHarmless`).
- The delay of a sampling phase can saturate.  Input: 89 degrees at 16.126 MHz
  (`LastAngleSaturates`).  Condition: every angle can be set to within half a delay
  element if and only if the card clock is at least 16.127 MHz (`PhasesFitIff`).

hw.c says the chip select is held for the whole transfer, spb.c that disabling the
controller drops it; between chunks of 65535 frames hw.c disables it.  The slave
modelled may answer as it likes after any number of frames, so the results hold
either way.

## Model

| member | source | states |
|---|---|---|
| Pl330Isa.DecodeEncode | drivers/dma/pl330dma/opcodes.h:28-263 | An instruction placed anywhere in memory decodes to itself if and only if it is not one of the forms whose encodings collide. |
| Pl330Isa.ManualEncodings | drivers/dma/pl330dma/opcodes.h:28-263 | The bytes of every instruction used, by number, as ARM DDI 0424 lists them. |
| Pl330Isa.ForeverEndIsStore | drivers/dma/pl330dma/opcodes.h:109-142 | One of the colliding pairs: the conditional end of a forever loop, encoded as a store to a peripheral. |
| Pl330Isa.RunJoin | drivers/dma/pl330dma/pl330.h:169-207 | Running m steps and then n is running m + n, stuck runs included. |
| Pl330Code.IterationsExact | drivers/dma/pl330dma/opcodes.h:83-107 | The eight-bit loop count is exact from 1 to 256; 0 means 256. |
| Pl330Code.Simulate | drivers/dma/pl330dma/insn.c:147-246 | The bytes of a structured program, wherever they lie, take the thread from their first byte to the byte after them in the state the program means, and disturb no loop register outside it. |
| Pl330Code.LoopJumpExact | drivers/dma/pl330dma/insn.c:163-184 | The DMALPEND of a counted loop goes back to the byte after its DMALP if and only if the body is at most 255 bytes. |
| Pl330Emit.EmitFLUSHP | drivers/dma/pl330dma/opcodes.h:28-42 | Writes exactly the encoding, or nothing in a dry run, and returns the same size either way. |
| Pl330Emit.EmitLD | drivers/dma/pl330dma/opcodes.h:44-60 | The same for DMALD with its three conditions. |
| Pl330Emit.EmitLDP | drivers/dma/pl330dma/opcodes.h:62-81 | The same for DMALDP. |
| Pl330Emit.EmitLP | drivers/dma/pl330dma/opcodes.h:83-107 | The same for DMALP, whose operand is the count less one in eight bits. |
| Pl330Emit.EmitLPEND | drivers/dma/pl330dma/opcodes.h:109-142 | The same for DMALPEND and DMALPFE with their jump. |
| Pl330Emit.EmitMOV | drivers/dma/pl330dma/opcodes.h:154-171 | The same for DMAMOV with its four value bytes. |
| Pl330Emit.EmitSEV | drivers/dma/pl330dma/opcodes.h:185-199 | The same for DMASEV. |
| Pl330Emit.EmitST | drivers/dma/pl330dma/opcodes.h:201-217 | The same for DMAST. |
| Pl330Emit.EmitSTP | drivers/dma/pl330dma/opcodes.h:219-238 | The same for DMASTP. |
| Pl330Emit.EmitWFP | drivers/dma/pl330dma/opcodes.h:240-263 | The same for DMAWFP. |
| Pl330Compiler.LdstMemToMem | drivers/dma/pl330dma/insn.c:3-13 | Writes the unrolled memory-to-memory bursts and nothing else in the buffer; the dry run returns the same size. |
| Pl330Compiler.EmitLoad | drivers/dma/pl330dma/insn.c:15-37 | The load of one burst for the direction and condition. |
| Pl330Compiler.EmitStore | drivers/dma/pl330dma/insn.c:39-61 | The store of one burst for the direction and condition. |
| Pl330Compiler.LdstPeripheral | drivers/dma/pl330dma/insn.c:63-82 | The flush and then one wait, load and store for each unrolled burst. |
| Pl330Compiler.Bursts | drivers/dma/pl330dma/insn.c:84-96 | The unrolled bursts of either kind of transfer. |
| Pl330Compiler.Dregs | drivers/dma/pl330dma/insn.c:103-145 | The patched control word and one short burst, or nothing when no beats remain. |
| Pl330Compiler.Period | drivers/dma/pl330dma/insn.c:147-197 | Both loops, the remainder, the control word restored and the event. |
| Pl330Compiler.SplitLoop | drivers/dma/pl330dma/insn.c:209-217 | The search ends at the least number of unrolled periods whose loop count fits a byte. |
| Pl330Compiler.LoopCyclic | drivers/dma/pl330dma/insn.c:199-246 | The whole cyclic program, byte for byte, in a dry and in a real run. |
| Pl330Correct.MovedJoin | drivers/dma/pl330dma/insn.c:63-82 | Moving m beats and then n is moving m + n: consecutive addresses, data in order. |
| Pl330Correct.BurstSplitExact | drivers/dma/pl330dma/insn.c:154-174 | The two loops run exactly the bursts asked for, if and only if there are any. |
| Pl330Correct.DregsCcrFields | drivers/dma/pl330dma/insn.c:120-126 | Patching the control word gives both burst lengths the new value and changes no size and no increment. |
| Pl330Correct.PeriodMoves | drivers/dma/pl330dma/insn.c:147-197 | A period moves its bursts and its dregs as one stretch of beats, sends one event after them and leaves the control word as it was. |
| Pl330Correct.TimesMove | drivers/dma/pl330dma/insn.c:227-237 | Unrolled periods move one stretch of beats with an event at each multiple of the period. |
| Pl330Audio.PeriodSplitExact | drivers/dma/pl330dma/insn.c:209-217 | The loop and the residue run exactly the periods asked for, if and only if there are any. |
| Pl330Audio.JumpsFitIff | drivers/dma/pl330dma/insn.c:163-243 | All jumps fit if and only if two sums over the burst count, the split of the periods and the kind of transfer are at most 255; such a program fits 512 bytes. |
| Pl330Audio.ForeverJumpExact | drivers/dma/pl330dma/insn.c:219-245 | The DMALPFE at the end of the cyclic program goes back to its first instruction if and only if the code before it is at most 255 bytes. |
| Pl330Audio.LongPeriodJumpsTooFar | drivers/dma/pl330dma/insn.c:158-174 | One audio period of 417,792 bytes: 13,056 bursts, unrolled 51 times into a body of 257 bytes, over which the jump cannot go back. |
| Pl330Audio.LapRuns | drivers/dma/pl330dma/insn.c:199-246 | The thread comes back to the first instruction of the program after one lap, with the control word unchanged and the FIFO empty, having moved the periods the loops run with the event after each. |
| Pl330Audio.LapBytesExact | drivers/dma/pl330dma/insn.c:187-217 | A lap moves numPeriods times periodBytes bytes if and only if there is a period, it holds a burst, and it is a whole number of beats. |
| Pl330Audio.LapIsTheBuffer | drivers/dma/pl330dma/insn.c:248-297 | A lap plays the caller's buffer if and only if its length is a nonzero multiple of the period, and the period at least 32 bytes and a multiple of 4; otherwise what is beyond the last whole period is never played. |
| Pl330Audio.ShortPeriodMovesTooMuch | drivers/dma/pl330dma/insn.c:158-164 | A 28-byte period, for which a lap moves 8220 bytes. |
| Pl330Audio.LapIsTheTransfer | drivers/dma/pl330dma/insn.c:199-246 | Then the beats read and written are the consecutive beats of source and destination, in order, and the i-th event comes when exactly i periods have been read and written. |
| Pl330Audio.AudioCcrFields | drivers/dma/pl330dma/insn.c:256-273 | The audio control word says bursts of eight four-byte beats on both sides, non-secure, and increments only on the memory side. |
| Pl330Audio.AudioNamesItsPeripheral | drivers/dma/pl330dma/insn.c:15-82 | Every flush and wait of an audio program, and every load and store on the device's side, names the channel's peripheral; the memory side uses the plain forms. |
| Pl330Audio.ProgramFitsIff | drivers/dma/pl330dma/insn.c:274-297 | A program stays within the 512 bytes of its channel if and only if the periods written out take at most 488. |
| Pl330Audio.ShortProgramJumpsFit | drivers/dma/pl330dma/insn.c:163-245 | All jumps of a program fit if and only if it is at most 263 bytes long. |
| Pl330Audio.AudioPlays | drivers/dma/pl330dma/insn.c:286-297 | Such a program, wherever it lies, plays the request: each lap reads srcAddr + 4 i from memory, or srcAddr each time from a device, writes beat i to dstAddr, or to dstAddr + 4 i from a device, for all beats of the whole periods, with the channel's event after each period. |
| Pl330Audio.LongPeriodOverruns | drivers/dma/pl330dma/threads.c:6-11 | One period of 802,816 bytes, whose program of 522 bytes ends in the next channel's part of the buffer. |
| Pl330Audio.SubmitAudioDMA | drivers/dma/pl330dma/insn.c:248-297 | The program is in the microcode buffer from where the channel's part begins, and all other bytes are untouched; if it is at most 263 bytes long, the periods are whole beats of at least 32 bytes and the addresses are aligned, a thread started there plays the caller's request as often as one likes, whatever its registers held. |
| Pl330Audio.AudioRuns | drivers/dma/pl330dma/insn.c:248-297 | From any register contents a program whose jumps fit, started where it lies, completes k laps for every k. |
| EqosQueueCommon.DescriptorCountIsLeast | drivers/net/dwc_eqos/queue_common.cpp:7-25 | The ring size is a power of two between 64 and 1024, and the least one that is not below the clamped fragment count. |
| EqosQueueCommon.MaskIsRemainder | drivers/net/dwc_eqos/txqueue.cpp:124-143 | Masking with the size less one is the remainder, for every ring size in use. |
| EqosQueueCommon.AddressToIndexInverts | drivers/net/dwc_eqos/queue_common.cpp:27-37 | The index of the address written to a tail pointer is the index it was made from. |
| EqosQueueCommon.EmptyRemainingIs | drivers/net/dwc_eqos/txqueue.cpp:198-199 | The masked difference of the indexes is the number of free descriptors short of the hole. |
| EqosTxPackets.RunBytes | drivers/net/dwc_eqos/txqueue.cpp:293-427 | The engine fetches exactly the bytes of the packet's fragments, in order, segmented or not. |
| EqosTxPackets.RunFitsReservation | drivers/net/dwc_eqos/txqueue.cpp:245-267 | No packet writes more descriptors than were reserved for it. |
| EqosTxPackets.FitsEmptyRingIff | drivers/net/dwc_eqos/txqueue.cpp:249-267 | A segmentation packet gets its descriptors on an empty ring of n, whatever context the device is in, if and only if its fragments, cut at 0x3FFF bytes, make at most n - 3 pieces. |
| EqosTxPackets.FitsByLengths | drivers/net/dwc_eqos/txqueue.cpp:249-267 | Every packet within the announced limits fits an empty ring of 128 descriptors or more, and one of 64 if it is not segmented or has no fragment longer than 0x3FFF bytes. |
| EqosTxPackets.LongPacketNeverFits | drivers/net/dwc_eqos/device.cpp:1279-1281 | A packet within the announced limits, of 61 fragments, that an empty ring of 64 never has room for. |
| EqosTxPackets.RunShape | drivers/net/dwc_eqos/txqueue.cpp:269-427 | The context descriptor comes first, then the only FirstDescriptor; no length exceeds 14 bits; a tag is inserted if and only if the packet has one; the only LastDescriptor, and the only interrupt on completion, is at the end, and is there if and only if the packet is not all headers. |
| EqosTxPackets.TagReads | drivers/net/dwc_eqos/txqueue.cpp:215-219 | The tag reads back as the packet's priority and the packet's VLAN or else the configured one, with bit 12 clear, and is 0 if and only if there is neither. |
| EqosTxPackets.HeaderOnlyPacketHasNoLast | drivers/net/dwc_eqos/txqueue.cpp:316-355 | A packet of 54 header bytes that gets no LastDescriptor. |
| EqosTxPackets.StickyContextRefines | drivers/net/dwc_eqos/txqueue.cpp:214-427 | On a device that starts with any segment size and tag, every packet is sent with the segment size, headers, byte count, VLAN, priority and checksums its own fields and the configured VLAN ask for, although context is queued only when a value changes. |
| EqosTxPackets.StreamPrefix | drivers/net/dwc_eqos/txqueue.cpp:191-438 | What is queued for the first packets never changes with later ones. |
| EqosTxQueue.TxQueue.constructor | drivers/net/dwc_eqos/txqueue.cpp:62-93 | A started queue is empty, satisfies the invariant and assumes nothing about the device's segment size or tag. |
| EqosTxQueue.TxQueue.DeviceStep | drivers/net/dwc_eqos/txqueue.cpp:143-154 | The engine may clear Own in ring order up to the tail pointer at any moment; the invariant holds. |
| EqosTxQueue.TxQueue.SkipIgnorePackets | drivers/net/dwc_eqos/txqueue.cpp:95-116 | Stops at the first packet at or after the index that is not to be ignored, or at NextIndex, with a fragment index to match. |
| EqosTxQueue.TxQueue.PassReleased | drivers/net/dwc_eqos/txqueue.cpp:140-182 | Passes every released descriptor and stops at the first that is not, at the packet whose run that descriptor is in. |
| EqosTxQueue.TxQueue.RetireCompleted | drivers/net/dwc_eqos/txqueue.cpp:137-189 | Gives packets and fragments back up to there and keeps the invariant; whatever the engine had released before the call is retired. |
| EqosTxQueue.TxQueue.QueueGso | drivers/net/dwc_eqos/txqueue.cpp:227-356 | Writes exactly the run of a segmentation packet after those already written, or nothing if it does not fit. |
| EqosTxQueue.TxQueue.QueuePlain | drivers/net/dwc_eqos/txqueue.cpp:357-427 | The same for a packet that is not segmented. |
| EqosTxQueue.TxQueue.FillDescriptors | drivers/net/dwc_eqos/txqueue.cpp:191-438 | Packets get their descriptors in order until there are no more or the next does not fit; NextIndex moves to where that was if and only if a packet to be sent was passed or nothing was. |
| EqosTxQueue.TxQueue.Publish | drivers/net/dwc_eqos/txqueue.cpp:434-438 | The tail pointer and NextIndex move together, and only if a descriptor was written. |
| EqosTxQueue.TxQueue.TxQueueAdvance | drivers/net/dwc_eqos/txqueue.cpp:118-448 | Whatever the engine does meanwhile, the invariant holds, nothing is queued that does not fit and nothing fitting is left; NextIndex moves if and only if a packet to be sent was passed; the next packet to be sent is passed only if it fits an empty ring, and always if it does and the engine has nothing to do. |
| EqosTxQueue.TxQueue.StaysStarved | drivers/net/dwc_eqos/txqueue.cpp:118-448 | If the next packet to be sent does not fit an empty ring, no sequence of callbacks, engine steps and packets handed over ever moves NextIndex again. |
| EqosTxQueue.LongPacketStarves | drivers/net/dwc_eqos/txqueue.cpp:118-448 | The packet of 61 fragments on a started queue of 64 descriptors: nothing is queued whatever happens after. |
| EqosTxQueue.IgnoredPacketStays | drivers/net/dwc_eqos/txqueue.cpp:206-438 | One ignored packet on a started queue: after the callback NextIndex and BeginIndex are still in front of it. |
| EqosTxQueue.TxQueue.Supply | drivers/net/dwc_eqos/txqueue.cpp:129-135 | The framework may hand over a packet in its part of the rings at any time; the invariant holds. |
| EqosTxQueue.TxQueue.ReturnedExactlyWhenRetired | drivers/net/dwc_eqos/txqueue.cpp:164-186 | A packet has gone back exactly when its whole run is retired, and the engine has then released every descriptor of it: packets go back once each, first in, first out. |
| EqosTxQueue.TxQueue.TransmitRegionIsSuffix | drivers/net/dwc_eqos/txqueue.cpp:129-189 | The slots from descBegin to descEnd are the part not yet retired of the runs of the packets from BeginIndex to NextIndex, in order, owned by the engine exactly from where it is. |
| EqosRxQueue.RxQueue.constructor | drivers/net/dwc_eqos/rxqueue.cpp:56-84 | A started queue is running, empty and satisfies the invariant. |
| EqosRxQueue.RxQueue.DevicePasses | drivers/net/dwc_eqos/rxqueue.cpp:31-54 | The engine may pass on to the next descriptor in ring order up to the tail pointer at any moment; the invariant holds. |
| EqosRxQueue.RxQueue.DeviceWritesBack | drivers/net/dwc_eqos/rxqueue.cpp:119-136 | What it wrote to a descriptor it has passed, and that the driver owns it, may become visible at any later moment, in ring order; the invariant holds. |
| EqosRxQueue.RxQueue.Deliver | drivers/net/dwc_eqos/rxqueue.cpp:138-221 | A packet says exactly what was received into its fragment, and is to be ignored exactly if the descriptor reports an error or is not a whole frame. |
| EqosRxQueue.RxQueue.ReceiveCompleted | drivers/net/dwc_eqos/rxqueue.cpp:106-226 | One packet for each filled descriptor, in order, until they or the packets run out or a write-back is not visible yet; then, and only then, one owned descriptor is counted, and nothing visible at the call is left behind. |
| EqosRxQueue.RxQueue.PrepareDescriptors | drivers/net/dwc_eqos/rxqueue.cpp:228-269 | Afterwards the tail pointer covers every fragment there is, or the ring is full short of its hole: no fragment is lost by the conditional write. |
| EqosRxQueue.RxQueue.Drain | drivers/net/dwc_eqos/rxqueue.cpp:270-281 | A cancelled queue with nothing to receive gives every packet back to be ignored, and every fragment. |
| EqosRxQueue.RxQueue.RxQueueAdvance | drivers/net/dwc_eqos/rxqueue.cpp:86-289 | Whatever the engine does meanwhile: every write-back visible at the call goes back as a packet that says what was received, in order, as far as there are packets; a running queue is refilled; a cancelled one is drained if and only if all that the engine had passed was received. |
| EqosRxQueue.RxQueue.RxQueueCancel | drivers/net/dwc_eqos/rxqueue.cpp:304-321 | Keeps the invariant and stops refilling. |
| EqosRxQueue.RxQueue.PendingMatchesFragments | drivers/net/dwc_eqos/rxqueue.cpp:228-269 | Pending descriptor k holds the address of fragment BeginIndex + k, or what was received into it once that is visible; there are as many as fragments pending, always fewer than slots. |
| EqosInterrupts.StepKeepsInv | drivers/net/dwc_eqos/device.cpp:270-443 | Every step of the ISR, of any DPC instance, of a setter or of the device keeps the invariant: an armed queue is wanted, or its event is recorded, held by a DPC, or about to be enabled; the enables are those wanted, or off with a DPC owed. |
| EqosInterrupts.EveryRunKeepsInv | drivers/net/dwc_eqos/device.cpp:270-443 | So does every interleaving of them. |
| EqosInterrupts.StartedInv | drivers/net/dwc_eqos/device.cpp:263-268 | It holds with the queues disarmed and only the state interrupts on. |
| EqosInterrupts.QuiescentIsDelivered | drivers/net/dwc_eqos/device.cpp:318-443 | When nothing is left to happen by itself, no event of an armed queue is waiting in the device: no wakeup is lost. |
| EqosInterrupts.OnlyWantedIsEnabled | drivers/net/dwc_eqos/device.cpp:235-268 | No cause is enabled that is not wanted. |
| EqosInterrupts.TakenStaysSilent | drivers/net/dwc_eqos/device.cpp:318-368 | After the ISR has taken a queue's event, that queue's interrupt stays off in every run until its notification is set. |
| EqosInterrupts.StateStaysWanted | drivers/net/dwc_eqos/device.cpp:318-368 | No step changes whether the state interrupts are wanted; from the start they always are. |
| EqosInterrupts.QuietDeviceIsQuiet | drivers/net/dwc_eqos/device.cpp:318-443 | When nothing is left to happen by itself, no link, fatal or abnormal event is waiting in the device. |
| EqosInterrupts.EveryLinkEventIsSeen | drivers/net/dwc_eqos/device.cpp:318-443 | Every way of letting things happen ends within a bound, and then a link event that was in flight has been looked at by a DPC. |
| EqosInterrupts.EveryEventIsDelivered | drivers/net/dwc_eqos/device.cpp:318-443 | Every way of letting things happen ends within a bound, and then an armed queue whose event was in flight has been notified. |
| EqosInterrupts.DeviceContext.DeviceInterruptIsr | drivers/net/dwc_eqos/device.cpp:318-368 | The method takes the ISR's step of the protocol and keeps its invariant. |
| EqosInterrupts.DeviceContext.DpcTakeStatus | drivers/net/dwc_eqos/device.cpp:381-389 | The exchange at the top of the DPC loop is the protocol's. |
| EqosInterrupts.DeviceContext.DpcUpdateLink | drivers/net/dwc_eqos/device.cpp:391-396 | Seeing to a taken link event is the protocol's step: it clears a link event latched meanwhile and gives up nothing of the queues' events. |
| EqosInterrupts.DeviceContext.DpcNotifyQueues | drivers/net/dwc_eqos/device.cpp:398-419 | A queue is notified and disarmed exactly if it is armed and its event was taken. |
| EqosInterrupts.DeviceContext.DpcEnableInterrupts | drivers/net/dwc_eqos/device.cpp:435-441 | The re-enable is the protocol's. |
| EqosInterrupts.DeviceContext.DeviceInterruptEnable | drivers/net/dwc_eqos/device.cpp:270-292 | The wanted bits grow by those asked for, and the registers follow if anything changed. |
| EqosInterrupts.DeviceContext.DeviceInterruptDisable | drivers/net/dwc_eqos/device.cpp:294-316 | The wanted bits shrink, and the registers follow if anything changed. |
| EqosInterrupts.DeviceContext.SetQueue | drivers/net/dwc_eqos/device.cpp:1441-1443 | The first half of a setter, under the queue lock. |
| EqosInterrupts.DeviceContext.SetQueueInterrupt | drivers/net/dwc_eqos/device.cpp:1445-1452 | Its second half, under the interrupt lock. |
| SdTuning.LastIsTried | drivers/sd/dwcmshc/rockchip_ops.cpp:348-362 | Whatever fails, the last phase is always tried. |
| SdTuning.FindRanges | drivers/sd/dwcmshc/rockchip_ops.cpp:319-365 | The recorded ranges hold exactly the phases that were tried and worked, in order with gaps between them, and there are at most 180. |
| SdTuning.JoinedAllClosed | drivers/sd/dwcmshc/rockchip_ops.cpp:376-380 | After the end points are merged, every range is a run around the circle of 1 to 359 good phases that cannot be extended, and every good phase is in one. |
| SdTuning.LongestIsLongest | drivers/sd/dwcmshc/rockchip_ops.cpp:409-420 | No run of good phases around the circle is longer than the longest range. |
| SdTuning.NoneGoodIff | drivers/sd/dwcmshc/rockchip_ops.cpp:340-371 | No phase that was tried works if and only if none of 0, 20, ..., 340 and 359 works. |
| SdTuning.NothingLostIff | drivers/sd/dwcmshc/rockchip_ops.cpp:348-362 | Every working phase is tried if and only if each maximal run of failing phases in front of a working one, other than the last, has a length divisible by twenty. |
| SdTuning.NothingLostIsLongest | drivers/sd/dwcmshc/rockchip_ops.cpp:348-420 | Then the runs of tried working phases around the circle are the runs of working phases, so the longest is a longest of all. |
| SdTuning.NineteenCanBeLost | drivers/sd/dwcmshc/rockchip_ops.cpp:348-362 | If only phases 1 to 19 work, none of them is tried. |
| SdTuning.FindLongest | drivers/sd/dwcmshc/rockchip_ops.cpp:409-420 | The first range of greatest circular length. |
| SdTuning.ExecuteTuning | drivers/sd/dwcmshc/rockchip_ops.cpp:290-463 | For every pattern of working phases: an error exactly if none of 0, 20, ..., 340 and 359 works, the default exactly if all work, otherwise a good phase that is the middle of a longest run of good ones around the circle; no run of working phases is longer by more than 19, and none is longer if nothing is lost. |
| SdClock.TriedIsBest | drivers/sd/dwcmshc/rockchip_ops.cpp:185-197 | The divider tried for a parent reaches the target exactly if some divider does, and is then the least that does. |
| SdClock.FloorOrder | drivers/sd/dwcmshc/rockchip_ops.cpp:196-201 | Comparing rounded rates of different parents never misorders the exact ones. |
| SdClock.ReachableIff | drivers/sd/dwcmshc/rockchip_ops.cpp:204-210 | Some parent and divider stay within the target if and only if it is at least 375 kHz, twice the card clock. |
| SdClock.CardTooSlow | drivers/sd/dwcmshc/rockchip_ops.cpp:204-210 | No parent and divider are slow enough for a card clock of 187 kHz. |
| SdClock.WrapIsHarmless | drivers/sd/dwcmshc/rockchip_ops.cpp:185-195 | For every 32-bit target the divider computed with a wrapping sum is the one an exact sum gives. |
| SdClock.TargetIsAsked | drivers/sd/dwcmshc/rockchip_ops.cpp:179-179 | The target in Hz never exceeds what was asked for, and is that if and only if at most 2,147,483 kHz were. |
| SdClock.TargetIsCut | drivers/sd/dwcmshc/rockchip_ops.cpp:179-179 | Asked for 2,147,484 kHz, the driver looks for 704 Hz. |
| SdClock.MshcExtension.BestDivider | drivers/sd/dwcmshc/rockchip_ops.cpp:179-202 | The fastest exact rate of all parents and dividers 1 to 64 that does not exceed the target, or none if and only if there is none. |
| SdClock.MshcExtension.SetClock | drivers/sd/dwcmshc/rockchip_ops.cpp:138-224 | The register reads back as that choice among parents of 1188, 1000 and 24 MHz, or as crystal over 64 when there is none; nothing but the mapping changes if the register cannot be mapped. |
| SdClock.ClockWordReads | drivers/sd/dwcmshc/rockchip_ops.cpp:212-216 | The clock word decodes to the mux, the divider and the write enables for exactly these fields. |
| SdClock.PhaseWordReads | drivers/sd/dwcmshc/rockchip_ops.cpp:122-133 | The phase word decodes to quarter turns, delay elements and the select bit, on exactly if there is a delay. |
| SdClock.PhasesFitIff | drivers/sd/dwcmshc/rockchip_ops.cpp:117-120 | No angle saturates the delay if and only if the card clock is at least 16.127 MHz. |
| SdClock.LastAngleSaturates | drivers/sd/dwcmshc/rockchip_ops.cpp:117-120 | 89 degrees at a card clock of 16.126 MHz need more delay than there is. |
| SdClock.MshcExtension.SetPhase | drivers/sd/dwcmshc/rockchip_ops.cpp:86-136 | The word written for any angle reads back as its quarter turns and the rest rounded to the nearest delay element, or all 255 if the rest is longer; an error and no write below 1 kHz. |
| SdClock.SdhcExtension.SetClock | drivers/sd/dwcsdhc/dwcsdhc.cpp:1257-1331 | The eMMC clock is not faster than asked if and only if at least 375 kHz is asked for; up to 400 MHz it is more than half of that; the parent is 400 MHz from 24 MHz on and the crystal below; the divider is the least that suits the rate in 32-bit Hz, which is the rate asked for if and only if that is at most 4,294,967 kHz; from 100 MHz on the clock is set and the call fails with the delay lines as they were. |
| SdClock.AskedTooSlow | drivers/sd/dwcsdhc/dwcsdhc.cpp:1299-1324 | Asked for 374 kHz, the host sets a faster clock. |
| SdClock.RefusedButSet | drivers/sd/dwcsdhc/dwcsdhc.cpp:1299-1331 | Asked for 100 MHz, it sets 400 MHz over 4 and says it is not supported. |
| SdDescriptors.PiecesMean | drivers/sd/dwcmshc/dwcmshc.cpp:2663-2706 | Cut into pieces, a list goes through the same addresses in the same order, and no piece is empty, too long or above the address limit. |
| SdDescriptors.CreateIdmacDescriptorTable | drivers/sd/dwcmshc/dwcmshc.cpp:2652-2717 | The table decodes to those pieces in order, all owned by the controller; the first mark is on the first only, last and end-of-ring on the last only, and every other suppresses its interrupt. |
| SdDescriptors.WalkTable | drivers/sd/dwcsdhc/dwcsdhc.h:1334-1343 | A controller that walks the ADMA2 bytes with a stride of 8 or 12 finds the entries that were meant and stops at the last. |
| SdDescriptors.CreateAdmaDescriptorTable | drivers/sd/dwcsdhc/dwcsdhc.cpp:3371-3448 | Walking the bytes written gives the pieces of the list in order, the last and no other ending the table; the length counted is the list's. |
| SpiEngine.BaudrIs | drivers/spi/rk3xspi/hw.c:25-51 | An even divider in range for every input; it is the least that does not exceed the rate, which is exceeded exactly if even the greatest exceeds it, if and only if the 32-bit sum does not wrap, or twice the rate covers the clock, or no divider is great enough. |
| SpiEngine.FastestClockIsHalved | drivers/spi/rk3xspi/hw.c:33-45 | A clock of 4295 MHz for which the sum wraps and the divider comes out as 2. |
| SpiEngine.OneLine | drivers/spi/rk3xspi/rk3xspi_regs.h:71-74 | The word written to the select register has the bit of the chip select set and no other. |
| SpiEngine.Controller.DeviceStep | drivers/spi/rk3xspi/hw.c:130-163 | Whatever the hardware does next, every frame in flight is in one place and in order, and none is lost to a full FIFO. |
| SpiEngine.Controller.Push | drivers/spi/rk3xspi/hw.c:138-144 | Pushes the caller's next bytes and keeps at most 32 frames in flight. |
| SpiEngine.Controller.Drain | drivers/spi/rk3xspi/hw.c:149-157 | Stores each reply at its own index and touches nothing else. |
| SpiEngine.Controller.NothingInFlight | drivers/spi/rk3xspi/hw.c:165-175 | At the end of a chunk nothing is in flight. |
| SpiEngine.Controller.PumpChunk | drivers/spi/rk3xspi/hw.c:116-163 | Every frame of the chunk goes out and comes back, or the time is up. |
| SpiEngine.Controller.Transfer | drivers/spi/rk3xspi/hw.c:76-182 | For any length and timing: on success the caller's bytes or zeros went out and byte i received is the answer to frame i; every frame was put on the wire with exactly the one chip selected, in the caller's mode and at its rate; on every exit after configuration the chip is released, the controller disabled and a prefix was sent; length 0 touches nothing; the two buffers may be one. |
| SpiSequence.CoalescedRefinesBus | drivers/spi/rk3xspi/spb.c:193-230 | One transfer of the gathered bytes gives each segment exactly what a bus that runs the segments one at a time would. |
| SpiSequence.Gather | drivers/spi/rk3xspi/spb.c:217-230 | Each write segment's bytes are at its prefix-sum offset, zeros everywhere else. |
| SpiSequence.Scatter | drivers/spi/rk3xspi/spb.c:237-249 | Each read segment gets the bytes at its offset; write segments are untouched. |
| SpiSequence.EvtIoSequence | drivers/spi/rk3xspi/spb.c:175-261 | A sequence that succeeds has sent and read what the segment-by-segment bus would, all of it with exactly the one chip selected; one that fails has changed no segment and reports no bytes. |
| I2cClocks.ShareExact | drivers/i2c/rk3xi2c/clocks.c:95-121 | The two dividers sum to the greater of what the rate and what the minimum times need, and neither gets less than its minimum. |
| I2cClocks.DividersMeetSpec | drivers/i2c/rk3xi2c/clocks.c:74-121 | For every clock and speed, low and high times meet the specification plus fall and rise times, and SCL is not above the speed asked for. |
| I2cClocks.SdaUpdateIs | drivers/i2c/rk3xi2c/clocks.c:123-137 | The countdown ends at the largest field that holds data short enough, with the setup time always met, and at 0 if and only if already 1 holds too long. |
| I2cClocks.SetupCfgFits | drivers/i2c/rk3xi2c/clocks.c:139-147 | START and STOP setup times are met by fields that fit two bits. |
| I2cClocks.CalcTimings | drivers/i2c/rk3xi2c/clocks.c:39-168 | All of these at once for the registers computed; the tuning word stays in its field if and only if a data field of 1 holds short enough. |
| I2cClocks.Device.AdaptDiv | drivers/i2c/rk3xi2c/clocks.c:170-190 | The rest of the control register survives under exactly that condition, and then what the two registers read times the bus as specified. |
| I2cClocks.AnyBusOfTheModeIsTimed | drivers/i2c/rk3xi2c/clocks.c:204-220 | What meets the low, high, START and STOP times with the rise and fall times the driver takes meets them on every bus whose edges are within the limits of UM10204 for the mode of the speed. |
| I2cClocks.Device.SetSpeed | drivers/i2c/rk3xi2c/rockchipi2c.c:432-435 | After a transfer has set its speed, the registers meet the low, high, setup and hold times of UM10204, by number for each mode, on every such bus, if the data field of 1 holds short enough. |
| I2cClocks.SlowBusUnderflows | drivers/i2c/rk3xi2c/clocks.c:127-151 | A bus, 10 kHz from 24 MHz, on which nothing wraps and yet the data field underflows. |
| I2cClocks.NominalSpeedsFit | drivers/i2c/rk3xi2c/clocks.c:58-151 | From 25 to 400 MHz at 100 kHz, 400 kHz and 1 MHz no arithmetic wraps and the field fits. |
| I2cMdlChain.MdlChainGetByte | drivers/i2c/rk3xi2c/mdlchain.c:3-50 | The byte at an index of the flattened list, failing exactly if the index is beyond the length or the list, or the buffer cannot be mapped. |
| I2cMdlChain.MdlChainSetByte | drivers/i2c/rk3xi2c/mdlchain.c:52-100 | Replaces that byte of the flattened list and no other, or fails for the same reasons and changes nothing. |
| I2cTransfer.Context.FillTransmitBuf | drivers/i2c/rk3xi2c/rockchipi2c.c:107-143 | The bytes the hardware finds in the registers continue the stream of the address byte and the flattened list: 32 of them, or all that remain. |
| I2cTransfer.Context.PrepareRead | drivers/i2c/rk3xi2c/rockchipi2c.c:75-102 | Asks for at most 32 bytes, answers with a NACK only after the last chunk, and sends the address only before the first. |
| I2cTransfer.Context.TakeBytes | drivers/i2c/rk3xi2c/rockchipi2c.c:211-229 | Fills the list with the bytes received, in order, from where the last chunk ended. |
| I2cTransfer.Context.StopMessage | drivers/i2c/rk3xi2c/rockchipi2c.c:34-70 | Ends the message with the status given and keeps the invariant: with a STOP if it is marked as the last, else at rest with the DPC queued once. |
| I2cTransfer.Context.Irq | drivers/i2c/rk3xi2c/rockchipi2c.c:267-324 | Any interrupt in any state keeps the invariant, takes the step of the abstract machine, sets its error, and queues the DPC exactly on coming to rest. Over every run: at rest, STOP was sent if and only if no interrupt ended the message early, and it was confirmed if and only if it was sent; one that ended it early leaves an error. |
| I2cTransfer.Context.NackInStart | drivers/i2c/rk3xi2c/rockchipi2c.c:288-304 | A NACK in answer to START: at rest, no STOP sent or pending, the DPC queued. |
| I2cTransfer.MessageCompletes | drivers/i2c/rk3xi2c/rockchipi2c.c:147-265 | With expected interrupts a message is over after exactly one for START, one for each chunk and one for STOP, and all of it has been moved. |
| I2cTransfer.Context.XferSingle | drivers/i2c/rk3xi2c/rockchipi2c.c:351-419 | For every sequence of interrupts and DPC runs and each way the wait may end: success means that all was moved, nothing else touched, and STOP confirmed, if and only if the machine was at rest; it is at rest if the event ended the wait and no older DPC was queued; a message that times out leaves its DPC queued if and only if it was over; a finished write began with the seven address bits and a 0, a finished read was addressed with them and a 1. |
| I2cTransfer.Context.AlertedAtOnce | drivers/i2c/rk3xi2c/rockchipi2c.c:394-418 | An alert right after START: success, the message in flight and nothing moved. |
| I2cTransfer.LeftOverDpc | drivers/i2c/rk3xi2c/rockchipi2c.c:326-418 | A timed-out message whose DPC runs while the next message waits, which returns success with nothing moved. |

## Left out

- Frameworks: WDF, SpbCx, sdport, NetAdapterCx, GpioClx, power callbacks, MMIO mapping, registry, ACPI packages, tracing and statistics are not modelled.
- Real time: deadlines are a number of polls (SPI) or an arbitrary moment (I2C).
- Pl330Audio.LapRuns: asks for addresses aligned to the beat and equal beat sizes on both sides, as AudioRuns does; what the engine does otherwise is outside the interpreter.
- PL330 data path: the interpreter counts and orders beats; it stops at an unaligned address or at unequal beat sizes, and knows no MFIFO capacity, faults or cache control.
- PL330 requests: DMAWFP with the peripheral choosing, the flush and the wait itself have no effect but on the request type.
- PL330 emitters the compiler does not use (ADDH, END, KILL, GO, RMB, WMB), `_start`, `_stop` and channel bookkeeping.
- Pl330Audio.SubmitAudioDMA: does not start the thread; the debug registers are hardware.  It asks that the program ends within the microcode buffer of all channels and that the period is not 0, by which the driver divides.
- TxQueueCancel, TxQueueStop and queue clean-up, which give everything back at once after the engine has been stopped.
- EqosTxQueue.TxQueue.Supply: takes packets within the limits the driver announces to the framework or asserts of it (fragments, header and segment lengths), except for its assertion on descriptors, which nothing announced bounds; and with payload after the headers; the all-header packet is covered by RunShape.
- EqosRxQueue.RxQueue.DeviceWritesBack: write-backs become visible in ring order and not before the engine's index has moved on.
- EQOS transmit checksum requests, error bits and the debug indexes in descriptors; receive VLAN, checksum and layout evaluations.
- EQOS rings: the framework's packet and fragment rings are sequences that the methods reassign; the descriptor ring is an array.
- EqosInterrupts.StepKeepsInv: takes the calls of one queue's setter one after the other, as the framework serialises them; the always-on normal summary enable is not a cause.
- EqosInterrupts.DeviceContext.DpcUpdateLink: the work item that then reads the link state is not modelled.
- EqosInterrupts.EveryEventIsDelivered: speaks of runs in which the device raises nothing more and nobody disarms.
- SD request completion, PIO windows, voltage switching and the mapping of registers.
- SdTuning.ExecuteTuning: one outcome for each phase covers every behaviour, since no phase is tried twice; a failure to set the chosen phase is only logged.
- SdClock.MshcExtension.SetClock: asks that the target, in 32 bits, is not 0 when the register is mapped, since the driver divides by it.
- SdDescriptors.CreateIdmacDescriptorTable: asks for a list without empty elements, below 4 GB and within the table, as the driver asserts; 64-bit IDMAC is not in this builder.
- SPI buffers: transmit and receive buffers are the same or do not overlap; segments of a sequence are distinct memory and stay mapped once mapped.
- SpiSequence.EvtIoSequence: asks that the segment lengths add up to less than 2^32; the driver adds them in 32 bits and allocates what comes out.
- SpiEngine.Controller.Transfer: does not prove that hardware which stops working is noticed within one second, only that every loop ends with the last poll.
- I2cClocks.CalcTimings: asks that no 32-bit product wraps and no setup count is 0 (NoWrap); NominalSpeedsFit gives clocks and speeds for which that holds.
- I2C i2c_xfer (the loop over the transfers of a request), the interrupt enable register and the masked byte interrupts; every interrupt is allowed at any time instead.
- GPIO, the audio bus driver, I2C and SPI target parsing, SiP calls and the tools.
