# DMA ring and stream test of the PCI Express board

This project models the DMA side of the board's Linux driver, the user-side reader of its buffers,
and the stream test that fills and checks those buffers, and proves what they guarantee together.

* **Descriptor table** (`ControlCode`, `DescriptorTable`, `DescriptorEngine`, `PageRange`,
  `CyclingMode`). The driver compiles N block addresses into descriptor blocks of 64 entries, signs
  each with a 16-bit control code, and patches the last entry at every start. The walk over the table
  is that of the board's own descriptor engine, which is in the repository as VHDL under
  `core/ds_dma64/pcie_src/pcie_core64_m1/pcie_fifo_ext/`: it reads a descriptor block and checks it
  (`ctrl_main.vhd`, lines 395-443; `ctrl_ext_descriptor.vhd`, lines 435-492), follows the jump flags
  (`ctrl_main.vhd`, lines 446-553), decodes address, length and direction (`ctrl_dma_adr.vhd`,
  lines 139-366) and moves whole pages (`../pcie_ctrl/core64_tx_engine.vhd`, lines 441-458 and
  551-554). The rows below name these lines where they matter and cite the driver's side.
* **Driver** (`Channel`, `Completion`, `InterruptScan`, `EndOfTransfer`, `Driver`, `StartedBoard`).
  Counters, flow-control flag, deferred routine, channel scan, and the flip-flops that let the board
  run at most two blocks ahead of the handler (`ctrl_main.vhd`, lines 630-689). The driver's objects
  are classes whose methods are proved against the value functions of `Channel` and `Completion`.
  `StartedBoard` joins what a start writes with the walk of the board.
* **Reader** (`Consumer`, `Reader`). Two indices that follow the driver's last filled block; the same
  code serves both boards (`soft/linux/common/utils/cl_ambpex.cpp` and `cl_wbpex.cpp`).
* **The protocol of the three** (`Protocol`, `Liveness`, `BoardRun`). A state machine with the steps
  block begins, block ends, interrupt, get, and acknowledge again, in every order. Its memory is
  written page by page where the walk over the driver's table says. `BoardRun` drives it by the
  board's flip-flops.
* **Test stream** (`TestSequence`, `BlockBits`, `TestBuffer`, `Checkers`). The generator of ten kinds
  of blocks, what each is bit by bit, three separately written checkers with one error log, and what
  their counts mean.
* **Output and input test** (`StreamOut`, `StreamIn`, `StreamThrough`). The programs that keep a ring
  full of the reference stream and check a received one, over the reader and the generator;
  `SentInOrder` and `ReportsTheSource` join them with the protocol.

## What does not hold, and exactly when it does

* The chain of descriptors does not close for every N. It does if and only if N is not a multiple of
  63, or N = 63 and the transfer is cyclic, or N is a larger multiple and the transfer is one-shot
  (`ClosesIff`). For N = 63 one-shot, and for larger multiples cyclic, the board goes on to whatever
  lies behind the table (`RunsPast`, `MayMisbehave`).
* The jump fields are one bit wide while the counters test the whole of `IsCycling`. They agree if and
  only if it is zero or odd (`ModesAgreeIff`). For any other value, 2 say, the board stops after N blocks,
  or for N = 63 runs past the table, and the driver never ends the transfer (`EvenNeverEnds`).
* A block is filled where the driver says exactly when it starts on a page boundary, ends below 2^40
  and has at most 1 GB (`MovesBlockIff`). A longer block is handed out with pages never filled
  (`AlwaysWholeIff`). An address register holds multiples of 512, and data goes to multiples of 4096,
  although the slot has room for multiples of 256 (`JoinFieldIff`, `JoinPageIff`, `MisalignedGoesLow`).
* The live handler computes the flow-control flag and does not act on it
  (`soft/linux/driver/pexdrv/pexmodule.c:384`), so a slow reader is lapped (`Laps`), which the input test
  reports (`LappedIsReported`). The guarantee is that of the handler kept in
  `soft/linux/driver/pexdrv/hardware.c:614-709`.
* A handler that pauses deadlocks in some run if and only if the ring has four buffers or fewer or the
  board leads by five or more (`NeverStuckIff`): with four after one acknowledged block, with fewer after
  2^32 - 3 fills. It loses buffers if and only if there are fewer than four or the lead is four or more
  (`AlwaysSafeIff`).
* The flag tolerates a board that is up to three blocks ahead of the handler. The board's flip-flops
  let it be two ahead (`IsProtocolRun`), provided no block ends in the very clock in which an interrupt
  is acknowledged; then the request is lost and the channel stands still (`StalledIff`).
* A start does not reset the snapshot that status requests report. Below 2^32 fills the published total
  never exceeds the live one if and only if it is zero at the start (`AlwaysBehindIff`), and never falls
  if and only if it is at most one (`NeverLowersIff`). At 2^32 fills the live total wraps below it in some
  run of every transfer (`WrapRun`). The error log shows the first errors up to 2^32 of them
  (`FirstErrorsShownIff`).
* Where the header of the test-stream class numbers kinds 3 and 4 differently from the code
  (`soft/linux/common/utils/tf_testbufm2.h:29-48`), the code is followed. Pair kinds write an even
  number of words, at least two, so they run over a block that is not whole pairs (`EveryKindFitsIff`),
  and forced kinds from 10 on write the signature alone (`Written`).

## Main results

| result | says |
|---|---|
| `ClosesIff`, `WalkRing` | when the chain of descriptors closes, and what an unbounded walk then visits |
| `MovesBlockIff` | when the board moves exactly the pages of a block |
| `StartedMoves` | what the board moves after a start request |
| `StartTable`, `EveryBlockAccepted` | the table after any starts, accepted by the board |
| `OneWordErrorRejected`, `UndetectedIff` | what the control code detects |
| `RunCounts`, `NeverAskedToPause` | closed form of all counters over runs, and when the flag never falls |
| `EndToEnd`, `AlwaysWholeIff` | no loss, no repetition, no reordering, whole buffers |
| `AlwaysSafeIff`, `NeverStuckIff`, `FlagExact` | flow control: safety and liveness, each exactly when |
| `IsProtocolRun`, `BoardEndToEnd` | the same for the board's own flip-flops |
| `RunReports`, `AlwaysBehindIff`, `Fairness` | deferred routine, its published total, and channel scan |
| `PairBits`, `MarkedBits`, `NoiseBits` | what the blocks are, bit by bit |
| `BufSet`, `BufCheck`, `WholeRun` | generator and checker against one specification, and its closed form |
| `CountIsDistance`, `OneWrongWordCostsTwo`, `OnlyNoiseCounts` | what the error counts mean |
| `SendData`, `RingInOrder`, `SentInOrder` | the output ring, joined with the protocol |
| `ReportsTheSource`, `LappedIsReported` | the input ring, joined with the protocol |

## Reading the model

All counters are 32-bit and wrap; -1 is 0xFFFFFFFF. Words of the table and of the stream are bit
vectors. `Counts`, `Indices`, `Intact`, `Reported` and `LogValid` are the invariants. `depth` is how
many finished blocks the board may have unannounced. T is the number of interrupts served (`served`),
D that of buffers taken (`taken`).

## Model

| member | source | states |
|---|---|---|
| ControlCode.ComputeControlCode | soft/linux/driver/pexdrv/dmachan.c:311-353 | The driver's loop over 64 entries, on an array, computes the 32-bit register that the theorems below are about. |
| ControlCode.RegisterRefines | soft/linux/driver/pexdrv/dmachan.c:313-337 | After every entry the low half of the 32-bit register is what a 16-bit register would hold that rotates left with an inverted carry; the upper half never comes back. |
| ControlCode.RegisterClosed | soft/linux/driver/pexdrv/dmachan.c:313-337 | That register is a constant of the entry count xor the fold of the entries' words, each rotated by its distance from the end. |
| ControlCode.CodeClosed | soft/linux/driver/pexdrv/dmachan.c:311-355 | For a whole 64-entry block the residue is 0x7FFF xor the fold. |
| ControlCode.ZeroResidueIffSigned | soft/linux/driver/pexdrv/dmachan.c:354-355 | Of the 65536 values of the last word exactly the one the driver stores makes the residue zero. |
| ControlCode.AcceptsIff | soft/linux/driver/pexdrv/dmachan.c:307-357 | The board's own check (ctrl_ext_descriptor.vhd, lines 435-492), a 16-bit register that must end at 1 and a signature word, accepts a block if and only if the driver's residue is zero and the signature is 0x4953. |
| ControlCode.SignedAccepted | soft/linux/driver/pexdrv/dmachan.c:354-355 | A block the driver signs is accepted, and signing alters no other word. |
| ControlCode.UndetectedIff | soft/linux/driver/pexdrv/dmachan.c:313-355 | A damaged block passes exactly when the fold of the difference is zero, whatever the block was. |
| ControlCode.OneSlotDetectedIff | soft/linux/driver/pexdrv/dmachan.c:313-355 | Damage to one 8-byte entry is noticed exactly when the xor of its four words changes. |
| ControlCode.OneWordErrorRejected | soft/linux/driver/pexdrv/dmachan.c:313-355 | Any change of one 16-bit word of an accepted block makes the board reject it. |
| DescriptorTable.PosBounds | soft/linux/driver/pexdrv/dmachan.c:221-273 | Data block i lies at slot 64*(i/63) + i%63, below the end of the 64*ceil(N/63) slots allocated. |
| DescriptorTable.PosIncreasing | soft/linux/driver/pexdrv/dmachan.c:250-273 | Data slots of different blocks differ, never fall on slot 63 of a descriptor block, and skip it going from one descriptor block to the next. |
| DescriptorTable.Clear | soft/linux/driver/pexdrv/dmachan.c:215 | The whole table is zeroed. |
| DescriptorTable.EnterBlock | soft/linux/driver/pexdrv/dmachan.c:221-274 | One turn of the entry loop: the data slot, the jump to the next descriptor block in every 63rd, and the position moves to that of the next block; every other slot is left as it was. |
| DescriptorTable.CloseChain | soft/linux/driver/pexdrv/dmachan.c:278-296 | The last entry stops, the entry behind it points back to the table, the last slot carries the signature; nothing happens when the count is a multiple of 63. |
| DescriptorTable.SignInPlace | soft/linux/driver/pexdrv/dmachan.c:311-356 | One descriptor block is signed in place, the others are untouched. |
| DescriptorTable.SignAll | soft/linux/driver/pexdrv/dmachan.c:307-357 | Every descriptor block ends up signed. |
| DescriptorTable.BuildTable | soft/linux/driver/pexdrv/dmachan.c:215-357 | The array holds exactly the table specified slot by slot, for every N >= 1. |
| DescriptorTable.TableSlot | soft/linux/driver/pexdrv/dmachan.c:221-296 | Slot by slot, the signed table is the specified one but for the code word in slot 63. |
| DescriptorTable.EveryBlockAccepted | soft/linux/driver/pexdrv/dmachan.c:307-357 | Whatever the last entry's jump is, the board accepts every descriptor block of the table; slot 63 carries 0x4953 and the residue is 0. |
| DescriptorTable.PatchedSlot | soft/linux/driver/pexdrv/dmachan.c:602-606 | The entry patched at a start is that of data block N-1, it lies in the last descriptor block, and never in slot 63. |
| DescriptorTable.AssignToLast | soft/linux/driver/pexdrv/dmachan.c:603-606 | Assigning the one-bit jump field to a finished entry gives the entry built for that mode, from either mode, so starts may be repeated in any order. |
| DescriptorTable.TableLocal | soft/linux/driver/pexdrv/dmachan.c:610-657 | Only the last descriptor block depends on the mode, so re-signing that one is enough. |
| DescriptorTable.PatchLast | soft/linux/driver/pexdrv/dmachan.c:602-613 | The array after the patch: the last descriptor block is the unsigned one of the new mode, the others are unchanged. |
| DescriptorTable.StartTable | soft/linux/driver/pexdrv/dmachan.c:596-658 | After any start the array is the table of the low bit of the last IsCycling, whatever came before. |
| CyclingMode.ModesAgreeIff | soft/linux/driver/pexdrv/dmachan.c:586-606 | Table and counters are put in the same mode by a start if and only if IsCycling is zero or odd. |
| CyclingMode.EvenNeverEnds | soft/linux/driver/pexdrv/dmachan.c:582-606 | For a non-zero even IsCycling the board stops after N blocks, or runs past its table for N = 63, while no run of the deferred routine ever ends the transfer. |
| DescriptorEngine.FetchBlock | soft/linux/driver/pexdrv/dmachan.c:307-357 | The board (ctrl_main.vhd, lines 395-443) reads a descriptor block into its memory and starts it at entry 0 only because the driver's block passes its check. |
| DescriptorEngine.DescriptorMeaning | soft/linux/driver/pexdrv/dmachan.c:222-242 | What the board decodes from the slot of block i (ctrl_dma_adr.vhd, lines 139-366): the direction and the end-of-block flag; the address register holds block i's address exactly on 512-byte boundaries below 2^40; data goes to that address exactly on page boundaries below 2^40 (core64_tx_engine.vhd, lines 441-458 and 553-554); the length is right exactly up to 1 GB. |
| DescriptorEngine.JoinFieldIff | soft/linux/driver/pexdrv/dmachan.c:229-232 | An address survives the four address bytes of a slot and the board's register if and only if it is on a 512-byte boundary below 2^40. |
| DescriptorEngine.JoinPageIff | soft/linux/driver/pexdrv/dmachan.c:229-232 | Data goes to the address entered if and only if it is on a page boundary below 2^40. |
| DescriptorEngine.MisalignedGoesLow | soft/linux/driver/pexdrv/dmachan.c:229-232 | Witnesses: a block at 0x100100 is decoded as 0x100000, and one at 0x100200 is decoded right but filled from 0x100000. |
| DescriptorEngine.MovesBlockIff | soft/linux/driver/pexdrv/dmachan.c:222-242 | The board moves exactly the pages of block i, in order, if and only if the block is on a page boundary, ends below 2^40 and has at most 1 GB. |
| DescriptorEngine.ShortMisses | soft/linux/driver/pexdrv/dmachan.c:225-235 | A block over 1 GB has a page the board never moves for it. |
| PageRange.BlockPagesIff | soft/linux/driver/pexdrv/dmachan.c:222-242 | The pages of a block are exactly those that lie whole pages, and less than the block size, after its start. |
| DescriptorEngine.LengthOf | soft/linux/driver/pexdrv/dmachan.c:225-235 | The 30-bit page counter (ctrl_dma_adr.vhd, lines 145-146 and 254-281) gives the block size back if and only if the block is at most 1 GB, and never more than it. |
| DescriptorEngine.StepInside | soft/linux/driver/pexdrv/dmachan.c:236-273 | From the descriptor of block i < N-1 the board (ctrl_main.vhd, lines 446-553) goes to that of block i+1, across descriptor blocks too. |
| DescriptorEngine.StepLast | soft/linux/driver/pexdrv/dmachan.c:278-286 | Where the board goes from the last descriptor (ctrl_main.vhd, lines 474-553), in all cases of N mod 63 and mode. |
| DescriptorEngine.WalkOnce | soft/linux/driver/pexdrv/dmachan.c:221-274 | The first N descriptors visited are those of blocks 0 to N-1 in order, for every N. |
| DescriptorEngine.WalkRing | soft/linux/driver/pexdrv/dmachan.c:221-296 | In a cyclic transfer the k-th descriptor visited is that of block k mod N, for every k. |
| DescriptorEngine.WalkOneShot | soft/linux/driver/pexdrv/dmachan.c:221-296 | In a one-shot transfer the board stops after block N-1. |
| DescriptorEngine.ClosesAlways | soft/linux/driver/pexdrv/dmachan.c:278-296 | When the chain closes, the walk after N blocks is the intended one: back to block 0, or stopped. |
| DescriptorEngine.RunsPast | soft/linux/driver/pexdrv/dmachan.c:250-272 | Otherwise the board fetches the block just past the end of the table. |
| DescriptorEngine.MayMisbehave | soft/linux/driver/pexdrv/dmachan.c:250-272 | And then there is a memory with the driver's table in it for which the walk is not the intended one. |
| DescriptorEngine.ClosesIff | soft/linux/driver/pexdrv/dmachan.c:250-296 | For every table and mode: the walk is right for all memories holding the table if and only if N is no multiple of 63, or is 63 and cyclic, or is a larger multiple and one-shot. |
| Channel.BumpCounts | soft/linux/driver/pexdrv/dmachan.c:706-725 | Closed form of a look-ahead counter that started at j, also where j is not below N. |
| Channel.FillCounts | soft/linux/driver/pexdrv/dmachan.c:673-725 | One interrupt takes all nine counters from their closed form for k to that for k+1. |
| Channel.RunCounts | soft/linux/driver/pexdrv/dmachan.c:582-759 | Over every run of interrupts and acknowledgements, in both modes: lastBlock = (k-1) mod N, m_CurBlockNum = k mod N, m_BlocksRemaining = N - k mod N, m_CycleNum = k / N, totalCounter = k and the look-ahead counters, all modulo 2^32. |
| Channel.RunKeepsSettings | soft/linux/driver/pexdrv/dmachan.c:669-759 | No run of interrupts and acknowledgements changes the block count, the modes, or the page's offset and state. |
| Channel.FlagNeedsAgreement | soft/linux/driver/pexdrv/dmachan.c:728-734 | Outside agreed mode, or in a one-shot transfer, no run of interrupts and acknowledgements moves the flag, up or down. |
| Channel.NeverAskedToPause | soft/linux/driver/pexdrv/dmachan.c:582-759 | So there the flag is 1 after every run from a start: a handler that acts on it never pauses such a channel, which nobody would acknowledge. |
| Channel.FlagMoves | soft/linux/driver/pexdrv/dmachan.c:728-756 | In every state: an interrupt only lowers the flag, an acknowledgement only raises it, and acknowledging the same block again changes nothing. |
| EndOfTransfer.CountsPending | soft/linux/driver/pexdrv/pexmodule.c:396-398 | While no block ends in the clock of an acknowledgement, every finished block is announced exactly once, at most two are unannounced, and a transfer is allowed only with at most one (flip-flops of ctrl_main.vhd, lines 630-689, cleared by the handler's two writes). |
| EndOfTransfer.CoincidenceStalls | soft/linux/driver/pexdrv/pexmodule.c:396-398 | A block that ends in the very clock of an acknowledgement loses the request and stops both sides (flip-flops of ctrl_main.vhd, lines 630-689, cleared by the handler's two writes). |
| EndOfTransfer.StalledIff | soft/linux/driver/pexdrv/pexmodule.c:396-398 | A history ends stalled if and only if such a coincidence occurred (flip-flops of ctrl_main.vhd, lines 630-689, cleared by the handler's two writes). |
| BoardRun.IsProtocolRun | soft/linux/driver/pexdrv/pexmodule.c:376-398 | Every history of the board, its flip-flops gating the blocks and its requests answered by the handler, in which no block ends in the clock of an acknowledgement, is a run of the protocol with a lead of two; the flip-flops always count the unannounced blocks. |
| BoardRun.BoardEndToEnd | soft/linux/driver/pexdrv/pexmodule.c:376-398 | So on this board, with the pause acted on, every buffer handed out is whole and in turn and stays untouched until three more have been taken. |
| BoardRun.BoardNeverSticks | soft/linux/driver/pexdrv/pexmodule.c:376-398 | With five buffers, or a handler that does not pause, there is always something left for board, handler or reader to do. |
| Protocol.ReachesDoneIff | soft/linux/driver/pexdrv/dmachan.c:728-734 | The look-ahead test in the interrupt fires exactly when N-4 fills are unacknowledged (N-3 while none is acknowledged yet). |
| Protocol.ClearOfIff | soft/linux/driver/pexdrv/dmachan.c:745-753 | The test in the acknowledgement passes exactly when at most N-5 fills stay unacknowledged. |
| Protocol.InterruptKeeps | soft/linux/driver/pexdrv/hardware.c:687-697 | An interrupt keeps the invariant of flag, pause, counters and indices. |
| Protocol.GetKeeps | soft/linux/common/utils/cl_ambpex.cpp:299-324 | A call of StreamGetBuf takes a buffer exactly when one is filled and untaken, namely buffer d mod N, and keeps the invariant. |
| Protocol.AgainKeeps | soft/linux/application/adm_test/src/work/tf_teststrmout.cpp:311-314 | Repeating the last acknowledgement changes nothing. |
| Protocol.RunKeeps | soft/linux/driver/pexdrv/dmachan.c:669-759 | The invariant holds after every run of the five steps in every order. |
| Protocol.FillGoesTo | soft/linux/driver/pexdrv/dmachan.c:221-296 | Fill h goes to exactly the pages of driver block h mod N: the counter protocol joined with the walk over the driver's own table and the decoding of its descriptors. |
| Protocol.EndToEnd | soft/linux/common/utils/cl_ambpex.cpp:299-324 | Over every interleaving the d-th buffer returned is buffer d mod N with every page of it holding fill d, and it is not written again until 5 - depth more have been taken; no fill ever touches the table. |
| Protocol.AlwaysWholeIff | soft/linux/driver/pexdrv/dmachan.c:225-235 | Every buffer handed out in every run is whole if and only if the blocks have at most 1 GB; otherwise the first one already is not. |
| Protocol.SampleWired | soft/linux/driver/pexdrv/dmachan.c:189-359 | The assumptions of the end-to-end result can be met: a ring of five one-page buffers and the driver's table for it. |
| Protocol.PacedIsSafe | soft/linux/driver/pexdrv/hardware.c:687-697 | With the pause acted on, four buffers and a lead of at most three, the board never starts on an untaken buffer. |
| Protocol.Laps | soft/linux/driver/pexdrv/pexmodule.c:382-394 | With the pause switched off, as in the live handler, or with fewer than four buffers, a run exists in which it does. |
| Protocol.Overtakes | soft/linux/driver/pexdrv/dmachan.c:745-753 | With a lead of four a run exists in which it does, because the acknowledgement test looks only three blocks ahead. |
| Protocol.AlwaysSafeIff | soft/linux/driver/pexdrv/dmachan.c:706-759 | No run loses a buffer if and only if the handler pauses, N >= 4 and the lead is at most three. |
| Protocol.FlagExact | soft/linux/driver/pexdrv/dmachan.c:728-753 | In every reachable state m_DoneFlag is 1 exactly while T - D <= N - 5 (T <= N - 4 while D = 0), the pause follows it, T - D is bounded by N - 4 + depth, and with N >= 5 acknowledging the newest fill leaves the flag up. |
| Liveness.ReachesIff | soft/linux/driver/pexdrv/dmachan.c:728-734 | The look-ahead test of the interrupt for a reader lapped any number of times: it fires exactly when T - D + 4 is a multiple of N (T + 3 while D = 0). |
| Liveness.ClearIff | soft/linux/driver/pexdrv/dmachan.c:745-753 | The test of the acknowledgement in the same terms. |
| Liveness.RunSlack | soft/linux/driver/pexdrv/dmachan.c:669-759 | With five buffers and a lead of at most four: while the flag is down the board can go on only for what is left of its lead. Over every run, lapped or not. |
| Liveness.NeverSticks | soft/linux/driver/pexdrv/dmachan.c:669-759 | Then, and without the pause, some party can always move. |
| Liveness.FourStick | soft/linux/driver/pexdrv/dmachan.c:741-759 | With four buffers a run of one fill and its acknowledgement ends with nobody able to move. |
| Liveness.FewStick | soft/linux/driver/pexdrv/dmachan.c:706-734 | With fewer than four a run of 2^32 - 3 fills does, when the look-ahead counter that started beyond the ring wraps. |
| Liveness.DeepStick | soft/linux/driver/pexdrv/dmachan.c:728-753 | With a lead of five a run does for every N >= 5: the ring has gone round and looks empty to the reader. |
| Liveness.NeverStuckIff | soft/linux/driver/pexdrv/dmachan.c:669-759 | For every handler, ring and lead: the protocol never deadlocks if and only if the handler does not pause, or N >= 5 and the lead is at most four. |
| Liveness.StuckForGood | soft/linux/driver/pexdrv/dmachan.c:741-759 | A deadlock lasts: whatever is still possible changes nothing. |
| Completion.RunReports | soft/linux/driver/pexdrv/dmachan.c:910-930 | Exact effect of every interleaving of interrupts and coalescing deferred calls: snapshot, pending call, stop and event; the page shows state 2 exactly when the transfer has been stopped, the snapshot only from the call after that. |
| Completion.CyclicNeverStops | soft/linux/driver/pexdrv/dmachan.c:923-927 | A cyclic transfer is never stopped by the deferred routine. |
| Completion.OneShotStops | soft/linux/driver/pexdrv/dmachan.c:923-927 | Below 2^32 fills a one-shot transfer is stopped, with its event set, exactly when the last deferred call saw all N fills. |
| Completion.AlwaysBehindIff | soft/linux/driver/pexdrv/dmachan.c:582-665 | Below 2^32 fills the published total never exceeds the live one, in any run, if and only if the published total is zero when the transfer is started; a start does not clear it. |
| Completion.NeverLowersIff | soft/linux/driver/pexdrv/dmachan.c:919 | Below 2^32 fills it never falls, in any run, if and only if it is at most one when the transfer is started. |
| Completion.BehindIff | soft/linux/driver/pexdrv/dmachan.c:919 | State by state: it does not exceed the live total exactly once a deferred call has run or the fills have reached what was left standing. |
| Completion.LowersIff | soft/linux/driver/pexdrv/dmachan.c:919 | Step by step: it is lowered exactly by a first deferred call that comes before that. |
| Completion.WrapOvertakes | soft/linux/driver/pexdrv/dmachan.c:679 | At 2^32 - 1 fills, with anything published, the next interrupt takes the live total to zero and behind the published one, whether or not a call is pending. |
| Completion.WrapRun | soft/linux/driver/pexdrv/dmachan.c:679 | Every transfer has a run that gets there. |
| Completion.StaleBeforeFirstCall | soft/linux/driver/pexdrv/dmachan.c:582-665 | Until its first deferred call a transfer reports what the one before it left, which exceeds the live total exactly while the fills have not reached it. |
| InterruptScan.Scan | soft/linux/driver/pexdrv/pexmodule.c:352-374 | The loop finds a channel if and only if one is ready, and it is the ready one nearest after the start position. |
| InterruptScan.Fairness | soft/linux/driver/pexdrv/pexmodule.c:356-374 | For any number M of channels, a channel that stays ready is served within its distance from the start position, so within M services. |
| InterruptScan.FairnessTight | soft/linux/driver/pexdrv/pexmodule.c:369 | That bound is reached. |
| Driver.DmaChannel.constructor | soft/linux/driver/pexdrv/dmachan.c:72-161 | A channel as RequestMemory leaves it: progress page at -1, 0 and stopped. |
| Driver.DmaChannel.SetScatterGatherListExt | soft/linux/driver/pexdrv/dmachan.c:189-359 | Without memory for the table the channel stays as it was and -12 is returned; with it, ceil(N/63) descriptor blocks are allocated and hold the table of the channel's own blocks, block size and direction, at the address the allocation gave. |
| Driver.DmaChannel.StartDmaTransfer | soft/linux/driver/pexdrv/dmachan.c:582-665 | New state is the specified start state; the table is that of the channel's own blocks at its own address, for the low bit of IsCycling although the counters use all of it. |
| Driver.DmaChannel.NextDmaTransfer | soft/linux/driver/pexdrv/dmachan.c:669-737 | New state is the specified one after a fill, the flag is returned and is what it was outside agreed mode or in a one-shot transfer, the deferred routine is scheduled. |
| Driver.DmaChannel.SetDoneBlock | soft/linux/driver/pexdrv/dmachan.c:741-759 | New state is the specified one after an acknowledgement, the flag is returned; it is what it was outside agreed mode, in a one-shot transfer, and when the block was acknowledged last. |
| Driver.DmaChannel.GetState | soft/linux/driver/pexdrv/dmachan.c:763-771 | Reports the snapshot, not the live page. |
| Driver.DmaChannel.CompleteDmaTransfer | soft/linux/driver/pexdrv/dmachan.c:815-820 | Only the progress page's state changes, to 2. |
| Driver.DmaChannel.Adjust | soft/linux/driver/pexdrv/dmachan.c:851-855 | Only the mode changes. |
| Driver.UnpausedRuns | soft/linux/driver/pexdrv/hardware.c:500-513 | For every value of the control register, lifting the pause clears bit 3 and no other bit; a paused channel is started again. |
| Driver.ModeWords | soft/linux/driver/pexdrv/hardware.c:550-560 | The mode word of a start is 0x27 with the direction bit set and 0x23 without, for every value of the direction. |
| Driver.Low32Iff | soft/linux/driver/pexdrv/hardware.c:538 | The 32-bit address register keeps an address if and only if it is below 4 GB, and the board's start address is always the one the low 32 bits give. |
| Driver.Board.FindReady | soft/linux/driver/pexdrv/pexmodule.c:358-375 | A channel is found if and only if one is both in the firmware's mask and asking, and no such channel is nearer the start position. |
| Driver.Board.HwStartDmaTransfer | soft/linux/driver/pexdrv/hardware.c:516-574 | The address register makes the board start at the table's address, size and high half are zero, the clear bit 0x10 is written, the mode word is 0x27 or 0x23 with the direction, control is 1; channel and interrupt are enabled; other channels untouched. |
| Driver.Board.HwCompleteDmaTransfer | soft/linux/driver/pexdrv/hardware.c:578-611 | Registers cleared, channel disabled, and the interrupt stays enabled exactly while some channel is. |
| Driver.Board.Serve | soft/linux/driver/pexdrv/pexmodule.c:378-398 | The channel served gets one fill and one acknowledgement in its clear register; it is paused exactly when the flag is then down and the handler acts on it. |
| Driver.Board.Isr | soft/linux/driver/pexdrv/pexmodule.c:303-407 | With the interrupt enabled and some channel of the firmware asking, the one nearest the start position, and no other, gets one fill and one acknowledgement; the pause is set if the flag is then down and the handler acts on it; otherwise nothing changes. |
| Driver.Board.DmaDpcForIsr | soft/linux/driver/pexdrv/dmachan.c:910-930 | Snapshot and block event always; stop, state 2 and buffer event exactly when the block counter has reached N, and then only this channel's registers are cleared. |
| Driver.Board.IoctlStart | soft/linux/driver/pexdrv/ioctlrw.c:379-392 | Refused, with nothing changed, for an absent channel; otherwise the specified start state, and the board is set up (`SetUp`): the table of the channel's own blocks, its address, the mode word, control 1; other channels untouched. |
| StartedBoard.StartedMoves | soft/linux/driver/pexdrv/ioctlrw.c:391-392 | From the registers a start writes, over the table it leaves in memory, the board's k-th transfer moves exactly the pages of the channel's block k mod N, in the direction of the mode word, and a one-shot transfer stops after N. |
| StartedBoard.StartedResident | soft/linux/driver/pexdrv/ioctlrw.c:391-392 | What `Resident` asks of memory, for the walks and for the protocol, is what a start leaves there: the table of the channel's own blocks. |
| Driver.Board.IoctlStop | soft/linux/driver/pexdrv/ioctlrw.c:420-441 | The channel is switched off, masked or not, its page shows state 2, its last snapshot is reported, and the interrupt stays enabled exactly while some channel is. |
| Driver.Board.IoctlDone | soft/linux/driver/pexdrv/ioctlrw.c:684-700 | Refused for an absent channel; otherwise acknowledged, and bit 3 of its control register, and no other, is cleared if the flag is up afterwards. |
| Reader.ClAmbpex.StreamGetNextIndex | soft/linux/common/utils/cl_ambpex.cpp:197-209 | The next index on the ring, 0 after the last and after -1, 0 for a stream that does not exist. |
| Reader.ClAmbpex.StreamGetBufByNum | soft/linux/common/utils/cl_ambpex.cpp:233-249 | The buffer of that number, or null when stream, state or number is wrong. |
| Reader.ClAmbpex.StreamGetIndexDma | soft/linux/common/utils/cl_ambpex.cpp:328-347 | The driver's last filled block, 0 without a page, -1 for no stream. |
| Reader.ClAmbpex.StreamStart | soft/linux/common/utils/cl_ambpex.cpp:253-276 | Both indices at -1, the driver's channel in its start state for the stream's mode and the board set up for it; nothing happens unless the stream is open; a channel missing from the firmware is left switched off. |
| Reader.ClAmbpex.StreamGetBufDone | soft/linux/common/utils/cl_ambpex.cpp:351-370 | In agreed mode the driver's channel sees the last index taken and its pause is lifted if the flag is up afterwards; other channels never change, and without an agreement nothing does. |
| Reader.ClAmbpex.TakeNext | soft/linux/common/utils/cl_ambpex.cpp:311-320 | The driver's index is read again only when all known buffers are taken; then the next buffer, if any, is handed out. |
| Reader.ClAmbpex.StreamGetBuf | soft/linux/common/utils/cl_ambpex.cpp:299-324 | The same with the acknowledgement, which goes out before the buffer is returned and lifts the pause if the flag is up afterwards. |
| TestSequence.RunningOne | soft/linux/common/utils/tf_testbufm2.cpp:80-90 | The running one keeps exactly one bit set and returns every 64 words; the running zero is its complement. |
| TestSequence.LfsrBits | soft/linux/common/utils/tf_testbufm2.cpp:199-219 | The shift-register step has an inverse. |
| TestSequence.LfsrInjective | soft/linux/common/utils/tf_testbufm2.cpp:199-219 | Different states have different successors. |
| TestSequence.LfsrNeverZero | soft/linux/common/utils/tf_testbufm2.cpp:199-219 | From a non-zero state the sequence never reaches zero. |
| TestSequence.TwistClosed | soft/linux/common/utils/tf_testbufm2.cpp:726 | The inversion sequence from 0: ones fill up from the low end and drain again; 0 returns every 128 words and not sooner. |
| TestSequence.WholeRun | soft/linux/common/utils/tf_testbufm2.cpp:50-236 | Unforced, block k has kind k mod 10; the counter continues over all counter blocks before it and the noise over all noise blocks, as closed forms. |
| TestSequence.SignaturesDiffer | soft/linux/common/utils/tf_testbufm2.cpp:57-58 | Different 32-bit block numbers have different signatures. |
| BlockBits.SignatureBits | soft/linux/common/utils/tf_testbufm2.cpp:50-59 | The first word of every block has the block's number in its upper half and 0xA5A50123 in its lower. |
| BlockBits.RunningBits | soft/linux/common/utils/tf_testbufm2.cpp:63-90 | Kind 0: word i has exactly bit (i - 1) mod 64 set. |
| BlockBits.PairBits | soft/linux/common/utils/tf_testbufm2.cpp:65-118 | Kind 2: word 2j, for j > 0, has exactly bit j mod 64 set, and word 2j + 1 exactly that bit clear. |
| BlockBits.MarkedBits | soft/linux/common/utils/tf_testbufm2.cpp:67-140 | Kind 4: a word is zero unless its index agrees with the block's number modulo 256, and the marked words have exactly bits 0, 1, 2 and so on set. |
| BlockBits.ComplementBits | soft/linux/common/utils/tf_testbufm2.cpp:63-68 | Kinds 1, 3 and 5 have every bit of kinds 0, 2 and 4 inverted after the signature. |
| BlockBits.CounterBits | soft/linux/common/utils/tf_testbufm2.cpp:144-164 | Kinds 6 and 7: each pair is one more than the one before, starting from the counter, and its second word is the complement. |
| BlockBits.NoiseBits | soft/linux/common/utils/tf_testbufm2.cpp:187-220 | Kinds 8 and 9: each word is the one before shifted up by one, with the parity of its bits 63, 62, 60 and 59 in bit 0. |
| BlockBits.TwistBits | soft/linux/common/utils/tf_testbufm2.cpp:726 | The inversion stream: each word is the one before shifted up, its top bit coming back inverted. |
| BlockBits.ForcedDigits | soft/linux/common/utils/tf_testbufm2.cpp:51-55 | Bit 7 of the mode alone forces a kind, and the kind forced is that of bits 11 to 8. |
| TestBuffer.TestBufM2.BufCheckStart | soft/linux/common/utils/tf_testbufm2.cpp:758-787 | Counters, log and every generator state as at the start of a run; at most 32 rows are kept. |
| TestBuffer.TestBufM2.BufSet | soft/linux/common/utils/tf_testbufm2.cpp:38-241 | The buffer holds exactly the specified block at its place and nothing else is written; the generator is the specified one afterwards. All ten kinds, and the forced kinds beyond. |
| TestBuffer.TestBufM2.Check | soft/linux/common/utils/tf_testbufm2.cpp:259-300 | One mismatch is appended to the history and the log still shows what it should. |
| TestBuffer.TestBufM2.BufCheck | soft/linux/common/utils/tf_testbufm2.cpp:323-588 | Count and log are exactly the words that differ from the block BufSet would write in this state; the generator ends as BufSet leaves it, whatever was received. |
| TestBuffer.TestBufM2.BufCheckPsd | soft/linux/common/utils/tf_testbufm2.cpp:610-694 | Count and log are exactly the words that differ from the successor of the word received before; the state carries over. |
| TestBuffer.TestBufM2.BufCheckInv | soft/linux/common/utils/tf_testbufm2.cpp:697-747 | Count and log are exactly the words that differ from the checker's own sequence; the state carries over. |
| TestBuffer.TestBufM2.CheckResult | soft/linux/common/utils/tf_testbufm2.cpp:808-817 | The total is the number of mismatches, and good and bad buffers add up to the checks made, modulo 2^32. |
| TestBuffer.SetMarked | soft/linux/common/utils/tf_testbufm2.cpp:126-139 | The loop of kinds 4 and 5 writes the running word where the low bytes of index and block number agree and the filler elsewhere. |
| TestBuffer.SetCounter | soft/linux/common/utils/tf_testbufm2.cpp:144-164 | The loop of kinds 6 and 7 writes counter and complement and leaves the counter where the next block continues. |
| TestBuffer.SetNoise | soft/linux/common/utils/tf_testbufm2.cpp:187-227 | The loop of kinds 8 and 9 writes the iterates and leaves the state where the next block continues. |
| TestBuffer.LoggedNext | soft/linux/common/utils/tf_testbufm2.cpp:267-275 | One more error: row i of the log shows the latest error counted i modulo 2^32, before and after. |
| TestBuffer.Latest | soft/linux/common/utils/tf_testbufm2.cpp:267-275 | Which error a row shows: congruent to the row modulo 2^32, and among the last 2^32. |
| Checkers.CountIsDistance | soft/linux/common/utils/tf_testbufm2.cpp:259-300 | The number of errors is the number of positions that differ. |
| Checkers.RowsFaithful | soft/linux/common/utils/tf_testbufm2.cpp:267-273 | The rows are in order, each names a differing word with its two values, and none is missing. |
| Checkers.NoErrorsIff | soft/linux/common/utils/tf_testbufm2.cpp:323-588 | No error is counted if and only if the words are all as expected. |
| Checkers.CountJoins | soft/linux/common/utils/tf_testbufm2.cpp:697-747 | Errors of two stretches add up to the errors of the whole. |
| Checkers.FirstErrorsShownIff | soft/linux/common/utils/tf_testbufm2.cpp:267-275 | The log shows the first errors if and only if no row is kept or the error count has not passed 2^32. |
| Checkers.OutOfTurnDetected | soft/linux/common/utils/tf_testbufm2.cpp:344-350 | A block received in the place of another is always reported. |
| Checkers.InversionJoins | soft/linux/common/utils/tf_testbufm2.cpp:697-747 | Checking A and then B counts and ends as checking A followed by B at once. |
| Checkers.PsdJoins | soft/linux/common/utils/tf_testbufm2.cpp:610-694 | The same for the pseudo-random checker. |
| Checkers.AtMostTwoEach | soft/linux/common/utils/tf_testbufm2.cpp:625-678 | A wrong word never costs more than two errors. |
| Checkers.SilentIff | soft/linux/common/utils/tf_testbufm2.cpp:625-678 | The pseudo-random checker counts nothing if and only if the words are the perfect stream from its state. |
| Checkers.OnlyNoiseCounts | soft/linux/common/utils/tf_testbufm2.cpp:625-678 | Its count depends only on what was added to the stream, not on the stream or the state. |
| Checkers.LfsrLinear | soft/linux/common/utils/tf_testbufm2.cpp:652-673 | The shift-register step is linear over xor. |
| Checkers.IsolatedCount | soft/linux/common/utils/tf_testbufm2.cpp:625-678 | One wrong word among right ones is counted at its place and at the next. |
| Checkers.AnyCutCounts | soft/linux/common/utils/tf_testbufm2.cpp:622-680 | However a stream is cut into buffers, checking them one after another counts the same errors and ends in the same state. |
| Checkers.ErrorsAtACut | soft/linux/common/utils/tf_testbufm2.cpp:622-680 | Where the two errors of a wrong word fall at a cut: the second goes to the next buffer when the wrong word is the last of its own. |
| Checkers.OneWrongWordCostsTwo | soft/linux/common/utils/tf_testbufm2.cpp:622-680 | One wrong word in an otherwise perfect stream costs exactly two errors for any number of buffers cut anywhere, and one if it is the very last word so far. |
| StreamOut.BatchInIff | soft/linux/application/adm_test/src/work/tf_teststrmout.cpp:212-228 | After any number of refills each buffer of the ring has exactly one of the N latest batches to hold. |
| StreamOut.BatchNext | soft/linux/application/adm_test/src/work/tf_teststrmout.cpp:295-316 | A refill changes that for one buffer only. |
| StreamOut.ReferenceFits | soft/linux/application/adm_test/src/work/tf_teststrmout.cpp:302-305 | No kind of block is longer than its place when blocks are whole pairs of words. |
| StreamOut.FitsIff | soft/linux/application/adm_test/src/work/tf_teststrmout.cpp:302-305 | A block of a given kind stays inside its place if and only if there is a word for the signature and, for the kinds written in pairs, whole pairs; otherwise a pair kind runs one word over. |
| StreamOut.EveryKindFitsIff | soft/linux/application/adm_test/src/work/tf_teststrmout.cpp:302-305 | All ten kinds fit a block of `SizeBlockOfWords` words if and only if it has at least four and leaves remainder 0 or 1 modulo 4. |
| StreamOut.BlockAdded | soft/linux/application/adm_test/src/work/tf_teststrmout.cpp:300-310 | Writing the next block leaves the earlier blocks of the buffer as they were. |
| StreamOut.RingNext | soft/linux/application/adm_test/src/work/tf_teststrmout.cpp:295-316 | Refilling the next buffer with the next batch takes the ring to its next state. |
| StreamOut.RingInOrder | soft/linux/application/adm_test/src/work/tf_teststrmout.cpp:206-228 | The ring holds exactly batches D to D+N-1, batch b in buffer b mod N, each block word for word the reference block of its number. |
| StreamOut.SentInOrder | soft/linux/application/adm_test/src/work/tf_teststrmout.cpp:295-316 | In every run of the flow-control protocol the buffer sent as transfer h holds batch h, and it is not the one being refilled. |
| StreamOut.TestStrmOut.FillBuffer | soft/linux/application/adm_test/src/work/tf_teststrmout.cpp:215-227 | One buffer of the initial fill. |
| StreamOut.TestStrmOut.RefillBuffer | soft/linux/application/adm_test/src/work/tf_teststrmout.cpp:300-316 | One buffer of the sending loop, with the repeated acknowledgements; these change no state of the channel and lift its pause if the flag is up. |
| StreamOut.TestStrmOut.FillRing | soft/linux/application/adm_test/src/work/tf_teststrmout.cpp:212-228 | The initial fill puts batch j in buffer j. |
| StreamOut.TestStrmOut.Execute | soft/linux/application/adm_test/src/work/tf_teststrmout.cpp:204-241 | After the fill and the start the ring holds batches 0 to N-1, the reader stands before buffer 0, the channel is in its start state and the board is set up for it. |
| StreamOut.TestStrmOut.NextBuffer | soft/linux/application/adm_test/src/work/tf_teststrmout.cpp:297 | Whatever the progress page shows, the buffer handed out is the one after the last refilled. |
| StreamOut.TestStrmOut.SendOne | soft/linux/application/adm_test/src/work/tf_teststrmout.cpp:297-320 | One try: the reader follows what the page shows; exactly when it finds a buffer the ring moves on by one batch, and in agreed mode the driver then knows of that buffer. |
| StreamOut.TestStrmOut.SendData | soft/linux/application/adm_test/src/work/tf_teststrmout.cpp:295-322 | A round of 16 tries, whatever the page shows at each: the ring moves on by as many batches as the reader found buffers. |
| StreamIn.TestStrm.CheckBlock | soft/linux/application/adm_test/src/work/tf_teststrm.cpp:397-411 | One block of a received buffer: the errors logged are its differences from the reference block that is due. |
| StreamIn.TestStrm.CheckBuffer | soft/linux/application/adm_test/src/work/tf_teststrm.cpp:397-412 | A whole received buffer: all errors of its blocks in order, and the checker stands before the next batch whatever was received. |
| StreamIn.PassesIff | soft/linux/application/adm_test/src/work/tf_teststrm.cpp:397-412 | A buffer passes without an error if and only if it holds the batch as the output test lays it. |
| StreamThrough.ReportsTheSource | soft/linux/application/adm_test/src/work/tf_teststrm.cpp:392-416 | With the pause acted on, the d-th buffer delivered passes without an error if and only if the board's d-th fill brought the d-th batch: the ring adds no error and hides none. |
| StreamThrough.OtherBatchReported | soft/linux/application/adm_test/src/work/tf_teststrm.cpp:397-412 | A buffer that holds another batch than the one due is always reported. |
| StreamThrough.LappedRun | soft/linux/driver/pexdrv/pexmodule.c:382-394 | With the live handler there is a run whose first buffer handed out holds fill N whole. |
| StreamThrough.LappedIsReported | soft/linux/application/adm_test/src/work/tf_teststrm.cpp:392-416 | And the input test reports it, although the board brought every batch right. |

## Left out

- Memory: allocation and release of buffers, table and progress page; block addresses, table address and N are inputs.
- Requests: copying from and to user space, semaphores, timers, waiting for events, and every request but start, stop and acknowledge.
- Registers: the access protocol of the register window, board initialisation and FIFO reset; a channel's registers are fields.
- DmaChannel.constructor: stands for a successful allocation; the failure returns of the allocation are not part of this model.
- IoctlStop: the optional wait for the end of a block before stopping.
- Address width: the page counter of boards built with DSP blocks, 28 bits; `core/ds_dma64/pcie_src/pcie_core64_m1/top/pcie_core64_m6.vhd` is built without them and counts 20.
- Other FIFO kinds: only channels with the extended descriptor format are modelled, as the driver supports no other.
- Interrupts from status flags: the code is commented out in the source.
- Clearing: that the clear bit resets the flip-flops is modelled in `EndOfTransfer` and `BoardRun`; `Driver` records the writes.
- Concurrency inside a step: an interrupt, a deferred call, a request and the start or end of a block are atomic steps; what happens between them is every interleaving.
- EndToEnd: assumes the pause is acted on, at least four buffers and a lead of at most three, which `AlwaysSafeIff` shows is exactly what is needed; and blocks on page boundaries below 2^40 and of at most 1 GB that share no page with each other or with the table, and a table on a 512-byte boundary below 2^32. `SampleWired` gives such a ring.
- ClosesIff: assumes the table and the block behind it lie on 512-byte boundaries below 2^32, which is what the board's 24-bit pointer field can address.
- StartedMoves: the same, and blocks as for `EndToEnd`; that the bytes written reach the memory the board reads is an assumption (`Reads`).
- DescriptorMeaning: the block size is a multiple of 0x1000, which the driver enforces when it sets up a channel.
- OneShotStops: stated below 2^32 fills, because the block counter of a one-shot transfer is not reset and wraps.
- Trigger and tetrad settings of a channel: stored without further effect here.
- StreamInit, StreamDestroy, StreamStop: a stream is taken as open or not open.
- Buffer pointers: the reader's table of 256 block pointers is a sequence of arrays, and a received buffer is checked as a value.
- Error log layout: the 128 words of the log are 32 records of four; the source's clearing loop runs to 512 and is modelled over the declared length.
- Bit-error counts, report strings, speed and time statistics: always zero or printing only.
- BufSet: the caller provides room for the words really written; the source does not check.
- TestStrmOut: the sine signal and runs without the test stream; the mode word is a constant of the run; blocks are whole pairs of 64-bit words, since otherwise the pair kinds write past their block.
- Execute: the register writes and waits around the start; the table's array is taken to be none of the data buffers.
- TestStrm.CheckBuffer: the branch of the input test that checks blocks by kind; its other branches call `BufCheckPsd` and `BufCheckInv` in its place. Taking the buffer, acknowledging it and the restart are those of `Reader`.
- Threads, parameter files, console output and file output of the test programs.
