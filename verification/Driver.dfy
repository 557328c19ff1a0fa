/** The driver's objects: a DMA channel and the board that owns the channels. */
module Driver {
  import opened Modular
  import opened Channel
  import opened ControlCode
  import opened DescriptorTable
  import opened DescriptorEngine
  import opened InterruptScan
  import Completion

  /** The page shared between the driver and the reader. */
  class Stub {
    var lastBlock: u32
    var totalCounter: u32
    var offset: u32
    var state: u32

    function Value(): Progress
      reads this
    {
      Progress(lastBlock, totalCounter, offset, state)
    }
  }

  const ENOMEM: int := -12

  class DmaChannel {
    var blocks: seq<bv64>
    var m_BlockCount: u32
    var m_BlockSize: bv32
    var m_DmaDirection: bv16
    var m_DmaLocalAddress: bv32
    var tableAddress: bv64
    var table: array<Slot>
    var m_ScatterGatherTableEntryCnt: nat
    var m_ScatterGatherBlockCnt: nat
    ghost var lastCommand: bv16
    var m_DmaCycling: bv32
    var m_AdjustMode: u32
    var m_CycleNum: u32
    var m_BlocksRemaining: u32
    var m_CurBlockNum: u32
    var m_DoneBlock: u32
    var m_DoneFlag: u32
    var m_preBlockCount1: u32
    var m_preBlockCount2: u32
    var m_preBlockCount3: u32
    var m_pStub: Stub
    var m_State: Progress
    var dpcScheduled: bool
    var m_BlockEndEvent: bool
    var m_BufferEndEvent: bool

    function State(): Channel
      reads this, m_pStub
    {
      Channel(m_BlockCount, m_DmaCycling != 0, m_AdjustMode != 0, m_pStub.Value(),
              m_CurBlockNum, m_BlocksRemaining, m_CycleNum, m_DoneBlock, m_DoneFlag,
              m_preBlockCount1, m_preBlockCount2, m_preBlockCount3)
    }

    /** A channel as it stands when its buffers and progress page have been allocated. */
    constructor (blocks: seq<bv64>, blockSize: bv32, direction: bv16, stub: Stub)
      requires |blocks| < 0x1_0000_0000
      modifies stub
      ensures this.blocks == blocks && m_BlockCount == |blocks| && m_BlockSize == blockSize
        && m_DmaDirection == direction
      ensures m_ScatterGatherTableEntryCnt == |blocks| && m_pStub == stub && fresh(table)
      ensures State() == Channel(|blocks|, false, false, Progress(MINUS_ONE, 0, 0, STATE_STOP), 0, 0, 0, 0, 0, 0, 0, 0)
      ensures m_State == Progress(0, 0, 0, 0) && !dpcScheduled && !m_BlockEndEvent && !m_BufferEndEvent
    {
      this.blocks := blocks;
      m_BlockCount := |blocks|;
      m_BlockSize := blockSize;
      m_DmaDirection := direction;
      m_DmaLocalAddress := 0;
      tableAddress := 0;
      table := new Slot[0];
      m_ScatterGatherTableEntryCnt := |blocks|;
      m_ScatterGatherBlockCnt := 0;
      lastCommand := 0;
      m_DmaCycling, m_AdjustMode, m_CycleNum, m_BlocksRemaining, m_CurBlockNum := 0, 0, 0, 0, 0;
      m_DoneBlock, m_DoneFlag := 0, 0;
      m_preBlockCount1, m_preBlockCount2, m_preBlockCount3 := 0, 0, 0;
      m_pStub := stub;
      m_State := Progress(0, 0, 0, 0);
      dpcScheduled, m_BlockEndEvent, m_BufferEndEvent := false, false, false;
      new;
      stub.lastBlock, stub.totalCounter, stub.offset, stub.state := MINUS_ONE, 0, 0, STATE_STOP;
    }

    ghost predicate TableReady()
      reads this`tableAddress, this`blocks, this`m_BlockSize, this`m_DmaDirection, this`m_BlockCount, this`table,
        this`m_ScatterGatherTableEntryCnt, this`m_ScatterGatherBlockCnt, this`lastCommand, table
    {
      && 0 < |blocks| == m_BlockCount
      && m_ScatterGatherTableEntryCnt == |blocks|
      && m_ScatterGatherBlockCnt == DescriptorBlocks(|blocks|)
      && IsLastCommand(|blocks|, lastCommand)
      && table[..] == Table(Layout(tableAddress, blocks, m_BlockSize, m_DmaDirection), lastCommand)
    }

    /** The table is allocated at the given bus address and built, if there is memory for it. */
    method SetScatterGatherListExt(available: bool, address: bv64) returns (status: int)
      requires 0 < |blocks| == m_BlockCount && m_ScatterGatherTableEntryCnt == |blocks|
      modifies this`tableAddress, this`table, this`m_ScatterGatherBlockCnt, this`lastCommand
      ensures status == if available then 0 else -12
      ensures m_ScatterGatherBlockCnt == DescriptorBlocks(|blocks|)
      ensures available ==> TableReady() && fresh(table)
      ensures available ==> tableAddress == address && lastCommand == FirstLastCommand(|blocks|)
      ensures available ==>
                table[..] == Table(Layout(address, blocks, m_BlockSize, m_DmaDirection), FirstLastCommand(|blocks|))
      ensures !available ==> unchanged(`table) && unchanged(`tableAddress) && unchanged(`lastCommand)
    {
      m_ScatterGatherBlockCnt := m_ScatterGatherTableEntryCnt / 63;
      m_ScatterGatherBlockCnt :=
        if m_ScatterGatherTableEntryCnt % 63 != 0 then m_ScatterGatherBlockCnt + 1 else m_ScatterGatherBlockCnt;
      if !available {
        return ENOMEM;
      }
      tableAddress := address;
      table := new Slot[64 * m_ScatterGatherBlockCnt];
      BuildTable(table, Layout(tableAddress, blocks, m_BlockSize, m_DmaDirection));
      lastCommand := FirstLastCommand(|blocks|);
      status := 0;
    }

    method ResetCounters(isCycling: bv32)
      modifies this`m_DmaCycling, this`m_DoneBlock, this`m_DoneFlag, this`m_CycleNum, this`m_BlocksRemaining,
        this`m_CurBlockNum,
        this`m_preBlockCount1, this`m_preBlockCount2, this`m_preBlockCount3
      ensures m_DmaCycling == isCycling && m_DoneBlock == MINUS_ONE && m_DoneFlag == 1 && m_CycleNum == 0
      ensures m_BlocksRemaining == m_BlockCount && m_CurBlockNum == 0
      ensures m_preBlockCount1 == 1 && m_preBlockCount2 == 2 && m_preBlockCount3 == 3
    {
      m_DmaCycling := isCycling;
      m_DoneBlock := MINUS_ONE;
      m_DoneFlag := 1;
      m_CycleNum := 0;
      m_BlocksRemaining := m_BlockCount;
      m_CurBlockNum := 0;
      m_preBlockCount1 := 1;
      m_preBlockCount2 := 2;
      m_preBlockCount3 := 3;
    }

    method ResetPage()
      modifies m_pStub`lastBlock, m_pStub`totalCounter, m_pStub`state
      ensures m_pStub.Value() == old(m_pStub.Value()).(lastBlock := MINUS_ONE, totalCounter := 0, state := STATE_RUN)
    {
      m_pStub.lastBlock := MINUS_ONE;
      m_pStub.totalCounter := 0;
      m_pStub.state := STATE_RUN;
    }

    /** Patch the table, re-sign its last block, and note the command it now ends with. */
    method Rearm(isCycling: bv32)
      requires TableReady()
      modifies this`lastCommand, table
      ensures TableReady() && lastCommand == LastCommand(|blocks|, isCycling & 1 == 1)
    {
      hide Table, LastCommand, IsLastCommand, DescriptorBlocks;
      StartTable(table, Layout(tableAddress, blocks, m_BlockSize, m_DmaDirection), lastCommand, isCycling);
      AssignToLast(|blocks|, lastCommand, isCycling & 1 == 1);
      lastCommand := LastCommand(|blocks|, isCycling & 1 == 1);
    }

    /** The counters use the whole of IsCycling; the one-bit field in the table keeps its low bit. */
    method StartDmaTransfer(isCycling: bv32)
      requires TableReady()
      modifies this`lastCommand, this`m_DmaCycling, this`m_DoneBlock, this`m_DoneFlag, this`m_CycleNum,
        this`m_BlocksRemaining,
        this`m_CurBlockNum, this`m_preBlockCount1, this`m_preBlockCount2, this`m_preBlockCount3, table, m_pStub
      ensures TableReady() && lastCommand == LastCommand(|blocks|, isCycling & 1 == 1)
      ensures table[..] == Table(Layout(tableAddress, blocks, m_BlockSize, m_DmaDirection),
                                 LastCommand(|blocks|, isCycling & 1 == 1))
      ensures State() == Start(old(State()), isCycling != 0)
    {
      hide LastCommand, IsLastCommand, Table, DescriptorBlocks;
      assert table[..] == Table(Layout(tableAddress, blocks, m_BlockSize, m_DmaDirection), lastCommand);
      hide TableReady;
      ResetCounters(isCycling);
      Rearm(isCycling);
      ResetPage();
    }

    /** The progress page and the block counters move on by one. */
    method CountFill()
      modifies this`m_CurBlockNum, this`m_BlocksRemaining, this`m_CycleNum, m_pStub`lastBlock, m_pStub`totalCounter
      ensures m_pStub.lastBlock
           == (if Inc(old(m_pStub.lastBlock)) >= m_BlockCount then 0 else Inc(old(m_pStub.lastBlock)))
      ensures m_pStub.totalCounter == Inc(old(m_pStub.totalCounter))
      ensures var wrap := Dec(old(m_BlocksRemaining)) == 0 && m_DmaCycling != 0;
              && m_BlocksRemaining == (if wrap then m_BlockCount else Dec(old(m_BlocksRemaining)))
              && m_CurBlockNum == (if wrap then 0 else Inc(old(m_CurBlockNum)))
              && m_CycleNum == (if wrap then Inc(old(m_CycleNum)) else old(m_CycleNum))
    {
      hide Inc, Dec;
      if Inc(m_pStub.lastBlock) >= m_BlockCount {
        m_pStub.lastBlock := 0;
      } else {
        m_pStub.lastBlock := Inc(m_pStub.lastBlock);
      }
      m_CurBlockNum := Inc(m_CurBlockNum);
      m_pStub.totalCounter := Inc(m_pStub.totalCounter);
      m_BlocksRemaining := Dec(m_BlocksRemaining);
      if m_BlocksRemaining <= 0 && m_DmaCycling != 0 {
        m_BlocksRemaining := m_BlockCount;
        m_CurBlockNum := 0;
        m_CycleNum := Inc(m_CycleNum);
      }
    }

    /** The three look-ahead counters move on by one. */
    method BumpLookAhead()
      modifies this`m_preBlockCount1, this`m_preBlockCount2, this`m_preBlockCount3
      ensures m_preBlockCount1 == Bump(old(m_preBlockCount1), m_BlockCount)
      ensures m_preBlockCount2 == Bump(old(m_preBlockCount2), m_BlockCount)
      ensures m_preBlockCount3 == Bump(old(m_preBlockCount3), m_BlockCount)
    {
      hide Inc;
      if Inc(m_preBlockCount1) == m_BlockCount {
        m_preBlockCount1 := 0;
      } else {
        m_preBlockCount1 := Inc(m_preBlockCount1);
      }
      if Inc(m_preBlockCount2) == m_BlockCount {
        m_preBlockCount2 := 0;
      } else {
        m_preBlockCount2 := Inc(m_preBlockCount2);
      }
      if Inc(m_preBlockCount3) == m_BlockCount {
        m_preBlockCount3 := 0;
      } else {
        m_preBlockCount3 := Inc(m_preBlockCount3);
      }
    }

    method NextDmaTransfer() returns (flag: u32)
      modifies this`m_CurBlockNum, this`m_BlocksRemaining, this`m_CycleNum, this`dpcScheduled, this`m_DoneFlag,
        this`m_preBlockCount1, this`m_preBlockCount2, this`m_preBlockCount3, m_pStub`lastBlock, m_pStub`totalCounter
      ensures State() == AfterFill(old(State())) && flag == m_DoneFlag
      ensures m_AdjustMode == 0 || m_DmaCycling == 0 ==> flag == old(m_DoneFlag)
      ensures dpcScheduled
    {
      hide Inc, Dec, Bump;
      CountFill();
      dpcScheduled := true;
      BumpLookAhead();
      if m_AdjustMode != 0 && m_DmaCycling != 0 {
        if (m_preBlockCount3 == 0 && m_DoneBlock == MINUS_ONE) || m_preBlockCount3 == m_DoneBlock {
          m_DoneFlag := 0;
        }
      }
      flag := m_DoneFlag;
    }

    method SetDoneBlock(numBlk: u32) returns (flag: u32)
      modifies this`m_DoneBlock, this`m_DoneFlag
      ensures State() == AfterDone(old(State()), numBlk) && flag == m_DoneFlag
      ensures m_AdjustMode == 0 || m_DmaCycling == 0 || numBlk == old(m_DoneBlock) ==> flag == old(m_DoneFlag)
    {
      if numBlk != m_DoneBlock {
        m_DoneBlock := numBlk;
        if m_preBlockCount1 != m_DoneBlock && m_preBlockCount2 != m_DoneBlock && m_preBlockCount3 != m_DoneBlock {
          if m_AdjustMode != 0 && m_DmaCycling != 0 && m_DoneFlag == 0 {
            m_DoneFlag := 1;
          }
        }
      }
      flag := m_DoneFlag;
    }

    /** The snapshot that status requests report, and the event of a finished block. */
    method Publish()
      modifies this`dpcScheduled, this`m_State, this`m_BlockEndEvent
      ensures m_State == m_pStub.Value() && m_BlockEndEvent && !dpcScheduled
    {
      dpcScheduled := false;
      m_State := m_pStub.Value();
      m_BlockEndEvent := true;
    }

    method CompleteDmaTransfer()
      modifies m_pStub`state
      ensures State() == Completion.Complete(old(State())) && m_pStub.state == 2
    {
      m_pStub.state := STATE_STOP;
    }

    method GetState() returns (blockNum: u32, blockNumTotal: u32, offsetInBlock: u32, state: u32)
      ensures Progress(blockNum, blockNumTotal, offsetInBlock, state) == m_State
    {
      blockNum, blockNumTotal, offsetInBlock, state :=
        m_State.lastBlock, m_State.totalCounter, m_State.offset, m_State.state;
    }

    method Adjust(mode: u32)
      modifies this`m_AdjustMode
      ensures State() == old(State()).(adjust := mode != 0)
    {
      m_AdjustMode := mode;
    }
  }

  const CTRL_START: bv16 := 0x0001
  const CTRL_PAUSE: bv16 := 0x0008
  const CTRL_PAUSED: bv16 := 0x0009

  function Unpaused(ctrl: bv16): bv16 {
    ctrl & !CTRL_PAUSE
  }

  /** Scatter/gather, demand and interrupt bits, and the direction. */
  function StartMode(direction: bv16): bv16 {
    0x0023 | ((direction & 1) << 2)
  }

  /** Lifting the pause clears bit 3 and no other: a paused channel runs again, a stopped one stays stopped. */
  lemma UnpausedRuns()
    ensures forall ctrl :: Unpaused(ctrl) | 0x0008 == ctrl | 0x0008 && Unpaused(ctrl) & 0x0008 == 0
    ensures forall ctrl :: Unpaused(ctrl) == ctrl & 0xFFF7
    ensures Unpaused(CTRL_PAUSED) == CTRL_START && Unpaused(CTRL_START) == CTRL_START
  {
  }

  predicate PauseClear(ctrl: bv16) {
    ctrl & 0x0008 == 0
  }

  lemma LiftedIsClear(ctrl: bv16)
    ensures PauseClear(ctrl & 0xFFF7)
  {
  }

  /** The mode word of a start, for whatever stands in the one-bit direction field. */
  lemma ModeWords(direction: bv16)
    ensures StartMode(direction) == if direction & 1 == 1 then 0x0027 else 0x0023
  {
  }

  /** The registers a transfer is set up with. */
  datatype Window = Window(pciAddrL: bv32, pciAddrH: bv32, pciSize: bv32, localAdr: bv32)

  /** Registers are 32 bits wide. */
  function Low32(address: bv64): bv32 {
    (address & 0xFFFF_FFFF) as bv32
  }

  /** The board, which ignores the low nine bits, starts reading at this address, as far as 32 bits can say. */
  predicate StartsAt(register: bv32, address: bv64) {
    && (register as bv64) & 0xFFFF_FE00 == address & 0xFFFF_FE00
    && (TableAddress(address) ==> register as bv64 == address)
  }

  /** The register keeps every address below 4 GB, and no other. */
  lemma Low32Iff(address: bv64)
    ensures Low32(address) as bv64 == address <==> address <= 0xFFFF_FFFF
    ensures StartsAt(Low32(address), address)
  {
  }

  /** What the board is given: a table, an address register and a mode word. */
  ghost predicate SetUp(table: seq<Slot>, l: Layout, cycling: bool, register: bv32, mode: bv16) {
    && 0 < |l.blocks|
    && table == Table(l, LastCommand(|l.blocks|, cycling))
    && StartsAt(register, l.base)
    && mode == (if l.direction & 1 == 1 then 0x0027 else 0x0023)
  }

  const FLAG_EOT: bv16 := 0x0010

  class Board {
    const m_DmaChannel: seq<DmaChannel>
    const m_DmaChanMask: seq<bool>
    var m_DmaChanEnbl: seq<bool>
    var m_DmaIrqEnbl: bool
    var m_FlgIrqEnbl: bool
    var m_primChan: nat
    var m_TotalIRQ: nat
    /** The DMA control and mode register of each channel. */
    var dmaCtrl: seq<bv16>
    var dmaMode: seq<bv16>
    /** Its address registers, its clear register, and how often the clear bit has been written. */
    var window: seq<Window>
    var flagClr: seq<bv16>
    ghost var clears: seq<nat>

    ghost predicate Valid()
      reads this, m_DmaChannel
    {
      && |m_DmaChannel| == |m_DmaChanMask| == |m_DmaChanEnbl| == |dmaCtrl| == |dmaMode|
      && |window| == |flagClr| == |clears| == |m_DmaChannel|
      && m_primChan < |m_DmaChannel|
      && (forall i, j :: 0 <= i < j < |m_DmaChannel| ==>
            m_DmaChannel[i] != m_DmaChannel[j] && m_DmaChannel[i].m_pStub != m_DmaChannel[j].m_pStub)
    }

    /** The channels found in the board's firmware, with the interrupts still off. */
    constructor (channels: seq<DmaChannel>, mask: seq<bool>)
      requires |channels| == |mask| > 0
      requires forall i, j :: 0 <= i < j < |channels| ==>
                 channels[i] != channels[j] && channels[i].m_pStub != channels[j].m_pStub
      ensures Valid() && m_DmaChannel == channels && m_DmaChanMask == mask && !m_DmaIrqEnbl && m_primChan == 0
    {
      m_DmaChannel, m_DmaChanMask := channels, mask;
      m_DmaChanEnbl := seq(|mask|, i => false);
      m_DmaIrqEnbl, m_FlgIrqEnbl, m_primChan, m_TotalIRQ := false, false, 0, 0;
      dmaCtrl, dmaMode := seq(|mask|, i => 0), seq(|mask|, i => 0);
      window, flagClr, clears := seq(|mask|, i => Window(0, 0, 0, 0)), seq(|mask|, i => 0), seq(|mask|, i => 0);
    }

    /** A channel is off: registers cleared, and the interrupt stays enabled while any other channel needs it. */
    method HwCompleteDmaTransfer(chan: nat)
      requires Valid() && chan < |m_DmaChannel|
      modifies this`dmaCtrl, this`dmaMode, this`m_DmaChanEnbl, this`m_DmaIrqEnbl, m_DmaChannel[chan].m_pStub`state
      ensures Valid()
      ensures dmaCtrl == old(dmaCtrl)[chan := 0] && dmaMode == old(dmaMode)[chan := 0]
      ensures m_DmaChanEnbl == old(m_DmaChanEnbl)[chan := false]
      ensures m_DmaIrqEnbl <==> exists i :: 0 <= i < |m_DmaChanEnbl| && m_DmaChanEnbl[i]
      ensures m_DmaChannel[chan].State() == Completion.Complete(old(m_DmaChannel[chan].State()))
      ensures m_DmaChannel[chan].m_pStub.state == 2
    {
      dmaCtrl := dmaCtrl[chan := 0];
      dmaMode := dmaMode[chan := 0];
      m_DmaChanEnbl := m_DmaChanEnbl[chan := false];
      var enbl := false;
      var i := 0;
      while i < |m_DmaChanEnbl|
        invariant 0 <= i <= |m_DmaChanEnbl|
        invariant enbl <==> exists j :: 0 <= j < i && m_DmaChanEnbl[j]
      {
        if m_DmaChanEnbl[i] {
          enbl := true;
        }
        i := i + 1;
      }
      m_DmaIrqEnbl := enbl;
      m_DmaChannel[chan].CompleteDmaTransfer();
    }

    method WriteClear(chan: nat, value: bv16)
      requires Valid() && chan < |m_DmaChannel|
      modifies this`flagClr, this`clears
      ensures Valid() && flagClr == old(flagClr)[chan := value]
      ensures clears == if value & 0x0010 != 0 then old(clears)[chan := old(clears)[chan] + 1] else old(clears)
    {
      flagClr := flagClr[chan := value];
      if value & FLAG_EOT != 0 {
        clears := clears[chan := clears[chan] + 1];
      }
    }

    method HwStartDmaTransfer(chan: nat)
      requires Valid() && chan < |m_DmaChannel|
      modifies this`dmaCtrl, this`dmaMode, this`m_DmaChanEnbl, this`m_DmaIrqEnbl, this`window, this`flagClr, this`clears
      ensures Valid()
      ensures var c := m_DmaChannel[chan];
              && window == old(window)[chan := Window(Low32(c.tableAddress), 0, 0, c.m_DmaLocalAddress)]
              && StartsAt(window[chan].pciAddrL, c.tableAddress)
      ensures flagClr == old(flagClr)[chan := 0x0010] && clears == old(clears)[chan := old(clears)[chan] + 1]
      ensures m_DmaChanEnbl == old(m_DmaChanEnbl)[chan := true] && m_DmaIrqEnbl
      ensures dmaCtrl == old(dmaCtrl)[chan := 0x0001]
      ensures dmaMode
           == old(dmaMode)[chan := if m_DmaChannel[chan].m_DmaDirection & 1 == 1 then 0x0027 else 0x0023]
    {
      hide Low32, StartMode, StartsAt;
      dmaCtrl := dmaCtrl[chan := 0];
      dmaMode := dmaMode[chan := 0];
      WriteClear(chan, FLAG_EOT);
      var c := m_DmaChannel[chan];
      window := window[chan := Window(Low32(c.tableAddress), 0, 0, c.m_DmaLocalAddress)];
      m_DmaChanEnbl := m_DmaChanEnbl[chan := true];
      m_DmaIrqEnbl := true;
      ModeWords(c.m_DmaDirection);
      Low32Iff(c.tableAddress);
      dmaMode := dmaMode[chan := StartMode(c.m_DmaDirection)];
      dmaCtrl := dmaCtrl[chan := CTRL_START];
    }

    /** One channel is served: its block is counted and, if the handler acts on the flag, the channel may be paused. */
    method Serve(chan: nat, pausing: bool)
      requires Valid() && chan < |m_DmaChannel|
      modifies this`dmaCtrl, this`flagClr, this`clears, m_DmaChannel[chan], m_DmaChannel[chan].m_pStub
      ensures Valid() && m_DmaChannel[chan].State() == AfterFill(old(m_DmaChannel[chan].State()))
      ensures m_DmaChannel[chan].m_pStub == old(m_DmaChannel[chan].m_pStub)
      ensures m_DmaChannel[chan].dpcScheduled && m_DmaChannel[chan].m_State == old(m_DmaChannel[chan].m_State)
      ensures dmaCtrl
           == if pausing && m_DmaChannel[chan].m_DoneFlag == 0 then old(dmaCtrl)[chan := 0x0009] else old(dmaCtrl)
      ensures flagClr == old(flagClr)[chan := 0] && clears == old(clears)[chan := old(clears)[chan] + 1]
    {
      hide AfterFill;
      var flag := m_DmaChannel[chan].NextDmaTransfer();
      if pausing && flag == 0 {
        dmaCtrl := dmaCtrl[chan := CTRL_PAUSED];
      }
      WriteClear(chan, FLAG_EOT);
      WriteClear(chan, 0);
    }

    /** Which channels the handler would serve: those of the firmware that ask. */
    function Ready(request: seq<bool>): seq<bool>
      requires |request| == |m_DmaChanMask|
    {
      seq(|request|, i requires 0 <= i < |request| => m_DmaChanMask[i] && request[i])
    }

    /** The first channel, from the start position on, that is in the firmware and asks. */
    method FindReady(request: seq<bool>) returns (found: bool, chan: nat)
      requires Valid() && |request| == |m_DmaChannel|
      ensures found <==> exists j :: 0 <= j < |request| && m_DmaChanMask[j] && request[j]
      ensures found ==> chan < |request| && m_DmaChanMask[chan] && request[chan]
      ensures found ==> forall j :: 0 <= j < |request| && m_DmaChanMask[j] && request[j] ==>
                          Distance(m_primChan, chan, |request|) <= Distance(m_primChan, j, |request|)
    {
      var ready := Ready(request);
      assert forall j :: 0 <= j < |request| ==> (ready[j] <==> m_DmaChanMask[j] && request[j]);
      found, chan := Scan(ready, m_primChan);
    }

    /**
     The interrupt handler. `request` is what each channel's status register asks; `pausing` says
     whether the handler acts on the flow-control flag, which the live one does not. `chan` names
     the channel served.
     */
    method Isr(request: seq<bool>, pausing: bool) returns (handled: bool, ghost chan: nat)
      requires Valid() && |request| == |m_DmaChannel|
      modifies this`m_primChan, this`dmaCtrl, this`flagClr, this`clears, this`m_TotalIRQ,
        m_DmaChannel, set c | c in m_DmaChannel :: c.m_pStub
      ensures Valid()
      ensures handled <==> old(m_DmaIrqEnbl) && exists j :: 0 <= j < |request| && m_DmaChanMask[j] && request[j]
      ensures handled ==> chan < |request| && m_DmaChanMask[chan] && request[chan]
      ensures handled ==> forall j :: 0 <= j < |request| && m_DmaChanMask[j] && request[j] ==>
                            Distance(old(m_primChan), chan, |request|) <= Distance(old(m_primChan), j, |request|)
      ensures handled ==>
                var c := m_DmaChannel[chan];
                && c.State() == AfterFill(old(m_DmaChannel[chan].State()))
                && c.dpcScheduled && c.m_State == old(m_DmaChannel[chan].m_State)
                && dmaCtrl == (if pausing && c.m_DoneFlag == 0 then old(dmaCtrl)[chan := 0x0009] else old(dmaCtrl))
                && flagClr == old(flagClr)[chan := 0] && clears == old(clears)[chan := old(clears)[chan] + 1]
                && m_primChan == PrimAfter(old(m_primChan), |m_DmaChannel|) && m_TotalIRQ == old(m_TotalIRQ) + 1
      ensures forall j :: 0 <= j < |m_DmaChannel| && !(handled && j == chan) ==>
                unchanged(m_DmaChannel[j]) && m_DmaChannel[j].State() == old(m_DmaChannel[j].State())
      ensures !handled ==> unchanged(this)
    {
      hide AfterFill, Distance;
      handled, chan := false, 0;
      if !m_DmaIrqEnbl && !m_FlgIrqEnbl {
        return;
      }
      if m_DmaIrqEnbl {
        var found, ready := FindReady(request);
        if found {
          m_primChan := PrimAfter(m_primChan, |m_DmaChannel|);
          Serve(ready, pausing);
          m_TotalIRQ := m_TotalIRQ + 1;
          handled, chan := true, ready;
        }
      }
    }

    /** The deferred routine of one channel. */
    method DmaDpcForIsr(chan: nat)
      requires Valid() && chan < |m_DmaChannel|
      modifies this`dmaCtrl, this`dmaMode, this`m_DmaChanEnbl, this`m_DmaIrqEnbl, m_DmaChannel[chan],
        m_DmaChannel[chan].m_pStub`state
      ensures Valid()
      ensures var c := m_DmaChannel[chan];
              && c.m_pStub == old(c.m_pStub)
              && c.m_State == old(c.State()).stub && c.m_BlockEndEvent && !c.dpcScheduled
              && c.State() == (if Completion.Exhausted(old(c.State()))
                               then Completion.Complete(old(c.State())) else old(c.State()))
              && c.m_BufferEndEvent == (old(c.m_BufferEndEvent) || Completion.Exhausted(old(c.State())))
              && c.m_pStub.state == (if old(c.m_CurBlockNum >= c.m_BlockCount) then 2 else old(c.m_pStub.state))
              && (Completion.Exhausted(old(c.State())) ==>
                    && dmaCtrl == old(dmaCtrl)[chan := 0] && m_DmaChanEnbl == old(m_DmaChanEnbl)[chan := false]
                    && (m_DmaIrqEnbl <==> exists i :: 0 <= i < |m_DmaChanEnbl| && m_DmaChanEnbl[i]))
              && (!Completion.Exhausted(old(c.State())) ==> unchanged(this))
    {
      hide Completion.Complete;
      var c := m_DmaChannel[chan];
      c.Publish();
      if c.m_CurBlockNum >= c.m_BlockCount {
        HwCompleteDmaTransfer(chan);
        c.m_BufferEndEvent := true;
      }
    }

    /**
     What a start leaves for the board: the whole table of the channel's own blocks, its address and
     mode in the registers, and the channel running.
     */
    ghost predicate Started(chan: nat, cycling: bool)
      requires chan < |m_DmaChannel| && Valid()
      reads this, m_DmaChannel, m_DmaChannel[chan].table
    {
      var c := m_DmaChannel[chan];
      && |c.blocks| == c.m_BlockCount
      && SetUp(c.table[..], Layout(c.tableAddress, c.blocks, c.m_BlockSize, c.m_DmaDirection), cycling,
               window[chan].pciAddrL, dmaMode[chan])
      && dmaCtrl[chan] == 0x0001 && m_DmaChanEnbl[chan] && m_DmaIrqEnbl
    }

    /** The start request: counters and table first, then the board. */
    method IoctlStart(chan: u32, isCycling: bv32) returns (ok: bool)
      requires Valid()
      requires chan < |m_DmaChannel| && m_DmaChanMask[chan] ==> m_DmaChannel[chan].TableReady()
      modifies this, if chan < |m_DmaChannel|
                     then {m_DmaChannel[chan], m_DmaChannel[chan].table, m_DmaChannel[chan].m_pStub} else {}
      ensures Valid() && m_primChan == old(m_primChan)
      ensures ok <==> chan < |m_DmaChannel| && m_DmaChanMask[chan]
      ensures !ok ==> unchanged(this)
      ensures !ok && chan < |m_DmaChannel| ==>
                unchanged(m_DmaChannel[chan]) && unchanged(m_DmaChannel[chan].m_pStub)
      ensures ok ==>
                var c := m_DmaChannel[chan];
                && c.table == old(m_DmaChannel[chan].table) && c.m_pStub == old(m_DmaChannel[chan].m_pStub)
                && c.tableAddress == old(m_DmaChannel[chan].tableAddress) && c.blocks == old(m_DmaChannel[chan].blocks)
                && c.m_BlockSize == old(m_DmaChannel[chan].m_BlockSize)
                && c.m_DmaDirection == old(m_DmaChannel[chan].m_DmaDirection)
                && c.State() == Start(old(m_DmaChannel[chan].State()), isCycling != 0)
      ensures ok ==> Started(chan, isCycling & 1 == 1)
      ensures ok ==>
                && dmaCtrl == old(dmaCtrl)[chan := 0x0001]
                && m_DmaChanEnbl == old(m_DmaChanEnbl)[chan := true] && m_DmaIrqEnbl
                && flagClr == old(flagClr)[chan := 0x0010] && clears == old(clears)[chan := old(clears)[chan] + 1]
                && (forall j :: 0 <= j < |m_DmaChannel| && j != chan ==>
                      window[j] == old(window)[j] && dmaMode[j] == old(dmaMode)[j])
    {
      assert chan < |m_DmaChannel| && m_DmaChanMask[chan] ==>
               0 < |m_DmaChannel[chan].blocks| == m_DmaChannel[chan].m_BlockCount;
      hide Start, LastCommand, DmaChannel.TableReady, StartsAt, DescriptorTable.Table, Low32;
      if chan >= |m_DmaChannel| || !m_DmaChanMask[chan] {
        return false;
      }
      m_DmaChannel[chan].StartDmaTransfer(isCycling);
      HwStartDmaTransfer(chan);
      return true;
    }

    /** The stop request, without a wait: the channel is switched off and its last snapshot is reported. */
    method IoctlStop(chan: u32) returns (ok: bool, report: Progress)
      requires Valid()
      modifies this, if chan < |m_DmaChannel| then {m_DmaChannel[chan].m_pStub} else {}
      ensures Valid() && m_primChan == old(m_primChan)
      ensures ok <==> chan < |m_DmaChannel|
      ensures !ok ==> unchanged(this)
      ensures ok ==>
                && m_DmaChannel[chan].State() == Completion.Complete(old(m_DmaChannel[chan].State()))
                && m_DmaChannel[chan].m_pStub.state == 2 && report == m_DmaChannel[chan].m_State
                && dmaCtrl == old(dmaCtrl)[chan := 0] && dmaCtrl[chan] == 0
                && m_DmaChanEnbl == old(m_DmaChanEnbl)[chan := false] && !m_DmaChanEnbl[chan]
                && (m_DmaIrqEnbl <==> exists i :: 0 <= i < |m_DmaChanEnbl| && m_DmaChanEnbl[i])
                && unchanged(`window)
    {
      ok, report := false, Progress(0, 0, 0, 0);
      if chan < |m_DmaChannel| {
        HwCompleteDmaTransfer(chan);
        var blockNum, blockNumTotal, offsetInBlock, state := m_DmaChannel[chan].GetState();
        ok, report := true, Progress(blockNum, blockNumTotal, offsetInBlock, state);
      }
    }

    /** The acknowledgement request: the pause is lifted only if the flag is up afterwards. */
    method IoctlDone(chan: u32, block: u32) returns (ok: bool)
      requires Valid()
      modifies this`dmaCtrl, m_DmaChannel
      ensures Valid()
      ensures ok <==> chan < |m_DmaChannel| && m_DmaChanMask[chan]
      ensures !ok ==> unchanged(this) && forall j :: 0 <= j < |m_DmaChannel| ==> unchanged(m_DmaChannel[j])
      ensures ok ==>
                && m_DmaChannel[chan].State() == AfterDone(old(m_DmaChannel[chan].State()), block)
                && dmaCtrl == (if m_DmaChannel[chan].m_DoneFlag != 0
                               then old(dmaCtrl)[chan := old(dmaCtrl)[chan] & 0xFFF7] else old(dmaCtrl))
                && (m_DmaChannel[chan].m_DoneFlag != 0 && old(dmaCtrl)[chan] in {CTRL_PAUSED, CTRL_START} ==>
                      dmaCtrl[chan] == CTRL_START)
                && (forall j :: 0 <= j < |m_DmaChannel| && j != chan ==> unchanged(m_DmaChannel[j]))
    {
      hide AfterDone, Unpaused;
      UnpausedRuns();
      if chan >= |m_DmaChannel| || !m_DmaChanMask[chan] {
        return false;
      }
      var flag := m_DmaChannel[chan].SetDoneBlock(block);
      if flag != 0 {
        dmaCtrl := dmaCtrl[chan := Unpaused(dmaCtrl[chan])];
      }
      return true;
    }
  }
}
