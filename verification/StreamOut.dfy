/** The output test: the ring starts full of the reference stream and each buffer sent is refilled. */
module StreamOut {
  import opened Modular
  import opened Channel
  import opened TestSequence
  import opened TestBuffer
  import opened Driver
  import opened Reader
  import opened Consumer
  import Protocol

  // ---------- what lies where ----------

  /** Blocks of `size` 32-bit words, `blocks` of them to a buffer, written in a fixed mode. */
  datatype Plan = Plan(mode: u32, size: u32, blocks: u32)

  /** WholePairs pairs of 64-bit words: what keeps every kind of block inside its place. */
  predicate WholePairs(p: Plan) {
    p.size % 4 == 0 && p.size >= 4
  }

  /** Where block ii of a buffer starts. */
  function Offset(p: Plan, ii: nat): nat {
    ii * (p.size / 2)
  }

  /** The number of block ii of a batch. */
  function Number(p: Plan, batch: nat, ii: nat): nat {
    batch * p.blocks + ii
  }

  function Reference(p: Plan, k: nat): seq<bv64> {
    RunBlock(p.mode, p.size / 2, k)
  }

  predicate BlockLies(words: seq<bv64>, p: Plan, batch: nat, ii: nat) {
    var block := Reference(p, Number(p, batch, ii));
    Offset(p, ii) + |block| <= |words| && words[Offset(p, ii)..Offset(p, ii) + |block|] == block
  }

  /** The first m blocks of a batch lie one after another in the buffer. */
  ghost predicate BatchLies(words: seq<bv64>, p: Plan, batch: nat, m: nat) {
    forall ii :: 0 <= ii < m ==> BlockLies(words, p, batch, ii)
  }

  /** The batch that buffer j of n holds after `sent` refills. */
  function BatchIn(j: nat, sent: nat, n: nat): nat
    requires j < n
  {
    if j < Place(sent, n) then sent - Place(sent, n) + j + n else sent - Place(sent, n) + j
  }

  /** It is the one batch among the n latest that belongs in buffer j. */
  lemma BatchInIff(j: nat, sent: nat, n: nat, b: nat)
    requires j < n && sent <= b < sent + n
    ensures BatchIn(j, sent, n) == b <==> Place(b, n) == j
    ensures sent <= BatchIn(j, sent, n) < sent + n
  {
    var q, r, c := sent / n, Place(sent, n), BatchIn(j, sent, n);
    var turn := if j < r then q + 1 else q;
    assert c == n * turn + j by {
      assert n * (q + 1) == n * q + n;
    }
    DivModUnique(c, n, turn, j);
    if Place(b, n) == j {
      if c <= b {
        SamePlace(b, c, n);
      } else {
        SamePlace(c, b, n);
      }
    }
  }

  /** A refill puts the next batch in the next buffer and leaves the others alone. */
  lemma BatchNext(j: nat, sent: nat, n: nat)
    requires j < n
    ensures BatchIn(j, sent + 1, n) == if j == Place(sent, n) then sent + n else BatchIn(j, sent, n)
    ensures BatchIn(j, 0, n) == j
  {
    PlaceNext(sent, n);
  }

  // ---------- offsets and numbers ----------

  lemma OffsetNext(p: Plan, ii: nat)
    ensures Offset(p, 0) == 0 && Offset(p, ii + 1) == Offset(p, ii) + p.size / 2
  {
  }

  lemma {:induction false} OffsetRoom(p: Plan, i: nat, ii: nat)
    requires i < ii
    ensures Offset(p, i) + p.size / 2 <= Offset(p, ii)
    decreases ii
  {
    hide Offset;
    OffsetNext(p, ii - 1);
    if i < ii - 1 {
      OffsetRoom(p, i, ii - 1);
    }
  }

  lemma NumberNext(p: Plan, batch: nat, ii: nat)
    ensures Number(p, batch, ii + 1) == Number(p, batch, ii) + 1
    ensures Number(p, batch + 1, 0) == Number(p, batch, p.blocks)
  {
  }

  lemma FirstBlock(p: Plan)
    ensures Number(p, 0, 0) == 0 && GenAt(p.mode, p.size / 2, 0) == FIRST
  {
  }

  lemma NextMod(k: nat)
    ensures Inc(k % TWO32) == (k + 1) % TWO32
  {
  }

  /** Kinds that are written two words at a time. */
  predicate Pairs(kind: u32) {
    kind == 2 || kind == 3 || kind == 6 || kind == 7
  }

  /** A block stays inside its place exactly when the signature fits and, if written in pairs, whole pairs do. */
  lemma FitsIff(kind: u32, size64: nat)
    requires kind <= 9
    ensures Written(kind, size64) <= size64 <==> size64 > 0 && (Pairs(kind) ==> size64 % 2 == 0)
    ensures Pairs(kind) && size64 % 2 == 1 && size64 > 1 ==> Written(kind, size64) == size64 + 1
  {
  }

  /** All ten kinds fit `size` 32-bit words exactly when these are whole pairs, give or take one odd word. */
  lemma EveryKindFitsIff(size: u32)
    ensures (forall kind: u32 :: kind <= 9 ==> 2 * Written(kind, size / 2) <= size) <==> size >= 4 && size % 4 <= 1
  {
    if size >= 4 && size % 4 <= 1 {
      forall kind: u32 | kind <= 9 ensures 2 * Written(kind, size / 2) <= size {
        FitsIff(kind, size / 2);
      }
    } else {
      FitsIff(0, size / 2);
      FitsIff(2, size / 2);
      assert 2 * Written(0, size / 2) > size || 2 * Written(2, size / 2) > size;
    }
  }

  lemma ReferenceFits(p: Plan, k: nat)
    requires WholePairs(p)
    ensures |Reference(p, k)| == Written(Forced(GenAt(p.mode, p.size / 2, k), p.mode).kind, p.size / 2) <= p.size / 2
  {
    hide GenAt, Word, Forced;
  }

  lemma NoneLies(words: seq<bv64>, p: Plan, batch: nat)
    ensures BatchLies(words, p, batch, 0)
  {
  }

  /** One more block after the first ii. */
  lemma BlockAdded(words: seq<bv64>, was: seq<bv64>, p: Plan, batch: nat, ii: nat)
    requires WholePairs(p) && BatchLies(was, p, batch, ii)
    requires Holds(words, was, Offset(p, ii), Reference(p, Number(p, batch, ii)))
    ensures BatchLies(words, p, batch, ii + 1)
  {
    hide Reference, Number, Offset, WholePairs;
    forall i | 0 <= i < ii ensures BlockLies(words, p, batch, i) {
      assert BlockLies(was, p, batch, i);
      OffsetRoom(p, i, ii);
      ReferenceFits(p, Number(p, batch, i));
    }
    assert BlockLies(words, p, batch, ii);
  }

  /** The words in every buffer of the ring. */
  function Contents(ring: seq<array<bv64>>): seq<seq<bv64>>
    reads ring
  {
    if ring == [] then [] else Contents(ring[..|ring| - 1]) + [ring[|ring| - 1][..]]
  }

  lemma {:induction false} ContentsAre(ring: seq<array<bv64>>)
    ensures |Contents(ring)| == |ring|
    ensures forall j :: 0 <= j < |ring| ==> Contents(ring)[j] == ring[j][..]
  {
    if ring == [] {
    } else {
      ContentsAre(ring[..|ring| - 1]);
    }
  }

  /** Each of the first n buffers of the ring holds its own one of the batches `sent` to `sent + n - 1`. */
  ghost predicate RingHolds(words: seq<seq<bv64>>, p: Plan, sent: nat, n: nat)
  {
    n <= |words| && forall j :: 0 <= j < n ==> BatchLies(words[j], p, BatchIn(j, sent, n), p.blocks)
  }

  /** A refill of the next buffer with the next batch. */
  lemma RingNext(words: seq<seq<bv64>>, was: seq<seq<bv64>>, p: Plan, sent: nat, n: nat)
    requires 0 < n <= |was| == |words| && RingHolds(was, p, sent, n)
    requires forall j :: 0 <= j < n && j != Place(sent, n) ==> words[j] == was[j]
    requires BatchLies(words[Place(sent, n)], p, sent + n, p.blocks)
    ensures RingHolds(words, p, sent + 1, n)
  {
    hide Place, BatchIn, BatchLies;
    forall j | 0 <= j < n ensures BatchLies(words[j], p, BatchIn(j, sent + 1, n), p.blocks) {
      BatchNext(j, sent, n);
    }
  }

  /** Said by batches: batch b of the n latest lies in buffer b mod n, each of its blocks as the reference has it. */
  lemma RingInOrder(words: seq<seq<bv64>>, p: Plan, sent: nat, n: nat, b: nat)
    requires 0 < n <= |words| && RingHolds(words, p, sent, n) && sent <= b < sent + n
    ensures BatchLies(words[Place(b, n)], p, b, p.blocks)
  {
    hide Place, BatchLies;
    BatchInIff(Place(b, n), sent, n, b);
  }

  /**
   In every run of the flow-control protocol the buffer the board is sending as its transfer h holds
   batch h, whether or not the last buffer acknowledged has been refilled yet, and it is never the
   buffer being refilled.
   */
  lemma SentInOrder(su: Protocol.Setup, steps: seq<Protocol.Step>, refilled: nat)
    requires Protocol.Paced(su) && Protocol.IsRun(su, steps)
    requires var w := Protocol.Exec(su, steps); w.busy && (refilled == w.taken || refilled + 1 == w.taken)
    ensures var w, n := Protocol.Exec(su, steps), Protocol.N(su);
            && BatchIn(Place(w.filled, n), refilled, n) == w.filled
            && (refilled + 1 == w.taken ==> Place(w.filled, n) != Place(refilled, n))
  {
    hide Protocol.Exec, Protocol.Indices, Place, BatchIn;
    var w, n := Protocol.Exec(su, steps), Protocol.N(su);
    Protocol.RunKeeps(su, steps);
    Protocol.WindowCovers(su, w);
    BatchInIff(Place(w.filled, n), refilled, n, w.filled);
    if refilled + 1 == w.taken {
      SamePlace(w.filled, refilled, n);
    }
  }

  /** The reader after tries at which the board's page showed `seen`, and how many of them gave a buffer. */
  function Follow(s: Stream, seen: seq<u32>): (Stream, nat) {
    if seen == [] then (s, 0)
    else
      var before := Follow(s, seen[..|seen| - 1]);
      var v := Observe(before.0, seen[|seen| - 1]);
      if Ready(v) then (Take(v), before.1 + 1) else (v, before.1)
  }

  // ---------- the test program ----------

  class TestStrmOut {
    const pBrd: ClAmbpex
    const testBuf: TestBufM2
    const Strm: u32
    const CntBuffer: u32
    const plan: Plan
    const isAgreeMode: bool

    var BlockWr: u32

    /** How many buffers have been refilled. */
    ghost var sent: nat

    constructor (pBrd: ClAmbpex, testBuf: TestBufM2, strm: u32, cntBuffer: u32, plan: Plan, isAgreeMode: bool)
      ensures this.pBrd == pBrd && this.testBuf == testBuf && Strm == strm && CntBuffer == cntBuffer
      ensures this.plan == plan && this.isAgreeMode == isAgreeMode && BlockWr == 0
    {
      this.pBrd, this.testBuf, this.plan, this.isAgreeMode := pBrd, testBuf, plan, isAgreeMode;
      Strm, CntBuffer, BlockWr, sent := strm, cntBuffer, 0, 0;
    }

    /** The stream is open with the program's own ring: distinct buffers, each large enough. */
    ghost predicate Valid()
      reads this, pBrd, pBrd.m_streamParam, pBrd.board, pBrd.board.m_DmaChannel
    {
      && pBrd.Valid() && Strm <= 1 && WholePairs(plan) && CntBuffer > 0
      && var s := pBrd.m_streamParam[Strm];
        && s.status == 1 && s.cnt_buf == CntBuffer && s.pStub != null
        && (forall i, j :: 0 <= i < j < |s.pBlk| ==> s.pBlk[i] != s.pBlk[j])
        && (forall i :: 0 <= i < |s.pBlk| ==> Offset(plan, plan.blocks) <= s.pBlk[i].Length)
    }

    function Ring(): seq<array<bv64>>
      requires Strm < |pBrd.m_streamParam|
      reads pBrd.m_streamParam[Strm]
    {
      pBrd.m_streamParam[Strm].pBlk
    }

    /** The generator stands before block k of the run. */
    ghost predicate Before(k: nat)
      reads this`BlockWr, testBuf
    {
      testBuf.Generator() == GenAt(plan.mode, plan.size / 2, k) && BlockWr == k % TWO32
    }

    function Reading(): Stream
      requires Strm < |pBrd.m_streamParam|
      reads pBrd.m_streamParam[Strm]
    {
      pBrd.m_streamParam[Strm].State()
    }

    /** In agreed mode the driver knows of the last buffer handed out. */
    ghost predicate Acknowledged()
      requires Strm < |pBrd.m_streamParam|
      reads pBrd.m_streamParam[Strm], pBrd.board.m_DmaChannel
    {
      pBrd.m_streamParam[Strm].agree_mode != 0 && Strm < |pBrd.board.m_DmaChannel|
        && Strm < |pBrd.board.m_DmaChanMask| && pBrd.board.m_DmaChanMask[Strm]
      ==> pBrd.board.m_DmaChannel[Strm].m_DoneBlock == pBrd.m_streamParam[Strm].indexPc
    }

    method FillBlock(ptr: array<bv64>, ii: u32, ghost batch: nat)
      requires WholePairs(plan) && ii < plan.blocks && Offset(plan, plan.blocks) <= ptr.Length
      requires Before(Number(plan, batch, ii)) && BatchLies(ptr[..], plan, batch, ii)
      modifies this`BlockWr, testBuf`block_mode, testBuf`data_ex_cnt, testBuf`data_ex_noise, testBuf`buf_current, ptr
      ensures Before(Number(plan, batch, ii + 1)) && BatchLies(ptr[..], plan, batch, ii + 1)
    {
      hide Number, BatchLies, Holds, AfterBlock, Forced, Block, Written;
      ghost var k, was := Number(plan, batch, ii), ptr[..];
      NumberNext(plan, batch, ii);
      NextMod(k);
      OffsetRoom(plan, ii, plan.blocks);
      ReferenceFits(plan, k);
      testBuf.BufSet(ptr, ii * (plan.size / 2), BlockWr, plan.size, plan.mode);
      BlockWr := Inc(BlockWr);
      BlockAdded(ptr[..], was, plan, batch, ii);
    }

    /** Fill one buffer with a batch. */
    method FillBuffer(ptr: array<bv64>, ghost batch: nat)
      requires WholePairs(plan) && Offset(plan, plan.blocks) <= ptr.Length && Before(Number(plan, batch, 0))
      modifies this`BlockWr, testBuf`block_mode, testBuf`data_ex_cnt, testBuf`data_ex_noise, testBuf`buf_current, ptr
      ensures Before(Number(plan, batch, plan.blocks)) && BatchLies(ptr[..], plan, batch, plan.blocks)
    {
      hide Number, Offset, GenAt, BatchLies, Holds, WholePairs;
      var ii := 0;
      NoneLies(ptr[..], plan, batch);
      while ii < plan.blocks
        invariant 0 <= ii <= plan.blocks
        invariant Before(Number(plan, batch, ii)) && BatchLies(ptr[..], plan, batch, ii)
      {
        FillBlock(ptr, ii, batch);
        ii := ii + 1;
      }
    }

    function DeviceState(): Channel
      requires Strm < |pBrd.board.m_DmaChannel|
      reads pBrd.board, pBrd.board.m_DmaChannel, pBrd.board.m_DmaChannel[Strm].m_pStub
    {
      pBrd.board.m_DmaChannel[Strm].State()
    }

    /** In agreed mode, if the flag is up the channel is not paused. */
    ghost predicate Lifted()
      requires pBrd.Valid() && Strm <= 1
      reads pBrd, pBrd.m_streamParam, pBrd.board, pBrd.board.m_DmaChannel
    {
      pBrd.Agrees(Strm) && pBrd.board.m_DmaChannel[Strm].m_DoneFlag != 0 ==> PauseClear(pBrd.board.dmaCtrl[Strm])
    }

    /** The last buffer handed out is acknowledged once more: only a pause can be lifted by it. */
    method AcknowledgeAgain()
      requires pBrd.Valid() && Strm <= 1 && Acknowledged()
      modifies pBrd.board`dmaCtrl, pBrd.board.m_DmaChannel
      ensures pBrd.Valid() && Acknowledged() && Lifted()
      ensures pBrd.Agrees(Strm) ==> DeviceState() == old(DeviceState())
    {
      hide PauseClear;
      if pBrd.Agrees(Strm) {
        LiftedIsClear(pBrd.board.dmaCtrl[Strm]);
      }
      pBrd.StreamGetBufDone(Strm);
    }

    /** The same on a refill: in agreed mode the buffer is acknowledged again after each of its blocks. */
    method RefillBuffer(ptr: array<bv64>, ghost batch: nat)
      requires pBrd.Valid() && Strm <= 1 && WholePairs(plan) && Offset(plan, plan.blocks) <= ptr.Length
      requires Before(Number(plan, batch, 0)) && Acknowledged()
      modifies this`BlockWr, testBuf`block_mode, testBuf`data_ex_cnt, testBuf`data_ex_noise, testBuf`buf_current, ptr,
        pBrd.board`dmaCtrl, pBrd.board.m_DmaChannel
      ensures pBrd.Valid() && Acknowledged()
      ensures Before(Number(plan, batch, plan.blocks)) && BatchLies(ptr[..], plan, batch, plan.blocks)
      ensures pBrd.Agrees(Strm) ==> DeviceState() == old(DeviceState())
      ensures isAgreeMode && plan.blocks > 0 ==> Lifted()
    {
      hide Number, Offset, GenAt, BatchLies, Holds, WholePairs, Board.Valid, Before, AfterDone, PauseClear;
      var ii := 0;
      NoneLies(ptr[..], plan, batch);
      while ii < plan.blocks
        invariant 0 <= ii <= plan.blocks && pBrd.Valid() && Acknowledged()
        invariant Before(Number(plan, batch, ii)) && BatchLies(ptr[..], plan, batch, ii)
        invariant pBrd.Agrees(Strm) ==> DeviceState() == old(DeviceState())
        invariant isAgreeMode && ii > 0 ==> Lifted()
      {
        FillBlock(ptr, ii, batch);
        if isAgreeMode {
          AcknowledgeAgain();
        }
        ii := ii + 1;
      }
    }

    /** Between two calls: the ring holds the batches numbered from `sent`, and the reader stands where they begin. */
    ghost predicate Sending()
      requires Valid()
      reads this, testBuf, pBrd, pBrd.m_streamParam, pBrd.board, pBrd.board.m_DmaChannel, Ring()
    {
      && RingHolds(Contents(Ring()), plan, sent, CntBuffer)
      && Before(Number(plan, sent + CntBuffer, 0))
      && pBrd.m_streamParam[Strm].indexPc == LastAt(CntBuffer, sent)
    }

    /** Every buffer in turn gets its first batch. */
    method FillRing()
      requires Valid() && Before(Number(plan, 0, 0))
      modifies this`BlockWr, testBuf`block_mode, testBuf`data_ex_cnt, testBuf`data_ex_noise, testBuf`buf_current, Ring()
      ensures Valid() && Before(Number(plan, CntBuffer, 0))
      ensures forall j :: 0 <= j < CntBuffer ==> BatchLies(Ring()[j][..], plan, j, plan.blocks)
    {
      hide Number, GenAt, BatchLies, Offset, Before;
      var kk := 0;
      while kk < CntBuffer
        invariant 0 <= kk <= CntBuffer && Valid() && Before(Number(plan, kk, 0))
        invariant forall j :: 0 <= j < kk ==> BatchLies(Ring()[j][..], plan, j, plan.blocks)
      {
        var ptr := pBrd.StreamGetBufByNum(Strm, kk);
        FillBuffer(ptr, kk);
        NumberNext(plan, kk, 0);
        kk := kk + 1;
      }
    }

    /** Generator and ring start afresh. */
    method Prepare()
      requires Valid() && testBuf.word_error.Length == ROWS && BlockWr == 0
      modifies this, testBuf, testBuf.word_error, Ring()
      ensures Valid() && sent == 0 && RingHolds(Contents(Ring()), plan, sent, CntBuffer)
        && Before(Number(plan, CntBuffer, 0))
    {
      hide Number, GenAt, BatchLies, Offset, Contents;
      testBuf.BufCheckStart(32);
      sent := 0;
      FirstBlock(plan);
      FillRing();
      ContentsAre(Ring());
      forall j | 0 <= j < CntBuffer ensures BatchIn(j, 0, CntBuffer) == j {
        BatchNext(j, 0, CntBuffer);
      }
    }

    /** The test run up to its sending loop: fill the ring, then start the stream. */
    method Execute()
      requires Valid() && testBuf.word_error.Length == ROWS && BlockWr == 0
      requires Strm < |pBrd.board.m_DmaChannel| && pBrd.board.m_DmaChannel[Strm].TableReady()
      requires forall i :: 0 <= i < |Ring()| ==> Ring()[i] as object != pBrd.board.m_DmaChannel[Strm].table
      requires testBuf.word_error as object != pBrd.board.m_DmaChannel[Strm].table
      modifies this, testBuf, testBuf.word_error, Ring(), pBrd.board, pBrd.m_streamParam, pBrd.board.m_DmaChannel[Strm],
        pBrd.board.m_DmaChannel[Strm].table, pBrd.board.m_DmaChannel[Strm].m_pStub
      ensures Valid() && Ring() == old(Ring()) && sent == 0 && Sending()
      ensures Reading() == Restart(old(Reading()))
      ensures pBrd.board.m_DmaChanMask[Strm] ==>
                && pBrd.board.m_DmaChannel[Strm].State()
                   == Start(old(pBrd.board.m_DmaChannel[Strm].State()), old(pBrd.m_streamParam[Strm].cycle) != 0)
                && pBrd.board.Started(Strm, old(pBrd.m_streamParam[Strm].cycle) & 1 == 1)
    {
      hide Board.Started, Number, Contents, Offset, RingHolds, Before, DmaChannel.TableReady, Board.Valid, WholePairs,
        Start;
      ghost var c := pBrd.board.m_DmaChannel[Strm];
      Prepare();
      assert unchanged(c) && unchanged(c.table);
      pBrd.StreamStart(Strm);
    }

    /** What the reader hands out, whatever it has seen, is the buffer after the last one refilled. */
    method NextBuffer(seen: u32) returns (ret: nat, ptr: array?<bv64>)
      requires Valid() && Reading().indexPc == LastAt(CntBuffer, sent)
      modifies pBrd.board`dmaCtrl, pBrd.m_streamParam, pBrd.board.m_DmaChannel, pBrd.m_streamParam[Strm].pStub
      ensures Valid() && Ring() == old(Ring()) && pBrd.m_streamParam[Strm].pStub == old(pBrd.m_streamParam[Strm].pStub)
      ensures var v := Observe(old(Reading()), seen);
              && ret == (if Ready(v) then 1 else 0)
              && Reading() == (if Ready(v) then Take(v) else v)
              && (Ready(v) || old(Acknowledged()) ==> Acknowledged())
      ensures ret == 0 ==> Reading().indexPc == LastAt(CntBuffer, sent)
      ensures ret == 1 ==> ptr == Ring()[Place(sent, CntBuffer)] && Reading().indexPc == LastAt(CntBuffer, sent + 1)
    {
      hide Offset, LastAt, NextIndex, Board.Valid, Place;
      pBrd.m_streamParam[Strm].pStub.lastBlock := seen;
      ret, ptr := pBrd.StreamGetBuf(Strm);
      Protocol.NextIndexIs(CntBuffer, sent);
    }

    method RefillNext(ptr: array<bv64>)
      requires Valid() && ptr == Ring()[Place(sent, CntBuffer)] && Acknowledged()
      requires RingHolds(Contents(Ring()), plan, sent, CntBuffer) && Before(Number(plan, sent + CntBuffer, 0))
      modifies this`BlockWr, testBuf`block_mode, testBuf`data_ex_cnt, testBuf`data_ex_noise, testBuf`buf_current, ptr,
        pBrd.board`dmaCtrl, pBrd.board.m_DmaChannel
      ensures Valid() && Acknowledged()
      ensures RingHolds(Contents(Ring()), plan, sent + 1, CntBuffer) && Before(Number(plan, sent + 1 + CntBuffer, 0))
    {
      hide Number, Contents, BatchLies, Offset, Before, Place, WholePairs, Board.Valid, RingHolds, Acknowledged;
      ContentsAre(Ring());
      ghost var was := Contents(Ring());
      NumberNext(plan, sent + CntBuffer, 0);
      RefillBuffer(ptr, sent + CntBuffer);
      ContentsAre(Ring());
      RingNext(Contents(Ring()), was, plan, sent, CntBuffer);
    }

    /** One try: if the board has sent a buffer, refill it with the next batch. */
    method SendOne(seen: u32)
      requires Valid() && Sending()
      modifies this, testBuf, Ring(), pBrd.board`dmaCtrl, pBrd.m_streamParam, pBrd.board.m_DmaChannel,
        pBrd.m_streamParam[Strm].pStub
      ensures Valid() && Ring() == old(Ring()) && Sending()
      ensures pBrd.m_streamParam[Strm].pStub == old(pBrd.m_streamParam[Strm].pStub)
      ensures var v := Observe(old(Reading()), seen);
              && Reading() == (if Ready(v) then Take(v) else v)
              && sent == old(sent) + (if Ready(v) then 1 else 0)
              && (Ready(v) || old(Acknowledged()) ==> Acknowledged())
    {
      hide Number, Contents, Offset, Before, Place, LastAt, WholePairs, Board.Valid, RingHolds, Observe, Ready, Take,
        Acknowledged;
      var ret, ptr := NextBuffer(seen);
      if ret == 1 {
        RefillNext(ptr);
        sent := sent + 1;
      }
    }

    /** One round of the sending loop; `seen` is what the board's progress page shows at each try. */
    method SendData(seen: seq<u32>)
      requires Valid() && Sending() && |seen| == 16
      modifies this, testBuf, Ring(), pBrd.board`dmaCtrl, pBrd.m_streamParam, pBrd.board.m_DmaChannel,
        pBrd.m_streamParam[Strm].pStub
      ensures Valid() && Ring() == old(Ring()) && Sending()
      ensures (Reading(), sent) == (Follow(old(Reading()), seen).0, old(sent) + Follow(old(Reading()), seen).1)
      ensures sent > old(sent) ==> Acknowledged()
    {
      hide Sending, Acknowledged, Observe, Ready, Take;
      ghost var page := pBrd.m_streamParam[Strm].pStub;
      var kk := 0;
      while kk < 16
        invariant 0 <= kk <= 16 && Valid() && Ring() == old(Ring()) && pBrd.m_streamParam[Strm].pStub == page
        invariant Sending() && (sent > old(sent) ==> Acknowledged())
        invariant Follow(old(Reading()), seen[..kk]) == (Reading(), sent - old(sent))
      {
        assert seen[..kk + 1][..kk] == seen[..kk];
        SendOne(seen[kk]);
        kk := kk + 1;
      }
      assert seen[..16] == seen;
    }
  }
}
