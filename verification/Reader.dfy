/** The user-side stream class: it follows the driver's last filled block and hands out buffers. */
module Reader {
  import opened Modular
  import opened Channel
  import opened Consumer
  import opened Driver

  class StreamParam {
    var status: u32
    var cnt_buf: u32
    var cycle: bv32
    var agree_mode: u32
    var indexDma: u32
    var indexPc: u32
    var pStub: Stub?
    var pBlk: seq<array<bv64>>

    function State(): Stream
      reads this
    {
      Stream(cnt_buf, indexDma, indexPc)
    }
  }

  class ClAmbpex {
    const board: Board
    const m_streamParam: seq<StreamParam>

    ghost predicate Valid()
      reads this, m_streamParam, board, board.m_DmaChannel
    {
      && |m_streamParam| == 2 && m_streamParam[0] != m_streamParam[1]
      && board.Valid()
      && forall s :: s in m_streamParam ==> s.cnt_buf <= |s.pBlk|
    }

    constructor (board: Board, first: StreamParam, second: StreamParam)
      requires board.Valid() && first != second
      requires first.cnt_buf <= |first.pBlk| && second.cnt_buf <= |second.pBlk|
      ensures Valid() && this.board == board && m_streamParam == [first, second]
    {
      this.board := board;
      m_streamParam := [first, second];
    }

    method StreamGetNextIndex(strm: u32, index: u32) returns (n: u32)
      requires Valid()
      ensures n == if strm > 1 then 0 else NextIndex(index, m_streamParam[strm].cnt_buf)
      ensures strm > 1 || n == 0 || n == index + 1 < m_streamParam[strm].cnt_buf
    {
      if strm > 1 {
        return 0;
      }
      n := Inc(index);
      if n >= m_streamParam[strm].cnt_buf {
        n := 0;
      }
    }

    method StreamGetBufByNum(strm: u32, numBuf: u32) returns (ptr: array?<bv64>)
      requires Valid()
      ensures ptr == if strm <= 1 && m_streamParam[strm].status == 1 && numBuf < m_streamParam[strm].cnt_buf
                     then m_streamParam[strm].pBlk[numBuf] else null
    {
      if strm > 1 {
        return null;
      }
      var s := m_streamParam[strm];
      if s.status != 1 || numBuf >= s.cnt_buf {
        return null;
      }
      ptr := s.pBlk[numBuf];
    }

    function LastBlock(strm: u32): u32
      requires strm < |m_streamParam|
      reads this, m_streamParam, m_streamParam[strm].pStub
    {
      if m_streamParam[strm].pStub == null then 0 else m_streamParam[strm].pStub.lastBlock
    }

    method StreamGetIndexDma(strm: u32) returns (last: u32)
      requires Valid()
      ensures last == if strm > 1 then MINUS_ONE else LastBlock(strm)
    {
      if strm > 1 {
        return MINUS_ONE;
      }
      var s := m_streamParam[strm];
      if s.pStub == null {
        return 0;
      }
      last := s.pStub.lastBlock;
    }

    /** In agreed mode acknowledgements of a stream reach the driver, if the board has its channel. */
    predicate Agrees(strm: u32)
      requires strm < |m_streamParam|
      reads m_streamParam[strm], board
    {
      m_streamParam[strm].agree_mode != 0 && strm < |board.m_DmaChannel| && strm < |board.m_DmaChanMask|
      && board.m_DmaChanMask[strm]
    }

    /** In agreed mode the last index taken is acknowledged, as often as this is called. */
    method StreamGetBufDone(strm: u32)
      requires Valid()
      modifies board`dmaCtrl, board.m_DmaChannel
      ensures Valid()
      ensures strm > 1 || !Agrees(strm) ==> unchanged(board)
      ensures forall j :: 0 <= j < |board.m_DmaChannel| && !(j == strm && strm <= 1 && Agrees(strm)) ==>
                unchanged(board.m_DmaChannel[j])
      ensures strm <= 1 && Agrees(strm) ==>
                var c := board.m_DmaChannel[strm];
                && c.State() == AfterDone(old(board.m_DmaChannel[strm].State()), m_streamParam[strm].indexPc)
                && board.dmaCtrl == (if c.m_DoneFlag != 0
                                     then old(board.dmaCtrl)[strm := old(board.dmaCtrl)[strm] & 0xFFF7]
                                     else old(board.dmaCtrl))
    {
      hide AfterDone;
      if strm > 1 {
        return;
      }
      if m_streamParam[strm].agree_mode != 0 {
        var ok := board.IoctlDone(strm, m_streamParam[strm].indexPc);
      }
    }

    method StreamStart(strm: u32)
      requires Valid()
      requires strm < |board.m_DmaChannel| && board.m_DmaChanMask[strm] ==> board.m_DmaChannel[strm].TableReady()
      modifies board, m_streamParam, if strm < |board.m_DmaChannel|
                     then {board.m_DmaChannel[strm], board.m_DmaChannel[strm].table,
                           board.m_DmaChannel[strm].m_pStub} else {}
      ensures Valid()
      ensures strm > 1 || old(m_streamParam[strm].status) != 1
        ==> unchanged(board) && unchanged(set s | s in m_streamParam)
      ensures strm <= 1 && old(m_streamParam[strm].status) == 1 ==>
                && m_streamParam[strm].State() == Restart(old(m_streamParam[strm].State()))
                && m_streamParam[strm].status == 1 && m_streamParam[strm].pBlk == old(m_streamParam[strm].pBlk)
                && m_streamParam[strm].pStub == old(m_streamParam[strm].pStub)
                && (strm < |board.m_DmaChannel| && !board.m_DmaChanMask[strm] ==>
                      && board.m_DmaChannel[strm].m_pStub.state == 2 && board.dmaCtrl[strm] == 0
                      && !board.m_DmaChanEnbl[strm])
                && (strm < |board.m_DmaChannel| && board.m_DmaChanMask[strm] ==>
                      && board.m_DmaChannel[strm].State()
                         == Start(old(board.m_DmaChannel[strm].State()), old(m_streamParam[strm].cycle) != 0)
                      && board.Started(strm, old(m_streamParam[strm].cycle) & 1 == 1))
    {
      hide Board.Valid, DmaChannel.TableReady, Board.Started;
      if strm > 1 || m_streamParam[strm].status != 1 {
        return;
      }
      var s := m_streamParam[strm];
      var stopped, report := board.IoctlStop(strm);
      s.indexDma := MINUS_ONE;
      s.indexPc := MINUS_ONE;
      var ok := board.IoctlStart(strm, s.cycle);
    }

    /** Take the next filled buffer, if there is one. */
    method TakeNext(strm: u32) returns (ret: nat, ptr: array?<bv64>)
      requires Valid() && strm <= 1
      modifies m_streamParam[strm]
      ensures Valid()
      ensures var s := m_streamParam[strm];
              s.status == old(s.status) && s.pBlk == old(s.pBlk) && s.pStub == old(s.pStub)
                && s.agree_mode == old(s.agree_mode)
      ensures var s, seen := m_streamParam[strm], Observe(old(m_streamParam[strm].State()), old(LastBlock(strm)));
              && ret == (if Ready(seen) then 1 else 0)
              && s.State() == (if Ready(seen) then Take(seen) else seen)
              && ptr == (if Ready(seen) && s.status == 1 && s.indexPc < s.cnt_buf then s.pBlk[s.indexPc] else null)
    {
      hide Board.Valid, NextIndex;
      ret, ptr := 0, null;
      var s := m_streamParam[strm];
      if s.indexPc == s.indexDma {
        s.indexDma := StreamGetIndexDma(strm);
      }
      if s.indexPc != s.indexDma {
        s.indexPc := StreamGetNextIndex(strm, s.indexPc);
        ptr := StreamGetBufByNum(strm, s.indexPc);
        ret := 1;
      }
    }

    /** Hand out the next filled buffer, acknowledged before it is returned; 0 when there is none. */
    method StreamGetBuf(strm: u32) returns (ret: nat, ptr: array?<bv64>)
      requires Valid()
      modifies m_streamParam, board`dmaCtrl, board.m_DmaChannel
      ensures Valid()
      ensures strm > 1 ==> ret == 0 && unchanged(board) && unchanged(set s | s in m_streamParam)
      ensures strm <= 1 ==>
                var s, seen := m_streamParam[strm], Observe(old(m_streamParam[strm].State()), old(LastBlock(strm)));
                && ret == (if Ready(seen) then 1 else 0)
                && s.State() == (if Ready(seen) then Take(seen) else seen)
                && ptr == (if Ready(seen) && s.status == 1 && s.indexPc < s.cnt_buf then s.pBlk[s.indexPc] else null)
                && s.status == old(s.status) && s.pBlk == old(s.pBlk) && s.pStub == old(s.pStub)
                  && s.agree_mode == old(s.agree_mode)
                && (Ready(seen) && Agrees(strm) ==>
                      var c := board.m_DmaChannel[strm];
                      && c.State() == AfterDone(old(board.m_DmaChannel[strm].State()), s.indexPc)
                      && board.dmaCtrl == if c.m_DoneFlag != 0
                                          then old(board.dmaCtrl)[strm := old(board.dmaCtrl)[strm] & 0xFFF7]
                                          else old(board.dmaCtrl))
                && (!Ready(seen) || !Agrees(strm) ==> unchanged(board))
                && (forall j :: 0 <= j < |board.m_DmaChannel| && !(j == strm && Ready(seen) && Agrees(strm)) ==>
                      unchanged(board.m_DmaChannel[j]))
                && unchanged(m_streamParam[1 - strm])
    {
      hide AfterDone, Board.Valid, NextIndex, Take, Observe, Ready;
      ret, ptr := 0, null;
      if strm > 1 {
        return;
      }
      ret, ptr := TakeNext(strm);
      if ret == 1 {
        StreamGetBufDone(strm);
      }
    }
  }
}
