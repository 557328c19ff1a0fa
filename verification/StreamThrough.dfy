/** The input direction as a whole: what the input test reports about the buffers the protocol delivers. */
module StreamThrough {
  import opened Modular
  import opened Channel
  import opened TestSequence
  import opened Checkers
  import opened StreamOut
  import opened StreamIn
  import Protocol
  import BoardRun
  import DescriptorEngine

  /** The words behind a buffer, when every page of it comes from the same fill; `carried` is what each fill brings. */
  ghost predicate Finds(su: Protocol.Setup, m: Protocol.Store, i: nat, carried: nat -> seq<bv64>, words: seq<bv64>)
  {
    forall h: nat :: i < |su.layout.blocks| && Protocol.Holds(su, m, i, Protocol.Whole(h)) ==> words == carried(h)
  }

  /**
   With the pause acted on, the input test finds the d-th buffer without an error if and only if the
   board's d-th fill brought the d-th batch of the reference stream: the ring adds no error and hides none.
   */
  lemma ReportsTheSource(su: Protocol.Setup, events: seq<BoardRun.Event>, carried: nat -> seq<bv64>,
                         p: Plan, d: nat, words: seq<bv64>, first: u32)
    requires Protocol.Wired(su) && su.depth == 2 && BoardRun.Possible(su, events)
    requires d < |BoardRun.WorldAfter(su, events).log|
    requires var got := BoardRun.WorldAfter(su, events).log[d]; Finds(su, got.memory, got.buffer, carried, words)
    requires LongEnough(carried(d), p, d, p.blocks)
    ensures LongEnough(words, p, d, p.blocks)
    ensures BatchErrors(words, p, d, p.blocks, first) == [] <==> BatchLies(carried(d), p, d, p.blocks)
  {
    hide Protocol.Wired, BoardRun.WorldAfter, BoardRun.Possible, LongEnough, BatchErrors, BatchLies, Place,
      Protocol.Holds;
    Protocol.WiredPaced(su);
    BoardRun.BoardEndToEnd(su, events);
    PassesIff(words, p, d, p.blocks, first);
  }

  lemma FirstBlockReported(words: seq<bv64>, p: Plan, d: nat, m: nat, first: u32)
    requires 0 < m && LongEnough(words, p, d, m) && |BlockErrors(words, p, d, 0, first)| > 0
    ensures |BatchErrors(words, p, d, m, first)| > 0
  {
    hide Reference, Number, Offset, BlockErrors;
    if m == 1 {
      assert first % TWO32 == first;
      OneMoreBlock(words, p, d, 0, first);
    } else {
      FirstBlockReported(words, p, d, m - 1, first);
    }
  }

  lemma SameFirstWord(words: seq<bv64>, p: Plan, d: nat, e: nat)
    requires Offset(p, 0) + |Reference(p, Number(p, d, 0))| <= |words| && BlockLies(words, p, e, 0)
    ensures |Reference(p, Number(p, d, 0))| > 0 && |Reference(p, Number(p, e, 0))| > 0
    ensures Received(words, p, d, 0)[0] == Reference(p, Number(p, e, 0))[0]
  {
    hide Word, GenAt, Forced, Number;
  }

  /** A buffer that holds another batch than the one due is always reported. */
  lemma OtherBatchReported(words: seq<bv64>, p: Plan, d: nat, e: nat, first: u32)
    requires WholePairs(p) && p.blocks > 0 && Offset(p, p.blocks) <= |words| && BatchLies(words, p, e, p.blocks)
    requires Number(p, d, 0) % TWO32 != Number(p, e, 0) % TWO32
    ensures LongEnough(words, p, d, p.blocks)
    ensures |BatchErrors(words, p, d, p.blocks, first)| > 0
  {
    AllLongEnough(words, p, d);
    assert BlockLies(words, p, e, 0);
    SameFirstWord(words, p, d, e);
    OutOfTurnDetected(first, p.mode, p.size / 2, Number(p, d, 0), Number(p, e, 0), Received(words, p, d, 0));
    FirstBlockReported(words, p, d, p.blocks, first);
  }

  /** A handler that does not pause: the first buffer handed out may hold fill N, of the next turn of the ring. */
  lemma LappedRun(su: Protocol.Setup) returns (steps: seq<Protocol.Step>)
    requires Protocol.Cabled(su) && DescriptorEngine.UpToGigabyte(su.layout.blockSize) && !su.pausing
    ensures Protocol.IsRun(su, steps)
    ensures var w, n := Protocol.Exec(su, steps), Protocol.N(su);
            |w.log| == 1 && w.log[0].buffer == 0 && Protocol.Held(su, w.log[0].memory, n) && Place(n, n) == 0
  {
    hide Protocol.Exec, Protocol.IsRun, Protocol.FillPages, Protocol.Cabled, Protocol.PagesOf, Protocol.Write,
      AfterFill, DescriptorEngine.UpToGigabyte, Place, Counts, Protocol.Holds;
    Protocol.CabledSized(su);
    var n: nat := Protocol.N(su);
    var turn := Protocol.FirstRounds(su, n);
    var more := Protocol.Round(su, turn, n, 0);
    var w := Protocol.Exec(su, more);
    var m :| w.memory == Protocol.Write(m, Protocol.FillPages(su, n), Protocol.Whole(n));
    Protocol.FillGoesTo(su, n);
    Protocol.HeldWritten(su, m, n);
    Protocol.Extend(su, more, Protocol.Get);
    steps := more + [Protocol.Get];
    Protocol.CountsLast(w.ch, n + 1);
    Protocol.LastAtRange(n, n + 1);
    Protocol.LastAtRange(n, 0);
    WholeTurn(n);
  }

  /** And then the input test reports it, although the board brought every batch right. */
  lemma LappedIsReported(su: Protocol.Setup, carried: nat -> seq<bv64>, p: Plan, words: seq<bv64>, first: u32)
    returns (steps: seq<Protocol.Step>)
    requires Protocol.Cabled(su) && DescriptorEngine.UpToGigabyte(su.layout.blockSize) && !su.pausing
    requires WholePairs(p) && p.blocks > 0 && Number(p, Protocol.N(su), 0) % TWO32 != 0
    requires forall h: nat :: Offset(p, p.blocks) <= |carried(h)| && BatchLies(carried(h), p, h, p.blocks)
    ensures Protocol.IsRun(su, steps) && |Protocol.Exec(su, steps).log| == 1
    ensures var got := Protocol.Exec(su, steps).log[0];
            got.buffer == 0 && (Finds(su, got.memory, 0, carried, words) ==>
              LongEnough(words, p, 0, p.blocks) && |BatchErrors(words, p, 0, p.blocks, first)| > 0)
  {
    hide Protocol.Exec, Protocol.IsRun, Protocol.Cabled, DescriptorEngine.UpToGigabyte, Protocol.Holds, BatchLies,
      BatchErrors, LongEnough, Offset, Number, Place;
    Protocol.CabledSized(su);
    steps := LappedRun(su);
    var got := Protocol.Exec(su, steps).log[0];
    if Finds(su, got.memory, 0, carried, words) {
      assert words == carried(Protocol.N(su));
      FirstBlock(p);
      OtherBatchReported(words, p, 0, Protocol.N(su), first);
    }
  }
}
