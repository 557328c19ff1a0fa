/** The input test: every block of every buffer received is checked against the reference stream. */
module StreamIn {
  import opened Modular
  import opened TestSequence
  import opened TestBuffer
  import opened Checkers
  import opened StreamOut

  /** The words received where block ii of a buffer belongs. */
  function Received(words: seq<bv64>, p: Plan, batch: nat, ii: nat): seq<bv64>
    requires Offset(p, ii) + |Reference(p, Number(p, batch, ii))| <= |words|
  {
    words[Offset(p, ii)..Offset(p, ii) + |Reference(p, Number(p, batch, ii))|]
  }

  ghost predicate LongEnough(words: seq<bv64>, p: Plan, batch: nat, m: nat) {
    forall ii :: 0 <= ii < m ==> Offset(p, ii) + |Reference(p, Number(p, batch, ii))| <= |words|
  }

  function BlockErrors(words: seq<bv64>, p: Plan, batch: nat, ii: nat, buffer: u32): seq<ErrorRow>
    requires Offset(p, ii) + |Reference(p, Number(p, batch, ii))| <= |words|
  {
    var block := Reference(p, Number(p, batch, ii));
    Mismatches(buffer, block, Received(words, p, batch, ii), |block|)
  }

  /** All the errors of the first m blocks of a buffer; the checker numbers its checks from `first`. */
  function BatchErrors(words: seq<bv64>, p: Plan, batch: nat, m: nat, first: u32): seq<ErrorRow>
    requires LongEnough(words, p, batch, m)
  {
    if m == 0 then [] else
      BatchErrors(words, p, batch, m - 1, first) + BlockErrors(words, p, batch, m - 1, (first + m - 1) % TWO32)
  }

  /** A buffer passes without an error exactly when it holds the batch, as the output test lays it. */
  lemma {:induction false} PassesIff(words: seq<bv64>, p: Plan, batch: nat, m: nat, first: u32)
    requires LongEnough(words, p, batch, m)
    ensures BatchErrors(words, p, batch, m, first) == [] <==> BatchLies(words, p, batch, m)
  {
    hide Reference, Number, Offset;
    if m == 0 {
    } else {
      PassesIff(words, p, batch, m - 1, first);
      NoErrorsIff((first + m - 1) % TWO32, Reference(p, Number(p, batch, m - 1)), Received(words, p, batch, m - 1));
      assert BatchLies(words, p, batch, m) <==> BatchLies(words, p, batch, m - 1) && BlockLies(words, p, batch, m - 1);
    }
  }

  lemma NoErrorsYet(words: seq<bv64>, p: Plan, batch: nat, first: u32)
    ensures LongEnough(words, p, batch, 0) && BatchErrors(words, p, batch, 0, first) == []
    ensures first % TWO32 == first
  {
  }

  lemma OneMoreBlock(words: seq<bv64>, p: Plan, batch: nat, m: nat, first: u32)
    requires LongEnough(words, p, batch, m) && Offset(p, m) + |Reference(p, Number(p, batch, m))| <= |words|
    ensures LongEnough(words, p, batch, m + 1)
    ensures BatchErrors(words, p, batch, m + 1, first)
         == BatchErrors(words, p, batch, m, first) + BlockErrors(words, p, batch, m, (first + m) % TWO32)
  {
    hide Offset, Number, Reference, BlockErrors;
  }

  lemma AllLongEnough(words: seq<bv64>, p: Plan, batch: nat)
    requires WholePairs(p) && Offset(p, p.blocks) <= |words|
    ensures LongEnough(words, p, batch, p.blocks)
  {
    hide Offset, Number, Reference, WholePairs;
    forall ii | 0 <= ii < p.blocks ensures Offset(p, ii) + |Reference(p, Number(p, batch, ii))| <= |words| {
      OffsetRoom(p, ii, p.blocks);
      ReferenceFits(p, Number(p, batch, ii));
    }
  }

  class TestStrm {
    const testBuf: TestBufM2
    const plan: Plan

    var BlockRd: u32

    constructor (testBuf: TestBufM2, plan: Plan)
      ensures this.testBuf == testBuf && this.plan == plan && BlockRd == 0
    {
      this.testBuf, this.plan, BlockRd := testBuf, plan, 0;
    }

    /** The checker stands before block k of the run. */
    ghost predicate Before(k: nat)
      reads this`BlockRd, testBuf
    {
      testBuf.Generator() == GenAt(plan.mode, plan.size / 2, k) && BlockRd == k % TWO32
    }

    method CheckBlock(words: seq<bv64>, ii: u32, ghost batch: nat) returns (cntErr: nat)
      requires WholePairs(plan) && ii < plan.blocks && Offset(plan, plan.blocks) <= |words|
      requires testBuf.Valid() && Before(Number(plan, batch, ii))
      modifies this`BlockRd, testBuf`block_mode, testBuf`data_ex_cnt, testBuf`data_ex_noise, testBuf`buf_current,
        testBuf`buf_cnt_ok, testBuf`buf_cnt_error, testBuf`word_cnt_error, testBuf`history, testBuf`checks,
          testBuf.word_error
      ensures testBuf.Valid() && Before(Number(plan, batch, ii + 1))
      ensures Offset(plan, ii) + |Reference(plan, Number(plan, batch, ii))| <= |words|
      ensures var errors := BlockErrors(words, plan, batch, ii, old(testBuf.buf_current));
              testBuf.history == old(testBuf.history) + errors && cntErr == |errors|
      ensures testBuf.checks == old(testBuf.checks) + 1 && testBuf.buf_current == Inc(old(testBuf.buf_current))
    {
      hide Number, AfterBlock, Forced, Block, Written, Mismatches;
      ghost var k := Number(plan, batch, ii);
      NumberNext(plan, batch, ii);
      NextMod(k);
      OffsetRoom(plan, ii, plan.blocks);
      ReferenceFits(plan, k);
      var at := ii * (plan.size / 2);
      ghost var length := |Reference(plan, k)|;
      assert words[at..at + plan.size / 2][..length] == words[at..at + length];
      cntErr := testBuf.BufCheck(words[at..at + plan.size / 2], BlockRd, plan.size, plan.mode);
      BlockRd := Inc(BlockRd);
    }

    /** Check every block of a buffer against the blocks of the batch that is due. */
    method CheckBuffer(words: seq<bv64>, ghost batch: nat) returns (cntErr: nat)
      requires WholePairs(plan) && Offset(plan, plan.blocks) <= |words|
      requires testBuf.Valid() && Before(Number(plan, batch, 0))
      modifies this`BlockRd, testBuf`block_mode, testBuf`data_ex_cnt, testBuf`data_ex_noise, testBuf`buf_current,
        testBuf`buf_cnt_ok, testBuf`buf_cnt_error, testBuf`word_cnt_error, testBuf`history, testBuf`checks,
          testBuf.word_error
      ensures testBuf.Valid() && Before(Number(plan, batch + 1, 0))
      ensures LongEnough(words, plan, batch, plan.blocks)
      ensures var errors := BatchErrors(words, plan, batch, plan.blocks, old(testBuf.buf_current));
              testBuf.history == old(testBuf.history) + errors && cntErr == |errors|
      ensures testBuf.checks == old(testBuf.checks) + plan.blocks
    {
      hide Number, Offset, GenAt, WholePairs, BlockErrors, BatchErrors, LongEnough, Reference, TestBufM2.Valid;
      AllLongEnough(words, plan, batch);
      ghost var first := testBuf.buf_current;
      cntErr := 0;
      var ii := 0;
      NoErrorsYet(words, plan, batch, first);
      while ii < plan.blocks
        invariant 0 <= ii <= plan.blocks && testBuf.Valid() && Before(Number(plan, batch, ii))
        invariant LongEnough(words, plan, batch, ii)
        invariant var errors := BatchErrors(words, plan, batch, ii, first);
                  testBuf.history == old(testBuf.history) + errors && cntErr == |errors|
        invariant testBuf.checks == old(testBuf.checks) + ii && testBuf.buf_current == (first + ii) % TWO32
      {
        var errors := CheckBlock(words, ii, batch);
        OneMoreBlock(words, plan, batch, ii, first);
        NextMod(first + ii);
        cntErr := cntErr + errors;
        ii := ii + 1;
      }
      NumberNext(plan, batch, 0);
    }
  }
}
