/** The block generator and its checkers, with their error log, as the class the tests use. */
module TestBuffer {
  import opened Modular
  import opened TestSequence

  /** One logged mismatch: block number, word index, what was expected and what came. */
  datatype ErrorRow = ErrorRow(block: u32, index: nat, expected: bv64, received: bv64)

  /** The mismatches among the first k words, in order. */
  function Mismatches(block: u32, exp: seq<bv64>, got: seq<bv64>, k: nat): seq<ErrorRow>
    requires k <= |exp| && k <= |got|
  {
    if k == 0 then []
    else
      Mismatches(block, exp, got, k - 1)
      + (if exp[k - 1] != got[k - 1] then [ErrorRow(block, k - 1, exp[k - 1], got[k - 1])] else [])
  }

  /** What the pseudo-random checker expects: the stored word first, then the successor of each word received. */
  function Predicted(state: bv64, got: seq<bv64>): seq<bv64> {
    seq(|got|, i requires 0 <= i < |got| => if i == 0 then state else Lfsr(got[i - 1]))
  }

  function AfterPredicted(state: bv64, got: seq<bv64>): bv64 {
    if got == [] then state else Lfsr(got[|got| - 1])
  }

  /** What the inversion checker expects: its own sequence, whatever is received. */
  function Twisted(state: bv64, k: nat): seq<bv64> {
    seq(k, i requires 0 <= i => TwistN(state, i))
  }

  /** Of L logged errors, the one that row i of the log shows: the last to be counted i modulo 2^32. */
  function Latest(l: nat, i: nat): (r: nat)
    requires i < l
    ensures i <= r < l && (r - i) % TWO32 == 0 && l - r <= TWO32
  {
    i + TWO32 * ((l - 1 - i) / TWO32)
  }

  const ROWS: nat := 32

  /** Row i of the log shows the latest error counted i, for the rows the limit allows. */
  ghost predicate Logged(rows: seq<ErrorRow>, limit: nat, history: seq<ErrorRow>) {
    |rows| == ROWS && limit <= ROWS
    && forall i :: 0 <= i < limit && i < |history| ==> rows[i] == history[Latest(|history|, i)]
  }

  /** What one more error does to the rows. */
  function LogOne(rows: seq<ErrorRow>, limit: nat, count: u32, row: ErrorRow): seq<ErrorRow>
    requires |rows| == ROWS && limit <= ROWS
  {
    if count < limit then rows[count := row] else rows
  }

  lemma LatestNext(l: nat, i: nat)
    requires i < l + 1 && i < TWO32
    ensures i == l % TWO32 ==> Latest(l + 1, i) == l
    ensures i != l % TWO32 ==> i < l && Latest(l + 1, i) == Latest(l, i)
  {
  }

  lemma LoggedNext(rows: seq<ErrorRow>, limit: nat, history: seq<ErrorRow>, row: ErrorRow)
    requires Logged(rows, limit, history)
    ensures Logged(LogOne(rows, limit, |history| % TWO32, row), limit, history + [row])
  {
    hide Latest;
    var l := |history|;
    forall i | 0 <= i < limit && i < l + 1
      ensures LogOne(rows, limit, l % TWO32, row)[i] == (history + [row])[Latest(l + 1, i)]
    {
      LatestNext(l, i);
    }
  }

  lemma NothingLogged(rows: seq<ErrorRow>, limit: nat)
    requires |rows| == ROWS && limit <= ROWS
    ensures Logged(rows, limit, [])
  {
  }

  // ---------- the loops of the generator ----------

  /** A whole block lies in the buffer and the rest of the buffer is as it was. */
  predicate Holds(words: seq<bv64>, was: seq<bv64>, off: nat, block: seq<bv64>) {
    && |words| == |was| && off + |block| <= |words|
    && words[off..off + |block|] == block
    && (forall j :: 0 <= j < |words| && !(off <= j < off + |block|) ==> words[j] == was[j])
  }

  /** Words 1 and up of the block are in place and nothing else has changed. */
  predicate Laid(words: seq<bv64>, was: seq<bv64>, off: nat, n: u32, g: Gen, upTo: nat)
  {
    && |words| == |was| && off + upTo <= |words|
    && (forall i :: 1 <= i < upTo ==> words[off + i] == Word(g, n, i))
    && (forall j :: 0 <= j < |words| && !(off < j < off + upTo) ==> words[j] == was[j])
  }

  lemma LaidNone(was: seq<bv64>, off: nat, n: u32, g: Gen)
    requires off < |was|
    ensures Laid(was, was, off, n, g, 1)
  {
    hide Word;
  }

  lemma LaidNext(words: seq<bv64>, was: seq<bv64>, off: nat, n: u32, g: Gen, i: nat)
    requires Laid(words, was, off, n, g, i) && i > 0 && off + i < |words|
    ensures Laid(words[off + i := Word(g, n, i)], was, off, n, g, i + 1)
  {
    hide Word;
  }

  /** Store the next word of the block. */
  method Put(buf: array<bv64>, off: nat, w: bv64, ghost was: seq<bv64>, ghost n: u32, ghost g: Gen, i: nat)
    requires Laid(buf[..], was, off, n, g, i) && i > 0 && off + i < buf.Length && w == Word(g, n, i)
    modifies buf
    ensures Laid(buf[..], was, off, n, g, i + 1)
  {
    hide Word, Laid;
    LaidNext(buf[..], was, off, n, g, i);
    ghost var words := buf[..];
    buf[off + i] := w;
    assert buf[..] == words[off + i := w];
  }

  method SetRunning(buf: array<bv64>, off: nat, n: u32, size64: nat, ghost g: Gen, seed: bv64)
    requires g.kind <= 1 && seed == Seed(g.kind) && off + Written(g.kind, size64) <= buf.Length
    modifies buf
    ensures Laid(buf[..], old(buf[..]), off, n, g, Written(g.kind, size64))
  {
    hide Rol, Signature, Laid;
    var data_ex, ii := seed, 1;
    LaidNone(buf[..], off, n, g);
    while ii < size64
      invariant 1 <= ii <= Written(g.kind, size64)
      invariant data_ex == RolN(seed, ii - 1)
      invariant Laid(buf[..], old(buf[..]), off, n, g, ii)
    {
      Put(buf, off, data_ex, old(buf[..]), n, g, ii);
      data_ex := Rol(data_ex);
      ii := ii + 1;
    }
  }

  /** Words 2j and 2j+1 of a pair block, and the step to the next pair. */
  lemma PairWords(g: Gen, n: u32, j: nat)
    requires 2 <= g.kind <= 3
    ensures RolN(Seed(g.kind), 0) == Seed(g.kind) && RolN(Seed(g.kind), j + 1) == Rol(RolN(Seed(g.kind), j))
    ensures j > 0 ==> Word(g, n, 2 * j) == RolN(Seed(g.kind), j)
    ensures Word(g, n, 2 * j + 1) == Not(RolN(Seed(g.kind), j))
  {
    hide Rol, Not, Signature;
  }

  method SetPairs(buf: array<bv64>, off: nat, n: u32, size64: nat, ghost g: Gen, seed: bv64)
    requires 2 <= g.kind <= 3 && seed == Seed(g.kind) && off + Written(g.kind, size64) <= buf.Length
    modifies buf
    ensures Laid(buf[..], old(buf[..]), off, n, g, Written(g.kind, size64))
  {
    hide Rol, Not, Word, RolN, Laid;
    var data_ex, ii := seed, 2;
    PairWords(g, n, 0);
    LaidNone(buf[..], off, n, g);
    Put(buf, off, Not(data_ex), old(buf[..]), n, g, 1);
    data_ex := Rol(data_ex);
    while ii < size64
      invariant ii % 2 == 0 && 2 <= ii <= Written(g.kind, size64)
      invariant data_ex == RolN(seed, ii / 2)
      invariant Laid(buf[..], old(buf[..]), off, n, g, ii)
    {
      PairWords(g, n, ii / 2);
      Put(buf, off, data_ex, old(buf[..]), n, g, ii);
      Put(buf, off, Not(data_ex), old(buf[..]), n, g, ii + 1);
      data_ex := Rol(data_ex);
      ii := ii + 2;
    }
  }

  lemma MarksNext(n: u32, i: nat)
    requires i > 0
    ensures Marks(n, 1) == 0
    ensures Marks(n, i + 1) == Marks(n, i) + (if n % 256 == i % 256 then 1 else 0)
  {
  }

  method SetMarked(buf: array<bv64>, off: nat, n: u32, size64: nat, ghost g: Gen, seed: bv64, filler: bv64)
    requires 4 <= g.kind <= 5 && seed == Seed(g.kind) && filler == Filler(g.kind)
      && off + Written(g.kind, size64) <= buf.Length
    modifies buf
    ensures Laid(buf[..], old(buf[..]), off, n, g, Written(g.kind, size64))
  {
    hide Rol, Signature, Marks, Laid;
    var data_ex, ii := seed, 1;
    MarksNext(n, 1);
    LaidNone(buf[..], off, n, g);
    while ii < size64
      invariant 1 <= ii <= Written(g.kind, size64)
      invariant data_ex == RolN(seed, Marks(n, ii))
      invariant Laid(buf[..], old(buf[..]), off, n, g, ii)
    {
      var flag := n % 256 == ii % 256;
      Put(buf, off, if flag then data_ex else filler, old(buf[..]), n, g, ii);
      if flag {
        data_ex := Rol(data_ex);
      }
      MarksNext(n, ii);
      ii := ii + 1;
    }
  }

  lemma CounterWords(g: Gen, n: u32, j: nat)
    requires 6 <= g.kind <= 7
    ensures Plus(g.count, 0) == g.count && Plus(g.count, j + 1) == Inc64(Plus(g.count, j))
    ensures j > 0 ==> Word(g, n, 2 * j) == Plus(g.count, j)
    ensures Word(g, n, 2 * j + 1) == Not(Plus(g.count, j))
  {
    hide Inc64, Not, Signature;
  }

  method SetCounter(buf: array<bv64>, off: nat, n: u32, size64: nat, ghost g: Gen, count: bv64) returns (data_ex: bv64)
    requires 6 <= g.kind <= 7 && count == g.count && off + Written(g.kind, size64) <= buf.Length
    modifies buf
    ensures Laid(buf[..], old(buf[..]), off, n, g, Written(g.kind, size64))
    ensures data_ex == Plus(count, Written(g.kind, size64) / 2)
  {
    hide Inc64, Not, Word, Plus, Laid;
    data_ex := count;
    var ii := 2;
    CounterWords(g, n, 0);
    LaidNone(buf[..], off, n, g);
    Put(buf, off, Not(data_ex), old(buf[..]), n, g, 1);
    data_ex := Inc64(data_ex);
    while ii < size64
      invariant ii % 2 == 0 && 2 <= ii <= Written(g.kind, size64)
      invariant data_ex == Plus(count, ii / 2)
      invariant Laid(buf[..], old(buf[..]), off, n, g, ii)
    {
      CounterWords(g, n, ii / 2);
      Put(buf, off, data_ex, old(buf[..]), n, g, ii);
      Put(buf, off, Not(data_ex), old(buf[..]), n, g, ii + 1);
      data_ex := Inc64(data_ex);
      ii := ii + 2;
    }
  }

  method SetNoise(buf: array<bv64>, off: nat, n: u32, size64: nat, ghost g: Gen, noise: bv64) returns (data_ex: bv64)
    requires 8 <= g.kind <= 9 && noise == g.noise && off + Written(g.kind, size64) <= buf.Length
    modifies buf
    ensures Laid(buf[..], old(buf[..]), off, n, g, Written(g.kind, size64))
    ensures data_ex == LfsrN(noise, Written(g.kind, size64) - 1)
  {
    hide Lfsr, Signature, Laid;
    data_ex := noise;
    var ii := 1;
    LaidNone(buf[..], off, n, g);
    while ii < size64
      invariant 1 <= ii <= Written(g.kind, size64)
      invariant data_ex == LfsrN(noise, ii - 1)
      invariant Laid(buf[..], old(buf[..]), off, n, g, ii)
    {
      Put(buf, off, data_ex, old(buf[..]), n, g, ii);
      data_ex := Lfsr(data_ex);
      ii := ii + 1;
    }
  }

  lemma AfterBlockIs(g: Gen, size64: nat)
    ensures AfterBlock(g, size64).kind == NextKind(g.kind)
    ensures AfterBlock(g, size64).count
         == if g.kind == 6 || g.kind == 7 then Plus(g.count, Written(g.kind, size64) / 2) else g.count
    ensures AfterBlock(g, size64).noise
         == if g.kind == 8 || g.kind == 9 then LfsrN(g.noise, Written(g.kind, size64) - 1) else g.noise
  {
    hide Plus, LfsrN;
  }

  lemma WordZero(g: Gen, n: u32)
    ensures Word(g, n, 0) == Signature(n)
  {
    hide Signature;
  }

  lemma LaidHolds(words: seq<bv64>, was: seq<bv64>, off: nat, n: u32, g: Gen, size64: nat)
    requires off < |was| && Laid(words, was[off := Signature(n)], off, n, g, Written(g.kind, size64))
    ensures Holds(words, was, off, Block(g, n, size64))
  {
    WordZero(g, n);
    hide Word, Signature;
  }

  // ---------- the words a checker compares ----------

  lemma LogLength(rows: seq<ErrorRow>, limit: nat, history: seq<ErrorRow>)
    requires Logged(rows, limit, history)
    ensures |rows| == ROWS && limit <= ROWS
  {
  }

  lemma NextMod32(a: nat, b: nat)
    requires a % TWO32 == b % TWO32
    ensures (a + 1) % TWO32 == (b + 1) % TWO32
  {
  }

  /** The words the checker reads and the block it compares them with. */
  predicate Framed(buf: seq<bv64>, n: u32, size64: nat, g: Gen, exp: seq<bv64>, got: seq<bv64>) {
    && |exp| == Written(g.kind, size64) <= |buf| && got == buf[..|exp|]
    && (forall i :: 0 <= i < |exp| ==> exp[i] == Word(g, n, i))
  }

  lemma FramedFirst(buf: seq<bv64>, n: u32, size64: nat, g: Gen, exp: seq<bv64>, got: seq<bv64>)
    requires Framed(buf, n, size64, g, exp, got)
    ensures |exp| == |got| == Written(g.kind, size64) && 1 <= |exp| <= |buf|
    ensures exp[0] == Signature(n) && got[0] == buf[0]
  {
    WordZero(g, n);
    hide Word, Signature;
  }

  lemma CountOneMore(ok: u32, bad: u32, checks: nat)
    requires (ok + bad) % TWO32 == checks % TWO32
    ensures (Inc(ok) + bad) % TWO32 == (checks + 1) % TWO32
    ensures (ok + Inc(bad)) % TWO32 == (checks + 1) % TWO32
  {
    NextMod32(ok + bad, checks);
    assert Inc(ok) + bad == ok + bad + 1 || Inc(ok) + bad + TWO32 == ok + bad + 1;
    assert ok + Inc(bad) == ok + bad + 1 || ok + Inc(bad) + TWO32 == ok + bad + 1;
    hide Inc;
  }

  lemma ForcedKind(g: Gen, mode: u32)
    ensures Forced(g, mode) == if mode / 128 % 2 == 1 then Gen(mode / 256 % 16, g.count, g.noise) else g
  {
  }

  lemma BlockFramed(buf: seq<bv64>, n: u32, size64: nat, g: Gen)
    requires Written(g.kind, size64) <= |buf|
    ensures |Block(g, n, size64)| == Written(g.kind, size64)
    ensures Framed(buf, n, size64, g, Block(g, n, size64), buf[..Written(g.kind, size64)])
  {
    hide Word;
  }

  lemma MismatchesNone(block: u32, exp: seq<bv64>, got: seq<bv64>)
    ensures Mismatches(block, exp, got, 0) == []
  {
  }

  class TestBufM2 {
    var max_cnt_error: u32
    var buf_cnt_ok: u32
    var buf_cnt_error: u32
    var word_cnt_error: u32
    var buf_current: u32
    var word_error: array<ErrorRow>
    var block_mode: u32
    var data_ex_cnt: bv64
    var data_ex_noise: bv64
    var data_ex_psd: bv64
    var data_ex_inv: bv64

    /** Every mismatch since the start, and how many buffers were checked. */
    ghost var history: seq<ErrorRow>
    ghost var checks: nat

    /** The log shows exactly what the history says it should. */
    ghost predicate LogValid()
      reads this`word_error, this`max_cnt_error, this`word_cnt_error, this`history, word_error
    {
      word_cnt_error == |history| % TWO32 && Logged(word_error[..], max_cnt_error, history)
    }

    /** Good and bad buffers add up to the buffers checked. */
    ghost predicate CountsValid()
      reads this`buf_cnt_ok, this`buf_cnt_error, this`checks
    {
      (buf_cnt_ok + buf_cnt_error) % TWO32 == checks % TWO32
    }

    ghost predicate Valid()
      reads this`word_error, this`max_cnt_error, this`word_cnt_error, this`history, word_error,
        this`buf_cnt_ok, this`buf_cnt_error, this`checks
    {
      LogValid() && CountsValid()
    }

    function Generator(): Gen
      reads this
    {
      Gen(block_mode, data_ex_cnt, data_ex_noise)
    }

    constructor ()
      ensures Valid() && fresh(word_error)
    {
      word_error := new ErrorRow[ROWS](i => ErrorRow(0, 0, 0, 0));
      max_cnt_error, buf_cnt_ok, buf_cnt_error, word_cnt_error, buf_current, block_mode := 0, 0, 0, 0, 0, 0;
      data_ex_cnt, data_ex_noise, data_ex_psd, data_ex_inv := 0, 0, 0, 0;
      history, checks := [], 0;
    }

    method ClearCounts()
      modifies this`buf_cnt_ok, this`buf_cnt_error, this`word_cnt_error, this`buf_current, this`block_mode,
        this`history, this`checks
      ensures buf_cnt_ok == 0 && buf_cnt_error == 0 && word_cnt_error == 0 && buf_current == 0 && block_mode == 0
      ensures history == [] && checks == 0 && CountsValid()
    {
      buf_cnt_ok := 0;
      buf_cnt_error := 0;
      word_cnt_error := 0;
      buf_current := 0;
      block_mode := 0;
      history, checks := [], 0;
    }

    /** The clearing loop, over the declared length of the log. */
    method ClearLog()
      requires word_error.Length == ROWS
      modifies word_error
      ensures forall i :: 0 <= i < ROWS ==> word_error[i] == ErrorRow(0, 0, 0, 0)
    {
      var ii := 0;
      while ii < word_error.Length
        invariant 0 <= ii <= ROWS
        invariant forall i :: 0 <= i < ii ==> word_error[i] == ErrorRow(0, 0, 0, 0)
      {
        word_error[ii] := ErrorRow(0, 0, 0, 0);
        ii := ii + 1;
      }
    }

    method BufCheckStart(n_error: u32)
      requires word_error.Length == ROWS
      modifies this, word_error
      ensures Valid() && word_error == old(word_error)
      ensures max_cnt_error == (if n_error < 32 then n_error else 32) && history == [] && checks == 0
      ensures buf_cnt_ok == 0 && buf_cnt_error == 0 && buf_current == 0
      ensures Generator() == FIRST && data_ex_psd == 2 && data_ex_inv == 0
      ensures forall i :: 0 <= i < ROWS ==> word_error[i] == ErrorRow(0, 0, 0, 0)
    {
      hide Logged, CountsValid;
      if n_error < 32 {
        max_cnt_error := n_error;
      } else {
        max_cnt_error := 32;
      }
      ClearCounts();
      data_ex_cnt := 0;
      data_ex_noise := 1;
      data_ex_psd := 2;
      data_ex_inv := 0;
      ClearLog();
      NothingLogged(word_error[..], max_cnt_error);
    }

    // ---------- the generator ----------

    method BufSet(buf: array<bv64>, off: nat, n: u32, size: u32, mode: u32)
      requires off + Written(Forced(Generator(), mode).kind, size / 2) <= buf.Length
      modifies this`block_mode, this`data_ex_cnt, this`data_ex_noise, this`buf_current, buf
      ensures Holds(buf[..], old(buf[..]), off, Block(Forced(old(Generator()), mode), n, size / 2))
      ensures Generator() == AfterBlock(Forced(old(Generator()), mode), size / 2)
      ensures buf_current == Inc(old(buf_current))
    {
      hide Word, Signature, AfterBlock, NextKind, Not, Block, Plus, LfsrN, Seed, Filler, Laid, Holds;
      var size64 := size / 2;
      if mode / 128 % 2 == 1 {
        block_mode := mode / 256 % 16;
      }
      ghost var g, was := Generator(), buf[..];
      buf[off] := Signature(n);
      ghost var signed := was[off := Signature(n)];
      assert buf[..] == signed;
      LaidNone(signed, off, n, g);
      if block_mode <= 1 {
        SetRunning(buf, off, n, size64, g, Seed(block_mode));
      } else if block_mode <= 3 {
        SetPairs(buf, off, n, size64, g, Seed(block_mode));
      } else if block_mode <= 5 {
        SetMarked(buf, off, n, size64, g, Seed(block_mode), Filler(block_mode));
      } else if block_mode <= 7 {
        data_ex_cnt := SetCounter(buf, off, n, size64, g, data_ex_cnt);
      } else if block_mode <= 9 {
        data_ex_noise := SetNoise(buf, off, n, size64, g, data_ex_noise);
      }
      AfterBlockIs(g, size64);
      LaidHolds(buf[..], was, off, n, g, size64);
      block_mode := NextKind(block_mode);
      buf_current := Inc(buf_current);
    }

    // ---------- the checkers ----------

    /** Log one mismatch: the row is written while the count is below the limit, and the count wraps at 2^32. */
    method Check(index: nat, d0: bv64, di0: bv64) returns (flag_error: nat)
      requires LogValid()
      modifies this`word_cnt_error, this`history, word_error
      ensures LogValid() && flag_error == 1
      ensures history == old(history) + [ErrorRow(buf_current, index, d0, di0)]
    {
      hide Logged, Latest;
      flag_error := 1;
      var row := ErrorRow(buf_current, index, d0, di0);
      LogLength(word_error[..], max_cnt_error, history);
      LoggedNext(word_error[..], max_cnt_error, history, row);
      NextMod32(word_cnt_error, |history|);
      ghost var rows := word_error[..];
      if word_cnt_error < max_cnt_error {
        word_error[word_cnt_error] := row;
      }
      assert word_error[..] == LogOne(rows, max_cnt_error, word_cnt_error, row);
      word_cnt_error := Inc(word_cnt_error);
      history := history + [row];
    }

    ghost predicate Compared(h0: seq<ErrorRow>, exp: seq<bv64>, got: seq<bv64>, k: nat, cnt: nat)
      requires k <= |exp| == |got|
      reads this`history, this`buf_current
    {
      history == h0 + Mismatches(buf_current, exp, got, k) && cnt == |Mismatches(buf_current, exp, got, k)|
    }

    /** One comparison of a checker, after `index` words have been compared. */
    method Compare(index: nat, d0: bv64, di0: bv64, cnt: nat, ghost h0: seq<ErrorRow>, ghost exp: seq<bv64>,
      ghost got: seq<bv64>)
      returns (cnt_err: nat)
      requires LogValid() && index < |exp| == |got| && d0 == exp[index] && di0 == got[index]
      requires Compared(h0, exp, got, index, cnt)
      modifies this`word_cnt_error, this`history, word_error
      ensures LogValid() && Compared(h0, exp, got, index + 1, cnt_err)
    {
      cnt_err := cnt;
      if d0 != di0 {
        var flag := Check(index, d0, di0);
        cnt_err := cnt_err + flag;
      }
    }

    lemma ComparedNone(h0: seq<ErrorRow>, exp: seq<bv64>, got: seq<bv64>)
      requires |exp| == |got| && history == h0
      ensures Compared(h0, exp, got, 0, 0)
    {
    }

    method CheckRunning(buf: seq<bv64>, n: u32, size64: nat, seed: bv64, cnt: nat,
                        ghost g: Gen, ghost h0: seq<ErrorRow>, ghost exp: seq<bv64>,
                          ghost got: seq<bv64>) returns (cnt_err: nat)
      requires g.kind <= 1 && seed == Seed(g.kind) && Framed(buf, n, size64, g, exp, got)
      requires LogValid() && Compared(h0, exp, got, 1, cnt)
      modifies this`word_cnt_error, this`history, word_error
      ensures LogValid() && Compared(h0, exp, got, |exp|, cnt_err)
    {
      hide Rol, Signature, Compared, Block, Mismatches, LogValid;
      var data_ex, ii := seed, 1;
      cnt_err := cnt;
      while ii < size64
        invariant 1 <= ii <= |exp| && data_ex == RolN(seed, ii - 1)
        invariant LogValid() && Compared(h0, exp, got, ii, cnt_err)
      {
        cnt_err := Compare(ii, data_ex, buf[ii], cnt_err, h0, exp, got);
        data_ex := Rol(data_ex);
        ii := ii + 1;
      }
    }

    method CheckPairs(buf: seq<bv64>, n: u32, size64: nat, seed: bv64, cnt: nat,
                      ghost g: Gen, ghost h0: seq<ErrorRow>, ghost exp: seq<bv64>,
                        ghost got: seq<bv64>) returns (cnt_err: nat)
      requires 2 <= g.kind <= 3 && seed == Seed(g.kind) && Framed(buf, n, size64, g, exp, got)
      requires LogValid() && Compared(h0, exp, got, 1, cnt)
      modifies this`word_cnt_error, this`history, word_error
      ensures LogValid() && Compared(h0, exp, got, |exp|, cnt_err)
    {
      hide Rol, Not, Word, RolN, Compared, Block, Mismatches, LogValid;
      var data_ex, ii := seed, 2;
      PairWords(g, n, 0);
      cnt_err := Compare(1, Not(data_ex), buf[1], cnt, h0, exp, got);
      data_ex := Rol(data_ex);
      while ii < size64
        invariant ii % 2 == 0 && 2 <= ii <= |exp| && data_ex == RolN(seed, ii / 2)
        invariant LogValid() && Compared(h0, exp, got, ii, cnt_err)
      {
        PairWords(g, n, ii / 2);
        cnt_err := Compare(ii, data_ex, buf[ii], cnt_err, h0, exp, got);
        cnt_err := Compare(ii + 1, Not(data_ex), buf[ii + 1], cnt_err, h0, exp, got);
        data_ex := Rol(data_ex);
        ii := ii + 2;
      }
    }

    method CheckMarked(buf: seq<bv64>, n: u32, size64: nat, seed: bv64, filler: bv64, cnt: nat,
                       ghost g: Gen, ghost h0: seq<ErrorRow>, ghost exp: seq<bv64>,
                         ghost got: seq<bv64>) returns (cnt_err: nat)
      requires 4 <= g.kind <= 5 && seed == Seed(g.kind) && filler == Filler(g.kind)
        && Framed(buf, n, size64, g, exp, got)
      requires LogValid() && Compared(h0, exp, got, 1, cnt)
      modifies this`word_cnt_error, this`history, word_error
      ensures LogValid() && Compared(h0, exp, got, |exp|, cnt_err)
    {
      hide Rol, Signature, Marks, Compared, Block, Mismatches, LogValid;
      var data_ex, ii := seed, 1;
      cnt_err := cnt;
      MarksNext(n, 1);
      while ii < size64
        invariant 1 <= ii <= |exp| && data_ex == RolN(seed, Marks(n, ii))
        invariant LogValid() && Compared(h0, exp, got, ii, cnt_err)
      {
        var flag := n % 256 == ii % 256;
        cnt_err := Compare(ii, if flag then data_ex else filler, buf[ii], cnt_err, h0, exp, got);
        if flag {
          data_ex := Rol(data_ex);
        }
        MarksNext(n, ii);
        ii := ii + 1;
      }
    }

    method CheckCounter(buf: seq<bv64>, n: u32, size64: nat, count: bv64, cnt: nat,
                        ghost g: Gen, ghost h0: seq<ErrorRow>, ghost exp: seq<bv64>, ghost got: seq<bv64>)
      returns (cnt_err: nat, data_ex: bv64)
      requires 6 <= g.kind <= 7 && count == g.count && Framed(buf, n, size64, g, exp, got)
      requires LogValid() && Compared(h0, exp, got, 1, cnt)
      modifies this`word_cnt_error, this`history, word_error
      ensures LogValid() && Compared(h0, exp, got, |exp|, cnt_err)
      ensures data_ex == Plus(count, |exp| / 2)
    {
      hide Inc64, Not, Word, Plus, Compared, Block, Mismatches, LogValid;
      data_ex := count;
      var ii := 2;
      CounterWords(g, n, 0);
      cnt_err := Compare(1, Not(data_ex), buf[1], cnt, h0, exp, got);
      data_ex := Inc64(data_ex);
      while ii < size64
        invariant ii % 2 == 0 && 2 <= ii <= |exp| && data_ex == Plus(count, ii / 2)
        invariant LogValid() && Compared(h0, exp, got, ii, cnt_err)
      {
        CounterWords(g, n, ii / 2);
        cnt_err := Compare(ii, data_ex, buf[ii], cnt_err, h0, exp, got);
        cnt_err := Compare(ii + 1, Not(data_ex), buf[ii + 1], cnt_err, h0, exp, got);
        data_ex := Inc64(data_ex);
        ii := ii + 2;
      }
    }

    method CheckNoise(buf: seq<bv64>, n: u32, size64: nat, noise: bv64, cnt: nat,
                      ghost g: Gen, ghost h0: seq<ErrorRow>, ghost exp: seq<bv64>, ghost got: seq<bv64>)
      returns (cnt_err: nat, data_ex: bv64)
      requires 8 <= g.kind <= 9 && noise == g.noise && Framed(buf, n, size64, g, exp, got)
      requires LogValid() && Compared(h0, exp, got, 1, cnt)
      modifies this`word_cnt_error, this`history, word_error
      ensures LogValid() && Compared(h0, exp, got, |exp|, cnt_err)
      ensures data_ex == LfsrN(noise, |exp| - 1)
    {
      hide Lfsr, Signature, Compared, Block, Mismatches, LogValid;
      data_ex := noise;
      cnt_err := cnt;
      var ii := 1;
      while ii < size64
        invariant 1 <= ii <= |exp| && data_ex == LfsrN(noise, ii - 1)
        invariant LogValid() && Compared(h0, exp, got, ii, cnt_err)
      {
        cnt_err := Compare(ii, data_ex, buf[ii], cnt_err, h0, exp, got);
        data_ex := Lfsr(data_ex);
        ii := ii + 1;
      }
    }

    /** The signature, then the words of the block's kind. */
    method CheckWords(buf: seq<bv64>, n: u32, size64: nat, ghost g: Gen, ghost h0: seq<ErrorRow>,
      ghost exp: seq<bv64>, ghost got: seq<bv64>)
      returns (cnt_err: nat)
      requires g == Generator() && Framed(buf, n, size64, g, exp, got)
      requires LogValid() && Compared(h0, exp, got, 0, 0)
      modifies this`data_ex_cnt, this`data_ex_noise, this`word_cnt_error, this`history, word_error
      ensures LogValid() && Compared(h0, exp, got, |exp|, cnt_err)
      ensures data_ex_cnt == if g.kind == 6 || g.kind == 7 then Plus(g.count, Written(g.kind, size64) / 2) else g.count
      ensures data_ex_noise
           == if g.kind == 8 || g.kind == 9 then LfsrN(g.noise, Written(g.kind, size64) - 1) else g.noise
    {
      hide Word, Signature, Plus, LfsrN, Seed, Filler, Framed, Mismatches, Compared, LogValid;
      FramedFirst(buf, n, size64, g, exp, got);
      cnt_err := Compare(0, Signature(n), buf[0], 0, h0, exp, got);
      if block_mode <= 1 {
        cnt_err := CheckRunning(buf, n, size64, Seed(block_mode), cnt_err, g, h0, exp, got);
      } else if block_mode <= 3 {
        cnt_err := CheckPairs(buf, n, size64, Seed(block_mode), cnt_err, g, h0, exp, got);
      } else if block_mode <= 5 {
        cnt_err := CheckMarked(buf, n, size64, Seed(block_mode), Filler(block_mode), cnt_err, g, h0, exp, got);
      } else if block_mode <= 7 {
        cnt_err, data_ex_cnt := CheckCounter(buf, n, size64, data_ex_cnt, cnt_err, g, h0, exp, got);
      } else if block_mode <= 9 {
        cnt_err, data_ex_noise := CheckNoise(buf, n, size64, data_ex_noise, cnt_err, g, h0, exp, got);
      }
    }

    lemma ComparedIs(h0: seq<ErrorRow>, exp: seq<bv64>, got: seq<bv64>, k: nat, cnt: nat)
      requires k <= |exp| == |got| && Compared(h0, exp, got, k, cnt)
      ensures history == h0 + Mismatches(buf_current, exp, got, k) && cnt == |Mismatches(buf_current, exp, got, k)|
    {
      hide Mismatches;
    }

    /** The bookkeeping every checker ends with. */
    method CountBuffer(cnt_err: nat)
      requires CountsValid()
      modifies this`block_mode, this`buf_current, this`buf_cnt_ok, this`buf_cnt_error, this`checks
      ensures CountsValid() && block_mode == NextKind(old(block_mode)) && buf_current == Inc(old(buf_current))
      ensures checks == old(checks) + 1
      ensures buf_cnt_error == (if cnt_err == 0 then old(buf_cnt_error) else Inc(old(buf_cnt_error)))
    {
      hide NextKind;
      block_mode := NextKind(block_mode);
      buf_current := Inc(buf_current);
      CountOneMore(buf_cnt_ok, buf_cnt_error, checks);
      if cnt_err == 0 {
        buf_cnt_ok := Inc(buf_cnt_ok);
      } else {
        buf_cnt_error := Inc(buf_cnt_error);
      }
      checks := checks + 1;
      hide Inc;
    }

    /** Check a buffer against the block the generator would write in this state. */
    method BufCheck(buf: seq<bv64>, n: u32, size: u32, mode: u32) returns (cnt_err: nat)
      requires Valid() && Written(Forced(Generator(), mode).kind, size / 2) <= |buf|
      modifies this`block_mode, this`data_ex_cnt, this`data_ex_noise, this`buf_current, this`buf_cnt_ok,
        this`buf_cnt_error,
        this`word_cnt_error, this`history, this`checks, word_error
      ensures Valid() && Generator() == AfterBlock(Forced(old(Generator()), mode), size / 2)
      ensures var exp := Block(Forced(old(Generator()), mode), n, size / 2);
              var errors := Mismatches(old(buf_current), exp, buf[..|exp|], |exp|);
              && cnt_err == |errors| && history == old(history) + errors
      ensures checks == old(checks) + 1 && buf_current == Inc(old(buf_current))
      ensures buf_cnt_error == (if cnt_err == 0 then old(buf_cnt_error) else Inc(old(buf_cnt_error)))
    {
      hide Word, Signature, AfterBlock, NextKind, Block, Framed, Mismatches, Compared, LogValid, CountsValid,
        Forced, Written;
      var size64 := size / 2;
      ForcedKind(Generator(), mode);
      if mode / 128 % 2 == 1 {
        block_mode := mode / 256 % 16;
      }
      ghost var g, h0 := Generator(), history;
      ghost var exp := Block(g, n, size64);
      BlockFramed(buf, n, size64, g);
      ghost var got := buf[..|exp|];
      assert Compared(h0, exp, got, 0, 0) by { MismatchesNone(buf_current, exp, got); ComparedNone(h0, exp, got); }
      cnt_err := CheckWords(buf, n, size64, g, h0, exp, got);
      AfterBlockIs(g, size64);
      ComparedIs(h0, exp, got, |exp|, cnt_err);
      CountBuffer(cnt_err);
    }

    /** The pseudo-random checker: after a wrong word it goes on from the word it received. */
    method BufCheckPsd(buf: seq<bv64>, size: u32) returns (cnt_err: nat)
      requires Valid() && size / 2 <= |buf|
      modifies this`block_mode, this`data_ex_psd, this`buf_current, this`buf_cnt_ok, this`buf_cnt_error,
        this`word_cnt_error, this`history, this`checks, word_error
      ensures Valid()
      ensures var got := buf[..size / 2];
              var errors := Mismatches(old(buf_current), Predicted(old(data_ex_psd), got), got, |got|);
              && cnt_err == |errors| && history == old(history) + errors
              && data_ex_psd == AfterPredicted(old(data_ex_psd), got)
      ensures block_mode == NextKind(old(block_mode)) && buf_current == Inc(old(buf_current))
        && checks == old(checks) + 1
      ensures buf_cnt_error == (if cnt_err == 0 then old(buf_cnt_error) else Inc(old(buf_cnt_error)))
    {
      hide Lfsr, Mismatches, Compared, NextKind, LogValid, CountsValid;
      var size64 := size / 2;
      ghost var got, h0, state := buf[..size64], history, data_ex_psd;
      ghost var exp := Predicted(state, got);
      var data_ex := data_ex_psd;
      cnt_err := 0;
      assert Compared(h0, exp, got, 0, 0) by { MismatchesNone(buf_current, exp, got); ComparedNone(h0, exp, got); }
      var ii := 0;
      while ii < size64
        modifies this`word_cnt_error, this`history, word_error
        invariant 0 <= ii <= size64
        invariant data_ex == if ii == 0 then state else Lfsr(got[ii - 1])
        invariant LogValid() && Compared(h0, exp, got, ii, cnt_err)
      {
        var data_in := buf[ii];
        cnt_err := Compare(ii, data_ex, data_in, cnt_err, h0, exp, got);
        if data_ex != data_in {
          data_ex := data_in;
        }
        data_ex := Lfsr(data_ex);
        ii := ii + 1;
      }
      data_ex_psd := data_ex;
      ComparedIs(h0, exp, got, size64, cnt_err);
      CountBuffer(cnt_err);
    }

    /** The binary-inversion checker: it never resynchronises. */
    method BufCheckInv(buf: seq<bv64>, size: u32) returns (cnt_err: nat)
      requires Valid() && size / 2 <= |buf|
      modifies this`block_mode, this`data_ex_inv, this`buf_current, this`buf_cnt_ok, this`buf_cnt_error,
        this`word_cnt_error, this`history, this`checks, word_error
      ensures Valid()
      ensures var got := buf[..size / 2];
              var errors := Mismatches(old(buf_current), Twisted(old(data_ex_inv), |got|), got, |got|);
              && cnt_err == |errors| && history == old(history) + errors
              && data_ex_inv == TwistN(old(data_ex_inv), |got|)
      ensures block_mode == NextKind(old(block_mode)) && buf_current == Inc(old(buf_current))
        && checks == old(checks) + 1
      ensures buf_cnt_error == (if cnt_err == 0 then old(buf_cnt_error) else Inc(old(buf_cnt_error)))
    {
      hide Twist, Mismatches, Compared, NextKind, LogValid, CountsValid;
      var size64 := size / 2;
      ghost var got, h0, state := buf[..size64], history, data_ex_inv;
      ghost var exp := Twisted(state, size64);
      var data_ex := data_ex_inv;
      cnt_err := 0;
      assert Compared(h0, exp, got, 0, 0) by { MismatchesNone(buf_current, exp, got); ComparedNone(h0, exp, got); }
      var ii := 0;
      while ii < size64
        modifies this`word_cnt_error, this`history, word_error
        invariant 0 <= ii <= size64 && data_ex == TwistN(state, ii)
        invariant LogValid() && Compared(h0, exp, got, ii, cnt_err)
      {
        cnt_err := Compare(ii, data_ex, buf[ii], cnt_err, h0, exp, got);
        data_ex := Twist(data_ex);
        ii := ii + 1;
      }
      data_ex_inv := data_ex;
      ComparedIs(h0, exp, got, size64, cnt_err);
      CountBuffer(cnt_err);
    }

    method CheckResult() returns (cnt_ok: u32, cnt_error: u32, total: u32)
      requires Valid()
      ensures total == |history| % TWO32 && (cnt_ok + cnt_error) % TWO32 == checks % TWO32
      ensures cnt_error == buf_cnt_error
    {
      cnt_ok, cnt_error, total := buf_cnt_ok, buf_cnt_error, word_cnt_error;
    }
  }
}
