/** What the errors the three checkers count and log say about the words received. */
module Checkers {
  import opened Modular
  import opened TestSequence
  import opened TestBuffer

  // ---------- any comparison ----------

  /** The positions below k where the words differ. */
  function Differing(exp: seq<bv64>, got: seq<bv64>, k: nat): set<int>
    requires k <= |exp| && k <= |got|
  {
    set i | 0 <= i < k && exp[i] != got[i]
  }

  /** The number of errors is the number of words that differ. */
  lemma {:induction false} CountIsDistance(block: u32, exp: seq<bv64>, got: seq<bv64>, k: nat)
    requires k <= |exp| && k <= |got|
    ensures |Mismatches(block, exp, got, k)| == |Differing(exp, got, k)|
  {
    if k == 0 {
    } else {
      CountIsDistance(block, exp, got, k - 1);
      var fewer := Differing(exp, got, k - 1);
      if exp[k - 1] != got[k - 1] {
        assert Differing(exp, got, k) == fewer + {k - 1};
      } else {
        assert Differing(exp, got, k) == fewer;
      }
    }
  }

  /** Each row names a differing word with its two values, the rows are in order, and none is missing. */
  ghost predicate Faithful(block: u32, exp: seq<bv64>, got: seq<bv64>, k: nat, rows: seq<ErrorRow>)
    requires k <= |exp| && k <= |got|
  {
    && (forall j :: 0 <= j < |rows| ==>
          rows[j].index < k && exp[rows[j].index] != got[rows[j].index]
          && rows[j] == ErrorRow(block, rows[j].index, exp[rows[j].index], got[rows[j].index]))
    && (forall i, j :: 0 <= i < j < |rows| ==> rows[i].index < rows[j].index)
    && (forall i :: 0 <= i < k && exp[i] != got[i] ==> ErrorRow(block, i, exp[i], got[i]) in rows)
  }

  lemma FaithfulNext(block: u32, exp: seq<bv64>, got: seq<bv64>, k: nat, rows: seq<ErrorRow>)
    requires 0 < k <= |exp| && k <= |got| && Faithful(block, exp, got, k - 1, rows)
    ensures exp[k - 1] == got[k - 1] ==> Faithful(block, exp, got, k, rows)
    ensures exp[k - 1] != got[k - 1] ==>
              Faithful(block, exp, got, k, rows + [ErrorRow(block, k - 1, exp[k - 1], got[k - 1])])
  {
    var more := rows + [ErrorRow(block, k - 1, exp[k - 1], got[k - 1])];
    assert more[|rows|] == ErrorRow(block, k - 1, exp[k - 1], got[k - 1]);
    forall i | 0 <= i < k - 1 && exp[i] != got[i] ensures ErrorRow(block, i, exp[i], got[i]) in more {
      assert ErrorRow(block, i, exp[i], got[i]) in rows;
    }
  }

  lemma {:induction false} RowsFaithful(block: u32, exp: seq<bv64>, got: seq<bv64>, k: nat)
    requires k <= |exp| && k <= |got|
    ensures Faithful(block, exp, got, k, Mismatches(block, exp, got, k))
  {
    if k == 0 {
    } else {
      RowsFaithful(block, exp, got, k - 1);
      FaithfulNext(block, exp, got, k, Mismatches(block, exp, got, k - 1));
      hide Faithful;
    }
  }

  lemma NoErrorsIff(block: u32, exp: seq<bv64>, got: seq<bv64>)
    requires |exp| == |got|
    ensures |Mismatches(block, exp, got, |exp|)| == 0 <==> exp == got
  {
    RowsFaithful(block, exp, got, |exp|);
    var rows := Mismatches(block, exp, got, |exp|);
    if |rows| > 0 {
      assert exp[rows[0].index] != got[rows[0].index];
    }
    hide Mismatches;
  }

  lemma OneMoreWord(block: u32, exp: seq<bv64>, got: seq<bv64>, k: nat)
    requires k < |exp| && k < |got|
    ensures |Mismatches(block, exp, got, k + 1)|
         == |Mismatches(block, exp, got, k)| + (if exp[k] != got[k] then 1 else 0)
  {
  }

  lemma {:induction false} PrefixOnly(block: u32, a: seq<bv64>, b: seq<bv64>, c: seq<bv64>, d: seq<bv64>, k: nat)
    requires k <= |a| == |c|
    ensures Mismatches(block, a + b, c + d, k) == Mismatches(block, a, c, k)
  {
    if k == 0 {
    } else {
      PrefixOnly(block, a, b, c, d, k - 1);
    }
  }

  /** Errors of two stretches add up to the errors of the whole. */
  lemma {:induction false} CountJoins(block: u32, a: seq<bv64>, b: seq<bv64>, c: seq<bv64>, d: seq<bv64>, k: nat)
    requires |a| == |c| && k <= |b| && k <= |d|
    ensures |Mismatches(block, a + b, c + d, |a| + k)| == |Mismatches(block, a, c, |a|)| + |Mismatches(block, b, d, k)|
  {
    hide Mismatches;
    if k == 0 {
      PrefixOnly(block, a, b, c, d, |a|);
      MismatchesNone(block, b, d);
    } else {
      CountJoins(block, a, b, c, d, k - 1);
      OneMoreWord(block, a + b, c + d, |a| + k - 1);
      OneMoreWord(block, b, d, k - 1);
      assert (a + b)[|a| + k - 1] == b[k - 1] && (c + d)[|a| + k - 1] == d[k - 1];
    }
  }

  lemma WholeCountJoins(block: u32, e: seq<bv64>, f: seq<bv64>, a: seq<bv64>, b: seq<bv64>)
    requires |e| == |a| && |f| == |b|
    ensures |Mismatches(block, e + f, a + b, |a + b|)|
         == |Mismatches(block, e, a, |a|)| + |Mismatches(block, f, b, |b|)|
  {
    hide Mismatches;
    CountJoins(block, e, f, a, b, |b|);
  }

  /** The log shows the first errors exactly while the error count has not wrapped. */
  lemma FirstErrorsShownIff(limit: nat, l: nat)
    ensures (forall i :: 0 <= i < limit && i < l ==> Latest(l, i) == i) <==> limit == 0 || l <= TWO32
  {
    if limit > 0 && l > TWO32 {
      assert Latest(l, 0) != 0;
    }
  }

  // ---------- the block checker ----------

  /** A block received out of turn is always reported, whatever its words happen to be. */
  lemma OutOfTurnDetected(block: u32, mode: u32, size64: nat, k: nat, j: nat, got: seq<bv64>)
    requires k % TWO32 != j % TWO32
    requires |got| == |RunBlock(mode, size64, k)| && got[0] == RunBlock(mode, size64, j)[0]
    ensures |Mismatches(block, RunBlock(mode, size64, k), got, |got|)| > 0
  {
    hide Signature, GenAt, Forced, Mismatches;
    var a, b := k % TWO32, j % TWO32;
    if a < b {
      SignaturesDiffer(a, b);
    } else {
      SignaturesDiffer(b, a);
    }
    NoErrorsIff(block, RunBlock(mode, size64, k), got);
  }

  // ---------- the binary-inversion checker ----------

  lemma TwistedJoins(state: bv64, m: nat, n: nat)
    ensures |Twisted(state, m)| == m && |Twisted(TwistN(state, m), n)| == n
    ensures Twisted(state, m + n) == Twisted(state, m) + Twisted(TwistN(state, m), n)
  {
    hide TwistN;
    forall i | 0 <= i < n ensures TwistN(state, m + i) == TwistN(TwistN(state, m), i) {
      TwistNAdd(state, m, i);
    }
  }

  /** Checking A and then B counts what checking the two as one buffer counts, and ends in the same state. */
  lemma InversionJoins(block: u32, state: bv64, a: seq<bv64>, b: seq<bv64>)
    ensures TwistN(state, |a| + |b|) == TwistN(TwistN(state, |a|), |b|)
    ensures |Mismatches(block, Twisted(state, |a| + |b|), a + b, |a + b|)|
         == |Mismatches(block, Twisted(state, |a|), a, |a|)|
            + |Mismatches(block, Twisted(TwistN(state, |a|), |b|), b, |b|)|
  {
    hide *;
    TwistNAdd(state, |a|, |b|);
    TwistedJoins(state, |a|, |b|);
    WholeCountJoins(block, Twisted(state, |a|), Twisted(TwistN(state, |a|), |b|), a, b);
  }

  // ---------- the pseudo-random checker ----------

  lemma PredictedJoins(state: bv64, a: seq<bv64>, b: seq<bv64>)
    ensures AfterPredicted(state, a + b) == AfterPredicted(AfterPredicted(state, a), b)
    ensures |Predicted(state, a)| == |a| && |Predicted(AfterPredicted(state, a), b)| == |b|
    ensures Predicted(state, a + b) == Predicted(state, a) + Predicted(AfterPredicted(state, a), b)
  {
    hide Lfsr;
    if b == [] {
      assert a + b == a;
    }
  }

  lemma PsdJoins(block: u32, state: bv64, a: seq<bv64>, b: seq<bv64>)
    ensures AfterPredicted(state, a + b) == AfterPredicted(AfterPredicted(state, a), b)
    ensures |Mismatches(block, Predicted(state, a + b), a + b, |a + b|)|
         == |Mismatches(block, Predicted(state, a), a, |a|)|
            + |Mismatches(block, Predicted(AfterPredicted(state, a), b), b, |b|)|
  {
    hide Predicted, AfterPredicted, Mismatches;
    PredictedJoins(state, a, b);
    WholeCountJoins(block, Predicted(state, a), Predicted(AfterPredicted(state, a), b), a, b);
  }

  /** The perfect stream from a state. */
  function PerfectStream(state: bv64, k: nat): seq<bv64> {
    seq(k, i requires 0 <= i => LfsrN(state, i))
  }

  function PsdCount(state: bv64, got: seq<bv64>, k: nat): nat
    requires k <= |got|
  {
    |Mismatches(0, Predicted(state, got), got, k)|
  }

  /** A wrong word costs at most two errors. */
  lemma {:induction false} AtMostTwoEach(state: bv64, got: seq<bv64>, k: nat)
    requires k <= |got|
    ensures PsdCount(state, got, k) + (if k > 0 && got[k - 1] != LfsrN(state, k - 1) then 1 else 0)
         <= 2 * |Mismatches(0, PerfectStream(state, |got|), got, k)|
  {
    hide Lfsr;
    if k == 0 {
    } else {
      AtMostTwoEach(state, got, k - 1);
    }
  }

  /** The checker is silent exactly on the perfect stream. */
  lemma {:induction false} SilentIff(state: bv64, got: seq<bv64>, k: nat)
    requires k <= |got|
    ensures PsdCount(state, got, k) == 0 <==> got[..k] == PerfectStream(state, k)
  {
    hide Lfsr;
    if k == 0 {
    } else {
      SilentIff(state, got, k - 1);
      assert got[..k] == got[..k - 1] + [got[k - 1]];
      assert PerfectStream(state, k) == PerfectStream(state, k - 1) + [LfsrN(state, k - 1)];
      if k > 1 && got[..k - 1] == PerfectStream(state, k - 1) {
        assert got[..k - 1][k - 2] == PerfectStream(state, k - 1)[k - 2];
      }
    }
  }

  // ---------- the shift register is linear ----------

  function Xor64(x: bv64, y: bv64): bv64 {
    x ^ y
  }

  lemma LfsrLinear(x: bv64, y: bv64)
    ensures Lfsr(Xor64(x, y)) == Xor64(Lfsr(x), Lfsr(y))
  {
  }

  lemma XorTwice(x: bv64, z: bv64)
    ensures Xor64(Xor64(x, z), z) == x
  {
  }

  lemma XorCancels(x: bv64, y: bv64, z: bv64)
    ensures Xor64(x, z) == Xor64(y, z) <==> x == y
  {
    hide Xor64;
    XorTwice(x, z);
    XorTwice(y, z);
  }

  lemma XorSelf(x: bv64)
    ensures Xor64(x, x) == 0
  {
  }

  /** What was added to the perfect stream on the way. */
  function Noise(state: bv64, got: seq<bv64>): seq<bv64> {
    seq(|got|, i requires 0 <= i < |got| => Xor64(got[i], LfsrN(state, i)))
  }

  lemma PredictedAt(state: bv64, got: seq<bv64>, i: nat)
    requires i < |got|
    ensures |Predicted(state, got)| == |got|
    ensures Predicted(state, got)[i] == if i == 0 then state else Lfsr(got[i - 1])
  {
    hide Lfsr;
  }

  lemma NoiseAt(state: bv64, got: seq<bv64>, i: nat)
    requires i < |got|
    ensures |Noise(state, got)| == |got| && Noise(state, got)[i] == Xor64(got[i], LfsrN(state, i))
  {
    hide Xor64, LfsrN;
  }

  lemma SameError(state: bv64, got: seq<bv64>, i: nat)
    requires i < |got|
    ensures |Predicted(state, got)| == |Noise(state, got)| == |Predicted(0, Noise(state, got))| == |got|
    ensures Predicted(state, got)[i] == got[i] <==> Predicted(0, Noise(state, got))[i] == Noise(state, got)[i]
  {
    hide Lfsr, Xor64, Predicted, Noise;
    PredictedAt(state, got, i);
    NoiseAt(state, got, i);
    PredictedAt(0, Noise(state, got), i);
    if i == 0 {
      XorCancels(state, got[0], state);
      XorSelf(state);
    } else {
      NoiseAt(state, got, i - 1);
      LfsrLinear(got[i - 1], LfsrN(state, i - 1));
      XorCancels(Lfsr(got[i - 1]), got[i], LfsrN(state, i));
    }
  }

  lemma NoiseLength(state: bv64, got: seq<bv64>)
    ensures |Noise(state, got)| == |Predicted(state, got)| == |Predicted(0, Noise(state, got))| == |got|
  {
  }

  /** The errors depend only on what was added to the stream, not on the stream. */
  lemma {:induction false} OnlyNoiseCounts(state: bv64, got: seq<bv64>, k: nat)
    requires k <= |got|
    ensures PsdCount(state, got, k) == PsdCount(0, Noise(state, got), k)
  {
    hide Predicted, Noise;
    NoiseLength(state, got);
    if k == 0 {
    } else {
      OnlyNoiseCounts(state, got, k - 1);
      SameError(state, got, k - 1);
    }
  }

  /** All words right but word p. */
  ghost predicate Isolated(state: bv64, got: seq<bv64>, p: nat) {
    && p < |got| && got[p] != LfsrN(state, p)
    && (forall i :: 0 <= i < |got| && i != p ==> got[i] == LfsrN(state, i))
  }

  lemma {:induction false} IsolatedCount(state: bv64, got: seq<bv64>, p: nat, k: nat)
    requires Isolated(state, got, p) && k <= |got|
    ensures PsdCount(state, got, k) == if k <= p then 0 else if k == p + 1 then 1 else 2
  {
    hide Lfsr;
    if k == 0 {
    } else {
      IsolatedCount(state, got, p, k - 1);
      if k == p + 2 && Lfsr(got[p]) == got[p + 1] {
        LfsrInjective(got[p], LfsrN(state, p));
      }
    }
  }

  /** Where the two errors fall at a cut: when the wrong word is the last of its buffer, the second goes to the next. */
  lemma ErrorsAtACut(state: bv64, a: seq<bv64>, b: seq<bv64>, p: nat)
    requires Isolated(state, a + b, p) && p + 1 < |a + b|
    ensures PsdCount(state, a, |a|) + PsdCount(AfterPredicted(state, a), b, |b|) == 2
    ensures PsdCount(state, a, |a|) == if |a| <= p then 0 else if |a| == p + 1 then 1 else 2
  {
    hide Lfsr, LfsrN, Mismatches;
    PsdJoins(0, state, a, b);
    IsolatedCount(state, a + b, p, |a + b|);
    IsolatedCount(state, a + b, p, |a|);
    var exp := Predicted(state, a + b);
    assert exp[..|a|] == Predicted(state, a);
    PrefixOnly(0, Predicted(state, a), exp[|a|..], a, b, |a|);
    assert Predicted(state, a) + exp[|a|..] == exp;
  }

  /** The words of a series of buffers, one after another. */
  function Joined(bufs: seq<seq<bv64>>): seq<bv64> {
    if bufs == [] then [] else Joined(bufs[..|bufs| - 1]) + bufs[|bufs| - 1]
  }

  /** The checker's state after the series, and the errors it counts over all of it. */
  function StateAfter(state: bv64, bufs: seq<seq<bv64>>): bv64 {
    if bufs == [] then state else AfterPredicted(StateAfter(state, bufs[..|bufs| - 1]), bufs[|bufs| - 1])
  }

  function CountOver(state: bv64, bufs: seq<seq<bv64>>): nat {
    if bufs == [] then 0
    else
      var last := bufs[|bufs| - 1];
      CountOver(state, bufs[..|bufs| - 1]) + PsdCount(StateAfter(state, bufs[..|bufs| - 1]), last, |last|)
  }

  lemma PredictedLength(state: bv64, got: seq<bv64>)
    ensures |Predicted(state, got)| == |got|
  {
  }

  /** However a stream is cut into buffers, the same errors are counted and the same state is reached. */
  lemma {:induction false} AnyCutCounts(state: bv64, bufs: seq<seq<bv64>>)
    ensures CountOver(state, bufs) == PsdCount(state, Joined(bufs), |Joined(bufs)|)
    ensures StateAfter(state, bufs) == AfterPredicted(state, Joined(bufs))
  {
    if bufs == [] {
    } else {
      hide Lfsr, Mismatches, Predicted, AfterPredicted;
      var init, last := bufs[..|bufs| - 1], bufs[|bufs| - 1];
      AnyCutCounts(state, init);
      PsdJoins(0, state, Joined(init), last);
      PredictedLength(state, Joined(init));
      PredictedLength(state, Joined(init) + last);
      PredictedLength(AfterPredicted(state, Joined(init)), last);
    }
  }

  /**
   One wrong word in an otherwise perfect stream costs exactly two errors, however the stream is cut into
   buffers; one if it is the very last so far.
   */
  lemma OneWrongWordCostsTwo(state: bv64, bufs: seq<seq<bv64>>, p: nat)
    requires Isolated(state, Joined(bufs), p)
    ensures CountOver(state, bufs) == if p + 1 < |Joined(bufs)| then 2 else 1
  {
    AnyCutCounts(state, bufs);
    IsolatedCount(state, Joined(bufs), p, |Joined(bufs)|);
  }
}
