/** What the words of every kind of block are, bit by bit. */
module BlockBits {
  import opened Modular
  import opened TestSequence
  import TestBuffer

  /** Bit i of a word; bit numbers have six bits. */
  predicate Bit(x: bv64, i: bv6) {
    (x >> i) & 1 == 1
  }

  /** The number of the j-th bit, round and round: j modulo 64. */
  function BitNumber(j: nat): bv6 {
    if j == 0 then 0 else BitNumber(j - 1) + 1
  }

  /** Only this bit is set. */
  ghost predicate OnlyBit(x: bv64, b: bv6) {
    forall i :: Bit(x, i) <==> i == b
  }

  /** Only this bit is clear. */
  ghost predicate OnlyClear(x: bv64, b: bv6) {
    forall i :: Bit(x, i) <==> i != b
  }

  /** Every bit differs. */
  ghost predicate Opposite(x: bv64, y: bv64) {
    forall i :: Bit(x, i) != Bit(y, i)
  }

  // ---------- single words ----------

  lemma NotBit(x: bv64, i: bv6)
    ensures Bit(Not(x), i) == !Bit(x, i)
  {
  }

  function SetLow(x: bv64): bv64 {
    x | 1
  }

  lemma ShiftIs(x: bv64)
    ensures ShiftIn(x, true) == SetLow(Double(x)) && ShiftIn(x, false) == Double(x)
  {
  }

  lemma DoubleBit(x: bv64, i: bv6)
    ensures i != 0 ==> Bit(Double(x), i) == Bit(x, i - 1)
    ensures !Bit(Double(x), 0)
  {
  }

  lemma SetLowBit(x: bv64, i: bv6)
    ensures Bit(SetLow(x), i) <==> i == 0 || Bit(x, i)
  {
  }

  lemma TopBit(x: bv64)
    ensures Top(x) == Bit(x, 63)
  {
  }

  lemma ShiftInBit(x: bv64, bit: bool, i: bv6)
    ensures Bit(ShiftIn(x, bit), i) == if i == 0 then bit else Bit(x, i - 1)
  {
    hide Bit, ShiftIn, Double, SetLow;
    ShiftIs(x);
    DoubleBit(x, i);
    SetLowBit(Double(x), i);
  }

  lemma RolBit(x: bv64, i: bv6)
    ensures Bit(Rol(x), i) == Bit(x, i - 1)
  {
    hide Bit, ShiftIn, Top;
    ShiftInBit(x, Top(x), i);
    TopBit(x);
  }

  lemma UnitBit(i: bv6)
    ensures Bit(1, i) <==> i == 0
  {
  }

  lemma Before(i: bv6, b: bv6)
    ensures i - 1 == b <==> i == b + 1
  {
  }

  lemma NoBit(i: bv6)
    ensures !Bit(0, i)
  {
  }

  lemma {:induction false} RunningBit(j: nat)
    ensures OnlyBit(RolN(1, j), BitNumber(j))
  {
    hide Bit, Rol;
    if j == 0 {
      forall i ensures Bit(1, i) <==> i == 0 {
        UnitBit(i);
      }
    } else {
      RunningBit(j - 1);
      forall i ensures Bit(RolN(1, j), i) <==> i == BitNumber(j) {
        RolBit(RolN(1, j - 1), i);
        Before(i, BitNumber(j - 1));
      }
    }
  }

  lemma OppositeNot(x: bv64)
    ensures Opposite(Not(x), x)
  {
    hide Bit, Not;
    forall i ensures Bit(Not(x), i) != Bit(x, i) {
      NotBit(x, i);
    }
  }

  // ---------- blocks ----------

  lemma StampBit(x: bv64, i: bv6)
    requires i < 32
    ensures Bit(Stamp(x), i + 32) == Bit(x, i)
  {
  }

  lemma StampBits(x: bv64)
    ensures Stamp(x) & 0xFFFF_FFFF == 0xA5A5_0123
    ensures forall i: bv6 :: i < 32 ==> Bit(Stamp(x), i + 32) == Bit(x, i)
  {
    forall i: bv6 | i < 32 ensures Bit(Stamp(x), i + 32) == Bit(x, i) {
      StampBit(x, i);
    }
  }

  /** The first word: the block's number in the upper half, 0xA5A50123 in the lower. */
  lemma SignatureBits(g: Gen, n: u32, size64: nat)
    ensures |Block(g, n, size64)| > 0
    ensures Block(g, n, size64)[0] & 0xFFFF_FFFF == 0xA5A5_0123
    ensures forall i: bv6 :: i < 32 ==> Bit(Block(g, n, size64)[0], i + 32) == Bit(AsWord(n), i)
  {
    StampBits(AsWord(n));
    hide Bit, Stamp, AsWord;
  }

  /** Kind 0, a running one: word i has only bit i - 1 set. */
  lemma RunningBits(g: Gen, n: u32, size64: nat, i: nat)
    requires g.kind == 0 && 1 <= i < |Block(g, n, size64)|
    ensures OnlyBit(Block(g, n, size64)[i], BitNumber(i - 1))
  {
    hide OnlyBit, RolN, BitNumber;
    RunningBit(i - 1);
  }

  /** Kind 2, a running one and its complement: words 2j and 2j + 1 have only bit j set and only bit j clear. */
  lemma PairBits(g: Gen, n: u32, size64: nat, j: nat)
    requires g.kind == 2 && 2 * j + 1 < |Block(g, n, size64)|
    ensures j > 0 ==> OnlyBit(Block(g, n, size64)[2 * j], BitNumber(j))
    ensures OnlyClear(Block(g, n, size64)[2 * j + 1], BitNumber(j))
  {
    hide Bit, RolN, BitNumber, Not, Signature;
    RunningBit(j);
    OppositeNot(RolN(1, j));
    assert Block(g, n, size64)[2 * j + 1] == Not(RolN(1, j));
  }

  /** The words before word i that are marked: their index agrees with the block's number modulo 256. */
  function Marked(n: u32, i: nat): set<int> {
    set k | 1 <= k < i && k % 256 == n % 256
  }

  lemma {:induction false} MarksCount(n: u32, i: nat)
    requires i > 0
    ensures Marks(n, i) == |Marked(n, i)|
  {
    hide Marks;
    if i == 1 {
      TestBuffer.MarksNext(n, 1);
      assert Marked(n, 1) == {};
    } else {
      TestBuffer.MarksNext(n, i - 1);
      MarksCount(n, i - 1);
      if (i - 1) % 256 == n % 256 {
        assert Marked(n, i) == Marked(n, i - 1) + {i - 1};
      } else {
        assert Marked(n, i) == Marked(n, i - 1);
      }
    }
  }

  /** Kind 4: marked words run through the bits, all others are zero. */
  lemma MarkedBits(g: Gen, n: u32, size64: nat, i: nat)
    requires g.kind == 4 && 1 <= i < |Block(g, n, size64)|
    ensures if i % 256 == n % 256 then OnlyBit(Block(g, n, size64)[i], BitNumber(|Marked(n, i)|))
            else Block(g, n, size64)[i] == 0
  {
    hide OnlyBit, RolN, BitNumber, Marks;
    MarksCount(n, i);
    RunningBit(|Marked(n, i)|);
  }

  lemma NotEnds()
    ensures Not(1) == 0xFFFF_FFFF_FFFF_FFFE && Not(0) == 0xFFFF_FFFF_FFFF_FFFF
  {
  }

  /** Kinds 1, 3 and 5 are kinds 0, 2 and 4 with every bit after the signature inverted. */
  lemma ComplementBits(g: Gen, h: Gen, n: u32, size64: nat, i: nat)
    requires g.kind in {0, 2, 4} && h.kind == g.kind + 1 && 1 <= i < |Block(g, n, size64)|
    ensures |Block(h, n, size64)| == |Block(g, n, size64)|
    ensures Block(h, n, size64)[0] == Block(g, n, size64)[0]
    ensures Opposite(Block(h, n, size64)[i], Block(g, n, size64)[i])
  {
    hide Opposite, RolN, Marks, Not, Signature;
    NotEnds();
    OppositeNot(Block(g, n, size64)[i]);
    RolNNot(1, i - 1);
    RolNNot(1, i / 2);
    RolNNot(1, Marks(n, i));
  }

  lemma CountsUp(x: bv64)
    ensures Inc64(x) == x + 1
  {
  }

  lemma CounterPairs(g: Gen, n: u32, size64: nat, j: nat)
    requires 6 <= g.kind <= 7 && 2 * j + 1 < |Block(g, n, size64)|
    ensures var b := Block(g, n, size64);
            && (j > 0 ==> b[2 * j] == Plus(g.count, j))
            && Opposite(b[2 * j + 1], Plus(g.count, j))
  {
    hide Opposite, Not, Word, Plus, Inc64;
    TestBuffer.CounterWords(g, n, j);
    OppositeNot(Plus(g.count, j));
  }

  /** Kinds 6 and 7 count: each pair is one more than the one before, and its second word the complement. */
  lemma CounterBits(g: Gen, n: u32, size64: nat, j: nat)
    requires 6 <= g.kind <= 7 && 2 * j + 1 < |Block(g, n, size64)|
    ensures var b := Block(g, n, size64);
            && (j == 0 ==> Opposite(b[1], g.count))
            && (j == 1 ==> b[2] == Inc64(g.count))
            && (j > 0 ==> Opposite(b[2 * j + 1], b[2 * j]))
            && (j > 1 ==> b[2 * j] == Inc64(b[2 * j - 2]))
  {
    hide Opposite, Not, Word, Inc64;
    CounterPairs(g, n, size64, j);
    if j > 0 {
      CounterPairs(g, n, size64, j - 1);
    }
  }

  /** Is an odd number of bits 63, 62, 60 and 59 set? */
  predicate Parity(x: bv64) {
    (Bit(x, 63) != Bit(x, 62)) != (Bit(x, 60) != Bit(x, 59))
  }

  lemma LfsrShift(x: bv64, i: bv6)
    requires i != 0
    ensures Bit(Lfsr(x), i) == Bit(x, i - 1)
  {
  }

  lemma LfsrFeed(x: bv64)
    ensures Bit(Lfsr(x), 0) == Parity(x)
  {
  }

  /** Kinds 8 and 9: each word is the one before shifted up, with the parity of its bits 63, 62, 60 and 59 below. */
  lemma NoiseBits(g: Gen, n: u32, size64: nat, i: nat)
    requires 8 <= g.kind <= 9 && 1 <= i < |Block(g, n, size64)|
    ensures var b := Block(g, n, size64);
            && b[1] == g.noise
            && (i > 1 ==>
                  && (forall k: bv6 :: k != 0 ==> Bit(b[i], k) == Bit(b[i - 1], k - 1))
                  && Bit(b[i], 0) == Parity(b[i - 1]))
  {
    hide Bit, Lfsr, Signature, Parity;
    if i > 1 {
      var x := Block(g, n, size64)[i - 1];
      assert Block(g, n, size64)[i] == Lfsr(x);
      forall k: bv6 | k != 0 ensures Bit(Lfsr(x), k) == Bit(x, k - 1) {
        LfsrShift(x, k);
      }
      LfsrFeed(x);
    }
  }

  /** The inversion stream: each word is the one before shifted up, with its top bit coming back inverted. */
  lemma TwistBits(x: bv64, i: bv6)
    ensures Bit(Twist(x), i) == if i == 0 then !Bit(x, 63) else Bit(x, i - 1)
  {
    hide Bit, ShiftIn, Top;
    ShiftInBit(x, !Top(x), i);
    TopBit(x);
  }

  /** Bit 7 of the mode is what forces a kind, and the kind is that of bits 11 to 8. */
  lemma ForcedDigits(g: Gen, high: nat, kind: nat, force: bool, low: nat)
    requires kind < 16 && low < 128 && 4096 * high + 4095 < TWO32
    ensures var mode := 4096 * high + 256 * kind + (if force then 128 else 0) + low;
            Forced(g, mode) == if force then Gen(kind, g.count, g.noise) else g
  {
    var bit := if force then 1 else 0;
    var mode := 4096 * high + 256 * kind + 128 * bit + low;
    DivModUnique(mode, 128, 32 * high + 2 * kind + bit, low);
    DivModUnique(mode, 256, 16 * high + kind, 128 * bit + low);
    DivModUnique(32 * high + 2 * kind + bit, 2, 16 * high + kind, bit);
    DivModUnique(16 * high + kind, 16, high, kind);
  }
}
