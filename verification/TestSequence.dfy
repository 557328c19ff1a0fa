/** The reference test stream: what every 64-bit word of every block is. */
module TestSequence {
  import opened Modular

  // ---------- one-step generators ----------

  predicate Top(x: bv64) {
    x & 0x8000_0000_0000_0000 != 0
  }

  function ShiftIn(x: bv64, bit: bool): bv64 {
    (x << 1) | (if bit then 1 else 0)
  }

  /** Rotate left by one. */
  function Rol(x: bv64): bv64 {
    ShiftIn(x, Top(x))
  }

  /** The feedback bit of the shift register: bits 63, 62, 60 and 59. */
  function Feedback(x: bv64): bv64 {
    ((x >> 63) ^ (x >> 62) ^ (x >> 60) ^ (x >> 59)) & 1
  }

  function Lfsr(x: bv64): bv64 {
    (x << 1) | Feedback(x)
  }

  /** The twisted ring: the top bit comes back inverted. */
  function Twist(x: bv64): bv64 {
    ShiftIn(x, !Top(x))
  }

  function Inc64(x: bv64): bv64 {
    x + 1
  }

  function Not(x: bv64): bv64 {
    !x
  }

  // ---------- their iterates ----------

  function RolN(x: bv64, n: nat): bv64 {
    if n == 0 then x else Rol(RolN(x, n - 1))
  }

  function LfsrN(x: bv64, n: nat): bv64 {
    if n == 0 then x else Lfsr(LfsrN(x, n - 1))
  }

  function TwistN(x: bv64, n: nat): bv64 {
    if n == 0 then x else Twist(TwistN(x, n - 1))
  }

  /** x + n in 64-bit arithmetic. */
  function Plus(x: bv64, n: nat): bv64 {
    if n == 0 then x else Inc64(Plus(x, n - 1))
  }

  // ---------- blocks ----------

  /** The generator's state between blocks. */
  datatype Gen = Gen(kind: u32, count: bv64, noise: bv64)

  const FIRST := Gen(0, 0, 1)

  /** A block number as a 64-bit word. */
  function AsWord(n: nat): bv64 {
    Plus(0, n)
  }

  function Stamp(number: bv64): bv64 {
    (number << 32) | 0xA5A5_0123
  }

  function Signature(n: u32): bv64 {
    Stamp(AsWord(n))
  }

  function Seed(kind: u32): bv64 {
    if kind == 0 || kind == 2 || kind == 4 then 1 else 0xFFFF_FFFF_FFFF_FFFE
  }

  function Filler(kind: u32): bv64 {
    if kind == 4 then 0 else 0xFFFF_FFFF_FFFF_FFFF
  }

  /** How many of the words 1 to i-1 of block n carry the block's low byte as their index's low byte. */
  function Marks(n: u32, i: nat): nat
    requires i > 0
  {
    (i - 1 + 256 - (if n % 256 == 0 then 256 else n % 256)) / 256
  }

  /** Word i of block n. */
  function Word(g: Gen, n: u32, i: nat): bv64 {
    if i == 0 then Signature(n)
    else if g.kind <= 1 then RolN(Seed(g.kind), i - 1)
    else if g.kind <= 3 then
      if i % 2 == 0 then RolN(Seed(g.kind), i / 2) else Not(RolN(Seed(g.kind), i / 2))
    else if g.kind <= 5 then
      if i % 256 == n % 256 then RolN(Seed(g.kind), Marks(n, i)) else Filler(g.kind)
    else if g.kind <= 7 then
      if i % 2 == 0 then Plus(g.count, i / 2) else Not(Plus(g.count, i / 2))
    else LfsrN(g.noise, i - 1)
  }

  /**
   How many words a block of `size64` words really takes: pairs are written whole, the signature
   always, and a forced kind beyond 9 writes nothing else.
   */
  function Written(kind: u32, size64: nat): nat {
    if kind > 9 then 1
    else if kind == 2 || kind == 3 || kind == 6 || kind == 7 then
      if size64 <= 2 then 2 else size64 + size64 % 2
    else if size64 == 0 then 1 else size64
  }

  function Block(g: Gen, n: u32, size64: nat): seq<bv64> {
    seq(Written(g.kind, size64), i requires 0 <= i => Word(g, n, i))
  }

  function NextKind(kind: u32): u32 {
    if Inc(kind) == 10 then 0 else Inc(kind)
  }

  function AfterBlock(g: Gen, size64: nat): Gen {
    Gen(NextKind(g.kind),
        if g.kind == 6 || g.kind == 7 then Plus(g.count, Written(g.kind, size64) / 2) else g.count,
        if g.kind == 8 || g.kind == 9 then LfsrN(g.noise, Written(g.kind, size64) - 1) else g.noise)
  }

  /** Bit 7 of the mode forces the kind in bits 11 to 8. */
  function Forced(g: Gen, mode: u32): Gen {
    if mode / 128 % 2 == 1 then g.(kind := mode / 256 % 16) else g
  }

  /** The generator before block k of a run in a fixed mode. */
  function GenAt(mode: u32, size64: nat, k: nat): Gen {
    if k == 0 then FIRST else AfterBlock(Forced(GenAt(mode, size64, k - 1), mode), size64)
  }

  /** Block k of the run; its number wraps at 2^32. */
  function RunBlock(mode: u32, size64: nat, k: nat): seq<bv64> {
    Block(Forced(GenAt(mode, size64, k), mode), k % TWO32, size64)
  }

  // ---------- closed forms ----------

  lemma {:induction false} RolNAdd(x: bv64, a: nat, b: nat)
    ensures RolN(x, a + b) == RolN(RolN(x, a), b)
  {
    hide Rol;
    if b == 0 {
    } else {
      RolNAdd(x, a, b - 1);
    }
  }

  lemma {:induction false} LfsrNAdd(x: bv64, a: nat, b: nat)
    ensures LfsrN(x, a + b) == LfsrN(LfsrN(x, a), b)
  {
    hide Lfsr;
    if b == 0 {
    } else {
      LfsrNAdd(x, a, b - 1);
    }
  }

  lemma {:induction false} PlusAdd(x: bv64, a: nat, b: nat)
    ensures Plus(x, a + b) == Plus(Plus(x, a), b)
  {
    hide Inc64;
    if b == 0 {
    } else {
      PlusAdd(x, a, b - 1);
    }
  }

  lemma {:induction false} TwistNAdd(x: bv64, a: nat, b: nat)
    ensures TwistN(x, a + b) == TwistN(TwistN(x, a), b)
  {
    hide Twist;
    if b == 0 {
    } else {
      TwistNAdd(x, a, b - 1);
    }
  }

  lemma RolLow()
    ensures RolN(1, 8) == 0x100
    ensures RolN(0x100, 8) == 0x1_0000
    ensures RolN(0x1_0000, 8) == 0x100_0000
    ensures RolN(0x100_0000, 8) == 0x1_0000_0000
  {
  }

  lemma RolHigh()
    ensures RolN(0x1_0000_0000, 8) == 0x100_0000_0000
    ensures RolN(0x100_0000_0000, 8) == 0x1_0000_0000_0000
    ensures RolN(0x1_0000_0000_0000, 8) == 0x100_0000_0000_0000
    ensures RolN(0x100_0000_0000_0000, 8) == 1
  {
  }

  lemma RolSixtyFour()
    ensures RolN(1, 64) == 1
  {
    hide RolN;
    RolLow();
    RolHigh();
    RolNAdd(1, 8, 8);
    RolNAdd(1, 16, 8);
    RolNAdd(1, 24, 8);
    RolNAdd(1, 32, 8);
    RolNAdd(1, 40, 8);
    RolNAdd(1, 48, 8);
    RolNAdd(1, 56, 8);
  }

  lemma NotOne()
    ensures Not(1) == 0xFFFF_FFFF_FFFF_FFFE
  {
  }

  predicate SingleBit(x: bv64) {
    x != 0 && x & (x - 1) == 0
  }

  lemma SingleBitTop(x: bv64)
    requires SingleBit(x)
    ensures Top(x) ==> x == 0x8000_0000_0000_0000
    ensures !Top(x) ==> SingleBit(x << 1)
  {
  }

  lemma OrZero(x: bv64)
    ensures x | 0 == x
  {
  }

  lemma RolTop()
    ensures Rol(0x8000_0000_0000_0000) == 1 && SingleBit(1)
  {
  }

  lemma SingleBitRol(x: bv64)
    requires SingleBit(x)
    ensures SingleBit(Rol(x))
  {
    SingleBitTop(x);
    OrZero(x << 1);
    RolTop();
    hide SingleBit, Top;
  }

  lemma ShiftNotZero(x: bv64)
    ensures (!x << 1) | 0 == !((x << 1) | 1)
  {
  }

  lemma ShiftNotOne(x: bv64)
    ensures (!x << 1) | 1 == !((x << 1) | 0)
  {
  }

  lemma ShiftInNot(x: bv64, bit: bool)
    ensures ShiftIn(Not(x), !bit) == Not(ShiftIn(x, bit))
  {
    if bit {
      ShiftNotZero(x);
    } else {
      ShiftNotOne(x);
    }
  }

  lemma TopNot(x: bv64)
    ensures Top(Not(x)) == !Top(x)
  {
  }

  lemma RolNot(x: bv64)
    ensures Rol(Not(x)) == Not(Rol(x))
    ensures Twist(Not(x)) == Not(Twist(x))
  {
    hide ShiftIn, Top, Not;
    ShiftInNot(x, Top(x));
    ShiftInNot(x, !Top(x));
    TopNot(x);
  }

  lemma {:induction false} RolNNot(x: bv64, n: nat)
    ensures RolN(Not(x), n) == Not(RolN(x, n))
  {
    hide Rol, Not;
    if n == 0 {
    } else {
      RolNNot(x, n - 1);
      RolNot(RolN(x, n - 1));
    }
  }

  lemma {:induction false} SingleBitAlways(k: nat)
    ensures SingleBit(RolN(1, k))
  {
    hide Rol, SingleBit;
    RolTop();
    if k == 0 {
    } else {
      SingleBitAlways(k - 1);
      SingleBitRol(RolN(1, k - 1));
    }
  }

  /** A running-one word has one bit set and returns every 64 steps; the running zero is its complement. */
  lemma {:induction false} RunningOne(k: nat)
    ensures RolN(1, k) == RolN(1, k % 64) && SingleBit(RolN(1, k))
    ensures RolN(Seed(1), k) == Not(RolN(Seed(0), k))
  {
    hide Rol, Not, SingleBit, RolN;
    NotOne();
    RolNNot(1, k);
    if k >= 64 {
      RunningOne(k - 64);
      RolNAdd(1, 64, k - 64);
      RolSixtyFour();
    } else {
      SingleBitAlways(k);
    }
  }

  function Unlfsr(y: bv64): bv64 {
    (y >> 1) | (((y ^ (y >> 63) ^ (y >> 61) ^ (y >> 60)) & 1) << 63)
  }

  /** The shift-register step can be undone. */
  lemma LfsrBits(x: bv64)
    ensures Unlfsr(Lfsr(x)) == x
  {
  }

  lemma LfsrInjective(x: bv64, y: bv64)
    requires Lfsr(x) == Lfsr(y)
    ensures x == y
  {
    LfsrBits(x);
    LfsrBits(y);
    hide Lfsr;
  }

  lemma LfsrZero()
    ensures Lfsr(0) == 0
  {
  }

  /** The pseudo-random state never dies out. */
  lemma {:induction false} LfsrNeverZero(x: bv64, n: nat)
    requires x != 0
    ensures LfsrN(x, n) != 0
  {
    hide Lfsr;
    if n == 0 {
    } else {
      LfsrNeverZero(x, n - 1);
      LfsrZero();
      if LfsrN(x, n) == 0 {
        LfsrInjective(LfsrN(x, n - 1), 0);
      }
    }
  }

  // ---------- the twisted ring ----------

  lemma {:induction false} TwistNNot(x: bv64, n: nat)
    ensures TwistN(Not(x), n) == Not(TwistN(x, n))
  {
    hide Twist, Not;
    if n == 0 {
    } else {
      TwistNNot(x, n - 1);
      RolNot(TwistN(x, n - 1));
    }
  }

  function Fill(x: bv64, n: nat): bv64 {
    if n == 0 then x else ShiftIn(Fill(x, n - 1), true)
  }

  /** k low ones, for k up to 64. */
  function Ones(k: nat): bv64 {
    Fill(0, k)
  }

  /** All ones below some bit, zeros above. */
  predicate Contiguous(x: bv64) {
    x & (x + 1) == 0
  }

  lemma ContiguousShift(x: bv64)
    requires Contiguous(x)
    ensures Contiguous(ShiftIn(x, true))
  {
  }

  lemma ContiguousTop(x: bv64)
    requires Contiguous(x)
    ensures Top(x) ==> x == 0xFFFF_FFFF_FFFF_FFFF
  {
  }

  lemma ContiguousEnds()
    ensures Contiguous(0) && ShiftIn(0xFFFF_FFFF_FFFF_FFFF, true) == 0xFFFF_FFFF_FFFF_FFFF
    ensures Not(0) == 0xFFFF_FFFF_FFFF_FFFF && Not(0xFFFF_FFFF_FFFF_FFFF) == 0
  {
  }

  lemma {:induction false} OnesContiguous(k: nat)
    ensures Contiguous(Ones(k))
  {
    hide Contiguous, ShiftIn;
    ContiguousEnds();
    if k == 0 {
    } else {
      OnesContiguous(k - 1);
      ContiguousShift(Ones(k - 1));
    }
  }

  lemma {:induction false} OnesSaturate(k: nat, j: nat)
    requires Ones(k) == 0xFFFF_FFFF_FFFF_FFFF && k <= j
    ensures Ones(j) == 0xFFFF_FFFF_FFFF_FFFF
  {
    hide ShiftIn;
    ContiguousEnds();
    if k < j {
      OnesSaturate(k, j - 1);
    }
  }

  lemma {:induction false} FillAdd(x: bv64, a: nat, b: nat)
    ensures Fill(x, a + b) == Fill(Fill(x, a), b)
  {
    hide ShiftIn;
    if b == 0 {
    } else {
      FillAdd(x, a, b - 1);
    }
  }

  lemma FillEights()
    ensures Fill(0, 8) == 0xFF
    ensures Fill(0xFF, 8) == 0xFFFF
    ensures Fill(0xFFFF, 8) == 0xFF_FFFF
    ensures Fill(0xFF_FFFF, 8) == 0xFFFF_FFFF
    ensures Fill(0xFFFF_FFFF, 8) == 0xFF_FFFF_FFFF
    ensures Fill(0xFF_FFFF_FFFF, 8) == 0xFFFF_FFFF_FFFF
    ensures Fill(0xFFFF_FFFF_FFFF, 8) == 0xFF_FFFF_FFFF_FFFF
    ensures Fill(0xFF_FFFF_FFFF_FFFF, 7) == 0x7FFF_FFFF_FFFF_FFFF
  {
  }

  lemma OnesSixtyThree()
    ensures Ones(63) == 0x7FFF_FFFF_FFFF_FFFF
  {
    hide Fill;
    FillEights();
    FillAdd(0, 8, 8);
    FillAdd(0, 16, 8);
    FillAdd(0, 24, 8);
    FillAdd(0, 32, 8);
    FillAdd(0, 40, 8);
    FillAdd(0, 48, 8);
    FillAdd(0, 56, 7);
  }

  lemma NotZero(x: bv64)
    ensures Not(x) == 0 <==> x == 0xFFFF_FFFF_FFFF_FFFF
  {
  }

  lemma LowBitSet(x: bv64)
    ensures ShiftIn(x, true) != 0
  {
  }

  lemma OnesBelowTop(k: nat)
    requires k < 64
    ensures !Top(Ones(k)) && Not(Ones(k)) != 0
    ensures k > 0 ==> Ones(k) != 0
  {
    OnesContiguous(k);
    ContiguousTop(Ones(k));
    OnesSixtyThree();
    NotZero(Ones(k));
    if k > 0 {
      LowBitSet(Ones(k - 1));
    }
    hide Contiguous, Top, Not, ShiftIn;
    if Ones(k) == 0xFFFF_FFFF_FFFF_FFFF {
      OnesSaturate(k, 63);
    }
  }

  lemma {:induction false} TwistFromZero(k: nat)
    requires k <= 64
    ensures TwistN(0, k) == Ones(k)
  {
    hide ShiftIn, Top;
    if k == 0 {
    } else {
      TwistFromZero(k - 1);
      OnesBelowTop(k - 1);
    }
  }

  lemma OnesNext(k: nat)
    ensures Ones(k + 1) == ShiftIn(Ones(k), true)
  {
    hide ShiftIn;
  }

  lemma LastOne()
    ensures ShiftIn(0x7FFF_FFFF_FFFF_FFFF, true) == 0xFFFF_FFFF_FFFF_FFFF
  {
  }

  lemma TwistHalfWay(k: nat)
    ensures TwistN(0, 64 + k) == Not(TwistN(0, k))
  {
    hide Twist, Not, TwistN, ShiftIn, Fill;
    TwistFromZero(64);
    OnesSixtyThree();
    ContiguousEnds();
    assert Ones(64) == ShiftIn(Ones(63), true) by { OnesNext(63); }
    LastOne();
    TwistNAdd(0, 64, k);
    TwistNNot(0, k);
  }

  lemma OnesZero()
    ensures Ones(0) == 0
  {
  }

  lemma NotNot(x: bv64)
    ensures Not(Not(x)) == x
  {
  }

  /** The expected sequence from zero: ones fill up from the low end, then drain; period exactly 128. */
  lemma {:induction false} TwistClosed(k: nat)
    ensures TwistN(0, k) == if k % 128 < 64 then Ones(k % 128) else Not(Ones(k % 128 - 64))
    ensures TwistN(0, k) == 0 <==> k % 128 == 0
  {
    hide TwistN, Ones, Not, Top;
    if k < 64 {
      TwistFromZero(k);
      OnesBelowTop(k);
      OnesZero();
    } else if k < 128 {
      TwistFromZero(k - 64);
      TwistHalfWay(k - 64);
      OnesBelowTop(k - 64);
    } else {
      TwistClosed(k - 128);
      TwistHalfWay(k - 64);
      TwistHalfWay(k - 128);
      NotNot(TwistN(0, k - 128));
    }
  }

  // ---------- block numbers ----------

  function Double(x: bv64): bv64 {
    x << 1
  }

  /** x shifted left m times. */
  function Lift(x: bv64, m: nat): bv64
    decreases m
  {
    if m == 0 then x else Double(Lift(x, m - 1))
  }

  function TwoTo(k: nat): nat {
    if k == 0 then 1 else 2 * TwoTo(k - 1)
  }

  lemma CountUp(x: bv64)
    ensures Inc64(Inc64(Double(x))) == Double(Inc64(x))
  {
  }

  function Up(x: bv64): bv64 {
    x << 32
  }

  lemma ZeroStays()
    ensures Double(0) == 0 && Up(0) == 0
  {
  }

  /** The low bit of a number, and the rest. */
  lemma {:induction false} NumberBits(n: nat)
    ensures AsWord(n) == if n % 2 == 1 then Inc64(Double(AsWord(n / 2))) else Double(AsWord(n / 2))
  {
    hide Double, Inc64;
    if n == 0 {
      ZeroStays();
    } else {
      NumberBits(n - 1);
      CountUp(AsWord((n - 1) / 2));
    }
  }

  lemma {:induction false} LiftAdd(x: bv64, a: nat, b: nat)
    ensures Lift(x, a + b) == Lift(Lift(x, a), b)
    decreases b
  {
    hide Double;
    if b == 0 {
    } else {
      LiftAdd(x, a, b - 1);
    }
  }

  lemma {:induction false} LiftZero(m: nat)
    ensures Lift(0, m) == 0
  {
    hide Double;
    ZeroStays();
    if m == 0 {
    } else {
      LiftZero(m - 1);
    }
  }

  /** Shifts by three, four and thirty-two at once. */
  function Three(x: bv64): bv64 {
    x << 3
  }

  function Four(x: bv64): bv64 {
    x << 4
  }

  lemma DoubleFour(x: bv64)
    ensures Double(Double(Double(Double(x)))) == Four(x)
  {
  }

  lemma DoubleThree(x: bv64)
    ensures Double(Double(Double(x))) == Three(x)
  {
  }

  lemma LiftFour(x: bv64)
    ensures Lift(x, 4) == Four(x) && Lift(x, 3) == Three(x)
  {
    hide Double, Three, Four;
    DoubleFour(x);
    DoubleThree(x);
    assert Lift(x, 2) == Double(Double(x));
  }

  function Fours(x: bv64, k: nat): bv64
    decreases k
  {
    if k == 0 then x else Four(Fours(x, k - 1))
  }

  lemma LiftNone(x: bv64)
    ensures Lift(x, 0) == x
  {
  }

  lemma {:induction false} LiftFours(x: bv64, k: nat)
    ensures Lift(x, 4 * k) == Fours(x, k)
    decreases k
  {
    hide Four, Lift;
    if k == 0 {
      assert Lift(x, 0) == x by { LiftNone(x); }
    } else {
      LiftFours(x, k - 1);
      LiftAdd(x, 4 * (k - 1), 4);
      LiftFour(Fours(x, k - 1));
    }
  }

  lemma EightFours(x: bv64)
    ensures Four(Four(Four(Four(Four(Four(Four(Four(x)))))))) == Up(x)
  {
  }

  lemma FifteenFours(x: bv64)
    ensures Three(Four(Four(Four(Four(Four(Four(Four(Four(Four(Four(Four(Four(Four(Four(Four(
              Inc64(Double(x)))))))))))))))))) != 0
  {
  }

  lemma LiftUp(x: bv64)
    ensures Lift(x, 32) == Up(x)
  {
    hide Lift, Four, Up;
    LiftFours(x, 8);
    EightFours(x);
  }

  lemma OddLifts(x: bv64)
    ensures Lift(Inc64(Double(x)), 63) != 0
  {
    hide Lift, Four, Three, Inc64, Double;
    var y := Inc64(Double(x));
    LiftFours(y, 15);
    LiftAdd(y, 60, 3);
    LiftFour(Fours(y, 15));
    FifteenFours(x);
  }

  /** A number below 2^(64-m) keeps a bit set after m shifts. */
  lemma {:induction false} NumberLifts(d: nat, m: nat)
    requires 0 < d && m <= 64 && d < TwoTo(64 - m)
    ensures Lift(AsWord(d), m) != 0
    decreases d
  {
    hide Double, Inc64, AsWord;
    NumberBits(d);
    var h := AsWord(d / 2);
    if d % 2 == 1 {
      OddLifts(h);
      LiftAdd(AsWord(d), m, 63 - m);
      LiftZero(63 - m);
    } else {
      NumberLifts(d / 2, m + 1);
      assert Lift(h, 1) == AsWord(d) by { LiftNone(h); }
      LiftAdd(h, 1, m);
    }
  }

  lemma UpNext(x: bv64, y: bv64)
    requires Up(Inc64(x)) == Up(Inc64(y))
    ensures Up(x) == Up(y)
  {
  }

  lemma {:induction false} UpCancels(x: bv64, y: bv64, n: nat)
    requires Up(Plus(x, n)) == Up(Plus(y, n))
    ensures Up(x) == Up(y)
  {
    hide Up, Inc64;
    if n == 0 {
    } else {
      UpNext(Plus(x, n - 1), Plus(y, n - 1));
      UpCancels(x, y, n - 1);
    }
  }

  lemma StampUp(x: bv64, y: bv64)
    requires Stamp(x) == Stamp(y)
    ensures Up(x) == Up(y)
  {
  }

  lemma TwoToThirtyTwo()
    ensures TwoTo(32) == TWO32
  {
    assert TwoTo(8) == 0x100;
    assert TwoTo(16) == 0x1_0000;
    assert TwoTo(24) == 0x100_0000;
  }

  /** Different block numbers have different signatures. */
  lemma SignaturesDiffer(a: u32, b: u32)
    requires a < b
    ensures Signature(a) != Signature(b)
  {
    hide Plus, TwoTo, Stamp, Up, Lift;
    var d := b - a;
    PlusAdd(0, d, a);
    TwoToThirtyTwo();
    NumberLifts(d, 32);
    LiftUp(AsWord(d));
    ZeroStays();
    if Stamp(AsWord(a)) == Stamp(AsWord(b)) {
      StampUp(AsWord(a), AsWord(b));
      UpCancels(0, AsWord(d), a);
      assert false;
    }
  }

  // ---------- a whole run ----------

  /** Counter blocks, and noise blocks, among the first k of an unforced run. */
  function CounterBlocks(k: nat): nat {
    2 * (k / 10) + (if k % 10 <= 6 then 0 else if k % 10 == 7 then 1 else 2)
  }

  function NoiseBlocks(k: nat): nat {
    2 * (k / 10) + (if k % 10 <= 8 then 0 else 1)
  }

  function NoiseStep(size64: nat): nat {
    if size64 == 0 then 0 else size64 - 1
  }

  /** Unforced, block k has kind k mod 10, and counter and noise run on through the run. */
  function Expected(size64: nat, k: nat): Gen {
    Gen(k % 10, Plus(0, Written(6, size64) / 2 * CounterBlocks(k)), LfsrN(1, NoiseStep(size64) * NoiseBlocks(k)))
  }

  lemma OneMore(p: nat, c: nat)
    ensures p * (c + 1) == p * c + p
  {
  }

  lemma KindNext(k: nat)
    ensures NextKind(k % 10) == (k + 1) % 10
    ensures CounterBlocks(k + 1) == CounterBlocks(k) + (if k % 10 == 6 || k % 10 == 7 then 1 else 0)
    ensures NoiseBlocks(k + 1) == NoiseBlocks(k) + (if k % 10 == 8 || k % 10 == 9 then 1 else 0)
  {
    var q, r := k / 10, k % 10;
    assert k == 10 * q + r;
    if r == 9 {
      DivModUnique(k + 1, 10, q + 1, 0);
    } else {
      DivModUnique(k + 1, 10, q, r + 1);
    }
  }

  lemma ExpectedNext(size64: nat, k: nat)
    ensures AfterBlock(Expected(size64, k), size64) == Expected(size64, k + 1)
  {
    hide Plus, LfsrN;
    var p, s, c, z := Written(6, size64) / 2, NoiseStep(size64), CounterBlocks(k), NoiseBlocks(k);
    PlusAdd(0, p * c, p);
    LfsrNAdd(1, s * z, s);
    OneMore(p, c);
    OneMore(s, z);
    KindNext(k);
  }

  lemma ExpectedFirst(size64: nat)
    ensures Expected(size64, 0) == FIRST
  {
    hide Written, NoiseStep;
    assert CounterBlocks(0) == 0 && NoiseBlocks(0) == 0;
  }

  lemma {:induction false} WholeRun(mode: u32, size64: nat, k: nat)
    requires mode / 128 % 2 == 0
    ensures GenAt(mode, size64, k) == Expected(size64, k)
  {
    hide AfterBlock, CounterBlocks, NoiseBlocks, Written, NoiseStep;
    if k == 0 {
      ExpectedFirst(size64);
    } else {
      WholeRun(mode, size64, k - 1);
      ExpectedNext(size64, k - 1);
    }
  }
}
