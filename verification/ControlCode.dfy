/**
 The control code that protects one 64-slot descriptor block.

 The driver computes it in a 32-bit register; the board checks it in a 16-bit one.
 */
module ControlCode {
  const SIGNATURE: bv16 := 0x4953

  /** One 8-byte table entry as its four little-endian 16-bit words. */
  datatype Slot = Slot(w0: bv16, w1: bv16, w2: bv16, w3: bv16)

  const EMPTY := Slot(0, 0, 0, 0)

  type Block = b: seq<Slot> | |b| == 64 witness seq(64, i => EMPTY)

  function Xor(x: bv16, y: bv16): bv16 {
    x ^ y
  }

  /** The four words of a slot xored together; both register widths absorb this value. */
  function Mix(slot: Slot): bv16 {
    Xor(Xor(slot.w0, slot.w1), Xor(slot.w2, slot.w3))
  }

  // ---------- the driver's 32-bit register ----------

  function Absorb32(c: bv32, slot: Slot): bv32 {
    c ^ (slot.w0 as bv32) ^ (slot.w1 as bv32) ^ (slot.w2 as bv32) ^ (slot.w3 as bv32)
  }

  predicate Carry32(c: bv32) {
    c & 0x8000 != 0
  }

  function Shift32(c: bv32, bit: bool): bv32 {
    (c << 1) | (if bit then 1 else 0)
  }

  /** Bit 15 is carried, inverted, into bit 0; the bits above 15 keep shifting up. */
  function Rotate32(c: bv32): bv32 {
    Shift32(c, !Carry32(c))
  }

  function Low(c: bv32): bv16 {
    (c & 0xFFFF) as bv16
  }

  /** The register after k slots, each absorbed and then rotated. */
  function Register32(b: seq<Slot>, k: nat): bv32
    requires k <= |b|
  {
    if k == 0 then 0xFFFF_FFFF else Rotate32(Absorb32(Register32(b, k - 1), b[k - 1]))
  }

  /** The driver's final value: the last slot is absorbed but not rotated. */
  function Code32(b: Block): bv32 {
    Absorb32(Register32(b, 63), b[63])
  }

  /** Running the driver's loop over a finished block leaves this in the low half. */
  function Residue(b: Block): bv16 {
    Low(Code32(b))
  }

  function WithCode(b: Block, w: bv16): Block {
    b[63 := b[63].(w3 := w)]
  }

  /** A block finished with the code computed while its code word was clear. */
  function Sign(b: Block): Block {
    WithCode(b, Residue(WithCode(b, 0)))
  }

  /** The loop of the driver, over 64 slots of a table held in memory. */
  method ComputeControlCode(table: array<Slot>, start: nat) returns (code: bv32)
    requires start + 64 <= table.Length
    ensures code == Code32(table[start..start + 64])
  {
    hide Absorb32, Rotate32;
    code := 0xFFFF_FFFF;
    var i := 0;
    ghost var b := table[start..start + 64];
    while i < 64
      invariant 0 <= i <= 64
      invariant i < 64 ==> code == Register32(b, i)
      invariant i == 64 ==> code == Code32(b)
    {
      var slot := table[start + i];
      assert slot == b[i];
      code := Absorb32(code, slot);
      if i != 63 {
        code := Rotate32(code);
      }
      i := i + 1;
    }
  }

  // ---------- algebra of 16-bit words ----------

  function Rol16(x: bv16): bv16 {
    (x << 1) | (x >> 15)
  }

  lemma Comm(x: bv16, y: bv16)
    ensures Xor(x, y) == Xor(y, x)
  {
  }

  lemma Assoc(x: bv16, y: bv16, z: bv16)
    ensures Xor(Xor(x, y), z) == Xor(x, Xor(y, z))
  {
  }

  lemma Unit(x: bv16)
    ensures Xor(x, 0) == x && Xor(x, x) == 0
  {
  }

  lemma Cancel(x: bv16, y: bv16, z: bv16)
    ensures Xor(x, y) == z <==> y == Xor(x, z)
  {
    Unit(x);
    Unit(y);
    Unit(z);
    Assoc(x, x, y);
    Assoc(x, x, z);
    Comm(0, y);
    Comm(0, z);
    hide Xor;
  }

  lemma Swap(a: bv16, b: bv16, c: bv16, d: bv16)
    ensures Xor(Xor(a, b), Xor(c, d)) == Xor(Xor(a, c), Xor(b, d))
  {
    hide Xor;
    Assoc(a, b, Xor(c, d));
    Assoc(b, c, d);
    Comm(b, c);
    Assoc(c, b, d);
    Assoc(a, c, Xor(b, d));
  }

  lemma Rol16Xor(x: bv16, y: bv16)
    ensures Rol16(Xor(x, y)) == Xor(Rol16(x), Rol16(y))
  {
  }

  lemma Rol16Zero(x: bv16)
    ensures Rol16(x) == 0 <==> x == 0
  {
  }

  // ---------- the 16-bit register it refines ----------

  /** Rotate left by one; the bit that wraps round comes back inverted. */
  function Rotate16(x: bv16): bv16 {
    Rol16(x) ^ 1
  }

  predicate Carry16(x: bv16) {
    x & 0x8000 != 0
  }

  function Shift16(x: bv16, bit: bool): bv16 {
    (x << 1) | (if bit then 1 else 0)
  }

  function Register16(b: seq<Slot>, k: nat): bv16
    requires k <= |b|
  {
    if k == 0 then 0xFFFF else Rotate16(Xor(Register16(b, k - 1), Mix(b[k - 1])))
  }

  lemma LowOfAbsorbed(c: bv32, w0: bv16, w1: bv16, w2: bv16, w3: bv16)
    ensures ((c ^ (w0 as bv32) ^ (w1 as bv32) ^ (w2 as bv32) ^ (w3 as bv32)) & 0xFFFF) as bv16
         == ((c & 0xFFFF) as bv16) ^ ((w0 ^ w1) ^ (w2 ^ w3))
  {
  }

  lemma LowAbsorb(c: bv32, slot: Slot)
    ensures Low(Absorb32(c, slot)) == Xor(Low(c), Mix(slot))
  {
    LowOfAbsorbed(c, slot.w0, slot.w1, slot.w2, slot.w3);
  }

  lemma LowShift(c: bv32, bit: bool)
    ensures Low(Shift32(c, bit)) == Shift16(Low(c), bit)
  {
  }

  lemma CarryBit(c: bv32)
    ensures Carry32(c) <==> Carry16(Low(c))
  {
  }

  lemma CarryOut(x: bv16)
    ensures x & 0x8000 != 0 ==> ((x << 1) | (x >> 15)) ^ 1 == (x << 1) | 0
    ensures x & 0x8000 == 0 ==> ((x << 1) | (x >> 15)) ^ 1 == (x << 1) | 1
  {
  }

  lemma RotateIsShift(x: bv16)
    ensures Rotate16(x) == Shift16(x, !Carry16(x))
  {
    CarryOut(x);
  }

  lemma LowRotate(c: bv32)
    ensures Low(Rotate32(c)) == Rotate16(Low(c))
  {
    hide Low, Shift32, Shift16, Carry32, Carry16, Rotate16;
    CarryBit(c);
    RotateIsShift(Low(c));
    LowShift(c, !Carry32(c));
  }

  lemma LowStart()
    ensures Low(0xFFFF_FFFF) == 0xFFFF
  {
  }

  /** At every iteration the low half of the driver's register is the 16-bit register. */
  lemma {:induction false} RegisterRefines(b: seq<Slot>, k: nat)
    requires k <= |b|
    ensures Low(Register32(b, k)) == Register16(b, k)
  {
    hide Absorb32, Rotate32, Mix, Rotate16, Xor, Low;
    LowStart();
    if k == 0 {
    } else {
      RegisterRefines(b, k - 1);
      LowAbsorb(Register32(b, k - 1), b[k - 1]);
      LowRotate(Absorb32(Register32(b, k - 1), b[k - 1]));
    }
  }

  // ---------- closed form ----------

  function Rol16N(x: bv16, n: nat): bv16 {
    if n == 0 then x else Rol16(Rol16N(x, n - 1))
  }

  /** Each of the first k slots, rotated by its distance from slot n, all xored together. */
  function Fold(b: seq<Slot>, k: nat, n: nat): bv16
    requires k <= |b| && k <= n + 1
  {
    if k == 0 then 0 else Xor(Fold(b, k - 1, n), Rol16N(Mix(b[k - 1]), n + 1 - k))
  }

  /** The register over k empty slots. */
  function Blank(k: nat): bv16 {
    if k == 0 then 0xFFFF else Rotate16(Blank(k - 1))
  }

  lemma {:induction false} FoldShift(b: seq<Slot>, k: nat, n: nat)
    requires k <= |b| && k <= n + 1
    ensures Fold(b, k, n + 1) == Rol16(Fold(b, k, n))
  {
    hide Xor, Mix, Rol16;
    if k > 0 {
      FoldShift(b, k - 1, n);
      Rol16Xor(Fold(b, k - 1, n), Rol16N(Mix(b[k - 1]), n + 1 - k));
    } else {
      Rol16Zero(0);
    }
  }

  lemma RotateIsXor(x: bv16)
    ensures Rotate16(x) == Xor(Rol16(x), 1)
  {
  }

  lemma RotateXor(x: bv16, y: bv16)
    ensures Rotate16(Xor(x, y)) == Xor(Rotate16(x), Rol16(y))
  {
    hide Xor, Rol16, Rotate16;
    Rol16Xor(x, y);
    RotateIsXor(x);
    RotateIsXor(Xor(x, y));
    Assoc(Rol16(x), Rol16(y), 1);
    Comm(Rol16(y), 1);
    Assoc(Rol16(x), 1, Rol16(y));
  }

  lemma {:induction false} RegisterClosed(b: seq<Slot>, k: nat)
    requires k <= |b|
    ensures Register16(b, k) == Xor(Blank(k), Fold(b, k, k))
  {
    hide Xor, Mix, Rol16, Rotate16;
    if k > 0 {
      RegisterClosed(b, k - 1);
      var m := Mix(b[k - 1]);
      var f := Fold(b, k - 1, k - 1);
      Assoc(Blank(k - 1), f, m);
      RotateXor(Blank(k - 1), Xor(f, m));
      Rol16Xor(f, m);
      FoldShift(b, k - 1, k - 1);
      assert Rol16N(m, 1) == Rol16(Rol16N(m, 0));
    } else {
      Unit(0xFFFF);
    }
  }

  function Rotate4(x: bv16): bv16 {
    ((x << 4) | (x >> 12)) ^ 0x000F
  }

  lemma FourRotations(x: bv16)
    ensures Rotate16(Rotate16(Rotate16(Rotate16(x)))) == Rotate4(x)
  {
  }

  lemma FourFours(x: bv16)
    ensures Rotate4(Rotate4(Rotate4(Rotate4(x)))) == Xor(x, 0xFFFF)
  {
  }

  lemma BlankFour(k: nat)
    ensures Blank(k + 4) == Rotate4(Blank(k))
  {
    hide Rotate16, Rotate4;
    assert Blank(k + 2) == Rotate16(Rotate16(Blank(k)));
    FourRotations(Blank(k));
  }

  /** Sixteen rotations with an inverted carry complement the register, so 32 restore it. */
  lemma BlankSixteen(k: nat)
    ensures Blank(k + 16) == Xor(Blank(k), 0xFFFF)
  {
    hide Rotate4, Blank, Xor;
    BlankFour(k);
    BlankFour(k + 4);
    BlankFour(k + 8);
    BlankFour(k + 12);
    FourFours(Blank(k));
  }

  lemma RotateBack(x: bv16)
    ensures Rotate16(x) == 0xFFFF ==> x == 0x7FFF
    ensures Rotate16(x) == 0x0001 <==> x == 0
  {
  }

  lemma BlankThirtyTwo(k: nat)
    ensures Blank(k + 32) == Blank(k)
  {
    hide Blank, Xor;
    BlankSixteen(k);
    BlankSixteen(k + 16);
    Assoc(Blank(k), 0xFFFF, 0xFFFF);
    Unit(0xFFFF);
    Unit(Blank(k));
  }

  lemma BlankEnds(k: nat)
    ensures Blank(0) == 0xFFFF && Blank(k + 1) == Rotate16(Blank(k))
  {
    hide Rotate16;
  }

  lemma BlankSixtyThree()
    ensures Blank(63) == 0x7FFF
  {
    hide Rotate16, Blank;
    BlankThirtyTwo(0);
    BlankThirtyTwo(32);
    BlankEnds(63);
    RotateBack(Blank(63));
  }

  lemma FoldLast(b: Block)
    ensures Fold(b, 64, 63) == Xor(Fold(b, 63, 63), Mix(b[63]))
  {
    hide Xor, Mix;
    assert Rol16N(Mix(b[63]), 0) == Mix(b[63]);
  }

  /** The final code is a constant xor the words of each slot rotated by the slot's distance from the end. */
  lemma CodeClosed(b: Block)
    ensures Residue(b) == Xor(0x7FFF, Fold(b, 64, 63))
  {
    hide Xor, Mix, Absorb32, Low, Register32, Register16, Fold;
    RegisterRefines(b, 63);
    RegisterClosed(b, 63);
    BlankSixtyThree();
    LowAbsorb(Register32(b, 63), b[63]);
    FoldLast(b);
    Assoc(0x7FFF, Fold(b, 63, 63), Mix(b[63]));
  }

  // ---------- signing ----------

  lemma CodeWordMix(slot: Slot, w: bv16)
    ensures Mix(slot.(w3 := w)) == Xor(Mix(slot.(w3 := 0)), w)
  {
    var head := Xor(slot.w0, slot.w1);
    hide Xor;
    Assoc(head, slot.w2, w);
    Unit(slot.w2);
    assert Xor(slot.w2, 0) == slot.w2;
  }

  lemma {:induction false} FoldLocal(b: seq<Slot>, c: seq<Slot>, k: nat, n: nat)
    requires k <= |b| && k <= |c| && k <= n + 1
    requires forall i :: 0 <= i < k ==> b[i] == c[i]
    ensures Fold(b, k, n) == Fold(c, k, n)
  {
    hide Xor, Mix;
    if k == 0 {
    } else {
      FoldLocal(b, c, k - 1, n);
    }
  }

  lemma CodeWordAdds(b: Block, w: bv16)
    ensures Residue(WithCode(b, w)) == Xor(Residue(WithCode(b, 0)), w)
  {
    hide Xor, Mix, Residue, Fold;
    var c, blank := WithCode(b, w), WithCode(b, 0);
    CodeClosed(c);
    CodeClosed(blank);
    FoldLast(c);
    FoldLast(blank);
    FoldLocal(blank, c, 63, 63);
    CodeWordMix(b[63], w);
    Assoc(Fold(blank, 63, 63), Mix(blank[63]), w);
    Assoc(0x7FFF, Fold(blank, 64, 63), w);
  }

  /** Of all the code words a block could carry, exactly the one Sign stores leaves a zero residue. */
  lemma ZeroResidueIffSigned(b: Block, w: bv16)
    ensures Residue(WithCode(b, w)) == 0 <==> WithCode(b, w) == Sign(b)
  {
    hide Xor, Residue;
    CodeWordAdds(b, w);
    Cancel(Residue(WithCode(b, 0)), w, 0);
    Unit(Residue(WithCode(b, 0)));
    assert WithCode(b, w)[63].w3 == w;
  }

  // ---------- the board's check ----------

  /** The board starts from all ones and rotates after every slot, the last one included. */
  predicate Accepts(b: Block) {
    Register16(b, 64) == 0x0001 && b[63].w2 == SIGNATURE
  }

  /** The board accepts exactly the blocks that carry the signature and leave the driver's residue zero. */
  lemma AcceptsIff(b: Block)
    ensures Accepts(b) <==> Residue(b) == 0 && b[63].w2 == SIGNATURE
  {
    hide Absorb32, Rotate16, Xor, Mix, Low;
    RegisterRefines(b, 63);
    LowAbsorb(Register32(b, 63), b[63]);
    RotateBack(Residue(b));
  }

  lemma SignedAccepted(b: Block)
    requires b[63].w2 == SIGNATURE
    ensures Accepts(Sign(b))
    ensures forall i :: 0 <= i < 63 ==> Sign(b)[i] == b[i]
    ensures Sign(b)[63] == b[63].(w3 := Sign(b)[63].w3)
  {
    hide Residue, Accepts;
    ZeroResidueIffSigned(b, Residue(WithCode(b, 0)));
    AcceptsIff(Sign(b));
  }

  // ---------- error detection ----------

  function XorSlot(x: Slot, y: Slot): Slot {
    Slot(Xor(x.w0, y.w0), Xor(x.w1, y.w1), Xor(x.w2, y.w2), Xor(x.w3, y.w3))
  }

  function Difference(b: Block, c: Block): Block {
    seq(64, i requires 0 <= i < 64 => XorSlot(b[i], c[i]))
  }

  lemma MixXor(x: Slot, y: Slot)
    ensures Mix(XorSlot(x, y)) == Xor(Mix(x), Mix(y))
  {
    hide Xor;
    Swap(x.w0, y.w0, x.w1, y.w1);
    Swap(x.w2, y.w2, x.w3, y.w3);
    Swap(Xor(x.w0, x.w1), Xor(y.w0, y.w1), Xor(x.w2, x.w3), Xor(y.w2, y.w3));
  }

  lemma {:induction false} Rol16NXor(x: bv16, y: bv16, n: nat)
    ensures Rol16N(Xor(x, y), n) == Xor(Rol16N(x, n), Rol16N(y, n))
  {
    hide Xor, Rol16;
    if n == 0 {
    } else {
      Rol16NXor(x, y, n - 1);
      Rol16Xor(Rol16N(x, n - 1), Rol16N(y, n - 1));
    }
  }

  lemma {:induction false} Rol16NZero(x: bv16, n: nat)
    ensures Rol16N(x, n) == 0 <==> x == 0
  {
    hide Rol16;
    if n == 0 {
    } else {
      Rol16NZero(x, n - 1);
      Rol16Zero(Rol16N(x, n - 1));
    }
  }

  lemma {:induction false} FoldXor(b: Block, c: Block, k: nat)
    requires k <= 64
    ensures Fold(Difference(b, c), k, 63) == Xor(Fold(b, k, 63), Fold(c, k, 63))
  {
    hide Xor, Mix, Rol16N, XorSlot;
    if k > 0 {
      FoldXor(b, c, k - 1);
      MixXor(b[k - 1], c[k - 1]);
      Rol16NXor(Mix(b[k - 1]), Mix(c[k - 1]), 64 - k);
      Swap(Fold(b, k - 1, 63), Fold(c, k - 1, 63), Rol16N(Mix(b[k - 1]), 64 - k), Rol16N(Mix(c[k - 1]), 64 - k));
    } else {
      Unit(0);
    }
  }

  /** Which corruptions of a signed block pass unnoticed: exactly those whose error pattern folds to zero. */
  lemma UndetectedIff(signed: Block, received: Block)
    requires Residue(signed) == 0
    ensures Residue(received) == 0 <==> Fold(Difference(signed, received), 64, 63) == 0
  {
    hide Xor, Residue, Fold, Difference;
    CodeClosed(signed);
    CodeClosed(received);
    FoldXor(signed, received, 64);
    var f, g := Fold(signed, 64, 63), Fold(received, 64, 63);
    Cancel(0x7FFF, f, 0);
    Cancel(0x7FFF, g, 0);
    Cancel(f, g, 0);
    Unit(f);
  }

  lemma {:induction false} FoldOneSlot(d: Block, at: nat, k: nat)
    requires k <= 64 && at < 64
    requires forall i :: 0 <= i < 64 && i != at ==> d[i] == EMPTY
    ensures Fold(d, k, 63) == if at < k then Rol16N(Mix(d[at]), 63 - at) else 0
  {
    hide Xor, Rol16N;
    Unit(0);
    if k == 0 {
    } else {
      FoldOneSlot(d, at, k - 1);
      Rol16NZero(0, 64 - k);
      var f, m := Fold(d, k - 1, 63), Rol16N(Mix(d[k - 1]), 64 - k);
      Unit(f);
      Comm(0, m);
      Unit(m);
    }
  }

  lemma NoDifference(x: Slot)
    ensures XorSlot(x, x) == EMPTY
  {
    hide Xor;
    Unit(x.w0);
    Unit(x.w1);
    Unit(x.w2);
    Unit(x.w3);
  }

  /** Errors confined to one slot are missed only if the changes to its four words cancel. */
  lemma OneSlotDetectedIff(signed: Block, at: nat, slot: Slot)
    requires at < 64 && Residue(signed) == 0
    ensures Residue(signed[at := slot]) != 0 <==> Mix(signed[at]) != Mix(slot)
  {
    hide Xor, Mix, Residue, Fold, Rol16N, XorSlot;
    var received: Block := signed[at := slot];
    var d := Difference(signed, received);
    forall i | 0 <= i < 64 && i != at ensures d[i] == EMPTY {
      NoDifference(signed[i]);
    }
    UndetectedIff(signed, received);
    FoldOneSlot(d, at, 64);
    MixXor(signed[at], slot);
    Rol16NZero(Mix(d[at]), 63 - at);
    Cancel(Mix(signed[at]), Mix(slot), 0);
    Unit(Mix(signed[at]));
  }

  /** The slot with one of its four 16-bit words replaced. */
  function WithWord(slot: Slot, word: nat, w: bv16): Slot
    requires word < 4
  {
    if word == 0 then slot.(w0 := w)
    else if word == 1 then slot.(w1 := w)
    else if word == 2 then slot.(w2 := w)
    else slot.(w3 := w)
  }

  lemma OneWordMix(x: bv16, y: bv16, rest: bv16)
    ensures Xor(x, rest) == Xor(y, rest) <==> x == y
    ensures Xor(rest, x) == Xor(rest, y) <==> x == y
  {
  }

  lemma WithWordMix(slot: Slot, word: nat, w: bv16)
    requires word < 4
    ensures Mix(WithWord(slot, word, w)) == Mix(slot) <==> WithWord(slot, word, w) == slot
  {
    hide Xor;
    var head, tail := Xor(slot.w0, slot.w1), Xor(slot.w2, slot.w3);
    if word < 2 {
      var changed := if word == 0 then Xor(w, slot.w1) else Xor(slot.w0, w);
      OneWordMix(changed, head, tail);
      OneWordMix(w, slot.w0, slot.w1);
      OneWordMix(w, slot.w1, slot.w0);
    } else {
      var changed := if word == 2 then Xor(w, slot.w3) else Xor(slot.w2, w);
      OneWordMix(changed, tail, head);
      OneWordMix(w, slot.w2, slot.w3);
      OneWordMix(w, slot.w3, slot.w2);
    }
  }

  /** The board rejects an accepted block as soon as any one of its 256 words is changed. */
  lemma OneWordErrorRejected(good: Block, at: nat, word: nat, w: bv16)
    requires at < 64 && word < 4 && Accepts(good)
    requires WithWord(good[at], word, w) != good[at]
    ensures !Accepts(good[at := WithWord(good[at], word, w)])
  {
    hide Accepts, Residue, Mix;
    AcceptsIff(good);
    AcceptsIff(good[at := WithWord(good[at], word, w)]);
    WithWordMix(good[at], word, w);
    OneSlotDetectedIff(good, at, WithWord(good[at], word, w));
  }
}
