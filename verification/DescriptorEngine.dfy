/**
 The board's reader of the table: it fetches a descriptor block, checks it, and follows
 the jump in each descriptor's command.
 */
module DescriptorEngine {
  import opened ControlCode
  import opened DescriptorTable
  import opened Modular

  /** What the board receives when it reads 512 bytes from a bus address. */
  type Memory = bv64 -> Block

  datatype Engine = Running(ram: Block, at: nat) | Stopped | Rejected

  // ---------- decoding a slot ----------

  function JoinAddress(low: bv16, high: bv16): bv64 {
    (((low as bv64) << 8) | ((high as bv64) << 24)) & 0xFF_FFFF_FE00
  }

  /** The address register: bits 39 to 9, the bits below are not wired. Reads of descriptor blocks use all of it. */
  function HwAddress(slot: Slot): bv64 {
    JoinAddress(slot.w0, slot.w1)
  }

  /** The page counter starts at bits 29 to 12 of the length and the transfer ends when it turns negative. */
  function WordBytes(w2: bv16, w3: bv16): bv32 {
    (((((w2 >> 12) as bv32) | ((w3 as bv32) << 4)) & 0x3FFFF) + 1) << 12
  }

  function HwBytes(slot: Slot): bv32 {
    WordBytes(slot.w2, slot.w3)
  }

  /** Data moves in whole pages: the packet counters take the place of address bits 11 to 9. */
  function JoinPage(low: bv16, high: bv16): bv64 {
    JoinAddress(low, high) & 0xFF_FFFF_F000
  }

  function HwPage(slot: Slot): bv64 {
    JoinPage(slot.w0, slot.w1)
  }

  /** Device to host. */
  predicate WordToHost(w2: bv16) {
    (w2 >> 8) & 1 == 1
  }

  predicate HwToHost(slot: Slot) {
    WordToHost(slot.w2)
  }

  predicate Jumps(command: bv16, jump: bv16) {
    command & jump != 0
  }

  // ---------- the walk ----------

  function Fetch(mem: Memory, address: bv64): Engine {
    if Accepts(mem(address)) then Running(mem(address), 0) else Rejected
  }

  /** The descriptor in hand is finished: where to next. A jump to slot 0 wins over the others. */
  function Advance(mem: Memory, e: Engine): Engine {
    match e
    case Running(ram, at) =>
      if at >= 63 then Rejected
      else if Jumps(ram[at].w2, JUMP_FIRST) then Running(ram, 0)
      else if Jumps(ram[at].w2, JUMP_NEXT) then Running(ram, at + 1)
      else if Jumps(ram[at].w2, JUMP_BLOCK) then Fetch(mem, HwAddress(ram[at + 1]))
      else Stopped
    case _ => e
  }

  /** The engine after k descriptors, from the table address written to the 32-bit start register. */
  function Walk(mem: Memory, base: bv64, k: nat): Engine {
    if k == 0 then Fetch(mem, base & 0xFFFF_FE00) else Advance(mem, Walk(mem, base, k - 1))
  }

  // ---------- where the table lies ----------

  predicate TableAddress(a: bv64) {
    a & 0x1FF == 0 && a <= 0xFFFF_FE00
  }

  /** What the address register can hold. */
  predicate FieldAddress(a: bv64) {
    a & 0x1FF == 0 && a <= 0xFF_FFFF_FE00
  }

  /** Where a data block can start: at a page, below 2^40. */
  predicate DataAddress(a: bv64) {
    a & 0xFFF == 0 && a <= 0xFF_FFFF_F000
  }

  /** Every descriptor block is 512-aligned and below 4 GB. */
  ghost predicate Placed(l: Layout) {
    forall q :: 0 <= q < DescriptorBlocks(|l.blocks|) ==> TableAddress(SlotAddress(l.base, 64 * q))
  }

  /** The board's reads inside the table see the table. */
  ghost predicate Resident(mem: Memory, l: Layout, last: bv16) {
    forall q :: 0 <= q < DescriptorBlocks(|l.blocks|) ==> mem(SlotAddress(l.base, 64 * q)) == Sign(RawBlock(l, last, q))
  }

  lemma PointerBits(a: bv64)
    requires TableAddress(a)
    ensures AddressHigh(a) & 0x00FF == AddressHigh(a)
    ensures a & 0xFFFF_FE00 == a
    ensures FieldAddress(a)
  {
  }

  /** An address survives the slot's fields and the board's register exactly when it is 512-aligned and below 2^40. */
  lemma JoinFieldIff(a: bv64)
    ensures JoinAddress(AddressLow(a), AddressHigh(a)) == a <==> FieldAddress(a)
  {
  }

  lemma JoinPointer(a: bv64)
    requires TableAddress(a)
    ensures JoinAddress(AddressLow(a), AddressHigh(a) & 0x00FF) == a
    ensures JoinAddress(AddressLow(a), AddressHigh(a)) == a
    ensures a & 0xFFFF_FE00 == a
  {
    hide JoinAddress, AddressLow, AddressHigh, TableAddress, FieldAddress;
    PointerBits(a);
    JoinFieldIff(a);
  }

  /** And data goes to it exactly when it is page-aligned. */
  lemma JoinPageIff(a: bv64)
    ensures JoinPage(AddressLow(a), AddressHigh(a)) == a <==> DataAddress(a)
  {
  }

  /** At a 256-byte boundary the register loses bit 8; at a 512-byte one the data still goes to the page's start. */
  lemma MisalignedGoesLow()
    ensures JoinAddress(AddressLow(0x10_0100), AddressHigh(0x10_0100)) == 0x10_0000
    ensures JoinAddress(AddressLow(0x10_0200), AddressHigh(0x10_0200)) == 0x10_0200
    ensures JoinPage(AddressLow(0x10_0200), AddressHigh(0x10_0200)) == 0x10_0000
  {
  }

  // ---------- one step ----------

  lemma JumpBits()
    ensures !Jumps(0x10, JUMP_FIRST) && !Jumps(0x10, JUMP_NEXT) && !Jumps(0x10, JUMP_BLOCK)
    ensures !Jumps(0x11, JUMP_FIRST) && Jumps(0x11, JUMP_NEXT) && !Jumps(0x11, JUMP_BLOCK)
    ensures !Jumps(0x12, JUMP_FIRST) && !Jumps(0x12, JUMP_NEXT) && Jumps(0x12, JUMP_BLOCK)
    ensures Jumps(0x14, JUMP_FIRST) && !Jumps(0x14, JUMP_NEXT) && !Jumps(0x14, JUMP_BLOCK)
    ensures Jumps(0x16, JUMP_FIRST) && !Jumps(0x16, JUMP_NEXT) && Jumps(0x16, JUMP_BLOCK)
    ensures END_OF_TRANSFER | JUMP_NEXT == 0x11
  {
  }

  lemma CommandJumps(n: nat, i: nat, cycling: bool)
    ensures Jumps(Command(i), JUMP_FIRST) == false
    ensures Jumps(Command(i), JUMP_NEXT) <==> i % 63 != 62
    ensures i % 63 == 62 ==> Jumps(Command(i), JUMP_BLOCK)
    ensures Jumps(LastCommand(n, cycling), JUMP_FIRST) <==> cycling && DescriptorBlocks(n) == 1
    ensures !Jumps(LastCommand(n, cycling), JUMP_NEXT)
    ensures Jumps(LastCommand(n, cycling), JUMP_BLOCK) <==> (if DescriptorBlocks(n) == 1 then n % 63 == 0 else cycling)
  {
    JumpBits();
    CommandValues();
    hide Jumps;
  }

  /** The size and direction bits of a command word do not look like jumps. */
  lemma WordJumps(command: bv16, size: bv16, direction: bv16, jump: bv16)
    requires LowClear(size) && HighClear(jump)
    ensures Jumps(CommandWord(command, size, direction), jump) == Jumps(command, jump)
  {
  }

  lemma DataJumps(l: Layout, i: nat, command: bv16, jump: bv16)
    requires i < |l.blocks| && HighClear(jump)
    ensures Jumps(DataSlot(l, i, command).w2, jump) == Jumps(command, jump)
  {
    hide CommandWord, SizeByte1, DmaSize, Jumps, LowClear, HighClear;
    SizeLowClear(DmaSize(l.blockSize));
    WordJumps(command, SizeByte1(DmaSize(l.blockSize)), l.direction, jump);
  }

  lemma NextIsHigh()
    ensures HighClear(JUMP_NEXT) && HighClear(JUMP_FIRST) && HighClear(JUMP_BLOCK)
  {
  }

  /** Slot of data block i inside its signed descriptor block, and of the word that follows it. */
  lemma SignedData(l: Layout, last: bv16, i: nat)
    requires i < |l.blocks|
    ensures Sign(RawBlock(l, last, i / 63))[i % 63]
         == DataSlot(l, i, if i == |l.blocks| - 1 then last else Command(i))
    ensures Sign(RawBlock(l, last, i / 63))[i % 63 + 1].w0 == Raw(l, last, Pos(i) + 1).w0
    ensures Sign(RawBlock(l, last, i / 63))[i % 63 + 1].w1 == Raw(l, last, Pos(i) + 1).w1
  {
    hide DataSlot, Residue, NextPointer, WrapPointer;
    var b := RawBlock(l, last, i / 63);
    var e := Pos(i);
    assert e % 64 == i % 63 && e / 64 == i / 63;
    assert b[i % 63] == Raw(l, last, e);
    assert b[i % 63 + 1] == Raw(l, last, e + 1);
  }

  /** The engine sitting on the descriptor of data block i. */
  function OnBlock(l: Layout, last: bv16, i: nat): Engine
  {
    Running(Sign(RawBlock(l, last, i / 63)), i % 63)
  }

  lemma FetchBlock(mem: Memory, l: Layout, last: bv16, q: nat)
    requires q < DescriptorBlocks(|l.blocks|) && Resident(mem, l, last)
    ensures Fetch(mem, SlotAddress(l.base, 64 * q)) == Running(Sign(RawBlock(l, last, q)), 0)
  {
    hide Sign, Accepts, RawBlock, SlotAddress;
    EveryBlockAccepted(l, last, q);
    TableBlock(l, last, q);
  }

  /** What lies in the slot after a descriptor that leaves its block. */
  lemma PointerAfter(l: Layout, last: bv16, i: nat)
    requires i < |l.blocks|
    ensures i % 63 == 62 ==> Raw(l, last, Pos(i) + 1) == NextPointer(SlotAddress(l.base, Pos(i) + 2))
    ensures i + 1 == |l.blocks| && i % 63 != 62 ==> Raw(l, last, Pos(i) + 1) == WrapPointer(l.base)
  {
    hide DataSlot, NextPointer, WrapPointer, SlotAddress;
  }

  lemma AdvanceByFlags(mem: Memory, ram: Block, at: nat, first: bool, next: bool, block: bool)
    requires at < 63
    requires Jumps(ram[at].w2, JUMP_FIRST) == first && Jumps(ram[at].w2, JUMP_NEXT) == next
    requires Jumps(ram[at].w2, JUMP_BLOCK) == block
    ensures Advance(mem, Running(ram, at))
         == if first then Running(ram, 0) else if next then Running(ram, at + 1)
            else if block then Fetch(mem, JoinAddress(ram[at + 1].w0, ram[at + 1].w1)) else Stopped
  {
    hide Jumps, Fetch, JoinAddress;
  }

  /** The same for the descriptor of block i, whose command is known. */
  lemma AdvanceFrom(mem: Memory, l: Layout, last: bv16, i: nat)
    requires i < |l.blocks|
    ensures var command, after := if i == |l.blocks| - 1 then last else Command(i), Raw(l, last, Pos(i) + 1);
            Advance(mem, OnBlock(l, last, i))
            == if Jumps(command, JUMP_FIRST) then Running(Sign(RawBlock(l, last, i / 63)), 0)
               else if Jumps(command, JUMP_NEXT) then Running(Sign(RawBlock(l, last, i / 63)), i % 63 + 1)
               else if Jumps(command, JUMP_BLOCK) then Fetch(mem, JoinAddress(after.w0, after.w1))
               else Stopped
  {
    hide DataSlot, Sign, RawBlock, Jumps, Fetch, JoinAddress, Command, HighClear, Raw, Advance;
    var command := if i == |l.blocks| - 1 then last else Command(i);
    SignedData(l, last, i);
    NextIsHigh();
    DataJumps(l, i, command, JUMP_FIRST);
    DataJumps(l, i, command, JUMP_NEXT);
    DataJumps(l, i, command, JUMP_BLOCK);
    AdvanceByFlags(mem, Sign(RawBlock(l, last, i / 63)), i % 63,
                   Jumps(command, JUMP_FIRST), Jumps(command, JUMP_NEXT), Jumps(command, JUMP_BLOCK));
  }

  lemma StepInside(mem: Memory, l: Layout, last: bv16, i: nat)
    requires Placed(l) && Resident(mem, l, last) && i + 1 < |l.blocks|
    ensures Advance(mem, OnBlock(l, last, i)) == OnBlock(l, last, i + 1)
  {
    hide Sign, RawBlock, Jumps, Fetch, JoinAddress, AddressLow, AddressHigh, SlotAddress, Command, TableAddress,
      Resident, Raw, Advance;
    AdvanceFrom(mem, l, last, i);
    CommandJumps(1, i, false);
    if i % 63 == 62 {
      PointerAfter(l, last, i);
      var q := i / 63 + 1;
      assert Pos(i) + 2 == 64 * q && q == (i + 1) / 63 && q < DescriptorBlocks(|l.blocks|);
      JoinPointer(SlotAddress(l.base, 64 * q));
      FetchBlock(mem, l, last, q);
    }
  }

  /** Out of the last descriptor when its block is not full. */
  lemma StepLastOpen(mem: Memory, l: Layout, cycling: bool)
    requires |l.blocks| % 63 != 0 && Placed(l) && Resident(mem, l, LastCommand(|l.blocks|, cycling))
    ensures var n, last := |l.blocks|, LastCommand(|l.blocks|, cycling);
            Advance(mem, OnBlock(l, last, n - 1)) == if cycling then OnBlock(l, last, 0) else Stopped
  {
    hide Sign, RawBlock, Jumps, Fetch, JoinAddress, AddressLow, AddressHigh, Command, LastCommand, TableAddress,
      Resident, Raw, Advance;
    var n, last := |l.blocks|, LastCommand(|l.blocks|, cycling);
    AdvanceFrom(mem, l, last, n - 1);
    CommandJumps(n, n - 1, cycling);
    PointerAfter(l, last, n - 1);
    assert SlotAddress(l.base, 64 * 0) == l.base;
    JoinPointer(l.base);
    FetchBlock(mem, l, last, 0);
  }

  /** Out of the last descriptor when it is the 63rd of its block. */
  lemma StepLastFull(mem: Memory, l: Layout, cycling: bool)
    requires |l.blocks| > 0 && |l.blocks| % 63 == 0
    ensures var n, last := |l.blocks|, LastCommand(|l.blocks|, cycling);
            Advance(mem, OnBlock(l, last, n - 1))
            == if n == 63 && cycling then OnBlock(l, last, 0)
               else if n != 63 && !cycling then Stopped
               else Fetch(mem, JoinAddress(AddressLow(SlotAddress(l.base, 64 * DescriptorBlocks(n))),
                                           AddressHigh(SlotAddress(l.base, 64 * DescriptorBlocks(n))) & 0x00FF))
  {
    hide Sign, RawBlock, Jumps, Fetch, JoinAddress, AddressLow, AddressHigh, Command, LastCommand, SlotAddress, Raw,
      Advance;
    var n, last := |l.blocks|, LastCommand(|l.blocks|, cycling);
    AdvanceFrom(mem, l, last, n - 1);
    CommandJumps(n, n - 1, cycling);
    PointerAfter(l, last, n - 1);
    PosIncreasing(n - 1, n);
    assert Pos(n - 1) + 2 == 64 * DescriptorBlocks(n);
  }

  /** Out of the last descriptor: stop, return to block 0, or run past the table. */
  lemma StepLast(mem: Memory, l: Layout, cycling: bool)
    requires |l.blocks| > 0 && Placed(l) && Resident(mem, l, LastCommand(|l.blocks|, cycling))
    ensures var n, last := |l.blocks|, LastCommand(|l.blocks|, cycling);
            Advance(mem, OnBlock(l, last, n - 1))
            == if n % 63 != 0 then (if cycling then OnBlock(l, last, 0) else Stopped)
               else if n == 63 && cycling then OnBlock(l, last, 0)
               else if n != 63 && !cycling then Stopped
               else Fetch(mem, JoinAddress(AddressLow(SlotAddress(l.base, 64 * DescriptorBlocks(n))),
                                           AddressHigh(SlotAddress(l.base, 64 * DescriptorBlocks(n))) & 0x00FF))
  {
    hide OnBlock, Advance, Fetch, JoinAddress, AddressLow, AddressHigh, LastCommand, Placed, Resident, SlotAddress;
    if |l.blocks| % 63 != 0 {
      StepLastOpen(mem, l, cycling);
    } else {
      StepLastFull(mem, l, cycling);
    }
  }

  // ---------- whole walks ----------

  lemma WalkStart(mem: Memory, l: Layout, last: bv16)
    requires |l.blocks| > 0 && Placed(l) && Resident(mem, l, last)
    ensures Walk(mem, l.base, 0) == OnBlock(l, last, 0)
  {
    hide Sign, RawBlock, Fetch, JoinAddress, AddressLow, AddressHigh, TableAddress, Resident;
    assert SlotAddress(l.base, 64 * 0) == l.base;
    JoinPointer(l.base);
    FetchBlock(mem, l, last, 0);
  }

  /** The first n descriptors visited are those of blocks 0 to n-1 in order, whatever n. */
  lemma {:induction false} WalkOnce(mem: Memory, l: Layout, last: bv16, k: nat)
    requires k < |l.blocks| && Placed(l) && Resident(mem, l, last)
    ensures Walk(mem, l.base, k) == OnBlock(l, last, k)
  {
    hide OnBlock, Advance, Placed, Resident;
    if k == 0 {
      WalkStart(mem, l, last);
    } else {
      WalkOnce(mem, l, last, k - 1);
      StepInside(mem, l, last, k - 1);
    }
  }

  lemma WalkNext(mem: Memory, base: bv64, k: nat)
    ensures Walk(mem, base, k + 1) == Advance(mem, Walk(mem, base, k))
  {
    hide Advance, Fetch;
  }

  predicate Closes(n: nat, cycling: bool) {
    if cycling then n % 63 != 0 || n == 63 else n != 63
  }

  /** A cyclic chain that closes: descriptor k of an unbounded walk describes block k mod n. */
  lemma {:induction false} WalkRing(mem: Memory, l: Layout, k: nat)
    requires Placed(l) && Resident(mem, l, LastCommand(|l.blocks|, true))
    requires |l.blocks| > 0 && Closes(|l.blocks|, true)
    ensures Walk(mem, l.base, k) == OnBlock(l, LastCommand(|l.blocks|, true), Place(k, |l.blocks|))
  {
    hide OnBlock, Advance, Placed, Resident, LastCommand, Walk, Place;
    var n := |l.blocks|;
    if k < n {
      WalkOnce(mem, l, LastCommand(n, true), k);
    } else {
      WalkRing(mem, l, k - 1);
      WalkNext(mem, l.base, k - 1);
      PlaceNext(k - 1, n);
      if Place(k - 1, n) == n - 1 {
        StepLast(mem, l, true);
      } else {
        StepInside(mem, l, LastCommand(n, true), Place(k - 1, n));
      }
    }
  }

  /** A one-shot chain stops after its last block and stays stopped. */
  lemma {:induction false} WalkOneShot(mem: Memory, l: Layout, k: nat)
    requires Placed(l) && Resident(mem, l, LastCommand(|l.blocks|, false))
    requires |l.blocks| > 0 && Closes(|l.blocks|, false)
    ensures Walk(mem, l.base, k) == if k < |l.blocks| then OnBlock(l, LastCommand(|l.blocks|, false), k) else Stopped
  {
    hide OnBlock, Placed, Resident, LastCommand;
    var n := |l.blocks|;
    if k < n {
      WalkOnce(mem, l, LastCommand(n, false), k);
    } else {
      WalkOneShot(mem, l, k - 1);
      if k == n {
        StepLast(mem, l, false);
      }
    }
  }

  // ---------- where the chain does not close ----------

  /** What a transfer of n blocks should do after the last one. */
  function Intended(l: Layout, cycling: bool): Engine {
    if cycling then OnBlock(l, LastCommand(|l.blocks|, true), 0) else Stopped
  }

  /** Memory that holds the table and the same foreign block everywhere else. */
  ghost function Around(l: Layout, last: bv16, foreign: Block): Memory {
    a => if exists q: nat :: q < DescriptorBlocks(|l.blocks|) && a == SlotAddress(l.base, 64 * q)
         then var q: nat :| q < DescriptorBlocks(|l.blocks|) && a == SlotAddress(l.base, 64 * q);
              Sign(RawBlock(l, last, q))
         else foreign
  }

  lemma OneSlot(base: bv64, e: nat)
    ensures SlotAddress(base, e + 1) == SlotAddress(base, e) + 8
  {
  }

  lemma EightTimesEight(a: bv64)
    ensures (((((((a + 8) + 8) + 8) + 8) + 8) + 8) + 8) + 8 == a + 64
    ensures (((((((a + 64) + 64) + 64) + 64) + 64) + 64) + 64) + 64 == a + 512
  {
  }

  lemma EightSlots(base: bv64, e: nat)
    ensures SlotAddress(base, e + 8) == SlotAddress(base, e) + 64
  {
    hide SlotAddress;
    OneSlot(base, e);
    OneSlot(base, e + 1);
    OneSlot(base, e + 2);
    OneSlot(base, e + 3);
    OneSlot(base, e + 4);
    OneSlot(base, e + 5);
    OneSlot(base, e + 6);
    OneSlot(base, e + 7);
    EightTimesEight(SlotAddress(base, e));
  }

  function NextBlock(a: bv64): bv64 {
    a + 512
  }

  lemma NextBlockAddress(base: bv64, q: nat)
    ensures SlotAddress(base, 64 * (q + 1)) == NextBlock(SlotAddress(base, 64 * q))
  {
    hide SlotAddress;
    var e := 64 * q;
    EightTimesEight(SlotAddress(base, e));
    EightSlots(base, e);
    EightSlots(base, e + 8);
    EightSlots(base, e + 16);
    EightSlots(base, e + 24);
    EightSlots(base, e + 32);
    EightSlots(base, e + 40);
    EightSlots(base, e + 48);
    EightSlots(base, e + 56);
  }

  predicate Below(a: bv64, b: bv64) {
    a < b
  }

  lemma NoWrap(b: bv64)
    requires TableAddress(b)
    ensures Below(b, NextBlock(b))
  {
  }

  lemma BelowTransitive(a: bv64, b: bv64, c: bv64)
    requires Below(a, b) && Below(b, c)
    ensures Below(a, c)
  {
  }

  lemma BelowDistinct(a: bv64, b: bv64)
    requires Below(a, b)
    ensures a != b
  {
  }

  /** Descriptor blocks, and the address just past the table, are all distinct. */
  lemma {:induction false} BlockAddressesIncrease(l: Layout, p: nat, q: nat)
    requires Placed(l) && p < q <= DescriptorBlocks(|l.blocks|)
    ensures Below(SlotAddress(l.base, 64 * p), SlotAddress(l.base, 64 * q))
    ensures SlotAddress(l.base, 64 * p) != SlotAddress(l.base, 64 * q)
  {
    hide SlotAddress, TableAddress, Below, NextBlock;
    NextBlockAddress(l.base, q - 1);
    NoWrap(SlotAddress(l.base, 64 * (q - 1)));
    if p < q - 1 {
      BlockAddressesIncrease(l, p, q - 1);
      BelowTransitive(SlotAddress(l.base, 64 * p), SlotAddress(l.base, 64 * (q - 1)), SlotAddress(l.base, 64 * q));
    }
    BelowDistinct(SlotAddress(l.base, 64 * p), SlotAddress(l.base, 64 * q));
  }

  lemma AroundResident(l: Layout, last: bv16, foreign: Block)
    requires Placed(l)
    ensures Resident(Around(l, last, foreign), l, last)
    ensures Around(l, last, foreign)(SlotAddress(l.base, 64 * DescriptorBlocks(|l.blocks|))) == foreign
  {
    hide SlotAddress, Sign, RawBlock, TableAddress, Below;
    var m := Around(l, last, foreign);
    var blocks := DescriptorBlocks(|l.blocks|);
    forall q | 0 <= q < blocks ensures m(SlotAddress(l.base, 64 * q)) == Sign(RawBlock(l, last, q)) {
      forall p: nat | p < blocks && SlotAddress(l.base, 64 * p) == SlotAddress(l.base, 64 * q) ensures p == q {
        if p < q { BlockAddressesIncrease(l, p, q); }
        if q < p { BlockAddressesIncrease(l, q, p); }
      }
    }
    forall q: nat | q < blocks ensures SlotAddress(l.base, 64 * q) != SlotAddress(l.base, 64 * blocks) {
      BlockAddressesIncrease(l, q, blocks);
    }
  }

  lemma EmptyRejected()
    ensures !Accepts(seq(64, i => EMPTY))
  {
    hide Register16;
  }

  lemma ClosesAlways(mem: Memory, l: Layout, cycling: bool)
    requires |l.blocks| > 0 && Placed(l) && Closes(|l.blocks|, cycling)
    requires Resident(mem, l, LastCommand(|l.blocks|, cycling))
    ensures Walk(mem, l.base, |l.blocks|) == Intended(l, cycling)
  {
    hide Placed, Resident, LastCommand, Walk, OnBlock;
    if cycling {
      WalkRing(mem, l, |l.blocks|);
      DivModUnique(|l.blocks|, |l.blocks|, 1, 0);
    } else {
      WalkOneShot(mem, l, |l.blocks|);
    }
  }

  /** A chain that does not close runs into the block that happens to lie past the table. */
  lemma RunsPast(mem: Memory, l: Layout, cycling: bool)
    requires |l.blocks| > 0 && Placed(l) && !Closes(|l.blocks|, cycling)
    requires TableAddress(SlotAddress(l.base, 64 * DescriptorBlocks(|l.blocks|)))
    requires Resident(mem, l, LastCommand(|l.blocks|, cycling))
    ensures Walk(mem, l.base, |l.blocks|) == Fetch(mem, SlotAddress(l.base, 64 * DescriptorBlocks(|l.blocks|)))
  {
    hide Placed, Resident, LastCommand, Walk, OnBlock, SlotAddress, TableAddress, Fetch, Advance, JoinAddress,
      AddressLow, AddressHigh;
    var n, last := |l.blocks|, LastCommand(|l.blocks|, cycling);
    WalkOnce(mem, l, last, n - 1);
    WalkNext(mem, l.base, n - 1);
    StepLast(mem, l, cycling);
    JoinPointer(SlotAddress(l.base, 64 * DescriptorBlocks(n)));
  }

  lemma MayMisbehave(l: Layout, cycling: bool) returns (mem: Memory)
    requires |l.blocks| > 0 && Placed(l) && !Closes(|l.blocks|, cycling)
    requires TableAddress(SlotAddress(l.base, 64 * DescriptorBlocks(|l.blocks|)))
    ensures Resident(mem, l, LastCommand(|l.blocks|, cycling))
    ensures Walk(mem, l.base, |l.blocks|) != Intended(l, cycling)
  {
    hide Placed, Resident, LastCommand, Walk, SlotAddress, TableAddress, Sign, RawBlock, Around, Accepts;
    var last := LastCommand(|l.blocks|, cycling);
    var foreign: Block := if cycling then seq(64, i => EMPTY) else Sign(RawBlock(l, last, 0));
    mem := Around(l, last, foreign);
    AroundResident(l, last, foreign);
    RunsPast(mem, l, cycling);
    EmptyRejected();
    EveryBlockAccepted(l, last, 0);
    TableBlock(l, last, 0);
  }

  /**
   Whatever lies beyond the table, n descriptors later the chain does what was asked of it
   exactly when n is no multiple of 63, or is 63 itself and the transfer is cyclic.
   */
  lemma ClosesIff(l: Layout, cycling: bool)
    requires |l.blocks| > 0 && Placed(l)
    requires TableAddress(SlotAddress(l.base, 64 * DescriptorBlocks(|l.blocks|)))
    ensures (forall mem: Memory :: Resident(mem, l, LastCommand(|l.blocks|, cycling))
               ==> Walk(mem, l.base, |l.blocks|) == Intended(l, cycling))
            <==> Closes(|l.blocks|, cycling)
  {
    hide Placed, Resident, LastCommand, Walk, Intended, SlotAddress, TableAddress;
    if Closes(|l.blocks|, cycling) {
      forall mem: Memory | Resident(mem, l, LastCommand(|l.blocks|, cycling))
        ensures Walk(mem, l.base, |l.blocks|) == Intended(l, cycling)
      {
        ClosesAlways(mem, l, cycling);
      }
    } else {
      var mem := MayMisbehave(l, cycling);
    }
  }

  // ---------- what a visited descriptor says ----------

  predicate PageMultiple(size: bv32) {
    size & 0xFFF == 0 && size != 0
  }

  predicate AtMost(a: bv32, b: bv32) {
    a <= b
  }

  /** The length that comes through the thirty bits of the field. */
  function FieldBytes(blockSize: bv32): bv32 {
    ((blockSize - 0x1000) & 0x3FFF_FFFF) + 0x1000
  }

  predicate OneBit(direction: bv16) {
    direction < 2
  }

  lemma BytesOf(command: bv16, blockSize: bv32, direction: bv16)
    requires HighClear(command) && PageMultiple(blockSize) && OneBit(direction)
    ensures WordBytes(CommandWord(command, SizeByte1(DmaSize(blockSize)), direction), SizeBytes23(DmaSize(blockSize)))
         == FieldBytes(blockSize)
  {
  }

  predicate UpToGigabyte(blockSize: bv32) {
    blockSize <= 0x4000_0000
  }

  lemma SizeFits(blockSize: bv32)
    requires PageMultiple(blockSize)
    ensures FieldBytes(blockSize) == blockSize <==> UpToGigabyte(blockSize)
  {
  }

  lemma SizeBounds(blockSize: bv32)
    requires PageMultiple(blockSize)
    ensures PageMultiple(FieldBytes(blockSize)) && AtMost(FieldBytes(blockSize), blockSize)
  {
  }

  predicate ToHost(direction: bv16) {
    direction == 1
  }

  lemma LengthOf(command: bv16, blockSize: bv32, direction: bv16)
    requires HighClear(command) && PageMultiple(blockSize) && OneBit(direction)
    ensures UpToGigabyte(blockSize) <==>
            WordBytes(CommandWord(command, SizeByte1(DmaSize(blockSize)), direction), SizeBytes23(DmaSize(blockSize)))
            == blockSize
    ensures var bytes := WordBytes(CommandWord(command, SizeByte1(DmaSize(blockSize)), direction),
                                   SizeBytes23(DmaSize(blockSize)));
            PageMultiple(bytes) && AtMost(bytes, blockSize)
  {
    hide WordBytes, CommandWord, SizeByte1, SizeBytes23, PageMultiple, HighClear, OneBit, FieldBytes, AtMost,
      UpToGigabyte;
    BytesOf(command, blockSize, direction);
    SizeFits(blockSize);
    SizeBounds(blockSize);
  }

  lemma WordDirection(command: bv16, blockSize: bv32, direction: bv16)
    requires HighClear(command) && PageMultiple(blockSize) && OneBit(direction)
    ensures WordToHost(CommandWord(command, SizeByte1(DmaSize(blockSize)), direction)) <==> ToHost(direction)
    ensures Jumps(CommandWord(command, SizeByte1(DmaSize(blockSize)), direction), END_OF_TRANSFER)
         == Jumps(command, END_OF_TRANSFER)
  {
  }

  lemma EndBits()
    ensures HighClear(0x10) && HighClear(0x11) && HighClear(0x12) && HighClear(0x14) && HighClear(0x16)
    ensures Jumps(0x10, END_OF_TRANSFER) && Jumps(0x11, END_OF_TRANSFER) && Jumps(0x12, END_OF_TRANSFER)
    ensures Jumps(0x14, END_OF_TRANSFER) && Jumps(0x16, END_OF_TRANSFER)
    ensures END_OF_TRANSFER | JUMP_NEXT == 0x11
  {
  }

  lemma CommandsEndTransfer(n: nat, i: nat, cycling: bool)
    ensures HighClear(Command(i)) && HighClear(LastCommand(n, cycling))
    ensures Jumps(Command(i), END_OF_TRANSFER) && Jumps(LastCommand(n, cycling), END_OF_TRANSFER)
  {
    CommandValues();
    EndBits();
    hide Jumps, HighClear;
  }

  /** The slot the engine sits on for data block i. */
  function OnSlot(l: Layout, cycling: bool, i: nat): Slot {
    Sign(RawBlock(l, LastCommand(|l.blocks|, cycling), i / 63))[i % 63]
  }

  /**
   The descriptor the engine sits on names data block i: the driver's direction, an end-of-transfer
   flag, an address that is right exactly for page-aligned blocks below 2^40, and a length that is
   right exactly for blocks of at most 1 GB.
   */
  lemma DescriptorMeaning(l: Layout, cycling: bool, i: nat)
    requires i < |l.blocks| && PageMultiple(l.blockSize) && OneBit(l.direction)
    ensures var slot := OnSlot(l, cycling, i);
            && (HwAddress(slot) == l.blocks[i] <==> FieldAddress(l.blocks[i]))
            && (HwPage(slot) == l.blocks[i] <==> DataAddress(l.blocks[i]))
            && (HwToHost(slot) <==> ToHost(l.direction))
            && Jumps(slot.w2, END_OF_TRANSFER)
            && (HwBytes(slot) == l.blockSize <==> UpToGigabyte(l.blockSize))
            && PageMultiple(HwBytes(slot)) && AtMost(HwBytes(slot), l.blockSize)
  {
    hide Sign, RawBlock, LastCommand, Command, JoinAddress, AddressLow, AddressHigh, DataAddress, FieldAddress,
      PageMultiple, CommandWord, SizeByte1, SizeBytes23, DmaSize, WordBytes, WordToHost, Jumps, HighClear, OneBit,
      ToHost, UpToGigabyte, JoinPage, AtMost;
    var n, last := |l.blocks|, LastCommand(|l.blocks|, cycling);
    var command := if i == n - 1 then last else Command(i);
    SignedData(l, last, i);
    JoinFieldIff(l.blocks[i]);
    JoinPageIff(l.blocks[i]);
    CommandsEndTransfer(n, i, cycling);
    LengthOf(command, l.blockSize, l.direction);
    WordDirection(command, l.blockSize, l.direction);
  }

  // ---------- which pages a descriptor moves ----------

  /** Four kilobytes from a bus address on. */
  datatype Page = Page(address: bv64)

  function Half(x: bv32): bv32 {
    x >> 1
  }

  predicate Odd(x: bv32) {
    x & 1 == 1
  }

  function Number(x: bv32): nat {
    if x == 0 then 0 else 2 * Number(x >> 1) + (if Odd(x) then 1 else 0)
  }

  function PageCount(bytes: bv32): bv32 {
    bytes >> 12
  }

  /** How many pages a length is. */
  function Pages(bytes: bv32): nat {
    Number(PageCount(bytes))
  }

  function NextPage(a: bv64): bv64 {
    a + 0x1000
  }

  /** Page k of a driver block. */
  function PageAt(start: bv64, k: nat): bv64 {
    if k == 0 then start else NextPage(PageAt(start, k - 1))
  }

  /** The board's page number has 28 bits. */
  function HwNextPage(a: bv64): bv64 {
    NextPage(a) & 0xFF_FFFF_FFFF
  }

  function HwPageAt(first: bv64, k: nat): bv64 {
    if k == 0 then first else HwNextPage(HwPageAt(first, k - 1))
  }

  /** The pages of a block, and the pages the board moves for a descriptor, in order. */
  function BlockPages(start: bv64, size: bv32): seq<Page> {
    seq(Pages(size), k requires 0 <= k => Page(PageAt(start, k)))
  }

  function Moved(slot: Slot): seq<Page> {
    seq(Pages(HwBytes(slot)), k requires 0 <= k => Page(HwPageAt(HwPage(slot), k)))
  }

  predicate InReach(a: bv64) {
    a <= 0xFF_FFFF_FFFF
  }

  ghost predicate EndsInReach(start: bv64, size: bv32) {
    forall k :: 0 <= k < Pages(size) ==> InReach(PageAt(start, k))
  }

  lemma HalvesOrdered(a: bv32, b: bv32)
    requires AtMost(a, b)
    ensures AtMost(Half(a), Half(b))
  {
  }

  lemma BitsOrdered(a: bv32, b: bv32)
    requires AtMost(a, b) && Half(a) == Half(b)
    ensures Odd(a) ==> Odd(b)
  {
  }

  lemma SameHalves(a: bv32, b: bv32)
    requires Half(a) == Half(b) && Odd(a) == Odd(b)
    ensures a == b
  {
  }

  lemma ZeroIsLeast(a: bv32)
    requires AtMost(a, 0)
    ensures a == 0
  {
  }

  lemma NumberIs(x: bv32)
    ensures Number(0) == 0 && Half(0) == 0 && !Odd(0)
    ensures Number(x) == 2 * Number(Half(x)) + (if Odd(x) then 1 else 0)
    ensures x != 0 ==> Half(x) < x
  {
  }

  lemma {:induction false} NumberPositive(b: bv32)
    requires b != 0
    ensures Number(b) > 0
    decreases b
  {
    hide Half, Odd, Number;
    NumberIs(b);
    if Half(b) != 0 {
      NumberPositive(Half(b));
    } else if !Odd(b) {
      SameHalves(b, 0);
    }
  }

  lemma {:induction false} NumberInjective(a: bv32, b: bv32)
    requires Number(a) == Number(b)
    ensures a == b
    decreases a
  {
    hide Half, Odd, Number;
    NumberIs(a);
    NumberIs(b);
    if a == 0 {
      if b != 0 {
        NumberPositive(b);
      }
    } else {
      NumberInjective(Half(a), Half(b));
      SameHalves(a, b);
    }
  }

  lemma {:induction false} NumberOrdered(a: bv32, b: bv32)
    requires AtMost(a, b)
    ensures Number(a) <= Number(b)
    decreases b
  {
    hide Half, Odd, Number, AtMost;
    NumberIs(a);
    NumberIs(b);
    if b == 0 {
      ZeroIsLeast(a);
    } else {
      HalvesOrdered(a, b);
      NumberOrdered(Half(a), Half(b));
      if Number(Half(a)) == Number(Half(b)) {
        NumberInjective(Half(a), Half(b));
        BitsOrdered(a, b);
      }
    }
  }

  lemma CountOrdered(a: bv32, b: bv32)
    requires AtMost(a, b)
    ensures AtMost(PageCount(a), PageCount(b))
  {
  }

  lemma CountInjective(a: bv32, b: bv32)
    requires PageMultiple(a) && PageMultiple(b)
    ensures PageCount(a) != 0 && (PageCount(a) == PageCount(b) ==> a == b)
  {
  }

  /** A smaller length has fewer pages, and no length has none. */
  lemma PagesGrow(a: bv32, b: bv32)
    requires PageMultiple(a) && PageMultiple(b) && AtMost(a, b)
    ensures 0 < Pages(a) <= Pages(b) && (Pages(a) == Pages(b) ==> a == b)
  {
    hide PageMultiple, PageCount, Number, AtMost;
    CountOrdered(a, b);
    NumberOrdered(PageCount(a), PageCount(b));
    CountInjective(a, b);
    NumberPositive(PageCount(a));
    if Pages(a) == Pages(b) {
      NumberInjective(PageCount(a), PageCount(b));
    }
  }

  lemma StaysInReach(a: bv64)
    requires InReach(NextPage(a))
    ensures HwNextPage(a) == NextPage(a)
  {
  }

  lemma HwInReach(low: bv16, high: bv16, a: bv64)
    ensures InReach(JoinPage(low, high)) && InReach(HwNextPage(a))
  {
  }

  /** Below 2^40 the board's page count agrees with the address. */
  lemma {:induction false} HwPageIs(start: bv64, n: nat, k: nat)
    requires k < n && forall j :: 0 <= j < n ==> InReach(PageAt(start, j))
    ensures HwPageAt(start, k) == PageAt(start, k)
  {
    hide InReach, NextPage, HwNextPage;
    if k == 0 {
    } else {
      HwPageIs(start, n, k - 1);
      assert InReach(PageAt(start, k));
      StaysInReach(PageAt(start, k - 1));
    }
  }

  lemma HwPageInReach(slot: Slot, k: nat)
    ensures InReach(HwPageAt(HwPage(slot), k))
  {
    hide InReach, JoinPage, HwNextPage;
    if k == 0 {
      HwInReach(slot.w0, slot.w1, 0);
    } else {
      HwInReach(slot.w0, slot.w1, HwPageAt(HwPage(slot), k - 1));
    }
  }

  lemma FirstPages(page: bv64, start: bv64)
    ensures HwPageAt(page, 0) == page && PageAt(start, 0) == start
  {
  }

  /** The board moves exactly the pages of the block, in order, if and only if address, length and end are all right. */
  lemma MovesBlockIff(l: Layout, cycling: bool, i: nat)
    requires i < |l.blocks| && PageMultiple(l.blockSize) && OneBit(l.direction)
    ensures Moved(OnSlot(l, cycling, i)) == BlockPages(l.blocks[i], l.blockSize)
       <==> DataAddress(l.blocks[i]) && UpToGigabyte(l.blockSize) && EndsInReach(l.blocks[i], l.blockSize)
  {
    hide OnSlot, PageMultiple, OneBit, HwPage, HwBytes, DataAddress, UpToGigabyte, InReach, HwNextPage, NextPage, Pages,
      AtMost, HwPageAt, PageAt;
    var slot, start, size := OnSlot(l, cycling, i), l.blocks[i], l.blockSize;
    assert (HwPage(slot) == start <==> DataAddress(start)) && (HwBytes(slot) == size <==> UpToGigabyte(size))
           && PageMultiple(HwBytes(slot)) && AtMost(HwBytes(slot), size) by {
      DescriptorMeaning(l, cycling, i);
    }
    PagesGrow(HwBytes(slot), size);
    if HwBytes(slot) != size {
      assert |Moved(slot)| < |BlockPages(start, size)|;
    } else if HwPage(slot) != start {
      FirstPages(HwPage(slot), start);
      assert Moved(slot)[0] == Page(HwPage(slot)) && BlockPages(start, size)[0] == Page(start);
    } else if EndsInReach(start, size) {
      forall k | 0 <= k < Pages(size) ensures HwPageAt(start, k) == PageAt(start, k) {
        HwPageIs(start, Pages(size), k);
      }
    } else {
      var k :| 0 <= k < Pages(size) && !InReach(PageAt(start, k));
      HwPageInReach(slot, k);
      assert Moved(slot)[k] != BlockPages(start, size)[k];
    }
  }

  lemma PageBelow(a: bv64)
    requires InReach(a)
    ensures Below(a, NextPage(a))
  {
  }

  lemma {:induction false} PagesIncrease(start: bv64, j: nat, k: nat)
    requires j < k && forall i :: j <= i < k ==> InReach(PageAt(start, i))
    ensures Below(PageAt(start, j), PageAt(start, k))
    decreases k
  {
    hide InReach, NextPage, Below;
    PageBelow(PageAt(start, k - 1));
    if j < k - 1 {
      PagesIncrease(start, j, k - 1);
      BelowTransitive(PageAt(start, j), PageAt(start, k - 1), PageAt(start, k));
    }
  }

  /** A block of more than 1 GB has a page the board never moves for it. */
  lemma ShortMisses(l: Layout, cycling: bool, i: nat) returns (p: Page)
    requires i < |l.blocks| && PageMultiple(l.blockSize) && OneBit(l.direction)
    requires DataAddress(l.blocks[i]) && EndsInReach(l.blocks[i], l.blockSize) && !UpToGigabyte(l.blockSize)
    ensures p in BlockPages(l.blocks[i], l.blockSize) && p !in Moved(OnSlot(l, cycling, i))
  {
    hide OnSlot, PageMultiple, OneBit, HwPage, HwBytes, DataAddress, UpToGigabyte, InReach, HwNextPage, NextPage, Pages,
      AtMost, HwPageAt, PageAt, Below;
    var slot, start, size := OnSlot(l, cycling, i), l.blocks[i], l.blockSize;
    assert HwPage(slot) == start && HwBytes(slot) != size
           && PageMultiple(HwBytes(slot)) && AtMost(HwBytes(slot), size) by {
      DescriptorMeaning(l, cycling, i);
    }
    PagesGrow(HwBytes(slot), size);
    var n, m := Pages(size), Pages(HwBytes(slot));
    p := BlockPages(start, size)[n - 1];
    forall k | 0 <= k < m ensures Moved(slot)[k] != p {
      HwPageIs(start, n, k);
      PagesIncrease(start, k, n - 1);
      BelowDistinct(PageAt(start, k), PageAt(start, n - 1));
    }
  }
}
