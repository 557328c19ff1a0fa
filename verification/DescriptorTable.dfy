/**
 The scatter/gather table: N driver blocks compiled into descriptor blocks of 64 slots,
 63 for data and one for the pointer, signature and control code.
 */
module DescriptorTable {
  import opened ControlCode

  const JUMP_NEXT: bv16 := 0x01
  const JUMP_BLOCK: bv16 := 0x02
  const JUMP_FIRST: bv16 := 0x04
  const END_OF_TRANSFER: bv16 := 0x10

  /** What the table describes: its own bus address, and the bus address of every block. */
  datatype Layout = Layout(base: bv64, blocks: seq<bv64>, blockSize: bv32, direction: bv16)

  // ---------- placement ----------

  /** Slot of data block i. */
  function Pos(i: nat): nat {
    64 * (i / 63) + i % 63
  }

  /** How many descriptor blocks n data blocks need. */
  function DescriptorBlocks(n: nat): nat {
    n / 63 + (if n % 63 != 0 then 1 else 0)
  }

  /** Bus address of slot e: eight bytes a slot, in 64-bit arithmetic. */
  function SlotAddress(base: bv64, e: nat): bv64 {
    if e == 0 then base else SlotAddress(base, e - 1) + 8
  }

  lemma PosBounds(i: nat, n: nat)
    requires i < n
    ensures Pos(i) % 64 == i % 63 && Pos(i) / 64 == i / 63
    ensures Pos(i) + 1 < 64 * DescriptorBlocks(n)
  {
  }

  /** Placement is strictly increasing and steps over slot 63 of every block, so no two entries collide. */
  lemma PosIncreasing(i: nat, j: nat)
    requires i < j
    ensures Pos(i) < Pos(j)
    ensures Pos(i) % 64 != 63
    ensures Pos(i + 1) == if i % 63 == 62 then Pos(i) + 2 else Pos(i) + 1
  {
  }

  // ---------- fields ----------

  /** Bytes 1 to 4 of an address fill the first two words. */
  function AddressLow(address: bv64): bv16 {
    ((address >> 8) & 0xFFFF) as bv16
  }

  function AddressHigh(address: bv64): bv16 {
    ((address >> 24) & 0xFFFF) as bv16
  }

  /** The length field is one page short of the block. */
  function DmaSize(blockSize: bv32): bv32 {
    blockSize - 0x1000
  }

  function SizeByte1(size: bv32): bv16 {
    (size & 0xFF00) as bv16
  }

  function SizeBytes23(size: bv32): bv16 {
    ((size >> 16) & 0xFFFF) as bv16
  }

  function Or(x: bv16, y: bv16): bv16 {
    x | y
  }

  function DirectionByte(direction: bv16): bv16 {
    direction << 8
  }

  /** The command byte below, the first size byte above; bit 0 of the size byte carries the direction. */
  function CommandWord(command: bv16, size: bv16, direction: bv16): bv16 {
    Or(Or(command, size), DirectionByte(direction))
  }

  function DataSlot(l: Layout, i: nat, command: bv16): Slot
    requires i < |l.blocks|
  {
    var size := DmaSize(l.blockSize);
    Slot(AddressLow(l.blocks[i]), AddressHigh(l.blocks[i]),
         CommandWord(command, SizeByte1(size), l.direction), SizeBytes23(size))
  }

  /** Slot 63: the address of the next descriptor block, three bytes of it, and the signature. */
  function NextPointer(address: bv64): Slot {
    Slot(AddressLow(address), AddressHigh(address) & 0x00FF, SIGNATURE, 0)
  }

  /** The slot after the last descriptor: the address of the table itself. */
  function WrapPointer(base: bv64): Slot {
    Slot(AddressLow(base), AddressHigh(base), 0, 0)
  }

  // ---------- the whole table ----------

  /** The command of every descriptor but the last. */
  function Command(i: nat): bv16 {
    if i % 63 == 62 then END_OF_TRANSFER | JUMP_BLOCK else END_OF_TRANSFER | JUMP_NEXT
  }

  /** The last descriptor's command as the build leaves it. */
  function FirstLastCommand(n: nat): bv16 {
    if n % 63 == 0 then END_OF_TRANSFER | JUMP_BLOCK else END_OF_TRANSFER
  }

  /** The last descriptor's command once a transfer has been started. */
  function LastCommand(n: nat, cycling: bool): bv16 {
    if DescriptorBlocks(n) == 1
    then FirstLastCommand(n) | (if cycling then JUMP_FIRST else 0)
    else END_OF_TRANSFER | (if cycling then JUMP_BLOCK else 0)
  }

  /** Slot e before signing. */
  function Raw(l: Layout, last: bv16, e: nat): Slot {
    var q, p, n := e / 64, e % 64, |l.blocks|;
    var i := 63 * q + p;
    if p == 63 then
      if i <= n then NextPointer(SlotAddress(l.base, e + 1)) else Slot(0, 0, SIGNATURE, 0)
    else if i < n then DataSlot(l, i, if i == n - 1 then last else Command(i))
    else if i == n then WrapPointer(l.base)
    else EMPTY
  }

  function RawBlock(l: Layout, last: bv16, q: nat): Block {
    var b := seq(64, p requires 0 <= p < 64 => Raw(l, last, 64 * q + p));
    assert |b| == 64;
    b
  }

  /** The finished table: every descriptor block signed. */
  function Table(l: Layout, last: bv16): seq<Slot> {
    seq(64 * DescriptorBlocks(|l.blocks|), e requires 0 <= e => Sign(RawBlock(l, last, e / 64))[e % 64])
  }

  lemma TableBlock(l: Layout, last: bv16, q: nat)
    requires q < DescriptorBlocks(|l.blocks|)
    ensures Table(l, last)[64 * q..64 * q + 64] == Sign(RawBlock(l, last, q))
  {
    hide Sign, RawBlock;
    var b := Sign(RawBlock(l, last, q));
    assert |b| == 64;
    forall p | 0 <= p < 64 ensures Table(l, last)[64 * q + p] == b[p] {
      assert (64 * q + p) / 64 == q && (64 * q + p) % 64 == p;
    }
  }

  /** Whatever the last command, every block of the table carries the signature and is accepted by the board. */
  lemma EveryBlockAccepted(l: Layout, last: bv16, q: nat)
    requires q < DescriptorBlocks(|l.blocks|)
    ensures Accepts(Table(l, last)[64 * q..64 * q + 64])
    ensures Residue(Table(l, last)[64 * q..64 * q + 64]) == 0
    ensures Table(l, last)[64 * q + 63].w2 == 0x4953
  {
    hide Sign, Accepts, Residue, DataSlot, AddressLow, AddressHigh;
    var b := RawBlock(l, last, q);
    TableBlock(l, last, q);
    assert (64 * q + 63) / 64 == q && (64 * q + 63) % 64 == 63;
    assert b[63].w2 == SIGNATURE;
    SignedAccepted(b);
    AcceptsIff(Sign(b));
    assert Table(l, last)[64 * q..64 * q + 64][63] == Table(l, last)[64 * q + 63];
  }

  /** Signing touches nothing but the code word of slot 63. */
  lemma TableSlot(l: Layout, last: bv16, e: nat)
    requires e < 64 * DescriptorBlocks(|l.blocks|)
    ensures e % 64 != 63 ==> Table(l, last)[e] == Raw(l, last, e)
    ensures e % 64 == 63 ==> Table(l, last)[e] == Raw(l, last, e).(w3 := Table(l, last)[e].w3)
  {
    hide Residue, DataSlot, AddressLow, AddressHigh;
    var q, p := e / 64, e % 64;
    assert 64 * q + p == e;
    assert RawBlock(l, last, q)[p] == Raw(l, last, e);
  }

  // ---------- building it in place ----------

  /** Slot e after the first k blocks have been entered. */
  function Built(l: Layout, k: nat, e: nat): Slot
    requires k <= |l.blocks|
  {
    var q, p := e / 64, e % 64;
    var i := 63 * q + p;
    if p == 63 then (if i <= k then NextPointer(SlotAddress(l.base, e + 1)) else EMPTY)
    else if i < k then DataSlot(l, i, Command(i))
    else EMPTY
  }

  lemma BuiltStep(l: Layout, k: nat, e: nat)
    requires k < |l.blocks|
    ensures e == Pos(k) ==> Built(l, k + 1, e) == DataSlot(l, k, Command(k))
    ensures k % 63 == 62 && e == Pos(k) + 1 ==> Built(l, k + 1, e) == NextPointer(SlotAddress(l.base, e + 1))
    ensures e != Pos(k) && (k % 63 == 62 ==> e != Pos(k) + 1) ==> Built(l, k + 1, e) == Built(l, k, e)
  {
    hide DataSlot, NextPointer, SlotAddress, Command;
  }

  method Clear(table: array<Slot>)
    modifies table
    ensures forall e :: 0 <= e < table.Length ==> table[e] == EMPTY
  {
    var e := 0;
    while e < table.Length
      invariant 0 <= e <= table.Length
      invariant forall f :: 0 <= f < e ==> table[f] == EMPTY
    {
      table[e] := EMPTY;
      e := e + 1;
    }
  }

  method EnterBlock(table: array<Slot>, l: Layout, iBlock: nat, iEntry: nat) returns (next: nat)
    requires iBlock < |l.blocks| && table.Length == 64 * DescriptorBlocks(|l.blocks|) && iEntry == Pos(iBlock)
    requires forall e :: 0 <= e < table.Length ==> table[e] == Built(l, iBlock, e)
    modifies table
    ensures next == Pos(iBlock + 1)
    ensures forall e :: 0 <= e < table.Length ==> table[e] == Built(l, iBlock + 1, e)
  {
    hide DataSlot, NextPointer, SlotAddress, Built;
    PosBounds(iBlock, |l.blocks|);
    table[iEntry] := DataSlot(l, iBlock, END_OF_TRANSFER | JUMP_NEXT);
    next := iEntry;
    if (iEntry + 2) % 64 == 0 {
      table[iEntry] := DataSlot(l, iBlock, END_OF_TRANSFER | JUMP_BLOCK);
      table[iEntry + 1] := NextPointer(SlotAddress(l.base, iEntry + 2));
      next := next + 1;
    }
    next := next + 1;
    forall e | 0 <= e < table.Length ensures table[e] == Built(l, iBlock + 1, e) {
      BuiltStep(l, iBlock, e);
    }
  }

  predicate LowClear(x: bv16) {
    x & 0x00FF == 0
  }

  predicate HighClear(x: bv16) {
    x & 0xFF00 == 0
  }

  lemma ClearJumpBits(size: bv16, direction: bv16)
    requires LowClear(size)
    ensures CommandWord(0x10 | 0x01, size, direction) & 0xFFFE == CommandWord(0x10, size, direction)
  {
  }

  lemma SizeLowClear(size: bv32)
    ensures LowClear(SizeByte1(size))
  {
  }

  /** Clearing bit 0 of a descriptor's command takes the jump to the next descriptor out of it. */
  lemma ClearJump(l: Layout, i: nat)
    requires i < |l.blocks| && i % 63 != 62
    ensures var d := DataSlot(l, i, Command(i)); d.(w2 := d.w2 & 0xFFFE) == DataSlot(l, i, END_OF_TRANSFER)
  {
    var size := DmaSize(l.blockSize);
    SizeLowClear(size);
    ClearJumpBits(SizeByte1(size), l.direction);
    hide AddressLow, AddressHigh, DmaSize, SizeByte1, SizeBytes23, CommandWord;
  }

  /** How the finished slots differ from the entered ones. */
  lemma ClosedSlot(l: Layout, e: nat)
    requires |l.blocks| > 0 && e < 64 * DescriptorBlocks(|l.blocks|)
    ensures var n, slot, entered := |l.blocks|, Raw(l, FirstLastCommand(|l.blocks|), e), Built(l, |l.blocks|, e);
            if n % 63 == 0 then slot == entered
            else if e == Pos(n) - 1 then slot == entered.(w2 := entered.w2 & 0xFFFE)
            else if e == Pos(n) then slot == WrapPointer(l.base) && entered == EMPTY
            else if e == 64 * DescriptorBlocks(n) - 1 then slot == Slot(0, 0, SIGNATURE, 0)
            else slot == entered
  {
    var n := |l.blocks|;
    if n % 63 != 0 && e == Pos(n) - 1 {
      ClearJump(l, n - 1);
    }
    hide DataSlot, NextPointer, WrapPointer, SlotAddress;
  }

  /** The three writes that close the chain, on values. */
  function Closed(was: seq<Slot>, l: Layout, iEntry: nat): seq<Slot>
    requires 0 < iEntry <= |was| && (iEntry % 64 != 0 ==> iEntry < |was|)
  {
    if iEntry % 64 == 0 then was
    else
      was[iEntry - 1 := was[iEntry - 1].(w2 := was[iEntry - 1].w2 & 0xFFFE)]
         [iEntry := was[iEntry].(w0 := AddressLow(l.base), w1 := AddressHigh(l.base))]
         [|was| - 1 := Slot(0, 0, SIGNATURE, 0)]
  }

  lemma EndPosition(n: nat)
    requires n > 0
    ensures 0 < Pos(n) <= 64 * DescriptorBlocks(n)
    ensures Pos(n) % 64 != 0 ==> n % 63 != 0 && Pos(n) < 64 * DescriptorBlocks(n) - 1
    ensures Pos(n) % 64 == 0 ==> n % 63 == 0
  {
  }

  lemma ClosedTable(was: seq<Slot>, l: Layout)
    requires |l.blocks| > 0 && |was| == 64 * DescriptorBlocks(|l.blocks|)
    requires forall e :: 0 <= e < |was| ==> was[e] == Built(l, |l.blocks|, e)
    ensures 0 < Pos(|l.blocks|) <= |was| && (Pos(|l.blocks|) % 64 != 0 ==> Pos(|l.blocks|) < |was|)
    ensures |Closed(was, l, Pos(|l.blocks|))| == |was|
    ensures forall e :: 0 <= e < |was| ==> Closed(was, l, Pos(|l.blocks|))[e] == Raw(l, FirstLastCommand(|l.blocks|), e)
  {
    hide DataSlot, NextPointer, SlotAddress, AddressLow, AddressHigh, Raw, Built, Pos, DescriptorBlocks;
    EndPosition(|l.blocks|);
    forall e | 0 <= e < |was| ensures Closed(was, l, Pos(|l.blocks|))[e] == Raw(l, FirstLastCommand(|l.blocks|), e) {
      ClosedSlot(l, e);
    }
  }

  method WriteClosing(table: array<Slot>, l: Layout, iEntry: nat)
    requires 0 < iEntry <= table.Length && (iEntry % 64 != 0 ==> iEntry < table.Length)
    modifies table
    ensures table[..] == Closed(old(table[..]), l, iEntry)
  {
    hide AddressLow, AddressHigh;
    if iEntry % 64 != 0 {
      var last, i := iEntry - 1, table.Length - 1;
      table[last] := table[last].(w2 := table[last].w2 & 0xFFFE);
      table[iEntry] := table[iEntry].(w0 := AddressLow(l.base), w1 := AddressHigh(l.base));
      table[i] := Slot(0, 0, SIGNATURE, 0);
    }
  }

  /** The tail of the last, partly used block: no jump out of the last descriptor, and the wrap pointer after it. */
  method CloseChain(table: array<Slot>, l: Layout, iEntry: nat)
    requires |l.blocks| > 0 && table.Length == 64 * DescriptorBlocks(|l.blocks|) && iEntry == Pos(|l.blocks|)
    requires forall e :: 0 <= e < table.Length ==> table[e] == Built(l, |l.blocks|, e)
    modifies table
    ensures forall e :: 0 <= e < table.Length ==> table[e] == Raw(l, FirstLastCommand(|l.blocks|), e)
  {
    hide Raw, Built, Pos, DescriptorBlocks, Closed;
    EndPosition(|l.blocks|);
    ClosedTable(table[..], l);
    ghost var closed := Closed(table[..], l, iEntry);
    WriteClosing(table, l, iEntry);
    assert forall e :: 0 <= e < table.Length ==> table[e] == closed[e];
  }

  lemma OrClear(x: bv16)
    ensures 0 | x == x
  {
  }

  lemma ResidueIs(b: Block)
    ensures Residue(b) == Low(Code32(b))
  {
    hide Low, Code32;
  }

  /** One pass of the signing loop; the code word is clear beforehand, so oring the code in stores it. */
  method SignInPlace(table: array<Slot>, q: nat)
    requires 64 * q + 64 <= table.Length && table[64 * q + 63].w3 == 0
    modifies table
    ensures table[64 * q..64 * q + 64] == Sign(old(table[64 * q..64 * q + 64]))
    ensures forall e :: 0 <= e < table.Length && e / 64 != q ==> table[e] == old(table[e])
  {
    hide Residue, Code32;
    ghost var b: Block := table[64 * q..64 * q + 64];
    var code := ComputeControlCode(table, 64 * q);
    var i := 64 * q + 63;
    assert WithCode(b, 0) == b;
    OrClear(Low(code));
    assert Residue(b) == Low(code) by { ResidueIs(b); }
    table[i] := table[i].(w3 := table[i].w3 | Low(code));
    assert table[64 * q..64 * q + 64] == Sign(b);
  }

  lemma BuiltNothing(l: Layout, e: nat)
    ensures Built(l, 0, e) == EMPTY
  {
  }

  lemma RawBlockIs(b: seq<Slot>, l: Layout, last: bv16, q: nat)
    requires |b| == 64 && forall p :: 0 <= p < 64 ==> b[p] == Raw(l, last, 64 * q + p)
    ensures b == RawBlock(l, last, q)
    ensures RawBlock(l, last, q)[63].w3 == 0
  {
    hide DataSlot, SlotAddress;
    assert (64 * q + 63) % 64 == 63;
  }

  method SignAll(table: array<Slot>, l: Layout, ghost last: bv16)
    requires table.Length == 64 * DescriptorBlocks(|l.blocks|)
    requires forall e :: 0 <= e < table.Length ==> table[e] == Raw(l, last, e)
    modifies table
    ensures table[..] == Table(l, last)
  {
    hide Raw, Sign, RawBlock;
    ghost var blocks := DescriptorBlocks(|l.blocks|);
    var q := 0;
    while q < table.Length / 64
      invariant 0 <= q <= blocks
      invariant forall e :: 64 * q <= e < table.Length ==> table[e] == Raw(l, last, e)
      invariant forall e :: 0 <= e < 64 * q ==> table[e] == Table(l, last)[e]
    {
      RawBlockIs(table[64 * q..64 * q + 64], l, last, q);
      SignInPlace(table, q);
      TableBlock(l, last, q);
      forall e | 64 * q <= e < 64 * q + 64 ensures table[e] == Table(l, last)[e] {
        assert table[64 * q..64 * q + 64][e - 64 * q] == Table(l, last)[64 * q..64 * q + 64][e - 64 * q];
      }
      q := q + 1;
    }
  }

  /** The whole build: clear, enter every block, close the chain, sign. */
  method BuildTable(table: array<Slot>, l: Layout)
    requires |l.blocks| > 0 && table.Length == 64 * DescriptorBlocks(|l.blocks|)
    modifies table
    ensures table[..] == Table(l, FirstLastCommand(|l.blocks|))
  {
    hide DataSlot, NextPointer, SlotAddress, Built, Raw, Sign, RawBlock;
    ghost var n := |l.blocks|;
    ghost var last := FirstLastCommand(n);
    Clear(table);
    var iBlock, iEntry := 0, 0;
    forall e | 0 <= e < table.Length ensures table[e] == Built(l, 0, e) {
      BuiltNothing(l, e);
    }
    while iBlock < |l.blocks|
      invariant 0 <= iBlock <= n && iEntry == Pos(iBlock)
      invariant forall e :: 0 <= e < table.Length ==> table[e] == Built(l, iBlock, e)
    {
      iEntry := EnterBlock(table, l, iBlock, iEntry);
      iBlock := iBlock + 1;
    }
    CloseChain(table, l, iEntry);
    SignAll(table, l, last);
  }

  // ---------- starting a transfer ----------

  predicate IsLastCommand(n: nat, last: bv16) {
    last == FirstLastCommand(n) || last == LastCommand(n, true) || last == LastCommand(n, false)
  }

  /** The descriptor a start patches is the last data descriptor, and it lies in the block that is re-signed. */
  lemma PatchedSlot(n: nat)
    requires n > 0
    ensures n + DescriptorBlocks(n) - 1 - 1 == Pos(n - 1)
    ensures Pos(n - 1) / 64 == DescriptorBlocks(n) - 1 && Pos(n - 1) % 64 != 63
  {
  }

  function Without(w2: bv16, bits: bv16): bv16 {
    w2 & !bits
  }

  /** One-bit field assignment: only the low bit of the value counts. */
  function AssignJump(w2: bv16, jump: bv16, cycling: bool): bv16 {
    Or(Without(w2, jump), if cycling then jump else 0)
  }

  lemma OrAssoc(a: bv16, b: bv16, c: bv16)
    ensures Or(Or(a, b), c) == Or(a, Or(b, c))
  {
  }

  lemma OrSwap(a: bv16, b: bv16, c: bv16)
    ensures Or(Or(a, b), c) == Or(Or(a, c), b)
  {
  }

  lemma WithoutOr(a: bv16, b: bv16, bits: bv16)
    ensures Without(Or(a, b), bits) == Or(Without(a, bits), Without(b, bits))
  {
  }

  lemma WithoutHigh(high: bv16, jump: bv16)
    requires LowClear(high) && HighClear(jump)
    ensures Without(high, jump) == high
  {
  }

  /** A field assignment in the low byte passes through whatever sits above it. */
  lemma AssignLow(a: bv16, high: bv16, jump: bv16, bit: bv16)
    requires LowClear(high) && HighClear(jump)
    ensures Or(Without(Or(a, high), jump), bit) == Or(Or(Without(a, jump), bit), high)
  {
    hide Or, Without, LowClear, HighClear;
    WithoutOr(a, high, jump);
    WithoutHigh(high, jump);
    OrSwap(Without(a, jump), high, bit);
  }

  lemma HighByte(size: bv16, direction: bv16)
    requires LowClear(size)
    ensures LowClear(Or(size, DirectionByte(direction)))
  {
  }

  lemma JumpsAreLow()
    ensures HighClear(JUMP_FIRST) && HighClear(JUMP_BLOCK)
  {
  }

  lemma AssignThroughSize(last: bv16, size: bv16, direction: bv16, jump: bv16, cycling: bool)
    requires LowClear(size) && HighClear(jump)
    ensures AssignJump(CommandWord(last, size, direction), jump, cycling)
         == CommandWord(AssignJump(last, jump, cycling), size, direction)
  {
    hide Or, Without, DirectionByte, LowClear, HighClear;
    HighByte(size, direction);
    var d := DirectionByte(direction);
    var bit := if cycling then jump else 0;
    OrAssoc(last, size, d);
    OrAssoc(Or(Without(last, jump), bit), size, d);
    AssignLow(last, Or(size, d), jump, bit);
  }

  function StartJump(n: nat): bv16 {
    if DescriptorBlocks(n) == 1 then JUMP_FIRST else JUMP_BLOCK
  }

  lemma CommandValues()
    ensures FirstLastCommand(0) == 0x12 && END_OF_TRANSFER == 0x10
    ensures END_OF_TRANSFER | JUMP_BLOCK == 0x12 && END_OF_TRANSFER | 0 == 0x10
    ensures 0x10 | JUMP_FIRST == 0x14 && 0x12 | JUMP_FIRST == 0x16
    ensures (0x10 as bv16) | 0 == 0x10 && (0x12 as bv16) | 0 == 0x12
    ensures forall cycling :: AssignJump(0x10, JUMP_FIRST, cycling) == if cycling then 0x14 else 0x10
    ensures forall cycling :: AssignJump(0x12, JUMP_FIRST, cycling) == if cycling then 0x16 else 0x12
    ensures forall cycling :: AssignJump(0x14, JUMP_FIRST, cycling) == if cycling then 0x14 else 0x10
    ensures forall cycling :: AssignJump(0x16, JUMP_FIRST, cycling) == if cycling then 0x16 else 0x12
    ensures forall cycling :: AssignJump(0x10, JUMP_BLOCK, cycling) == if cycling then 0x12 else 0x10
    ensures forall cycling :: AssignJump(0x12, JUMP_BLOCK, cycling) == if cycling then 0x12 else 0x10
  {
  }

  lemma AssignToLast(n: nat, last: bv16, cycling: bool)
    requires n > 0 && IsLastCommand(n, last)
    ensures LastCommand(n, cycling)
         == AssignJump(last, StartJump(n), cycling)
    ensures IsLastCommand(n, LastCommand(n, cycling))
  {
    CommandValues();
    hide AssignJump;
  }

  lemma PatchData(l: Layout, last: bv16, cycling: bool)
    requires |l.blocks| > 0 && IsLastCommand(|l.blocks|, last)
    ensures var n := |l.blocks|;
            var d := DataSlot(l, n - 1, last);
            d.(w2 := AssignJump(d.w2, StartJump(n), cycling)) == DataSlot(l, n - 1, LastCommand(n, cycling))
  {
    var size := DmaSize(l.blockSize);
    SizeLowClear(size);
    JumpsAreLow();
    AssignThroughSize(last, SizeByte1(size), l.direction, StartJump(|l.blocks|), cycling);
    AssignToLast(|l.blocks|, last, cycling);
    hide AddressLow, AddressHigh, DmaSize, SizeByte1, SizeBytes23, CommandWord, AssignJump, LastCommand,
      IsLastCommand, LowClear, HighClear;
  }

  /** Only the last descriptor depends on the last command. */
  lemma RawLocal(l: Layout, a: bv16, b: bv16, e: nat)
    requires |l.blocks| > 0 && e != Pos(|l.blocks| - 1)
    ensures Raw(l, a, e) == Raw(l, b, e)
  {
    hide DataSlot, NextPointer, WrapPointer, SlotAddress;
  }

  lemma TableLocal(l: Layout, a: bv16, b: bv16, e: nat)
    requires |l.blocks| > 0 && e < 64 * (DescriptorBlocks(|l.blocks|) - 1)
    ensures Table(l, a)[e] == Table(l, b)[e]
  {
    hide Raw, Sign;
    var q := e / 64;
    forall p | 0 <= p < 64 ensures RawBlock(l, a, q)[p] == RawBlock(l, b, q)[p] {
      assert (64 * q + p) / 64 == q;
      PosBounds(|l.blocks| - 1, |l.blocks|);
      PatchedSlot(|l.blocks|);
      RawLocal(l, a, b, 64 * q + p);
    }
    assert RawBlock(l, a, q) == RawBlock(l, b, q);
  }

  lemma LastIsData(l: Layout, last: bv16)
    requires |l.blocks| > 0
    ensures Raw(l, last, Pos(|l.blocks| - 1)) == DataSlot(l, |l.blocks| - 1, last)
  {
    hide DataSlot, NextPointer, WrapPointer, SlotAddress;
  }

  lemma PointerCodeClear(l: Layout, last: bv16, e: nat)
    ensures e % 64 == 63 ==> Raw(l, last, e).w3 == 0
  {
    hide DataSlot, WrapPointer, SlotAddress;
  }

  /** A start turns the table into the unsigned table for the new command, slot by slot. */
  lemma StartedSlot(l: Layout, last: bv16, cycling: bool, e: nat)
    requires |l.blocks| > 0 && IsLastCommand(|l.blocks|, last) && e < 64 * DescriptorBlocks(|l.blocks|)
    ensures var n, slot := |l.blocks|, Table(l, last)[e];
            Raw(l, LastCommand(n, cycling), e)
            == if e == Pos(n - 1) then slot.(w2 := AssignJump(slot.w2, StartJump(n), cycling))
               else if e % 64 == 63 then slot.(w3 := 0)
               else slot
  {
    hide Raw, Sign, RawBlock, DataSlot, AssignJump, LastCommand, Table;
    var n := |l.blocks|;
    PatchedSlot(n);
    TableSlot(l, last, e);
    if e == Pos(n - 1) {
      PatchData(l, last, cycling);
      LastIsData(l, last);
      LastIsData(l, LastCommand(n, cycling));
    } else {
      RawLocal(l, last, LastCommand(n, cycling), e);
      PointerCodeClear(l, last, e);
    }
  }

  lemma TableLength(l: Layout, last: bv16)
    ensures |Table(l, last)| == 64 * DescriptorBlocks(|l.blocks|)
  {
    hide Sign, RawBlock;
  }

  /** A start: patch the last descriptor's jump and sign the last block again. */
  method PatchLast(table: array<Slot>, l: Layout, ghost last: bv16, cycling: bool)
    requires |l.blocks| > 0 && IsLastCommand(|l.blocks|, last)
    requires table[..] == Table(l, last)
    modifies table
    ensures forall e :: 0 <= e < 64 * (DescriptorBlocks(|l.blocks|) - 1) ==> table[e] == old(table[e])
    ensures forall e :: 64 * (DescriptorBlocks(|l.blocks|) - 1) <= e < table.Length
              ==> table[e] == Raw(l, LastCommand(|l.blocks|, cycling), e)
  {
    hide Raw, Sign, RawBlock, DataSlot, AssignJump, LastCommand, IsLastCommand, Table;
    var n := |l.blocks|;
    assert table.Length == |table[..]| == 64 * DescriptorBlocks(n) by { TableLength(l, last); }
    var blocks := DescriptorBlocks(n);
    var iLastEntry := n + blocks - 1;
    PatchedSlot(n);
    PosBounds(n - 1, n);
    var at := iLastEntry - 1;
    if blocks == 1 {
      table[at] := table[at].(w2 := AssignJump(table[at].w2, JUMP_FIRST, cycling));
    } else {
      table[at] := table[at].(w2 := AssignJump(table[at].w2, JUMP_BLOCK, cycling));
    }
    var code := 64 * (blocks - 1) + 63;
    table[code] := table[code].(w3 := 0);
    forall e | 64 * (blocks - 1) <= e < table.Length ensures table[e] == Raw(l, LastCommand(n, cycling), e) {
      assert old(table[e]) == old(table[..])[e] == Table(l, last)[e];
      StartedSlot(l, last, cycling, e);
    }
  }

  method StartTable(table: array<Slot>, l: Layout, ghost last: bv16, isCycling: bv32)
    requires |l.blocks| > 0 && IsLastCommand(|l.blocks|, last)
    requires table[..] == Table(l, last)
    modifies table
    ensures table[..] == Table(l, LastCommand(|l.blocks|, isCycling & 1 == 1))
  {
    hide Raw, Sign, RawBlock, DataSlot, LastCommand, IsLastCommand, Table;
    var n := |l.blocks|;
    var cycling := isCycling & 1 == 1;
    ghost var next := LastCommand(n, cycling);
    TableLength(l, last);
    TableLength(l, next);
    PatchLast(table, l, last, cycling);
    var q := DescriptorBlocks(n) - 1;
    RawBlockIs(table[64 * q..64 * q + 64], l, next, q);
    SignInPlace(table, q);
    TableBlock(l, next, q);
    forall e | 0 <= e < table.Length ensures table[e] == Table(l, next)[e] {
      if e < 64 * q {
        assert old(table[e]) == old(table[..])[e];
        TableLocal(l, last, next, e);
      } else {
        assert table[64 * q..64 * q + 64][e - 64 * q] == Table(l, next)[64 * q..64 * q + 64][e - 64 * q];
      }
    }
  }
}
