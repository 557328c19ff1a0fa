/** What a start request leaves the board to do: the walk from the registers over the driver's own table. */
module StartedBoard {
  import opened Modular
  import opened ControlCode
  import opened DescriptorTable
  import opened DescriptorEngine
  import opened Driver
  import PageRange

  /** The board's reads find the driver's table where it lies. */
  ghost predicate Reads(mem: Memory, address: bv64, table: seq<Slot>) {
    forall q :: 0 <= q && 64 * q + 64 <= |table| ==> mem(SlotAddress(address, 64 * q)) == table[64 * q..64 * q + 64]
  }

  lemma ReadsResident(mem: Memory, l: Layout, last: bv16)
    requires Reads(mem, l.base, Table(l, last))
    ensures Resident(mem, l, last)
  {
    hide Sign, RawBlock, SlotAddress;
    TableLength(l, last);
    forall q | 0 <= q < DescriptorBlocks(|l.blocks|)
      ensures mem(SlotAddress(l.base, 64 * q)) == Sign(RawBlock(l, last, q))
    {
      TableBlock(l, last, q);
    }
  }

  /** What the walks and the protocol assume of memory is what a start leaves there. */
  lemma StartedResident(mem: Memory, table: seq<Slot>, l: Layout, cycling: bool, register: bv32, mode: bv16)
    requires SetUp(table, l, cycling, register, mode) && Reads(mem, l.base, table)
    ensures Resident(mem, l, LastCommand(|l.blocks|, cycling))
  {
    hide Resident, Reads, Table, LastCommand, StartsAt;
    ReadsResident(mem, l, LastCommand(|l.blocks|, cycling));
  }

  lemma DirectionBit(direction: bv16)
    requires OneBit(direction)
    ensures direction & 1 == 1 <==> ToHost(direction)
  {
  }

  /** The board ignores what the register drops, so it walks from the table's own address. */
  lemma {:induction false} SameWalk(mem: Memory, register: bv32, base: bv64, k: nat)
    requires StartsAt(register, base)
    ensures Walk(mem, register as bv64, k) == Walk(mem, base, k)
  {
    hide Advance, Fetch;
    if k == 0 {
    } else {
      SameWalk(mem, register, base, k - 1);
    }
  }

  /** The k-th descriptor a started transfer should come to: round and round the blocks, or once through them. */
  function Visited(l: Layout, cycling: bool, k: nat): Engine
    requires |l.blocks| > 0
  {
    if cycling then OnBlock(l, LastCommand(|l.blocks|, true), Place(k, |l.blocks|))
    else if k < |l.blocks| then OnBlock(l, LastCommand(|l.blocks|, false), k)
    else Stopped
  }

  lemma TableWalk(mem: Memory, register: bv32, l: Layout, cycling: bool, k: nat)
    requires |l.blocks| > 0 && Closes(|l.blocks|, cycling) && Placed(l) && StartsAt(register, l.base)
    requires Reads(mem, l.base, Table(l, LastCommand(|l.blocks|, cycling)))
    ensures Walk(mem, register as bv64, k) == Visited(l, cycling, k)
  {
    hide Reads, Placed, Resident, Walk, OnBlock, LastCommand, Closes, Place, StartsAt, Table;
    ReadsResident(mem, l, LastCommand(|l.blocks|, cycling));
    SameWalk(mem, register, l.base, k);
    if cycling {
      WalkRing(mem, l, k);
    } else {
      WalkOneShot(mem, l, k);
    }
  }

  /** Blocks the board can address and count: on page boundaries, ending below 2^40, of whole pages up to 1 GB. */
  ghost predicate Reachable(blocks: seq<bv64>, size: bv32) {
    && PageMultiple(size) && UpToGigabyte(size)
    && forall i :: 0 <= i < |blocks| ==> DataAddress(blocks[i]) && EndsInReach(blocks[i], size)
  }

  /** The descriptor the walk is at after k others, on values. */
  lemma VisitedMoves(l: Layout, cycling: bool, k: nat, p: Page)
    requires |l.blocks| > 0 && Reachable(l.blocks, l.blockSize) && OneBit(l.direction)
    ensures var e := Visited(l, cycling, k);
            if !cycling && k >= |l.blocks| then e == Stopped
            else
              && e.Running? && e.at < 63
              && (p in Moved(e.ram[e.at]) <==> PageRange.InBlock(l.blocks[Place(k, |l.blocks|)], l.blockSize, p))
              && (HwToHost(e.ram[e.at]) <==> l.direction & 1 == 1)
  {
    hide LastCommand, Place, Moved, BlockPages, PageRange.InBlock, Sign, RawBlock, PageMultiple, UpToGigabyte,
      DataAddress, EndsInReach, OneBit, HwToHost, HwAddress, HwPage, HwBytes, Jumps;
    var i := Place(k, |l.blocks|);
    MovesBlockIff(l, cycling, i);
    DescriptorMeaning(l, cycling, i);
    PageRange.BlockPagesIff(l.blocks[i], l.blockSize, p);
    DirectionBit(l.direction);
  }

  /**
   Set up by a start, and walking from its register over the table in memory, the board moves with
   its k-th transfer exactly the pages of block k mod N, in the direction of its mode word, and a
   one-shot transfer stops after N.
   */
  lemma StartedMoves(mem: Memory, table: seq<Slot>, l: Layout, cycling: bool, register: bv32, mode: bv16,
                     k: nat, p: Page)
    requires SetUp(table, l, cycling, register, mode)
    requires Closes(|l.blocks|, cycling) && Placed(l) && Reads(mem, l.base, table)
    requires Reachable(l.blocks, l.blockSize) && OneBit(l.direction)
    ensures var e := Walk(mem, register as bv64, k);
            if !cycling && k >= |l.blocks| then e == Stopped
            else
              && e.Running? && e.at < 63
              && (p in Moved(e.ram[e.at]) <==> PageRange.InBlock(l.blocks[Place(k, |l.blocks|)], l.blockSize, p))
              && (HwToHost(e.ram[e.at]) <==> mode == 0x0027)
  {
    hide Reads, Placed, Walk, LastCommand, Closes, Place, StartsAt, Table, Moved, PageRange.InBlock, Reachable, OneBit,
      HwToHost, Visited;
    TableWalk(mem, register, l, cycling, k);
    VisitedMoves(l, cycling, k, p);
  }
}
