/**
 The board, the interrupt handler and the reader sharing one ring of N buffers.

 The board fills buffers ahead of the handler, at most `depth` of them unannounced; the
 handler counts them and pauses the board; the reader takes buffers and acknowledges them.
 */
module Protocol {
  import opened Modular
  import opened Channel
  import opened Consumer
  import opened DescriptorTable
  import opened DescriptorEngine
  import opened ControlCode

  // ---------- states and steps ----------

  /** `pausing`: the handler acts on the flow-control flag. `depth`: how far the board runs ahead. */
  datatype Setup = Setup(layout: Layout, table: Memory, adjustOffset: u32, depth: nat, pausing: bool)

  /** What a buffer holds: nothing yet, a fill in progress, or a whole fill. */
  datatype Content = Untouched | Partial | Whole(fill: nat)

  /** The content of every page of the bus. */
  type Store = Page -> Content

  /** What the reader is handed: a buffer's number, and the memory it finds behind it. */
  datatype Delivery = Delivery(buffer: nat, memory: Store)

  datatype World = World(
    ch: Channel, strm: Stream, paused: bool, busy: bool,
    filled: nat, served: nat, taken: nat, seen: nat,
    memory: Store, log: seq<Delivery>)

  datatype Step = Begin | End | Interrupt | Get | Again

  predicate Sized(su: Setup) {
    0 < |su.layout.blocks| < 0x1_0000_0000 && su.depth > 0
  }

  function N(su: Setup): u32
    requires Sized(su)
  {
    |su.layout.blocks|
  }

  function Init(su: Setup): World
    requires Sized(su)
  {
    var idle := Channel(N(su), false, true, Progress(0, 0, su.adjustOffset, STATE_STOP), 0, 0, 0, 0, 0, 0, 0, 0);
    World(Start(idle, true), Restart(Stream(N(su), 0, 0)), false, false, 0, 0, 0, 0, p => Untouched, [])
  }

  /** The pages fill h goes to: those of the h-th descriptor the board visits. */
  function FillPages(su: Setup, h: nat): seq<Page> {
    match Walk(su.table, su.layout.base, h)
    case Running(ram, at) => if at < 64 then Moved(ram[at]) else []
    case _ => []
  }

  function Write(m: Store, pages: seq<Page>, c: Content): Store {
    p => if p in pages then c else m(p)
  }

  predicate Enabled(su: Setup, w: World, s: Step) {
    match s
    case Begin => !w.busy && !w.paused && w.filled < w.served + su.depth
    case End => w.busy
    case Interrupt => w.served < w.filled
    case Get => true
    case Again => true
  }

  /** An acknowledgement reaches the driver; if the flag is up afterwards the pause is lifted. */
  function Acknowledge(w: World): World {
    var ch := AfterDone(w.ch, w.strm.indexPc);
    w.(ch := ch, paused := if ch.doneFlag != 0 then false else w.paused)
  }

  function Observed(w: World): World {
    w.(strm := Observe(w.strm, w.ch.stub.lastBlock),
       seen := if Ready(w.strm) then w.seen else w.served)
  }

  predicate Delivers(w: World) {
    Ready(Observe(w.strm, w.ch.stub.lastBlock))
  }

  function Next(su: Setup, w: World, s: Step): World
    requires Sized(su)
  {
    match s
    case Begin => w.(busy := true, memory := Write(w.memory, FillPages(su, w.filled), Partial))
    case End =>
      w.(busy := false, memory := Write(w.memory, FillPages(su, w.filled), Whole(w.filled)), filled := w.filled + 1)
    case Interrupt =>
      var ch := AfterFill(w.ch);
      w.(ch := ch, served := w.served + 1, paused := if su.pausing && ch.doneFlag == 0 then true else w.paused)
    case Get =>
      var v := Observed(w);
      if Ready(v.strm) then
        var t := Take(v.strm);
        var got := if t.indexPc < N(su) then [Delivery(t.indexPc, v.memory)] else [];
        Acknowledge(v.(strm := t, taken := v.taken + 1, log := v.log + got))
      else v
    case Again => Acknowledge(w)
  }

  function Exec(su: Setup, steps: seq<Step>): World
    requires Sized(su)
  {
    if steps == [] then Init(su)
    else Next(su, Exec(su, steps[..|steps| - 1]), steps[|steps| - 1])
  }

  predicate IsRun(su: Setup, steps: seq<Step>)
    requires Sized(su)
  {
    steps == [] ||
    (IsRun(su, steps[..|steps| - 1]) && Enabled(su, Exec(su, steps[..|steps| - 1]), steps[|steps| - 1]))
  }

  // ---------- the invariant of the indices ----------

  function Going(w: World): nat {
    w.filled + (if w.busy then 1 else 0)
  }

  /** The flag is up exactly while this many fills are unacknowledged at most. */
  predicate Room(n: int, served: nat, taken: nat) {
    if taken == 0 then served <= n - 4 else served - taken <= n - 5
  }

  /** How far the board can have got, fill in progress included. */
  predicate Bounded(n: int, depth: nat, going: nat, taken: nat) {
    if taken == 0 then going <= n - 4 + depth else going <= taken + n - 5 + depth
  }

  predicate Indices(su: Setup, w: World)
    requires Sized(su)
  {
    && Counts(w.ch, w.served)
    && w.ch.blockCount == N(su) && w.ch.cycling && w.ch.adjust
    && w.ch.doneBlock == LastAt(N(su), w.taken)
    && w.strm == Stream(N(su), LastAt(N(su), w.seen), LastAt(N(su), w.taken))
    && w.taken <= w.seen <= w.served <= w.filled
    && Going(w) <= w.served + su.depth
    && (w.ch.doneFlag == 0 || w.ch.doneFlag == 1)
    && (w.paused <==> w.ch.doneFlag == 0)
    && (w.ch.doneFlag == 1 <==> Room(N(su), w.served, w.taken))
    && Bounded(N(su), su.depth, Going(w), w.taken)
  }

  predicate Paced(su: Setup) {
    Sized(su) && su.pausing && |su.layout.blocks| >= 4 && su.depth <= 3
  }

  lemma LastAtRange(n: u32, k: nat)
    requires n > 0
    ensures k == 0 ==> LastAt(n, k) == MINUS_ONE
    ensures k > 0 ==> LastAt(n, k) == Place(k - 1, n) < n
    ensures 0 <= LastAt(n, k) < TWO32
  {
    hide Place;
  }

  /** The look-ahead counter meets the acknowledged block exactly when the unacknowledged fills reach the limit. */
  lemma ReachesDoneIff(c: Channel, served: nat, taken: nat)
    requires Counts(c, served) && c.blockCount >= 4 && c.doneBlock == LastAt(c.blockCount, taken)
    requires taken <= served <= taken + c.blockCount - 1
    ensures ReachesDone(c) <==> if taken == 0 then served == c.blockCount - 3 else served - taken == c.blockCount - 4
  {
    hide Place;
    var n := c.blockCount;
    LastAtRange(n, taken);
    assert c.pre3 == Place(served + 3, n);
    if taken == 0 {
      SamePlace(served + 3, 0, n);
      assert Place(0, n) == 0;
    } else {
      SamePlace(served + 3, taken - 1, n);
    }
  }

  /** An acknowledgement raises the flag unless the block is within reach of the look-ahead counters. */
  lemma ClearOfIff(c: Channel, served: nat, taken: nat)
    requires Counts(c, served) && c.blockCount >= 4
    requires taken < served <= taken + c.blockCount - 1
    ensures var n, b := c.blockCount, LastAt(c.blockCount, taken + 1);
            (c.pre1 != b && c.pre2 != b && c.pre3 != b) <==> served - (taken + 1) <= n - 5
    ensures LastAt(c.blockCount, taken + 1) != LastAt(c.blockCount, taken)
  {
    hide Place;
    var n := c.blockCount;
    LastAtRange(n, taken + 1);
    LastAtRange(n, taken);
    SamePlace(served + 1, taken, n);
    SamePlace(served + 2, taken, n);
    SamePlace(served + 3, taken, n);
    if taken > 0 {
      SamePlace(taken, taken - 1, n);
    }
  }

  lemma InitIndices(su: Setup)
    requires Paced(su)
    ensures Indices(su, Init(su))
  {
    hide Place;
    StartCounts(Channel(N(su), false, true, Progress(0, 0, su.adjustOffset, STATE_STOP), 0, 0, 0, 0, 0, 0, 0, 0), true);
  }

  lemma InterruptKeeps(su: Setup, w: World)
    requires Paced(su) && Indices(su, w) && Enabled(su, w, Interrupt)
    ensures Indices(su, Next(su, w, Interrupt))
  {
    hide Counts, LastAt;
    FillCounts(w.ch, w.served);
    ReachesDoneIff(AfterFill(w.ch), w.served + 1, w.taken);
    assert ReachesDone(AfterFill(w.ch)) ==> AfterFill(w.ch).doneFlag == 0;
    assert !ReachesDone(AfterFill(w.ch)) ==> AfterFill(w.ch).doneFlag == w.ch.doneFlag;
  }

  lemma CountsLast(c: Channel, k: nat)
    requires Counts(c, k)
    ensures c.stub.lastBlock == LastAt(c.blockCount, k)
  {
    hide Place, LastAt, PreAt;
  }

  lemma LastDistinct(n: u32, a: nat, b: nat)
    requires n > 0 && a <= b <= a + n - 1
    ensures LastAt(n, a) == LastAt(n, b) <==> a == b
  {
    hide Place;
    if a > 0 {
      SamePlace(b - 1, a - 1, n);
    }
  }

  /** The reader's view catches up with the handler when it has run out, and only then. */
  lemma ObservedKeeps(su: Setup, w: World)
    requires Paced(su) && Indices(su, w)
    ensures Indices(su, Observed(w))
    ensures Ready(Observed(w).strm) <==> w.taken < Observed(w).seen
    ensures Delivers(w) <==> w.taken < w.served
  {
    hide Place, Counts;
    var n := N(su);
    assert w.ch.stub.lastBlock == LastAt(n, w.served) by { CountsLast(w.ch, w.served); }
    LastDistinct(n, w.taken, w.seen);
    LastDistinct(n, w.taken, w.served);
    hide LastAt;
  }

  lemma NextIndexIs(n: u32, taken: nat)
    requires n > 0
    ensures NextIndex(LastAt(n, taken), n) == Place(taken, n) == LastAt(n, taken + 1)
  {
    LastCounts(n, taken);
  }

  lemma AgainKeeps(su: Setup, w: World)
    requires Paced(su) && Indices(su, w)
    ensures Indices(su, Next(su, w, Again))
    ensures Next(su, w, Again) == w
  {
    hide Counts, LastAt;
  }

  lemma GetKeeps(su: Setup, w: World)
    requires Paced(su) && Indices(su, w)
    ensures Indices(su, Next(su, w, Get))
    ensures Next(su, w, Get).taken == w.taken + (if w.taken < w.served then 1 else 0)
    ensures Next(su, w, Get).served == w.served && Next(su, w, Get).filled == w.filled
    ensures Next(su, w, Get).busy == w.busy && Next(su, w, Get).memory == w.memory
    ensures Next(su, w, Get).log == w.log + if w.taken < w.served
              then [Delivery(Place(w.taken, N(su)), w.memory)] else []
  {
    hide Counts, LastAt, Place;
    ObservedKeeps(su, w);
    var v := Observed(w);
    if Ready(v.strm) {
      NextIndexIs(N(su), w.taken);
      ClearOfIff(v.ch, v.served, v.taken);
      DoneCounts(v.ch, LastAt(N(su), w.taken + 1), v.served);
    }
  }

  lemma BeginKeeps(su: Setup, w: World)
    requires Paced(su) && Indices(su, w) && Enabled(su, w, Begin)
    ensures Indices(su, Next(su, w, Begin))
  {
    hide Counts, LastAt, FillPages;
  }

  lemma EndKeeps(su: Setup, w: World)
    requires Paced(su) && Indices(su, w) && Enabled(su, w, End)
    ensures Indices(su, Next(su, w, End))
  {
    hide Counts, LastAt, FillPages;
  }

  lemma StepKeeps(su: Setup, w: World, s: Step)
    requires Paced(su) && Indices(su, w) && Enabled(su, w, s)
    ensures Indices(su, Next(su, w, s))
  {
    hide Indices, Next;
    match s
    case Begin => BeginKeeps(su, w);
    case End => EndKeeps(su, w);
    case Interrupt => InterruptKeeps(su, w);
    case Get => GetKeeps(su, w);
    case Again => AgainKeeps(su, w);
  }

  lemma {:induction false} RunKeeps(su: Setup, steps: seq<Step>)
    requires Paced(su) && IsRun(su, steps)
    ensures Indices(su, Exec(su, steps))
  {
    hide Indices, Next, Init, Enabled;
    if steps == [] {
      InitIndices(su);
    } else {
      RunKeeps(su, steps[..|steps| - 1]);
      StepKeeps(su, Exec(su, steps[..|steps| - 1]), steps[|steps| - 1]);
    }
  }

  // ---------- what the buffers hold ----------

  /** The pages of driver block i. */
  function PagesOf(su: Setup, i: nat): seq<Page>
    requires i < |su.layout.blocks|
  {
    BlockPages(su.layout.blocks[i], su.layout.blockSize)
  }

  /** Every page of driver block i holds the same thing. */
  ghost predicate Holds(su: Setup, m: Store, i: nat, c: Content)
    requires i < |su.layout.blocks|
  {
    forall p :: p in PagesOf(su, i) ==> m(p) == c
  }

  /** Block h mod N holds the whole of fill h. */
  ghost predicate Held(su: Setup, m: Store, h: nat)
    requires Sized(su)
  {
    Holds(su, m, Place(h, N(su)), Whole(h))
  }

  ghost predicate Apart(su: Setup, i: nat, j: nat)
    requires i < |su.layout.blocks| && j < |su.layout.blocks|
  {
    forall p :: p in PagesOf(su, i) ==> p !in PagesOf(su, j)
  }

  function PageStart(a: bv64): bv64 {
    a & 0xFFFF_FFFF_FFFF_F000
  }

  /** The page a descriptor block lies in. */
  function TablePage(su: Setup, q: nat): Page {
    Page(PageStart(SlotAddress(su.layout.base, 64 * q)))
  }

  /**
   The table in memory is the one the driver built and it closes; blocks are page-aligned, lie below
   2^40, and share no page with each other or with the table.
   */
  ghost predicate Cabled(su: Setup) {
    var l := su.layout;
    && Sized(su)
    && Closes(|l.blocks|, true) && Placed(l) && Resident(su.table, l, LastCommand(|l.blocks|, true))
    && PageMultiple(l.blockSize) && OneBit(l.direction)
    && (forall i :: 0 <= i < |l.blocks| ==> DataAddress(l.blocks[i]) && EndsInReach(l.blocks[i], l.blockSize))
    && (forall i, j :: 0 <= i < |l.blocks| && 0 <= j < |l.blocks| && i != j ==> Apart(su, i, j))
    && (forall i, q :: 0 <= i < |l.blocks| && 0 <= q < DescriptorBlocks(|l.blocks|) ==>
          TablePage(su, q) !in PagesOf(su, i))
  }

  /** And the handler, the ring and the lead are such that no buffer is lost. */
  ghost predicate Connected(su: Setup) {
    Paced(su) && Cabled(su)
  }

  /** And the blocks are not longer than the board can count. */
  ghost predicate Wired(su: Setup) {
    Connected(su) && UpToGigabyte(su.layout.blockSize)
  }

  /** The pages fill h goes to are those the board moves for the descriptor of block h mod N. */
  lemma FillMoves(su: Setup, h: nat)
    requires Cabled(su)
    ensures FillPages(su, h) == Moved(OnSlot(su.layout, true, Place(h, N(su))))
  {
    hide Place, Walk, Sign, RawBlock, LastCommand, Placed, Resident, PageMultiple, OneBit, DataAddress, EndsInReach,
      Apart, TablePage, Moved;
    WalkRing(su.table, su.layout, h);
  }

  /** Fill h goes to exactly the pages of driver block h mod N. */
  lemma FillGoesTo(su: Setup, h: nat)
    requires Cabled(su) && UpToGigabyte(su.layout.blockSize)
    ensures FillPages(su, h) == PagesOf(su, Place(h, N(su)))
  {
    FillMoves(su, h);
    hide Place, Placed, Resident, PageMultiple, OneBit, DataAddress, EndsInReach, Apart, TablePage, Moved, OnSlot,
      UpToGigabyte, FillPages, BlockPages;
    MovesBlockIff(su.layout, true, Place(h, N(su)));
  }

  /** Every fill that is not being overwritten is whole in its buffer. */
  ghost predicate BuffersWhole(su: Setup, w: World)
    requires Sized(su)
  {
    forall h: nat :: h < w.filled && Going(w) <= h + N(su) ==> Held(su, w.memory, h)
  }

  /** Everything taken was whole and in turn. */
  ghost predicate InTurn(su: Setup, w: World)
    requires Sized(su)
  {
    && |w.log| == w.taken
    && (forall d :: 0 <= d < |w.log| ==> w.log[d].buffer == Place(d, N(su)) && Held(su, w.log[d].memory, d))
  }

  /** No fill ever touches the table. */
  ghost predicate TableIntact(su: Setup, w: World) {
    forall q :: 0 <= q < DescriptorBlocks(|su.layout.blocks|) ==> w.memory(TablePage(su, q)) == Untouched
  }

  ghost predicate Intact(su: Setup, w: World)
    requires Sized(su)
  {
    BuffersWhole(su, w) && InTurn(su, w) && TableIntact(su, w)
  }

  lemma OneMoreInTurn(su: Setup, v: World, w: World)
    requires Sized(su) && InTurn(su, w) && v.taken == w.taken + 1
    requires v.log == w.log + [Delivery(Place(w.taken, N(su)), w.memory)] && Held(su, w.memory, w.taken)
    ensures InTurn(su, v)
  {
    hide Place, Held;
  }

  lemma ConnectedApart(su: Setup, i: nat, j: nat)
    requires Connected(su) && i < |su.layout.blocks| && j < |su.layout.blocks| && i != j
    ensures Apart(su, i, j)
  {
    hide Closes, Placed, Resident, Apart, DataAddress, EndsInReach, TablePage;
  }

  /** Fills fewer than N apart lie in different buffers. */
  lemma OtherBuffer(su: Setup, m: Store, a: nat, b: nat, x: Content)
    requires Wired(su) && b < a < b + N(su) && Held(su, m, b)
    ensures Held(su, Write(m, PagesOf(su, Place(a, N(su))), x), b)
  {
    SamePlace(a, b, N(su));
    ConnectedApart(su, Place(a, N(su)), Place(b, N(su)));
    hide Place, Wired, PagesOf;
  }

  lemma HoldsWritten(su: Setup, m: Store, i: nat, x: Content)
    requires i < |su.layout.blocks|
    ensures Holds(su, Write(m, PagesOf(su, i), x), i, x)
  {
    hide PagesOf;
  }

  lemma TableStays(su: Setup, w: World, i: nat, x: Content, v: World)
    requires Connected(su) && TableIntact(su, w) && i < |su.layout.blocks|
    requires v.memory == Write(w.memory, PagesOf(su, i), x)
    ensures TableIntact(su, v)
  {
    hide Closes, Placed, Resident, Apart, DataAddress, EndsInReach, TablePage, PagesOf;
  }

  lemma CabledSized(su: Setup)
    requires Cabled(su)
    ensures Sized(su)
  {
    hide Closes, Placed, Resident, Apart, DataAddress, EndsInReach, TablePage;
  }

  lemma WiredCabled(su: Setup)
    requires Wired(su)
    ensures Cabled(su) && UpToGigabyte(su.layout.blockSize)
  {
    hide Cabled, UpToGigabyte;
  }

  lemma WiredPaced(su: Setup)
    requires Wired(su)
    ensures Paced(su)
  {
    hide Closes, Placed, Resident, Apart, DataAddress, EndsInReach, TablePage;
  }

  lemma BeginIntact(su: Setup, w: World)
    requires Wired(su) && Indices(su, w) && Intact(su, w) && Enabled(su, w, Begin)
    ensures Intact(su, Next(su, w, Begin))
  {
    hide Place, Connected, UpToGigabyte, Indices, FillPages, Held, PagesOf, TableIntact, Write;
    WiredPaced(su);
    WiredCabled(su);
    FillGoesTo(su, w.filled);
    var v := Next(su, w, Begin);
    TableStays(su, w, Place(w.filled, N(su)), Partial, v);
    forall h: nat | h < v.filled && Going(v) <= h + N(su) ensures Held(su, v.memory, h) {
      OtherBuffer(su, w.memory, w.filled, h, Partial);
    }
  }

  lemma HeldWritten(su: Setup, m: Store, h: nat)
    requires Sized(su)
    ensures Held(su, Write(m, PagesOf(su, Place(h, N(su))), Whole(h)), h)
  {
    hide Place, PagesOf, Write;
    HoldsWritten(su, m, Place(h, N(su)), Whole(h));
  }

  lemma EndIntact(su: Setup, w: World)
    requires Wired(su) && Indices(su, w) && Intact(su, w) && Enabled(su, w, End)
    ensures Intact(su, Next(su, w, End))
  {
    hide Place, Connected, UpToGigabyte, Indices, FillPages, Held, PagesOf, TableIntact, Write;
    WiredPaced(su);
    WiredCabled(su);
    FillGoesTo(su, w.filled);
    var v := Next(su, w, End);
    TableStays(su, w, Place(w.filled, N(su)), Whole(w.filled), v);
    forall h: nat | h < v.filled && Going(v) <= h + N(su) ensures Held(su, v.memory, h) {
      if h < w.filled {
        OtherBuffer(su, w.memory, w.filled, h, Whole(w.filled));
      } else {
        HeldWritten(su, w.memory, h);
      }
    }
  }

  lemma WindowCovers(su: Setup, w: World)
    requires Paced(su) && Indices(su, w)
    ensures Going(w) < w.taken + N(su)
    ensures w.taken > 0 ==> Going(w) <= w.taken + N(su) - 5 + su.depth
    ensures w.taken <= w.served <= w.filled
  {
    hide Counts, LastAt;
  }

  /** Same memory, fills and log: same guarantees. */
  lemma SameIntact(su: Setup, v: World, w: World)
    requires Sized(su) && Intact(su, w)
    requires v.memory == w.memory && v.filled == w.filled && v.busy == w.busy && v.log == w.log && v.taken == w.taken
    ensures Intact(su, v)
  {
    hide Place, Held, TablePage;
  }

  lemma GetIntact(su: Setup, w: World)
    requires Wired(su) && Indices(su, w) && Intact(su, w)
    ensures Intact(su, Next(su, w, Get))
  {
    WiredPaced(su);
    GetKeeps(su, w);
    WindowCovers(su, w);
    hide Place, Wired, Indices, Next, Held, InTurn, TablePage;
    var v := Next(su, w, Get);
    if w.taken < w.served {
      assert Held(su, w.memory, w.taken);
      OneMoreInTurn(su, v, w);
      assert BuffersWhole(su, v) && TableIntact(su, v);
    } else {
      SameIntact(su, v, w);
    }
  }

  lemma ConnectedPaced(su: Setup)
    requires Connected(su)
    ensures Paced(su)
  {
    hide Closes, Placed, Resident, Apart, DataAddress, EndsInReach, TablePage;
  }

  lemma InitIntact(su: Setup)
    requires Sized(su)
    ensures Intact(su, Init(su))
  {
    hide Place, TablePage;
  }

  lemma InterruptIntact(su: Setup, w: World)
    requires Sized(su) && Intact(su, w)
    ensures Intact(su, Next(su, w, Interrupt))
  {
    hide Place, AfterFill, Intact;
    SameIntact(su, Next(su, w, Interrupt), w);
  }

  lemma {:induction false} RunIntact(su: Setup, steps: seq<Step>)
    requires Wired(su) && IsRun(su, steps)
    ensures Intact(su, Exec(su, steps))
  {
    hide Indices, Next, Enabled, Intact, Wired;
    WiredPaced(su);
    if steps == [] {
      InitIntact(su);
    } else {
      var w := Exec(su, steps[..|steps| - 1]);
      RunIntact(su, steps[..|steps| - 1]);
      RunKeeps(su, steps[..|steps| - 1]);
      match steps[|steps| - 1]
      case Begin => BeginIntact(su, w);
      case End => EndIntact(su, w);
      case Interrupt => InterruptIntact(su, w);
      case Get => GetIntact(su, w);
      case Again => AgainKeeps(su, w);
    }
  }

  /**
   End to end, over every run: the d-th buffer taken is buffer d mod N, every page of it holding
   fill d, nothing lost, repeated or out of turn; it stays untouched until 5 - depth more have been
   taken; and no fill ever touches the table that directs it.
   */
  lemma EndToEnd(su: Setup, steps: seq<Step>)
    requires Wired(su) && IsRun(su, steps)
    ensures var w, n := Exec(su, steps), N(su);
            && |w.log| == w.taken
            && (forall d :: 0 <= d < w.taken ==> w.log[d].buffer == Place(d, n) && Held(su, w.log[d].memory, d))
            && (forall d: nat :: d < w.taken <= d + 5 - su.depth ==> Held(su, w.memory, d))
            && (forall d: nat :: w.taken <= d < w.filled ==> Held(su, w.memory, d))
            && TableIntact(su, w)
  {
    hide Place, Wired, Indices, Held, Exec, TableIntact;
    WiredPaced(su);
    RunIntact(su, steps);
    RunKeeps(su, steps);
    WindowCovers(su, Exec(su, steps));
  }

  lemma OnePage(start: bv64)
    ensures BlockPages(start, 0x1000) == [Page(start)]
    ensures InReach(start) ==> EndsInReach(start, 0x1000)
  {
    assert PageCount(0x1000) == 1 && Number(1) == 1;
    assert PageAt(start, 0) == start;
    hide InReach;
  }

  const SAMPLE: seq<bv64> := [0x20_0000, 0x20_1000, 0x20_2000, 0x20_3000, 0x20_4000]

  lemma SampleAddresses()
    ensures TableAddress(0x10_0000) && PageStart(0x10_0000) == 0x10_0000 && PageMultiple(0x1000) && OneBit(1)
    ensures forall a :: a in SAMPLE ==> DataAddress(a) && InReach(a)
    ensures UpToGigabyte(0x1000)
  {
  }

  lemma SampleApart(su: Setup)
    requires |su.layout.blocks| == 5 && su.layout.base == 0x10_0000
    requires forall i :: 0 <= i < 5 ==> PagesOf(su, i) == [Page(SAMPLE[i])]
    ensures forall i, j :: 0 <= i < 5 && 0 <= j < 5 && i != j ==> Apart(su, i, j)
    ensures forall i, q :: 0 <= i < 5 && 0 <= q < DescriptorBlocks(5) ==> TablePage(su, q) !in PagesOf(su, i)
  {
    hide PagesOf, PageStart;
    SampleAddresses();
    assert DescriptorBlocks(5) == 1;
    assert SlotAddress(su.layout.base, 64 * 0) == su.layout.base;
    assert TablePage(su, 0) == Page(0x10_0000);
  }

  /** A ring of five one-page buffers meets every assumption of the end-to-end result. */
  lemma SampleWired() returns (su: Setup)
    ensures Wired(su) && N(su) == 5 && su.depth == 2
  {
    hide Around, TableAddress, PageMultiple, OneBit, DataAddress, UpToGigabyte, InReach, EndsInReach, PageStart,
      BlockPages, Resident, LastCommand;
    var l := Layout(0x10_0000, SAMPLE, 0x1000, 1);
    SampleAddresses();
    assert SlotAddress(l.base, 64 * 0) == l.base;
    assert Placed(l);
    AroundResident(l, LastCommand(5, true), seq(64, i => EMPTY));
    su := Setup(l, Around(l, LastCommand(5, true), seq(64, i => EMPTY)), 0, 2, true);
    forall i | 0 <= i < 5 ensures PagesOf(su, i) == [Page(SAMPLE[i])] && EndsInReach(SAMPLE[i], 0x1000) {
      OnePage(SAMPLE[i]);
    }
    SampleApart(su);
    hide PagesOf, Apart, SlotAddress, TablePage;
  }

  ghost predicate DeliveredWhole(su: Setup, w: World)
    requires Sized(su)
  {
    forall d :: 0 <= d < |w.log| ==> Held(su, w.log[d].memory, d)
  }

  /** Whatever is handed to the reader is whole. */
  ghost predicate AlwaysWhole(su: Setup)
    requires Sized(su)
  {
    forall steps :: IsRun(su, steps) ==> DeliveredWhole(su, Exec(su, steps))
  }

  lemma Empty(su: Setup)
    requires Sized(su)
    ensures Exec(su, []) == Init(su) && IsRun(su, [])
  {
    hide Init;
  }

  lemma Extend(su: Setup, steps: seq<Step>, s: Step)
    requires Sized(su) && IsRun(su, steps) && Enabled(su, Exec(su, steps), s)
    ensures IsRun(su, steps + [s]) && Exec(su, steps + [s]) == Next(su, Exec(su, steps), s)
  {
    hide Next, Enabled, Init;
    var all := steps + [s];
    assert all[..|all| - 1] == steps;
  }

  /** One fill, one interrupt, one buffer taken. */
  lemma FirstDelivery(su: Setup) returns (steps: seq<Step>)
    requires Paced(su)
    ensures IsRun(su, steps)
    ensures var w, m := Exec(su, steps), Write(Init(su).memory, FillPages(su, 0), Partial);
            |w.log| == 1 && w.log[0].memory == Write(m, FillPages(su, 0), Whole(0))
  {
    hide Exec, IsRun, Indices, FillPages, Write, Counts, LastAt, AfterFill;
    var w0 := Init(su);
    assert w0.ch.doneFlag == 1 && !w0.paused && !w0.busy && w0.filled == w0.served == 0 && w0.log == [];
    Empty(su);
    InitIndices(su);
    Extend(su, [], Begin);
    assert [] + [Begin] == [Begin];
    Extend(su, [Begin], End);
    Extend(su, [Begin] + [End], Interrupt);
    var before := [Begin] + [End] + [Interrupt];
    RunKeeps(su, before);
    GetKeeps(su, Exec(su, before));
    Extend(su, before, Get);
    steps := before + [Get];
  }

  lemma Unwritten(su: Setup, p: Page)
    requires Sized(su) && p !in FillPages(su, 0)
    ensures Write(Write(Init(su).memory, FillPages(su, 0), Partial), FillPages(su, 0), Whole(0))(p) == Untouched
  {
    hide FillPages;
  }

  /** A block over 1 GB is handed out with a page the board has not filled. */
  lemma ShortDelivery(su: Setup)
    requires Connected(su) && !UpToGigabyte(su.layout.blockSize)
    ensures !AlwaysWhole(su)
  {
    var steps := FirstDelivery(su);
    var p := ShortMisses(su.layout, true, 0);
    FillMoves(su, 0);
    Unwritten(su, p);
    hide Exec, IsRun, FillPages, Write, Connected, PagesOf, Moved, OnSlot;
    var w := Exec(su, steps);
    assert w.log[0].memory(p) == Untouched;
    assert !Held(su, w.log[0].memory, 0);
    assert !DeliveredWhole(su, w);
  }

  /** Every buffer handed out in every run is whole if and only if the blocks have at most 1 GB. */
  lemma AlwaysWholeIff(su: Setup)
    requires Connected(su)
    ensures AlwaysWhole(su) <==> UpToGigabyte(su.layout.blockSize)
  {
    hide Exec, IsRun, Connected, UpToGigabyte, Held;
    ConnectedPaced(su);
    if UpToGigabyte(su.layout.blockSize) {
      forall steps | IsRun(su, steps) ensures DeliveredWhole(su, Exec(su, steps)) {
        EndToEnd(su, steps);
      }
    } else {
      ShortDelivery(su);
    }
  }

  // ---------- safety: exactly when ----------

  /** The board never starts on a buffer the reader has not taken. */
  predicate NoLoss(su: Setup, w: World)
    requires Sized(su)
  {
    w.busy ==> w.filled < w.taken + N(su)
  }

  ghost predicate AlwaysSafe(su: Setup)
    requires Sized(su)
  {
    forall steps :: IsRun(su, steps) ==> NoLoss(su, Exec(su, steps))
  }

  lemma PacedIsSafe(su: Setup)
    requires Paced(su)
    ensures AlwaysSafe(su)
  {
    hide Indices, Exec;
    forall steps | IsRun(su, steps) ensures NoLoss(su, Exec(su, steps)) {
      RunKeeps(su, steps);
      WindowCovers(su, Exec(su, steps));
    }
  }

  /** k blocks filled and announced, `taken` of them taken and acknowledged, and the board between two blocks. */
  predicate Idle(su: Setup, w: World, k: nat, taken: nat)
    requires Sized(su)
  {
    && Counts(w.ch, k) && w.ch.blockCount == N(su) && w.ch.doneBlock == LastAt(N(su), taken)
    && w.ch.cycling && w.ch.adjust
    && w.strm == Stream(N(su), LastAt(N(su), taken), LastAt(N(su), taken))
    && !w.busy && w.served == w.filled == k && w.taken == taken
    && (w.ch.doneFlag == 0 || w.ch.doneFlag == 1)
  }

  /** The k-th fill does not bring the flag down while the reader rests after none or one. */
  predicate Quiet(n: u32, k: nat, taken: nat) {
    if taken == 0 then (if n < 4 then k <= n else k <= n - 4)
    else taken == 1 && (if n < 4 then k + 3 < TWO32 else k <= n - 4)
  }

  lemma FlagStays(c: Channel, k: nat, taken: nat)
    requires Counts(c, k) && c.doneBlock == LastAt(c.blockCount, taken) && Quiet(c.blockCount, k, taken)
    ensures !ReachesDone(c)
  {
    hide Place;
  }

  predicate Unhindered(su: Setup, k: nat, taken: nat)
    requires Sized(su)
  {
    !su.pausing || Quiet(N(su), k, taken)
  }

  lemma InitIdle(su: Setup)
    requires Sized(su)
    ensures Idle(su, Init(su), 0, 0) && !Init(su).paused && Init(su).ch.doneFlag == 1
  {
    hide Place;
    StartCounts(Channel(N(su), false, true, Progress(0, 0, su.adjustOffset, STATE_STOP), 0, 0, 0, 0, 0, 0, 0, 0), true);
  }

  /** What an interrupt does to a channel whose reader rests. */
  lemma FillIdle(su: Setup, c: Channel, k: nat, taken: nat)
    requires Sized(su) && Counts(c, k) && c.blockCount == N(su) && c.doneBlock == LastAt(N(su), taken)
    requires c.cycling && c.adjust && (c.doneFlag == 0 || c.doneFlag == 1)
    ensures var d := AfterFill(c);
            && Counts(d, k + 1) && d.blockCount == N(su) && d.doneBlock == c.doneBlock && d.cycling && d.adjust
            && d.doneFlag == (if ReachesDone(d) then 0 else c.doneFlag)
            && (Quiet(N(su), k + 1, taken) ==> d.doneFlag == c.doneFlag)
  {
    hide LastAt;
    FillCounts(c, k);
    if Quiet(N(su), k + 1, taken) {
      FlagStays(AfterFill(c), k + 1, taken);
    }
    hide Counts, Bump;
  }

  /** One more block started, ended and announced. */
  lemma Round(su: Setup, steps: seq<Step>, k: nat, taken: nat) returns (more: seq<Step>)
    requires Sized(su) && IsRun(su, steps) && Idle(su, Exec(su, steps), k, taken) && !Exec(su, steps).paused
    ensures IsRun(su, more) && Idle(su, Exec(su, more), k + 1, taken)
    ensures var w, c := Exec(su, more), AfterFill(Exec(su, steps).ch);
            && w.ch == c && w.log == Exec(su, steps).log
            && (w.paused <==> su.pausing && c.doneFlag == 0)
            && c.doneFlag == (if ReachesDone(c) then 0 else Exec(su, steps).ch.doneFlag)
            && (Quiet(N(su), k + 1, taken) ==> c.doneFlag == Exec(su, steps).ch.doneFlag)
            && exists m :: w.memory == Write(m, FillPages(su, k), Whole(k))
  {
    hide Counts, LastAt, FillPages, Exec, IsRun, AfterFill, ReachesDone, Quiet, Write;
    var w := Exec(su, steps);
    Extend(su, steps, Begin);
    Extend(su, steps + [Begin], End);
    Extend(su, steps + [Begin] + [End], Interrupt);
    more := steps + [Begin] + [End] + [Interrupt];
    FillIdle(su, w.ch, k, taken);
  }

  /** j rounds, the flag staying up. */
  lemma {:induction false} Rounds(su: Setup, steps: seq<Step>, k: nat, j: nat, taken: nat) returns (more: seq<Step>)
    requires Sized(su) && IsRun(su, steps) && Idle(su, Exec(su, steps), k, taken) && !Exec(su, steps).paused
    requires su.pausing ==> Exec(su, steps).ch.doneFlag == 1
    requires forall i :: k < i <= k + j ==> Unhindered(su, i, taken)
    ensures IsRun(su, more) && Idle(su, Exec(su, more), k + j, taken) && !Exec(su, more).paused
    ensures su.pausing ==> Exec(su, more).ch.doneFlag == 1
    ensures Exec(su, more).log == Exec(su, steps).log
  {
    hide Idle, Exec, IsRun, AfterFill, Quiet;
    if j == 0 {
      more := steps;
    } else {
      var before := Rounds(su, steps, k, j - 1, taken);
      assert Unhindered(su, k + j, taken);
      more := Round(su, before, k + j - 1, taken);
    }
  }

  /** k rounds from the start, none taken. */
  lemma FirstRounds(su: Setup, k: nat) returns (steps: seq<Step>)
    requires Sized(su) && Unhindered(su, k, 0)
    ensures IsRun(su, steps) && Idle(su, Exec(su, steps), k, 0) && !Exec(su, steps).paused
    ensures su.pausing ==> Exec(su, steps).ch.doneFlag == 1
    ensures Exec(su, steps).log == []
  {
    hide Idle, Exec, IsRun;
    InitIdle(su);
    Empty(su);
    steps := Rounds(su, [], 0, k, 0);
  }

  /** Without the pause, or with fewer than four buffers, the board laps a reader that never comes. */
  lemma Laps(su: Setup)
    requires Sized(su) && (!su.pausing || N(su) < 4)
    ensures !AlwaysSafe(su)
  {
    hide Exec, IsRun, Counts, FillPages, LastAt;
    var steps := FirstRounds(su, N(su));
    Extend(su, steps, Begin);
    assert !NoLoss(su, Exec(su, steps + [Begin]));
  }

  /** Repeat a block's start and end, with the handler absent. */
  lemma {:induction false} Lead(su: Setup, steps: seq<Step>, k: nat, taken: nat, j: nat) returns (more: seq<Step>)
    requires Sized(su) && IsRun(su, steps) && Idle(su, Exec(su, steps), k, taken) && !Exec(su, steps).paused
    requires j <= su.depth
    ensures IsRun(su, more)
    ensures var w := Exec(su, steps); Exec(su, more) == w.(filled := k + j, memory := Exec(su, more).memory)
  {
    hide Counts, FillPages, Exec, IsRun, LastAt;
    if j == 0 {
      more := steps;
    } else {
      var before := Lead(su, steps, k, taken, j - 1);
      Extend(su, before, Begin);
      Extend(su, before + [Begin], End);
      more := before + [Begin] + [End];
    }
  }

  /** The handler works off a lead of j blocks; a flag that is down stays down. */
  lemma {:induction false} CatchUp(su: Setup, steps: seq<Step>, k: nat, taken: nat, j: nat) returns (more: seq<Step>)
    requires Sized(su) && IsRun(su, steps)
    requires var w := Exec(su, steps); w.filled == k + j && Idle(su, w.(filled := k), k, taken)
    ensures IsRun(su, more) && Idle(su, Exec(su, more), k + j, taken)
    ensures var w := Exec(su, steps);
            w.ch.doneFlag == 0 && w.paused ==> Exec(su, more).ch.doneFlag == 0 && Exec(su, more).paused
    decreases j
  {
    hide Counts, Exec, IsRun, AfterFill, LastAt, ReachesDone;
    if j == 0 {
      more := steps;
    } else {
      FillIdle(su, Exec(su, steps).ch, k, taken);
      Extend(su, steps, Interrupt);
      more := CatchUp(su, steps + [Interrupt], k + 1, taken, j - 1);
    }
  }

  lemma FullRing(c: Channel)
    requires c.blockCount >= 4 && Counts(c, c.blockCount)
    ensures c.stub.lastBlock == c.blockCount - 1 && c.pre1 == 1 && c.pre2 == 2 && c.pre3 == 3
  {
    hide Place;
    var n: nat := c.blockCount;
    SamePlace(n + 1, 1, n);
    SamePlace(n + 2, 2, n);
    SamePlace(n + 3, 3, n);
  }

  /** With N fills and none taken, the first acknowledgement raises the flag although the ring is full. */
  lemma FullRingRaises(su: Setup, w: World)
    requires Sized(su) && N(su) >= 4 && Idle(su, w, N(su), 0)
    ensures var v := Next(su, w, Get); !v.paused && !v.busy && v.filled == v.served == N(su) && v.taken == 1
  {
    hide Counts;
    var n := N(su);
    FullRing(w.ch);
    assert Observed(w).strm == Stream(n, n - 1, MINUS_ONE);
    assert Take(Observed(w).strm).indexPc == 0;
  }

  /** A lead of four or more is too long for the three look-ahead counters. */
  lemma Overtakes(su: Setup)
    requires Sized(su) && su.pausing && N(su) >= 4 && su.depth >= 4
    ensures !AlwaysSafe(su)
  {
    hide Exec, IsRun, Counts, FillPages, LastAt;
    var n := N(su);
    var rounds := FirstRounds(su, n - 4);
    var lead := Lead(su, rounds, n - 4, 0, 4);
    var full := CatchUp(su, lead, n - 4, 0, 4);
    FullRingRaises(su, Exec(su, full));
    Extend(su, full, Get);
    Extend(su, full + [Get], Begin);
    Extend(su, full + [Get] + [Begin], End);
    Extend(su, full + [Get] + [Begin] + [End], Begin);
    assert !NoLoss(su, Exec(su, full + [Get] + [Begin] + [End] + [Begin]));
  }

  /**
   No run loses a buffer exactly when the handler acts on the flag, the ring has at least four
   buffers and the board leads by at most three.
   */
  lemma AlwaysSafeIff(su: Setup)
    requires Sized(su)
    ensures AlwaysSafe(su) <==> su.pausing && N(su) >= 4 && su.depth <= 3
  {
    hide AlwaysSafe;
    if Paced(su) {
      PacedIsSafe(su);
    } else if !su.pausing || N(su) < 4 {
      Laps(su);
    } else {
      Overtakes(su);
    }
  }

  // ---------- the flag ----------

  /**
   Over every run the flag is up exactly while the unacknowledged fills leave the reserve, and the
   board pauses exactly when it is down. A lead of one makes the bound N - 4 (N - 3 at first).
   */
  lemma FlagExact(su: Setup, steps: seq<Step>)
    requires Paced(su) && IsRun(su, steps)
    ensures var w, n := Exec(su, steps), N(su);
            && (w.ch.doneFlag == 1 <==> if w.taken == 0 then w.served <= n - 4 else w.served - w.taken <= n - 5)
            && (w.paused <==> w.ch.doneFlag == 0)
            && w.served - w.taken <= n - 4 + su.depth - (if w.taken == 0 then 0 else 1)
            && (w.taken == w.served && n >= 5 ==> w.ch.doneFlag == 1)
  {
    hide Exec, Counts, LastAt;
    RunKeeps(su, steps);
  }
}
