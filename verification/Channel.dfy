/**
 One DMA channel's progress counters and its flow-control flag, as values.

 All counters are 32-bit; -1 is 0xFFFFFFFF.
 */
module Channel {
  import opened Modular

  const STATE_RUN: u32 := 1
  const STATE_STOP: u32 := 2

  /** The page shared with user space. */
  datatype Progress = Progress(lastBlock: u32, totalCounter: u32, offset: u32, state: u32)

  datatype Channel = Channel(
    blockCount: u32, cycling: bool, adjust: bool,
    stub: Progress,
    curBlock: u32, remaining: u32, cycle: u32,
    doneBlock: u32, doneFlag: u32,
    pre1: u32, pre2: u32, pre3: u32)

  // ---------- the driver's three operations ----------

  function Start(c: Channel, cycling: bool): Channel {
    c.(cycling := cycling, doneBlock := MINUS_ONE, doneFlag := 1, cycle := 0,
       remaining := c.blockCount, curBlock := 0, pre1 := 1, pre2 := 2, pre3 := 3,
       stub := c.stub.(lastBlock := MINUS_ONE, totalCounter := 0, state := STATE_RUN))
  }

  /** A look-ahead counter wraps when it reaches the block count, or 2^32 if it started beyond it. */
  function Bump(pre: u32, n: u32): u32 {
    if Inc(pre) == n then 0 else Inc(pre)
  }

  predicate ReachesDone(c: Channel) {
    (c.pre3 == 0 && c.doneBlock == MINUS_ONE) || c.pre3 == c.doneBlock
  }

  /** One end-of-block interrupt. */
  function AfterFill(c: Channel): Channel {
    var last := if Inc(c.stub.lastBlock) >= c.blockCount then 0 else Inc(c.stub.lastBlock);
    var left := Dec(c.remaining);
    var wrap := left == 0 && c.cycling;
    var d := c.(stub := c.stub.(lastBlock := last, totalCounter := Inc(c.stub.totalCounter)),
                remaining := if wrap then c.blockCount else left,
                curBlock := if wrap then 0 else Inc(c.curBlock),
                cycle := if wrap then Inc(c.cycle) else c.cycle,
                pre1 := Bump(c.pre1, c.blockCount),
                pre2 := Bump(c.pre2, c.blockCount),
                pre3 := Bump(c.pre3, c.blockCount));
    if d.adjust && d.cycling && ReachesDone(d) then d.(doneFlag := 0) else d
  }

  /** One acknowledgement. */
  function AfterDone(c: Channel, block: u32): Channel {
    if block == c.doneBlock then c
    else
      var d := c.(doneBlock := block);
      if d.pre1 != block && d.pre2 != block && d.pre3 != block && d.adjust && d.cycling && d.doneFlag == 0
      then d.(doneFlag := 1) else d
  }

  // ---------- closed form of the counters ----------

  /** A look-ahead counter that started at j, after k fills. */
  function PreAt(n: u32, j: nat, k: nat): nat
    requires n > 0
  {
    if j < n then Place(k + j, n)
    else if k + j < TWO32 then k + j
    else Place(k + j - TWO32, n)
  }

  function LastAt(n: u32, k: nat): nat
    requires n > 0
  {
    if k == 0 then MINUS_ONE else Place(k - 1, n)
  }

  /** The channel has served k interrupts since its transfer was started. */
  predicate Counts(c: Channel, k: nat) {
    && c.blockCount > 0
    && c.stub.lastBlock == LastAt(c.blockCount, k)
    && c.stub.totalCounter == k % TWO32
    && c.curBlock == (if c.cycling then Place(k, c.blockCount) else k % TWO32)
    && c.remaining == (if c.cycling then c.blockCount - Place(k, c.blockCount) else (c.blockCount - k) % TWO32)
    && c.cycle == (if c.cycling then Turns(k, c.blockCount) % TWO32 else 0)
    && c.pre1 == PreAt(c.blockCount, 1, k)
    && c.pre2 == PreAt(c.blockCount, 2, k)
    && c.pre3 == PreAt(c.blockCount, 3, k)
  }

  lemma BumpCounts(n: u32, j: nat, k: nat)
    requires n > 0 && j < TWO32
    ensures PreAt(n, j, k) < TWO32
    ensures PreAt(n, j, k + 1) == Bump(PreAt(n, j, k), n)
  {
    hide Place;
    if j < n {
      PlaceNext(k + j, n);
    } else if k + j >= TWO32 {
      PlaceNext(k + j - TWO32, n);
    }
  }

  lemma LastCounts(n: u32, k: nat)
    requires n > 0
    ensures LastAt(n, k) < TWO32
    ensures LastAt(n, k + 1) == if Inc(LastAt(n, k)) >= n then 0 else Inc(LastAt(n, k))
  {
    hide Place;
    if k > 0 {
      PlaceNext(k - 1, n);
    }
  }

  lemma StartCounts(c: Channel, cycling: bool)
    requires c.blockCount > 0
    ensures Counts(Start(c, cycling), 0)
  {
    var n := c.blockCount;
    assert 0 / n == 0;
  }

  lemma WrappingCounters(n: int, k: nat)
    ensures Inc(k % TWO32) == (k + 1) % TWO32
    ensures Dec((n - k) % TWO32) == (n - (k + 1)) % TWO32
  {
  }

  lemma FillCounts(c: Channel, k: nat)
    requires Counts(c, k)
    ensures Counts(AfterFill(c), k + 1)
  {
    hide Place, Turns, LastAt, PreAt, Bump, ReachesDone;
    var n := c.blockCount;
    BumpCounts(n, 1, k);
    BumpCounts(n, 2, k);
    BumpCounts(n, 3, k);
    LastCounts(n, k);
    PlaceNext(k, n);
    TurnsNext(k, n);
    WrappingCounters(n, k);
    WrappingCounters(n, Turns(k, n));
    var r := Place(k, n);
    assert c.cycling ==> Dec(n - r) == n - r - 1;
    assert c.cycling ==> Inc(r) == if r + 1 == TWO32 then 0 else r + 1;
    hide Inc, Dec;
  }

  lemma DoneCounts(c: Channel, block: u32, k: nat)
    requires Counts(c, k)
    ensures Counts(AfterDone(c, block), k)
  {
    hide Place, LastAt, PreAt;
  }

  // ---------- runs ----------

  datatype Event = Fill | Done(block: u32)

  function Run(c: Channel, events: seq<Event>): Channel {
    if events == [] then c
    else
      var before := Run(c, events[..|events| - 1]);
      match events[|events| - 1]
      case Fill => AfterFill(before)
      case Done(b) => AfterDone(before, b)
  }

  function Fills(events: seq<Event>): nat {
    if events == [] then 0
    else Fills(events[..|events| - 1]) + (if events[|events| - 1].Fill? then 1 else 0)
  }

  /** Interrupts and acknowledgements change neither the settings of a channel nor the rest of its page. */
  lemma {:induction false} RunKeepsSettings(c: Channel, events: seq<Event>)
    ensures var d := Run(c, events);
            && d.blockCount == c.blockCount && d.cycling == c.cycling && d.adjust == c.adjust
            && d.stub.offset == c.stub.offset && d.stub.state == c.stub.state
  {
    hide Bump, ReachesDone, Inc, Dec;
    if events == [] {
    } else {
      RunKeepsSettings(c, events[..|events| - 1]);
    }
  }

  /** Only a cyclic transfer in agreed mode ever moves the flag, whatever it was. */
  lemma {:induction false} FlagNeedsAgreement(c: Channel, events: seq<Event>)
    requires !c.adjust || !c.cycling
    ensures Run(c, events).doneFlag == c.doneFlag
  {
    hide Bump, ReachesDone, Inc, Dec;
    if events == [] {
    } else {
      var init := events[..|events| - 1];
      FlagNeedsAgreement(c, init);
      RunKeepsSettings(c, init);
    }
  }

  /** So without an agreement, or in a one-shot transfer, the flag is up after every run from a start. */
  lemma NeverAskedToPause(c: Channel, cycling: bool, events: seq<Event>)
    requires !c.adjust || !cycling
    ensures Run(Start(c, cycling), events).doneFlag == 1
    ensures Run(Start(c, cycling), events).stub.state == 1
  {
    hide Run;
    FlagNeedsAgreement(Start(c, cycling), events);
    RunKeepsSettings(Start(c, cycling), events);
  }

  /** The flag falls only with an interrupt, and only a block not acknowledged last can raise it. */
  lemma FlagMoves(c: Channel, block: u32)
    requires c.doneFlag == 0 || c.doneFlag == 1
    ensures AfterFill(c).doneFlag <= c.doneFlag <= AfterDone(c, block).doneFlag <= 1
    ensures AfterDone(c, c.doneBlock) == c && AfterDone(c, block).doneBlock == block
    ensures AfterFill(c).doneBlock == c.doneBlock
  {
    hide Bump, Inc, Dec;
  }

  /** Over any run of interrupts and acknowledgements the counters depend on the number of interrupts alone. */
  lemma {:induction false} RunCounts(c: Channel, cycling: bool, events: seq<Event>)
    requires c.blockCount > 0
    ensures Counts(Run(Start(c, cycling), events), Fills(events))
  {
    hide Counts, AfterFill, AfterDone, Start;
    if events == [] {
      StartCounts(c, cycling);
    } else {
      var init := events[..|events| - 1];
      RunCounts(c, cycling, init);
      var before := Run(Start(c, cycling), init);
      match events[|events| - 1]
      case Fill => FillCounts(before, Fills(init));
      case Done(b) => DoneCounts(before, b, Fills(init));
    }
  }
}
