/** The cycling request of a start: the table keeps its low bit, the counters ask whether it is zero. */
module CyclingMode {
  import opened Modular
  import opened Channel
  import opened ControlCode
  import opened DescriptorTable
  import opened DescriptorEngine
  import Completion

  /** What the one-bit field of the table makes of the request, and what the counters make of it. */
  predicate TableCycles(isCycling: bv32) {
    isCycling & 1 == 1
  }

  predicate CountersCycle(isCycling: bv32) {
    isCycling != 0
  }

  predicate EvenRequest(isCycling: bv32) {
    isCycling != 0 && isCycling & 1 == 0
  }

  lemma EvenIff(isCycling: bv32)
    ensures TableCycles(isCycling) == CountersCycle(isCycling) <==> !EvenRequest(isCycling)
    ensures EvenRequest(isCycling) ==> CountersCycle(isCycling) && !TableCycles(isCycling)
    ensures EvenRequest(2)
  {
  }

  /** Table and counters are in the same mode if and only if the request is zero or odd. */
  lemma ModesAgreeIff(n: nat, isCycling: bv32)
    requires n > 0
    ensures LastCommand(n, TableCycles(isCycling)) == LastCommand(n, CountersCycle(isCycling))
       <==> !EvenRequest(isCycling)
  {
    hide TableCycles, CountersCycle, EvenRequest;
    EvenIff(isCycling);
    CommandValues();
  }

  /**
   For an even request other than zero the board stops after n blocks, or runs past its table when
   n is 63, while the driver waits for a cyclic transfer: no run of the deferred routine ever ends it.
   */
  lemma EvenNeverEnds(mem: Memory, l: Layout, c: Channel, first: Progress, isCycling: bv32,
                      k: nat, steps: seq<Completion.Step>)
    requires EvenRequest(isCycling) && 0 < |l.blocks| == c.blockCount
    requires Placed(l) && Resident(mem, l, LastCommand(|l.blocks|, TableCycles(isCycling)))
    requires |l.blocks| == 63 ==> TableAddress(SlotAddress(l.base, 64 * DescriptorBlocks(63)))
    requires Completion.IsRun(Completion.Begin(c, CountersCycle(isCycling), first), steps)
    ensures |l.blocks| != 63 && k >= |l.blocks| ==> Walk(mem, l.base, k) == Stopped
    ensures |l.blocks| == 63 ==> Walk(mem, l.base, 63) == Fetch(mem, SlotAddress(l.base, 64))
    ensures var t := Completion.Exec(Completion.Begin(c, CountersCycle(isCycling), first), steps);
            !t.stopped && !t.bufferEvent
  {
    hide TableCycles, CountersCycle, EvenRequest, Placed, Resident, TableAddress, Walk, LastCommand, SlotAddress,
      Completion.Exec, Completion.IsRun, Fetch;
    EvenIff(isCycling);
    Completion.CyclicNeverStops(c, first, steps);
    if |l.blocks| == 63 {
      RunsPast(mem, l, false);
    } else {
      WalkOneShot(mem, l, k);
    }
  }
}
