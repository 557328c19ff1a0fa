/**
 The protocol driven by the board's own end-of-block flip-flops: they are what keeps the board
 at most two blocks ahead of the interrupt handler.
 */
module BoardRun {
  import opened Modular
  import opened EndOfTransfer
  import Channel
  import Protocol
  import Liveness

  /** A block is started, a clock passes, the reader asks for a buffer or acknowledges again. */
  datatype Event = Start | Pass(tick: Tick) | Get | Again

  /** What the flip-flops see of a history. */
  function Ticks(events: seq<Event>): seq<Tick> {
    if events == [] then []
    else
      Ticks(events[..|events| - 1])
      + match events[|events| - 1]
        case Pass(t) => [t]
        case _ => []
  }

  /** What it is as a run of the protocol: a block that ends, an interrupt with every write of the clear register. */
  function Steps(events: seq<Event>): seq<Protocol.Step> {
    if events == [] then []
    else
      Steps(events[..|events| - 1])
      + match events[|events| - 1]
        case Start => [Protocol.Begin]
        case Pass(t) => if t.finished then [Protocol.End] else if t.acknowledged then [Protocol.Interrupt] else []
        case Get => [Protocol.Get]
        case Again => [Protocol.Again]
  }

  function WorldAfter(su: Protocol.Setup, events: seq<Event>): Protocol.World
    requires Protocol.Sized(su)
  {
    Protocol.Exec(su, Steps(events))
  }

  function FlagsAfter(events: seq<Event>): Flags {
    After(Ticks(events))
  }

  /**
   The board starts a block only while its waiting flag is clear and it is not paused, ends the block
   it is working on, and is acknowledged only on request; no block ends in the clock of an acknowledgement.
   */
  predicate May(w: Protocol.World, f: Flags, e: Event) {
    match e
    case Start => !w.busy && !w.paused && MayTransfer(f)
    case Pass(t) => (t.finished ==> w.busy) && (t.acknowledged ==> Request(f)) && !Coincides(t)
    case Get => true
    case Again => true
  }

  predicate Possible(su: Protocol.Setup, events: seq<Event>)
    requires Protocol.Sized(su)
  {
    events == [] ||
    var before := events[..|events| - 1];
    Possible(su, before) && May(WorldAfter(su, before), FlagsAfter(before), events[|events| - 1])
  }

  /** The flip-flops count the blocks the handler has not been told of, and allow the block being worked on. */
  predicate Agree(w: Protocol.World, f: Flags) {
    && Sound(f)
    && w.served <= w.filled && Pending(f) == w.filled - w.served
    && (w.busy ==> MayTransfer(f))
  }

  lemma OneTick(f: Flags, t: Tick)
    requires Sound(f) && Allowed(f, t) && !Coincides(t)
    ensures var g := Clock(f, t.finished, t.acknowledged);
            && Sound(g)
            && Pending(g) == Pending(f) + (if t.finished then 1 else 0) - (if t.acknowledged then 1 else 0)
            && (!t.finished && MayTransfer(f) ==> MayTransfer(g))
    ensures MayTransfer(f) ==> Pending(f) <= 1
    ensures Request(f) ==> Pending(f) > 0
  {
  }

  lemma LastTick(ticks: seq<Tick>, t: Tick)
    ensures After(ticks + [t]) == Clock(After(ticks), t.finished, t.acknowledged)
    ensures Behaved(ticks + [t]) <==> Behaved(ticks) && Allowed(After(ticks), t)
  {
    assert (ticks + [t])[..|ticks|] == ticks;
  }

  lemma LastEvent(events: seq<Event>)
    requires events != []
    ensures var before, e := events[..|events| - 1], events[|events| - 1];
            && Ticks(events) == (if e.Pass? then Ticks(before) + [e.tick] else Ticks(before))
            && Steps(events) == match e
                 case Start => Steps(before) + [Protocol.Begin]
                 case Pass(t) => if t.finished then Steps(before) + [Protocol.End]
                                 else if t.acknowledged then Steps(before) + [Protocol.Interrupt] else Steps(before)
                 case Get => Steps(before) + [Protocol.Get]
                 case Again => Steps(before) + [Protocol.Again]
  {
  }

  lemma PossibleLast(su: Protocol.Setup, events: seq<Event>)
    requires Protocol.Sized(su) && events != [] && Possible(su, events)
    ensures Possible(su, events[..|events| - 1])
    ensures May(WorldAfter(su, events[..|events| - 1]), FlagsAfter(events[..|events| - 1]), events[|events| - 1])
  {
    hide May, Protocol.Exec;
  }

  /** The event is a step of the protocol with a lead of two. */
  lemma EventKeeps(su: Protocol.Setup, events: seq<Event>)
    requires Protocol.Sized(su) && su.depth == 2 && events != [] && Possible(su, events)
    requires var before := events[..|events| - 1];
             && Protocol.IsRun(su, Steps(before)) && Behaved(Ticks(before))
             && Agree(WorldAfter(su, before), FlagsAfter(before))
    ensures Protocol.IsRun(su, Steps(events)) && Behaved(Ticks(events))
    ensures Agree(WorldAfter(su, events), FlagsAfter(events))
  {
    hide Protocol.Exec, Protocol.IsRun, Clock, After, Behaved, Protocol.FillPages, Channel.AfterFill,
      Channel.AfterDone, Steps, Ticks, Possible;
    LastEvent(events);
    assert May(WorldAfter(su, events[..|events| - 1]), FlagsAfter(events[..|events| - 1]), events[|events| - 1]) by {
      PossibleLast(su, events);
    }
    var before, e := events[..|events| - 1], events[|events| - 1];
    var w, f := WorldAfter(su, before), FlagsAfter(before);
    match e
    case Start =>
      OneTick(f, Tick(false, false));
      Protocol.Extend(su, Steps(before), Protocol.Begin);
    case Pass(t) =>
      OneTick(f, t);
      LastTick(Ticks(before), t);
      if t.finished {
        Protocol.Extend(su, Steps(before), Protocol.End);
      } else if t.acknowledged {
        Protocol.Extend(su, Steps(before), Protocol.Interrupt);
      }
    case Get => Protocol.Extend(su, Steps(before), Protocol.Get);
    case Again => Protocol.Extend(su, Steps(before), Protocol.Again);
  }

  lemma AgreeAtFirst(su: Protocol.Setup)
    requires Protocol.Sized(su)
    ensures Agree(Protocol.Exec(su, []), After([])) && Protocol.IsRun(su, [])
  {
    Protocol.Empty(su);
  }

  /** Every history of the board without a coincidence is a run of the protocol with a lead of two. */
  lemma {:induction false} IsProtocolRun(su: Protocol.Setup, events: seq<Event>)
    requires Protocol.Sized(su) && su.depth == 2 && Possible(su, events)
    ensures Protocol.IsRun(su, Steps(events))
    ensures Behaved(Ticks(events)) && Agree(WorldAfter(su, events), FlagsAfter(events))
  {
    hide Agree, Protocol.Exec, May;
    if events == [] {
      AgreeAtFirst(su);
    } else {
      IsProtocolRun(su, events[..|events| - 1]);
      EventKeeps(su, events);
    }
  }

  /**
   So on this board every buffer handed out is whole and in turn, and stays untouched until three
   more have been taken.
   */
  lemma BoardEndToEnd(su: Protocol.Setup, events: seq<Event>)
    requires Protocol.Wired(su) && su.depth == 2 && Possible(su, events)
    ensures var w := WorldAfter(su, events);
            && |w.log| == w.taken
            && (forall d :: 0 <= d < w.taken ==>
                  w.log[d].buffer == Place(d, Protocol.N(su)) && Protocol.Held(su, w.log[d].memory, d))
            && (forall d: nat :: d < w.taken <= d + 3 ==> Protocol.Held(su, w.memory, d))
  {
    hide Protocol.Wired, Protocol.Held, Protocol.Exec, Place, Possible;
    Protocol.WiredPaced(su);
    IsProtocolRun(su, events);
    Protocol.EndToEnd(su, Steps(events));
  }

  /** And with five buffers, or without the pause, there is always something for board, handler or reader to do. */
  lemma BoardNeverSticks(su: Protocol.Setup, events: seq<Event>)
    requires Protocol.Sized(su) && su.depth == 2 && Liveness.KeepsMoving(su) && Possible(su, events)
    ensures var w, f := WorldAfter(su, events), FlagsAfter(events);
            || May(w, f, Start) || May(w, f, Pass(Tick(true, false))) || May(w, f, Pass(Tick(false, true)))
            || Protocol.Delivers(w)
  {
    hide Protocol.Exec, Protocol.Delivers, Possible, Protocol.Indices, Protocol.FillPages;
    IsProtocolRun(su, events);
    Liveness.NeverSticks(su, Steps(events));
  }
}
