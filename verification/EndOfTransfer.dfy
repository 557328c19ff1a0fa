/**
 The three flip-flops behind a channel's end-of-block interrupt. They let the board run
 at most two finished blocks ahead of the interrupt handler.
 */
module EndOfTransfer {
  datatype Flags = Flags(eot: bool, wait: bool, wait2: bool)

  const CLEAR := Flags(false, false, false)

  /** One clock: `finished` a block ends, `acknowledged` the handler writes the clear register. */
  function Clock(f: Flags, finished: bool, acknowledged: bool): Flags {
    Flags(
      if acknowledged then false else f.eot || finished,
      if acknowledged && f.wait2 then false else f.wait || (finished && f.eot),
      if acknowledged then f.eot && f.wait else f.wait2)
  }

  predicate Request(f: Flags) {
    f.eot || f.wait2
  }

  predicate MayTransfer(f: Flags) {
    !f.wait
  }

  /** Finished blocks the handler has not been told of yet. */
  function Pending(f: Flags): nat {
    if f.eot then (if f.wait then 2 else 1) else if f.wait2 then 1 else 0
  }

  predicate Sound(f: Flags) {
    f.wait2 <==> f.wait && !f.eot
  }

  /** What one clock may bring: blocks end only while transfers are allowed, the handler answers requests. */
  datatype Tick = Tick(finished: bool, acknowledged: bool)

  predicate Allowed(f: Flags, t: Tick) {
    (t.finished ==> MayTransfer(f)) && (t.acknowledged ==> Request(f))
  }

  predicate Coincides(t: Tick) {
    t.finished && t.acknowledged
  }

  function After(ticks: seq<Tick>): Flags {
    if ticks == [] then CLEAR
    else
      var t := ticks[|ticks| - 1];
      Clock(After(ticks[..|ticks| - 1]), t.finished, t.acknowledged)
  }

  predicate Behaved(ticks: seq<Tick>) {
    ticks == [] || (Behaved(ticks[..|ticks| - 1]) && Allowed(After(ticks[..|ticks| - 1]), ticks[|ticks| - 1]))
  }

  function Finished(ticks: seq<Tick>): nat {
    if ticks == [] then 0
    else Finished(ticks[..|ticks| - 1]) + (if ticks[|ticks| - 1].finished then 1 else 0)
  }

  function Acknowledged(ticks: seq<Tick>): nat {
    if ticks == [] then 0
    else Acknowledged(ticks[..|ticks| - 1]) + (if ticks[|ticks| - 1].acknowledged then 1 else 0)
  }

  /**
   While no block ends in the very clock of an acknowledgement, the flip-flops are a counter:
   every finished block is announced once, and a transfer is allowed only with at most one outstanding.
   */
  lemma {:induction false} CountsPending(ticks: seq<Tick>)
    requires Behaved(ticks) && forall t :: t in ticks ==> !Coincides(t)
    ensures var f := After(ticks);
            && Sound(f)
            && Finished(ticks) == Acknowledged(ticks) + Pending(f)
            && (Request(f) <==> Pending(f) > 0)
            && (MayTransfer(f) ==> Pending(f) <= 1)
            && Pending(f) <= 2
  {
    if ticks == [] {
    } else {
      CountsPending(ticks[..|ticks| - 1]);
      assert ticks[|ticks| - 1] in ticks;
    }
  }

  predicate Stalled(f: Flags) {
    !Request(f) && !MayTransfer(f)
  }

  /** A coincidence while one block is outstanding loses a request: no interrupt and no transfer, for good. */
  lemma CoincidenceStalls(f: Flags)
    requires Sound(f) && Allowed(f, Tick(true, true))
    ensures Stalled(Clock(f, true, true))
  {
  }

  /** A well-behaved history ends stalled exactly when some block ended in the clock of an acknowledgement. */
  lemma {:induction false} StalledIff(ticks: seq<Tick>)
    requires Behaved(ticks)
    ensures Stalled(After(ticks)) <==> exists t :: t in ticks && Coincides(t)
  {
    if ticks == [] {
    } else {
      var init, t := ticks[..|ticks| - 1], ticks[|ticks| - 1];
      StalledIff(init);
      assert forall u :: u in ticks <==> u in init || u == t;
      if forall u :: u in init ==> !Coincides(u) {
        CountsPending(init);
        if Coincides(t) {
          CoincidenceStalls(After(init));
        }
      }
    }
  }
}
