/** The deferred routine: it publishes a snapshot of the progress page and ends one-shot transfers. */
module Completion {
  import opened Modular
  import opened Channel

  /** A transfer in progress. `calls` records, for each deferred call so far, how many fills it saw. */
  datatype Transfer = Transfer(
    ch: Channel, snapshot: Progress, scheduled: bool, stopped: bool, bufferEvent: bool,
    fills: nat, calls: seq<nat>)

  datatype Step = Interrupt | Deferred

  function Begin(c: Channel, cycling: bool, snapshot: Progress): Transfer {
    Transfer(Start(c, cycling), snapshot, false, false, false, 0, [])
  }

  function Complete(c: Channel): Channel {
    c.(stub := c.stub.(state := STATE_STOP))
  }

  predicate Exhausted(c: Channel) {
    c.curBlock >= c.blockCount
  }

  /** Scheduling an already scheduled routine has no further effect, so interrupts coalesce. */
  function Next(t: Transfer, s: Step): Transfer {
    match s
    case Interrupt => t.(ch := AfterFill(t.ch), scheduled := true, fills := t.fills + 1)
    case Deferred =>
      var u := t.(snapshot := t.ch.stub, scheduled := false, calls := t.calls + [t.fills]);
      if Exhausted(u.ch) then u.(ch := Complete(u.ch), stopped := true, bufferEvent := true) else u
  }

  predicate Enabled(t: Transfer, s: Step) {
    s.Interrupt? || t.scheduled
  }

  function Exec(t: Transfer, steps: seq<Step>): Transfer {
    if steps == [] then t else Next(Exec(t, steps[..|steps| - 1]), steps[|steps| - 1])
  }

  predicate IsRun(t: Transfer, steps: seq<Step>) {
    steps == [] ||
    (IsRun(t, steps[..|steps| - 1]) && Enabled(Exec(t, steps[..|steps| - 1]), steps[|steps| - 1]))
  }

  /** Did some deferred call see the block counter at the block count or beyond? */
  ghost predicate SawEnd(n: nat, calls: seq<nat>) {
    exists i :: 0 <= i < |calls| && calls[i] % TWO32 >= n
  }

  ghost predicate Reported(t: Transfer, first: Progress) {
    && Counts(t.ch, t.fills)
    && (forall i :: 0 <= i < |t.calls| ==> 0 < t.calls[i] <= t.fills)
    && (forall i, j :: 0 <= i < j < |t.calls| ==> t.calls[i] < t.calls[j])
    && (t.scheduled <==> t.fills != if t.calls == [] then 0 else t.calls[|t.calls| - 1])
    && (t.calls == [] ==> t.snapshot == first)
    && (t.calls != [] ==>
          && t.snapshot.lastBlock == LastAt(t.ch.blockCount, t.calls[|t.calls| - 1])
          && t.snapshot.totalCounter == t.calls[|t.calls| - 1] % TWO32)
    && (t.stopped <==> !t.ch.cycling && SawEnd(t.ch.blockCount, t.calls))
    && t.ch.stub.state == (if t.stopped then 2 else 1)
    && (t.calls != [] ==>
          t.snapshot.state == if !t.ch.cycling && SawEnd(t.ch.blockCount, t.calls[..|t.calls| - 1]) then 2 else 1)
    && (t.bufferEvent <==> t.stopped)
  }

  lemma CompleteCounts(c: Channel, k: nat)
    requires Counts(c, k)
    ensures Counts(Complete(c), k)
    ensures Exhausted(c) <==> !c.cycling && k % TWO32 >= c.blockCount
    ensures c.stub.lastBlock == LastAt(c.blockCount, k) && c.stub.totalCounter == k % TWO32
  {
    hide Place, Turns, LastAt, PreAt;
  }

  lemma SawEndMore(n: nat, calls: seq<nat>, k: nat)
    ensures SawEnd(n, calls + [k]) <==> SawEnd(n, calls) || k % TWO32 >= n
  {
    var all := calls + [k];
    assert all[|calls|] == k;
    if SawEnd(n, calls) {
      var i :| 0 <= i < |calls| && calls[i] % TWO32 >= n;
      assert all[i] % TWO32 >= n;
    }
  }

  lemma StepReports(t: Transfer, s: Step, first: Progress)
    requires Reported(t, first) && Enabled(t, s)
    ensures Reported(Next(t, s), first)
  {
    hide Counts, LastAt, SawEnd;
    match s
    case Interrupt => FillCounts(t.ch, t.fills);
    case Deferred =>
      CompleteCounts(t.ch, t.fills);
      SawEndMore(t.ch.blockCount, t.calls, t.fills);
  }

  lemma BeginReports(c: Channel, cycling: bool, first: Progress)
    requires c.blockCount > 0
    ensures Reported(Begin(c, cycling, first), first)
  {
    StartCounts(c, cycling);
    hide Counts, LastAt;
  }

  /** The exact effect of any interleaving of interrupts and deferred calls. */
  lemma {:induction false} RunReports(c: Channel, cycling: bool, first: Progress, steps: seq<Step>)
    requires c.blockCount > 0 && IsRun(Begin(c, cycling, first), steps)
    ensures Reported(Exec(Begin(c, cycling, first), steps), first)
    ensures Exec(Begin(c, cycling, first), steps).ch.blockCount == c.blockCount
    ensures Exec(Begin(c, cycling, first), steps).ch.cycling == cycling
  {
    hide Counts, Reported;
    var t := Begin(c, cycling, first);
    if steps == [] {
      StartCounts(c, cycling);
      assert Reported(t, first) by { BeginReports(c, cycling, first); }
    } else {
      RunReports(c, cycling, first, steps[..|steps| - 1]);
      StepReports(Exec(t, steps[..|steps| - 1]), steps[|steps| - 1], first);
    }
  }

  /** A cyclic transfer is never ended by the deferred routine. */
  lemma CyclicNeverStops(c: Channel, first: Progress, steps: seq<Step>)
    requires c.blockCount > 0 && IsRun(Begin(c, true, first), steps)
    ensures var t := Exec(Begin(c, true, first), steps); !t.stopped && !t.bufferEvent
  {
    RunReports(c, true, first, steps);
    hide Counts, SawEnd, Exec, IsRun, LastAt;
  }

  predicate LastSawEnd(t: Transfer) {
    t.calls != [] && t.calls[|t.calls| - 1] >= t.ch.blockCount
  }

  lemma OneShotState(t: Transfer, first: Progress)
    requires Reported(t, first) && !t.ch.cycling && t.fills < TWO32 && t.ch.blockCount > 0
    ensures t.stopped <==> LastSawEnd(t)
    ensures t.bufferEvent <==> t.stopped
    ensures !t.scheduled && t.fills >= t.ch.blockCount ==> t.stopped
  {
    hide Counts, LastAt;
    assert forall i :: 0 <= i < |t.calls| ==> t.calls[i] % TWO32 == t.calls[i];
    if LastSawEnd(t) {
      assert t.calls[|t.calls| - 1] % TWO32 >= t.ch.blockCount;
    }
  }

  /** Below 2^32 fills a one-shot transfer is ended, with its event set, by the first deferred call that sees all N. */
  lemma OneShotStops(c: Channel, first: Progress, steps: seq<Step>)
    requires c.blockCount > 0 && IsRun(Begin(c, false, first), steps)
    requires Exec(Begin(c, false, first), steps).fills < TWO32
    ensures var t := Exec(Begin(c, false, first), steps);
            && (t.stopped <==> LastSawEnd(t))
            && (t.bufferEvent <==> t.stopped)
            && (!t.scheduled && t.fills >= c.blockCount ==> t.stopped)
  {
    hide Reported, Exec, IsRun, Begin, LastSawEnd;
    RunReports(c, false, first, steps);
    OneShotState(Exec(Begin(c, false, first), steps), first);
  }

  // ---------- the published total ----------

  /** The published total is not ahead of the live one. */
  predicate Behind(t: Transfer) {
    t.snapshot.totalCounter <= t.ch.stub.totalCounter
  }

  /** Both totals, in any state a run reaches. */
  lemma TotalsAre(t: Transfer, first: Progress)
    requires Reported(t, first)
    ensures t.ch.stub.totalCounter == t.fills % TWO32
    ensures t.snapshot.totalCounter
         == if t.calls == [] then first.totalCounter else t.calls[|t.calls| - 1] % TWO32
  {
    hide SawEnd;
    CompleteCounts(t.ch, t.fills);
    hide Counts;
  }

  lemma CallsBefore(t: Transfer, first: Progress)
    requires Reported(t, first)
    ensures t.calls != [] ==> 0 < t.calls[|t.calls| - 1] <= t.fills
  {
    hide Counts, SawEnd, LastAt;
  }

  /** Below 2^32 fills: behind exactly once a deferred call has run, or the fills have passed what was left standing. */
  lemma BehindIff(t: Transfer, first: Progress)
    requires Reported(t, first) && t.fills < TWO32
    ensures Behind(t) <==> t.calls != [] || first.totalCounter <= t.fills
  {
    hide Reported;
    TotalsAre(t, first);
    CallsBefore(t, first);
  }

  /** A step lowers the published total exactly when it is the first deferred call and the fills have not caught up. */
  lemma LowersIff(t: Transfer, s: Step, first: Progress)
    requires Reported(t, first) && Enabled(t, s) && Next(t, s).fills < TWO32
    ensures Next(t, s).snapshot.totalCounter < t.snapshot.totalCounter
       <==> s == Deferred && t.calls == [] && t.fills < first.totalCounter
  {
    hide Reported, AfterFill, Exhausted;
    match s
    case Interrupt =>
    case Deferred =>
      StepReports(t, s, first);
      TotalsAre(t, first);
      TotalsAre(Next(t, s), first);
      CallsBefore(t, first);
  }

  ghost predicate AlwaysBehind(c: Channel, cycling: bool, first: Progress) {
    forall steps :: IsRun(Begin(c, cycling, first), steps) && Exec(Begin(c, cycling, first), steps).fills < TWO32 ==>
      Behind(Exec(Begin(c, cycling, first), steps))
  }

  ghost predicate NeverLowers(c: Channel, cycling: bool, first: Progress) {
    forall steps, s ::
      var t := Exec(Begin(c, cycling, first), steps);
      IsRun(Begin(c, cycling, first), steps) && Enabled(t, s) && Next(t, s).fills < TWO32 ==>
        t.snapshot.totalCounter <= Next(t, s).snapshot.totalCounter
  }

  lemma BeginIs(c: Channel, cycling: bool, first: Progress)
    ensures var t := Begin(c, cycling, first); t.calls == [] && t.fills == 0 && !t.scheduled && t.snapshot == first
  {
    hide Start;
  }

  /**
   Below 2^32 fills the published total is never ahead of the live one if and only if the transfer
   starts with a published total of zero; a start does not clear it.
   */
  lemma AlwaysBehindIff(c: Channel, cycling: bool, first: Progress)
    requires c.blockCount > 0
    ensures AlwaysBehind(c, cycling, first) <==> first.totalCounter == 0
  {
    hide Reported, Begin, Behind;
    var t := Begin(c, cycling, first);
    if first.totalCounter == 0 {
      forall steps | IsRun(t, steps) && Exec(t, steps).fills < TWO32 ensures Behind(Exec(t, steps)) {
        RunReports(c, cycling, first, steps);
        BehindIff(Exec(t, steps), first);
      }
    } else {
      assert IsRun(t, []) && Exec(t, []) == t;
      RunReports(c, cycling, first, []);
      BeginIs(c, cycling, first);
      BehindIff(t, first);
    }
  }

  lemma ScheduledHasFilled(t: Transfer, s: Step, first: Progress)
    requires Reported(t, first) && Enabled(t, s)
    ensures s == Deferred && t.calls == [] ==> t.fills > 0
  {
    hide Counts, LastAt, SawEnd;
  }

  lemma OneInterrupt(c: Channel, cycling: bool, first: Progress)
    ensures var t := Exec(Begin(c, cycling, first), [Interrupt]);
            && IsRun(Begin(c, cycling, first), [Interrupt])
            && t.fills == 1 && t.calls == [] && t.scheduled && t.snapshot == first
            && Enabled(t, Deferred) && Next(t, Deferred).fills == 1 && Next(t, Deferred).calls == [1]
  {
    hide Start, AfterFill;
    assert [Interrupt][..0] == [];
  }

  /** And it never falls if and only if it starts at no more than one. */
  lemma NeverLowersIff(c: Channel, cycling: bool, first: Progress)
    requires c.blockCount > 0
    ensures NeverLowers(c, cycling, first) <==> first.totalCounter <= 1
  {
    hide Reported, Begin, Exec, IsRun, Next, Enabled;
    var t := Begin(c, cycling, first);
    if first.totalCounter <= 1 {
      forall steps, s | IsRun(t, steps) && Enabled(Exec(t, steps), s) && Next(Exec(t, steps), s).fills < TWO32
        ensures Exec(t, steps).snapshot.totalCounter <= Next(Exec(t, steps), s).snapshot.totalCounter
      {
        RunReports(c, cycling, first, steps);
        LowersIff(Exec(t, steps), s, first);
        ScheduledHasFilled(Exec(t, steps), s, first);
      }
    } else {
      OneInterrupt(c, cycling, first);
      RunReports(c, cycling, first, [Interrupt]);
      LowersIff(Exec(t, [Interrupt]), Deferred, first);
    }
  }

  /** One deferred call, after the first fill, and then only fills. */
  lemma {:induction false} OneCall(c: Channel, cycling: bool, first: Progress, k: nat) returns (steps: seq<Step>)
    requires k > 0
    ensures IsRun(Begin(c, cycling, first), steps)
    ensures Exec(Begin(c, cycling, first), steps).fills == k && Exec(Begin(c, cycling, first), steps).calls == [1]
  {
    hide Begin, AfterFill, Exhausted;
    if k == 1 {
      OneInterrupt(c, cycling, first);
      steps := [Interrupt, Deferred];
      assert steps[..1] == [Interrupt];
    } else {
      var before := OneCall(c, cycling, first, k - 1);
      steps := before + [Interrupt];
      assert steps[..|steps| - 1] == before;
    }
  }

  /** When the live total wraps it falls behind whatever has been published, pending call or not. */
  lemma WrapOvertakes(t: Transfer, first: Progress)
    requires Reported(t, first) && t.fills == TWO32 - 1 && t.calls != []
    ensures Next(t, Interrupt).ch.stub.totalCounter == 0 && !Behind(Next(t, Interrupt))
  {
    hide Reported, AfterFill;
    TotalsAre(t, first);
    CallsBefore(t, first);
    StepReports(t, Interrupt, first);
    TotalsAre(Next(t, Interrupt), first);
  }

  /** Every transfer has a run that gets there. */
  lemma WrapRun(c: Channel, cycling: bool, first: Progress) returns (steps: seq<Step>)
    requires c.blockCount > 0
    ensures IsRun(Begin(c, cycling, first), steps)
    ensures Exec(Begin(c, cycling, first), steps).fills == TWO32 && !Behind(Exec(Begin(c, cycling, first), steps))
  {
    hide Begin, Reported, AfterFill, Behind;
    var before := OneCall(c, cycling, first, TWO32 - 1);
    RunReports(c, cycling, first, before);
    WrapOvertakes(Exec(Begin(c, cycling, first), before), first);
    steps := before + [Interrupt];
    assert steps[..|steps| - 1] == before;
  }

  lemma {:induction false} FillsOnly(c: Channel, cycling: bool, first: Progress, k: nat)
    ensures var t := Exec(Begin(c, cycling, first), seq(k, i => Interrupt));
            && IsRun(Begin(c, cycling, first), seq(k, i => Interrupt))
            && t.snapshot == first && t.fills == k && t.calls == []
  {
    hide AfterFill, Start;
    if k == 0 {
      BeginIs(c, cycling, first);
    } else {
      assert seq(k, i => Interrupt)[..k - 1] == seq(k - 1, i => Interrupt);
      FillsOnly(c, cycling, first, k - 1);
    }
  }

  /** Until its first deferred call a transfer reports whatever the one before it left, ahead or not. */
  lemma {:induction false} StaleBeforeFirstCall(c: Channel, cycling: bool, first: Progress, k: nat)
    requires c.blockCount > 0
    ensures var t := Exec(Begin(c, cycling, first), seq(k, i => Interrupt));
            && IsRun(Begin(c, cycling, first), seq(k, i => Interrupt))
            && t.snapshot == first && t.fills == k
            && (Behind(t) <==> first.totalCounter <= k % TWO32)
  {
    FillsOnly(c, cycling, first, k);
    RunReports(c, cycling, first, seq(k, i => Interrupt));
    TotalsAre(Exec(Begin(c, cycling, first), seq(k, i => Interrupt)), first);
    hide Reported, Exec, IsRun, Begin;
  }
}
