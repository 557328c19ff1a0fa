/** When the protocol can come to rest for good, for every handler, ring and lead. */
module Liveness {
  import opened Modular
  import opened Channel
  import opened Consumer
  import opened Protocol

  /** Nothing can move: the board may not start, end or interrupt, and the reader finds nothing. */
  predicate Stuck(su: Setup, w: World) {
    !Enabled(su, w, Begin) && !Enabled(su, w, End) && !Enabled(su, w, Interrupt) && !Delivers(w)
  }

  // ---------- a handler that never pauses ----------

  lemma {:induction false} NeverPaused(su: Setup, steps: seq<Step>)
    requires Sized(su) && !su.pausing && IsRun(su, steps)
    ensures !Exec(su, steps).paused && Exec(su, steps).served <= Exec(su, steps).filled
  {
    hide FillPages, AfterFill, AfterDone;
    if steps == [] {
    } else {
      NeverPaused(su, steps[..|steps| - 1]);
    }
  }

  // ---------- five buffers and a lead of at most four ----------

  /** How far the fills have gone beyond the one that brought the flag down, counted round the ring. */
  function Beyond(n: u32, served: nat, taken: nat): nat
    requires n > 0 && taken <= served
  {
    Place(served - taken + 4, n)
  }

  /** While the flag is down the board can go on for as long as its lead lasts, and no further. */
  predicate LeadLeft(n: u32, depth: nat, w: World)
    requires n > 0 && w.taken <= w.served
  {
    if w.taken == 0 then
      if w.ch.doneFlag == 1 then w.served <= n - 4 else w.served >= n - 3 && Going(w) <= n - 4 + depth
    else
      w.ch.doneFlag == 1
      || (Beyond(n, w.served, w.taken) <= 3 && Going(w) - w.served <= depth - 1 - Beyond(n, w.served, w.taken))
  }

  /** The invariant, for a reader that may be lapped any number of times. */
  predicate Slack(su: Setup, w: World)
    requires Sized(su)
  {
    && Counts(w.ch, w.served)
    && w.ch.blockCount == N(su) && w.ch.cycling && w.ch.adjust
    && w.ch.doneBlock == LastAt(N(su), w.taken)
    && w.strm == Stream(N(su), LastAt(N(su), w.seen), LastAt(N(su), w.taken))
    && w.taken <= w.seen <= w.served <= w.filled
    && Going(w) <= w.served + su.depth
    && (w.ch.doneFlag == 0 || w.ch.doneFlag == 1)
    && (w.paused <==> w.ch.doneFlag == 0)
    && LeadLeft(N(su), su.depth, w)
  }

  predicate Roomy(su: Setup) {
    Sized(su) && su.pausing && |su.layout.blocks| >= 5 && su.depth <= 4
  }

  lemma NonNegativeFactor(n: int, d: int)
    requires n > 0 && n * d >= 0
    ensures d >= 0
  {
  }

  /** Two counts share a place exactly when their difference is a whole number of turns. */
  lemma PlaceDiff(a: nat, b: nat, n: nat)
    requires n > 0 && b <= a
    ensures Place(a, n) == Place(b, n) <==> Place(a - b, n) == 0
  {
    var p, q, d := a / n, b / n, (a - b) / n;
    if Place(a - b, n) == 0 {
      assert a == n * (q + d) + b % n;
      DivModUnique(a, n, q + d, b % n);
    } else if Place(a, n) == Place(b, n) {
      assert a - b == n * (p - q);
      NonNegativeFactor(n, p - q);
      DivModUnique(a - b, n, p - q, 0);
    }
  }

  /** The look-ahead test fires when the unacknowledged fills leave four places, and at N - 3 before any is taken. */
  lemma ReachesIff(c: Channel, served: nat, taken: nat)
    requires Counts(c, served) && c.blockCount >= 5 && c.doneBlock == LastAt(c.blockCount, taken) && taken <= served
    ensures ReachesDone(c)
       <==> if taken == 0 then Place(served + 3, c.blockCount) == 0 else Beyond(c.blockCount, served, taken) == 0
  {
    hide Place;
    var n := c.blockCount;
    LastAtRange(n, taken);
    assert c.pre3 == Place(served + 3, n);
    if taken > 0 {
      PlaceDiff(served + 3, taken - 1, n);
    }
  }

  /** An acknowledgement leaves the flag down exactly when it leaves two, three or four places. */
  lemma ClearIff(c: Channel, served: nat, taken: nat)
    requires Counts(c, served) && c.blockCount >= 5 && taken < served
    ensures var n, b := c.blockCount, LastAt(c.blockCount, taken + 1);
            (c.pre1 != b && c.pre2 != b && c.pre3 != b) <==> Beyond(n, served, taken + 1) > 2
    ensures LastAt(c.blockCount, taken + 1) != LastAt(c.blockCount, taken)
  {
    hide Place;
    var n := c.blockCount;
    LastAtRange(n, taken + 1);
    LastAtRange(n, taken);
    PlaceDiff(served + 1, taken, n);
    PlaceDiff(served + 2, taken, n);
    PlaceDiff(served + 3, taken, n);
    PlaceNext(served - taken + 1, n);
    PlaceNext(served - taken + 2, n);
    assert Beyond(n, served, taken + 1) == Place(served - taken + 3, n);
    if taken > 0 {
      PlaceDiff(taken, taken - 1, n);
    }
  }

  lemma BeyondNext(n: u32, served: nat, taken: nat)
    requires n >= 5 && taken <= served
    ensures Beyond(n, served, taken) <= 3 ==> Beyond(n, served + 1, taken) == Beyond(n, served, taken) + 1
    ensures taken < served && Beyond(n, served, taken + 1) <= 3 ==>
              Beyond(n, served, taken) == Beyond(n, served, taken + 1) + 1
  {
    hide Place;
    PlaceNext(served - taken + 4, n);
    PlaceNext(served - taken + 3, n);
  }

  lemma PlaceIs(k: nat, n: nat)
    requires n > 0
    ensures Place(k, n) == k % n
  {
  }

  /** Before the first buffer is taken the same counts, unreduced. */
  lemma FirstPlaces(n: u32, served: nat)
    requires n >= 5
    ensures served <= n - 4 ==> Place(served + 3, n) == served + 3
    ensures n - 3 <= served <= n ==> Place(served + 3, n) == served + 3 - n
  {
    hide Place;
    if n - 3 <= served <= n {
      DivModUnique(served + 3, n, 1, served + 3 - n);
      PlaceIs(served + 3, n);
    }
  }

  lemma InitSlack(su: Setup)
    requires Roomy(su)
    ensures Slack(su, Init(su))
  {
    hide Place;
    InitIdle(su);
  }

  lemma InterruptSlack(su: Setup, w: World)
    requires Roomy(su) && Slack(su, w) && Enabled(su, w, Interrupt)
    ensures Slack(su, Next(su, w, Interrupt))
  {
    hide Counts, LastAt, Beyond, ReachesDone, AfterFill, Quiet, Place;
    FillIdle(su, w.ch, w.served, w.taken);
    ReachesIff(AfterFill(w.ch), w.served + 1, w.taken);
    BeyondNext(N(su), w.served, w.taken);
    FirstPlaces(N(su), w.served + 1);
  }

  lemma BeyondOne(n: u32, served: nat)
    requires n > 0 && served > 0
    ensures Beyond(n, served, 1) == Place(served + 3, n)
  {
  }

  lemma GetSlack(su: Setup, w: World)
    requires Roomy(su) && Slack(su, w)
    ensures Slack(su, Next(su, w, Get))
  {
    hide Counts, LastAt, Beyond, Place;
    CountsLast(w.ch, w.served);
    var v := Observed(w);
    if Ready(v.strm) {
      NextIndexIs(N(su), w.taken);
      ClearIff(v.ch, v.served, v.taken);
      DoneCounts(v.ch, LastAt(N(su), w.taken + 1), v.served);
      BeyondNext(N(su), w.served, w.taken);
      FirstPlaces(N(su), w.served);
      BeyondOne(N(su), w.served);
    }
  }

  lemma StepSlack(su: Setup, w: World, s: Step)
    requires Roomy(su) && Slack(su, w) && Enabled(su, w, s)
    ensures Slack(su, Next(su, w, s))
  {
    match s
    case Begin => hide Counts, LastAt, FillPages, Place, Write;
    case End => hide Counts, LastAt, FillPages, Place, Write;
    case Interrupt => InterruptSlack(su, w);
    case Get => GetSlack(su, w);
    case Again => hide Counts, LastAt, Place;
  }

  lemma {:induction false} RunSlack(su: Setup, steps: seq<Step>)
    requires Roomy(su) && IsRun(su, steps)
    ensures Slack(su, Exec(su, steps))
  {
    hide Slack, Next, Init, Enabled;
    if steps == [] {
      InitSlack(su);
    } else {
      RunSlack(su, steps[..|steps| - 1]);
      StepSlack(su, Exec(su, steps[..|steps| - 1]), steps[|steps| - 1]);
    }
  }

  /** A reader that sees nothing new is a whole number of turns behind; then the flag is up. */
  lemma SlackMoves(su: Setup, w: World)
    requires Roomy(su) && Slack(su, w)
    ensures !Stuck(su, w)
  {
    hide Counts, Place;
    CountsLast(w.ch, w.served);
    var n := N(su);
    if w.taken > 0 {
      PlaceDiff(w.served - 1, w.taken - 1, n);
      PlaceNext(w.served - w.taken, n);
      PlaceNext(w.served - w.taken + 1, n);
      PlaceNext(w.served - w.taken + 2, n);
      PlaceNext(w.served - w.taken + 3, n);
    }
  }

  predicate KeepsMoving(su: Setup)
    requires Sized(su)
  {
    !su.pausing || (N(su) >= 5 && su.depth <= 4)
  }

  lemma NeverSticks(su: Setup, steps: seq<Step>)
    requires Sized(su) && KeepsMoving(su) && IsRun(su, steps)
    ensures !Stuck(su, Exec(su, steps))
  {
    hide Exec, Slack, Delivers;
    if su.pausing {
      RunSlack(su, steps);
      SlackMoves(su, Exec(su, steps));
    } else {
      NeverPaused(su, steps);
    }
  }

  // ---------- four buffers or fewer, or a lead of five ----------

  /** The channel after the fill that brings the flag down, and the reader with nothing to see. */
  lemma StuckWhen(su: Setup, w: World, k: nat)
    requires Sized(su) && su.depth > 0 && Idle(su, w, k, 1) && k > 0 && w.paused && Place(k - 1, N(su)) == 0
    ensures Stuck(su, w)
  {
    hide Counts, Place;
    CountsLast(w.ch, k);
    LastAtRange(N(su), 1);
  }

  lemma FirstCounts(c: Channel)
    requires Counts(c, 1)
    ensures LastAt(c.blockCount, 1) == 0 && (c.blockCount == 4 ==> c.pre3 == 0)
  {
  }

  lemma TakeFirst(su: Setup, w: World)
    requires Sized(su) && Idle(su, w, 1, 0)
    ensures var v := Next(su, w, Get);
            && Idle(su, v, 1, 1)
            && (w.ch.doneFlag == 1 && !w.paused ==> v.ch.doneFlag == 1 && !v.paused)
            && (N(su) == 4 && w.ch.doneFlag == 0 && w.paused ==> v.ch.doneFlag == 0 && v.paused)
  {
    hide Place, Counts;
    var n := N(su);
    CountsLast(w.ch, 1);
    FirstCounts(w.ch);
    LastAtRange(n, 1);
    DoneCounts(w.ch, 0, 1);
  }

  /** One fill announced and taken, the flag still up. */
  lemma OneTaken(su: Setup) returns (steps: seq<Step>)
    requires Sized(su) && su.pausing && N(su) != 4
    ensures IsRun(su, steps) && Idle(su, Exec(su, steps), 1, 1)
    ensures !Exec(su, steps).paused && Exec(su, steps).ch.doneFlag == 1
  {
    hide Exec, IsRun, Idle;
    var before := FirstRounds(su, 1);
    TakeFirst(su, Exec(su, before));
    Extend(su, before, Get);
    steps := before + [Get];
  }

  lemma ReachedAtFour(su: Setup, w: World)
    requires Sized(su) && N(su) == 4 && Idle(su, w, 1, 0)
    ensures ReachesDone(w.ch) && Place(0, 4) == 0
  {
    FirstCounts(w.ch);
    hide Place, Counts;
  }

  /** Four buffers: the first fill brings the flag down and its acknowledgement does not raise it. */
  lemma FourStick(su: Setup) returns (steps: seq<Step>)
    requires Sized(su) && su.pausing && N(su) == 4
    ensures IsRun(su, steps) && Stuck(su, Exec(su, steps))
  {
    hide Exec, IsRun, Idle, AfterFill, Place;
    var start := FirstRounds(su, 0);
    var one := Round(su, start, 0, 0);
    ReachedAtFour(su, Exec(su, one));
    TakeFirst(su, Exec(su, one));
    Extend(su, one, Get);
    steps := one + [Get];
    StuckWhen(su, Exec(su, steps), 1);
  }

  lemma ReachedAtWrap(su: Setup, w: World)
    requires Sized(su) && N(su) < 4 && Idle(su, w, TWO32 - 3, 1)
    ensures ReachesDone(w.ch) && Place(TWO32 - 4, N(su)) == 0
  {
    LastAtRange(N(su), 1);
  }

  /** Fewer than four: the look-ahead counter that started beyond the ring meets the reader when it wraps at 2^32. */
  lemma FewStick(su: Setup) returns (steps: seq<Step>)
    requires Sized(su) && su.pausing && N(su) < 4
    ensures IsRun(su, steps) && Stuck(su, Exec(su, steps))
  {
    hide Exec, IsRun, Idle, AfterFill, Place, ReachesDone;
    var one := OneTaken(su);
    var long := Rounds(su, one, 1, TWO32 - 5, 1);
    steps := Round(su, long, TWO32 - 4, 1);
    ReachedAtWrap(su, Exec(su, steps));
    StuckWhen(su, Exec(su, steps), TWO32 - 3);
  }

  lemma ReachedBelowFour(c: Channel, k: nat)
    requires Counts(c, k) && c.blockCount >= 5 && k == c.blockCount - 3 && c.doneBlock == LastAt(c.blockCount, 1)
    ensures ReachesDone(c)
  {
    WholeTurn(c.blockCount);
    hide Place;
  }

  /** A lead of five: after the fill that brings the flag down four more make the ring look empty to the reader. */
  lemma DeepStick(su: Setup) returns (steps: seq<Step>)
    requires Sized(su) && su.pausing && N(su) >= 5 && su.depth >= 5
    ensures IsRun(su, steps) && Stuck(su, Exec(su, steps))
  {
    hide Exec, IsRun, AfterFill, Place, ReachesDone, Counts, LastAt;
    var n: nat := N(su);
    var one := OneTaken(su);
    var near := Rounds(su, one, 1, n - 5, 1);
    var lead := Lead(su, near, n - 4, 1, 5);
    FillIdle(su, Exec(su, lead).ch, n - 4, 1);
    Extend(su, lead, Interrupt);
    var down := lead + [Interrupt];
    ReachedBelowFour(AfterFill(Exec(su, lead).ch), n - 3);
    steps := CatchUp(su, down, n - 3, 1, 4);
    WholeTurn(n);
    StuckWhen(su, Exec(su, steps), n + 1);
  }

  /**
   The protocol never comes to rest if and only if the handler does not pause at all, or the ring has
   at least five buffers and the board leads by at most four.
   */
  lemma NeverStuckIff(su: Setup)
    requires Sized(su)
    ensures (forall steps :: IsRun(su, steps) ==> !Stuck(su, Exec(su, steps))) <==> KeepsMoving(su)
  {
    hide Stuck, Exec;
    if KeepsMoving(su) {
      forall steps | IsRun(su, steps) ensures !Stuck(su, Exec(su, steps)) {
        NeverSticks(su, steps);
      }
    } else if N(su) == 4 {
      var steps := FourStick(su);
    } else if N(su) < 4 {
      var steps := FewStick(su);
    } else {
      var steps := DeepStick(su);
    }
  }

  /** The driver knows of the last buffer taken, and a paused board has its flag down. */
  predicate Aligned(w: World) {
    w.ch.doneBlock == w.strm.indexPc && (w.paused ==> w.ch.doneFlag == 0)
  }

  lemma AfterFillFlag(c: Channel)
    ensures AfterFill(c).doneBlock == c.doneBlock && (AfterFill(c).doneFlag == 0 || AfterFill(c).doneFlag == c.doneFlag)
  {
    hide Bump, ReachesDone;
  }

  lemma AcknowledgeAligns(w: World)
    requires w.paused ==> w.ch.doneFlag == 0
    ensures Aligned(Acknowledge(w))
  {
  }

  lemma StepAligned(su: Setup, w: World, s: Step)
    requires Sized(su) && Aligned(w)
    ensures Aligned(Next(su, w, s))
  {
    hide FillPages, AfterFill, Write, Acknowledge;
    match s
    case Begin =>
    case End =>
    case Interrupt => AfterFillFlag(w.ch);
    case Get =>
      var v := Observed(w);
      if Ready(v.strm) {
        var t := Take(v.strm);
        var got := if t.indexPc < N(su) then [Delivery(t.indexPc, v.memory)] else [];
        AcknowledgeAligns(v.(strm := t, taken := v.taken + 1, log := v.log + got));
      }
    case Again => AcknowledgeAligns(w);
  }

  lemma InitAligned(su: Setup)
    requires Sized(su)
    ensures Aligned(Init(su))
  {
  }

  lemma {:induction false} RunAligned(su: Setup, steps: seq<Step>)
    requires Sized(su) && IsRun(su, steps)
    ensures Aligned(Exec(su, steps))
  {
    hide Next, Aligned, Enabled;
    if steps == [] {
      InitAligned(su);
    } else {
      RunAligned(su, steps[..|steps| - 1]);
      StepAligned(su, Exec(su, steps[..|steps| - 1]), steps[|steps| - 1]);
    }
  }

  /** Rest is for good: whatever is still possible changes nothing. */
  lemma StuckForGood(su: Setup, steps: seq<Step>, s: Step)
    requires Sized(su) && IsRun(su, steps) && Stuck(su, Exec(su, steps)) && Enabled(su, Exec(su, steps), s)
    ensures Stuck(su, Next(su, Exec(su, steps), s)) && Next(su, Exec(su, steps), s).log == Exec(su, steps).log
  {
    RunAligned(su, steps);
    hide FillPages, AfterFill, Exec;
  }
}
