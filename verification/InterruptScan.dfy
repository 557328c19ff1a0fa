/** The handler's search for the channel to serve, and how long a channel can be kept waiting. */
module InterruptScan {
  import opened Modular

  /** How many steps after the start position a channel is looked at. */
  function Distance(prim: nat, c: nat, m: nat): nat
    requires prim < m && c < m
  {
    if prim <= c then c - prim else c + m - prim
  }

  predicate Serves(ready: seq<bool>, prim: nat, c: nat)
    requires prim < |ready|
  {
    && c < |ready| && ready[c]
    && forall j :: 0 <= j < |ready| && ready[j] ==> Distance(prim, c, |ready|) <= Distance(prim, j, |ready|)
  }

  /** The scan loop: every channel once, from the start position, round to the one before it. */
  method Scan(ready: seq<bool>, prim: nat) returns (found: bool, chan: nat)
    requires prim < |ready|
    ensures found <==> exists j :: 0 <= j < |ready| && ready[j]
    ensures found ==> Serves(ready, prim, chan)
  {
    found, chan := false, 0;
    var i: nat, iChan: nat := 0, prim;
    while i < |ready|
      invariant i <= |ready| && iChan < |ready|
      invariant i < |ready| ==> Distance(prim, iChan, |ready|) == i
      invariant forall j :: 0 <= j < |ready| && Distance(prim, j, |ready|) < i ==> !ready[j]
      invariant !found
    {
      if ready[iChan] {
        found, chan := true, iChan;
        break;
      }
      iChan := if iChan + 1 >= |ready| then 0 else iChan + 1;
      i := i + 1;
    }
  }

  /** The start position moves on by one with every service, whichever channel was served. */
  function PrimAfter(prim: nat, m: nat): nat
    requires prim < m
  {
    if prim + 1 >= m then 0 else prim + 1
  }

  /** A history of serving interrupts: what was ready at each, and who was served. */
  ghost predicate Services(readies: seq<seq<bool>>, served: seq<nat>, prim: nat, m: nat)
    requires prim < m
    decreases |readies|
  {
    && |readies| == |served|
    && (readies != [] ==>
          && |readies[0]| == m
          && Serves(readies[0], prim, served[0])
          && Services(readies[1..], served[1..], PrimAfter(prim, m), m))
  }

  /** A channel that stays ready is served within its distance from the start position, so within M services. */
  lemma {:induction false} Fairness(readies: seq<seq<bool>>, served: seq<nat>, prim: nat, m: nat, c: nat)
    requires prim < m && c < m && Services(readies, served, prim, m)
    requires forall k :: 0 <= k < |readies| ==> |readies[k]| == m && readies[k][c]
    requires Distance(prim, c, m) < |readies|
    ensures c in served[..Distance(prim, c, m) + 1]
    ensures Distance(prim, c, m) < m
    decreases |readies|
  {
    var d := Distance(prim, c, m);
    if served[0] == c {
      assert served[..d + 1][0] == c;
    } else {
      assert d > 0;
      assert Distance(PrimAfter(prim, m), c, m) == d - 1;
      Fairness(readies[1..], served[1..], PrimAfter(prim, m), m, c);
      assert served[..d + 1] == [served[0]] + served[1..][..d];
    }
  }

  /** The bound is reached: others nearer the start position can all go first. */
  lemma {:induction false} FairnessTight(prim: nat, m: nat, c: nat) returns (readies: seq<seq<bool>>, served: seq<nat>)
    requires prim < m && c < m
    ensures Services(readies, served, prim, m) && |served| == Distance(prim, c, m) + 1
    ensures forall k :: 0 <= k < |readies| ==> |readies[k]| == m && readies[k][c]
    ensures served[Distance(prim, c, m)] == c && c !in served[..Distance(prim, c, m)]
    decreases Distance(prim, c, m)
  {
    var all := seq(m, i => true);
    if prim == c {
      readies, served := [all], [c];
    } else {
      var p := PrimAfter(prim, m);
      var rs, ss := FairnessTight(p, m, c);
      readies, served := [all] + rs, [prim] + ss;
      assert readies[1..] == rs && served[1..] == ss;
      var d := Distance(prim, c, m);
      assert served[..d] == [prim] + ss[..d - 1];
    }
  }
}
