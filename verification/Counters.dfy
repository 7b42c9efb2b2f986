/**
  Reading 64-bit counters through 32-bit registers while they run (software/coremark_app/cmark.c:2100-2238):
  high, low, high again, until the high half stood still.

  A counter is given by its value at every instant. The n-th register read of a run happens at instant
  at(n); between two reads any amount of time may pass, and the counter may move any distance.
*/
module Counters {

  const W := 0x1_0000_0000

  ghost predicate Runs(c: nat -> nat) {
    (forall t: nat :: c(t) < W * W) && forall t: nat, u: nat | t <= u :: c(t) <= c(u)
  }

  ghost predicate Later(at: nat -> nat) { forall i: nat, j: nat | i <= j :: at(i) <= at(j) }

  // What the two register halves show.
  function High(v: nat): nat { v / W }
  function Low(v: nat): nat { v % W }

  function Assembled(high: nat, low: nat): nat { high * W + low }

  lemma HighRises(v: nat, w: nat)
    requires v <= w
    ensures High(v) <= High(w)
  {
  }

  // The high half stood still around the low read, so the two halves belong together.
  lemma Untorn(c: nat -> nat, t0: nat, t1: nat, t2: nat)
    requires Runs(c) && t0 <= t1 <= t2 && High(c(t0)) == High(c(t2))
    ensures Assembled(High(c(t2)), Low(c(t1))) == c(t1)
  {
    HighRises(c(t0), c(t1));
    HighRises(c(t1), c(t2));
  }

  // Without the second look, the halves of a moving counter can make up a value it never had.
  lemma TornWithoutLoop(c: nat -> nat)
    requires Runs(c) && c(0) == 0xffff_ffff && forall t: nat | t > 0 :: c(t) == 0x1_0000_0000
    ensures forall t: nat :: Assembled(High(c(0)), Low(c(1))) != c(t) && Assembled(High(c(1)), Low(c(0))) != c(t)
  {
  }

  // What the n-th read of a register half shows.
  function HighAt(c: nat -> nat, at: nat -> nat, n: nat): nat { High(c(at(n))) }
  function LowAt(c: nat -> nat, at: nat -> nat, n: nat): nat { Low(c(at(n))) }

  // ---------- one counter ----------

  lemma HighsRise(c: nat -> nat, at: nat -> nat, k0: nat, k: nat)
    requires Runs(c) && Later(at) && k0 <= k
    ensures HighAt(c, at, k0) <= HighAt(c, at, k) <= HighAt(c, at, k + 2) < W
    ensures k > k0 ==> HighAt(c, at, k - 1) <= HighAt(c, at, k)
  {
    assert at(k0) <= at(k) <= at(k + 2);
    HighRises(c(at(k0)), c(at(k)));
    HighRises(c(at(k)), c(at(k + 2)));
    if k > k0 {
      assert at(k - 1) <= at(k);
      HighRises(c(at(k - 1)), c(at(k)));
    }
  }

  // Three reads in a row of a high half that stood still.
  lemma RoundUntorn(c: nat -> nat, at: nat -> nat, n: nat)
    requires Runs(c) && Later(at) && HighAt(c, at, n) == HighAt(c, at, n + 2)
    ensures Assembled(HighAt(c, at, n + 2), LowAt(c, at, n + 1)) == c(at(n + 1))
  {
    assert at(n) <= at(n + 1) <= at(n + 2);
    Untorn(c, at(n), at(n + 1), at(n + 2));
  }

  method ReadCounter(c: nat -> nat, at: nat -> nat, k0: nat) returns (value: nat, k: nat)
    requires Runs(c) && Later(at)
    ensures k0 + 3 <= k && value == c(at(k - 2))
    ensures k <= k0 + 3 * (1 + HighAt(c, at, k - 1) - HighAt(c, at, k0))
  {
    hide HighAt, LowAt, Assembled, Runs, Later;
    var h0: nat, h1: nat, l: nat := 0, 1, 0;
    k := k0;
    while h0 != h1
      invariant k0 <= k && (k == k0 ==> h0 != h1)
      invariant k > k0 ==>
                k0 + 3 <= k && h0 == HighAt(c, at, k - 3) && l == LowAt(c, at, k - 2) &&
                h1 == HighAt(c, at, k - 1)
      invariant k > k0 ==> k <= k0 + 3 * ((if h0 == h1 then 1 else 0) + HighAt(c, at, k - 1) - HighAt(c, at, k0))
      decreases if h0 == h1 then 0 else if k == k0 then W + 1 else W - HighAt(c, at, k - 1)
    {
      HighsRise(c, at, k0, k);
      h0 := HighAt(c, at, k);
      l := LowAt(c, at, k + 1);
      h1 := HighAt(c, at, k + 2);
      k := k + 3;
    }
    RoundUntorn(c, at, k - 3);
    value := Assembled(h1, l);
  }

  // start_time/stop_time/get_time, and the same for the retired instructions.
  class Stopwatch {
    var startVal: nat
    var stopVal: nat

    constructor ()
      ensures startVal == stopVal == 0
    {
      startVal, stopVal := 0, 0;
    }

    method Start(c: nat -> nat, at: nat -> nat, k0: nat) returns (k: nat)
      requires Runs(c) && Later(at)
      modifies this
      ensures k0 + 3 <= k && startVal == c(at(k - 2)) && stopVal == old(stopVal)
    {
      startVal, k := ReadCounter(c, at, k0);
    }

    method Stop(c: nat -> nat, at: nat -> nat, k0: nat) returns (k: nat)
      requires Runs(c) && Later(at)
      modifies this
      ensures k0 + 3 <= k && stopVal == c(at(k - 2)) && startVal == old(startVal)
    {
      stopVal, k := ReadCounter(c, at, k0);
    }

    // The 64-bit difference.
    function Elapsed(): nat
      reads this
    {
      (stopVal - startVal) % (W * W)
    }
  }

  // A measurement gives the exact, non-negative count between two instants inside the two readings.
  method Measure(watch: Stopwatch, c: nat -> nat, at: nat -> nat, k0: nat, pause: nat)
    returns (elapsed: nat, ghost first: nat, ghost last: nat)
    requires Runs(c) && Later(at)
    modifies watch
    ensures at(k0) <= first <= last && elapsed == c(last) - c(first)
  {
    hide Runs;
    var k := watch.Start(c, at, k0);
    first := at(k - 2);
    var k' := watch.Stop(c, at, k + pause);
    last := at(k' - 2);
    assert at(k0) <= at(k - 2) <= at(k' - 2);
    Ordered(c, first, last);
    SmallMod(c(last) - c(first), W * W);
    elapsed := watch.Elapsed();
  }

  lemma Ordered(c: nat -> nat, first: nat, last: nat)
    requires Runs(c) && first <= last
    ensures c(first) <= c(last) < W * W
  {
  }

  lemma SmallMod(x: nat, m: nat)
    requires x < m
    ensures x % m == x
  {
  }

  // ---------- two counters under one test ----------

  // start_branch and stop_branch: six reads a round, until both high halves stood still in the same round.
  method ReadBranches(hit: nat -> nat, total: nat -> nat, at: nat -> nat, k0: nat)
    returns (hitVal: nat, totalVal: nat, k: nat)
    requires Runs(hit) && Runs(total) && Later(at)
    ensures k0 + 6 <= k && hitVal == hit(at(k - 5)) && totalVal == total(at(k - 2))
    ensures k <= k0 + 6 * (1 + HighAt(hit, at, k - 4) - HighAt(hit, at, k0) +
            HighAt(total, at, k - 1) - HighAt(total, at, k0 + 3))
  {
    hide HighAt, LowAt, Assembled, Runs, Later;
    var hith0: nat, hith1: nat, totalh0: nat, totalh1: nat, hitl: nat, totall: nat := 0, 1, 0, 1, 0, 0;
    k := k0;
    while hith0 != hith1 || totalh0 != totalh1
      invariant k0 <= k && (k == k0 ==> hith0 != hith1)
      invariant k > k0 ==>
                k0 + 6 <= k && hith0 == HighAt(hit, at, k - 6) && hitl == LowAt(hit, at, k - 5) &&
                hith1 == HighAt(hit, at, k - 4)
      invariant k > k0 ==>
                totalh0 == HighAt(total, at, k - 3) && totall == LowAt(total, at, k - 2) &&
                totalh1 == HighAt(total, at, k - 1)
      invariant k > k0 ==> k <= k0 + 6 * ((if hith0 == hith1 && totalh0 == totalh1 then 1 else 0) +
                                          hith1 - HighAt(hit, at, k0) + totalh1 - HighAt(total, at, k0 + 3))
      decreases if hith0 == hith1 && totalh0 == totalh1 then 0 else if k == k0 then 2 * W + 1
                else 2 * W - hith1 - totalh1
    {
      BothRise(hit, total, at, k0, k);
      hith0 := HighAt(hit, at, k);
      hitl := LowAt(hit, at, k + 1);
      hith1 := HighAt(hit, at, k + 2);
      totalh0 := HighAt(total, at, k + 3);
      totall := LowAt(total, at, k + 4);
      totalh1 := HighAt(total, at, k + 5);
      k := k + 6;
    }
    RoundUntorn(hit, at, k - 6);
    RoundUntorn(total, at, k - 3);
    hitVal := Assembled(hith1, hitl);
    totalVal := Assembled(totalh1, totall);
  }

  lemma HighBetween(c: nat -> nat, at: nat -> nat, i: nat, j: nat)
    requires Runs(c) && Later(at) && i <= j
    ensures HighAt(c, at, i) <= HighAt(c, at, j) < W
  {
    assert at(i) <= at(j);
    HighRises(c(at(i)), c(at(j)));
  }

  lemma BothRise(hit: nat -> nat, total: nat -> nat, at: nat -> nat, k0: nat, k: nat)
    requires Runs(hit) && Runs(total) && Later(at) && (k == k0 || k >= k0 + 6)
    ensures HighAt(hit, at, k0) <= HighAt(hit, at, k) <= HighAt(hit, at, k + 2) < W
    ensures HighAt(total, at, k0 + 3) <= HighAt(total, at, k + 3) <= HighAt(total, at, k + 5) < W
    ensures k > k0 ==>
            HighAt(hit, at, k - 4) <= HighAt(hit, at, k) &&
            HighAt(total, at, k - 1) <= HighAt(total, at, k + 3)
  {
    hide HighAt, Runs, Later;
    HighBetween(hit, at, k0, k);
    HighBetween(hit, at, k, k + 2);
    HighBetween(total, at, k0 + 3, k + 3);
    HighBetween(total, at, k + 3, k + 5);
    if k > k0 {
      HighBetween(hit, at, k - 4, k);
      HighBetween(total, at, k - 1, k + 3);
    }
  }
}
