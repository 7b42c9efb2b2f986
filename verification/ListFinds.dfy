/** What the return value of the find phase counts (software/coremark_app/cmark.c:505-534). */
module ListFinds {
  import opened Words
  import opened ListCells
  import opened ListOps
  import opened ListBench

  // A round that finds something is worth four, and one more if the word found is odd and has bit 9 set. A round that
  // finds nothing costs one, unless bit 8 is set in the word next to the last, which is then the second one.
  function RoundTerm(cells: seq<Cell>, key: Cell): bv16
    requires 2 <= |cells|
  {
    var k := Position(cells, key);
    if k < |cells| then
      var d := cells[k].data;
      if d & 1 != 0 && d & 0x200 != 0 then 5 else 4
    else if cells[|cells| - 2].data & 0x100 != 0 then 0 else 0xffff
  }

  // What round i searches for.
  function KeyOf(s: Finds, i: nat): Cell { Cell((i % 0x100) as bv16, s.idx) }

  function Found(s: Finds, i: nat): bool { Position(s.cells, KeyOf(s, i)) < |s.cells| }

  // In 16 bits.
  function Plus(a: bv16, b: bv16): bv16 { a + b }

  // The rounds one after the other, from s0 on.
  function Terms(s0: Finds, n: nat): bv16
    requires 2 <= |s0.cells|
  {
    if n == 0 then 0
    else
      var s := FindRun(s0, n - 1);
      Plus(Terms(s0, n - 1), RoundTerm(s.cells, KeyOf(s, n - 1)))
  }

  function Hits(s0: Finds, n: nat): (h: nat)
    requires 2 <= |s0.cells|
    ensures h <= n
  {
    if n == 0 then 0 else Hits(s0, n - 1) + if Found(FindRun(s0, n - 1), n - 1) then 1 else 0
  }

  function Ones(n: nat): bv16 { if n == 0 then 0 else Plus(Ones(n - 1), 1) }

  // ---------- one round ----------

  function HitTerm(d: bv16): bv16 { if d & 1 != 0 && d & 0x200 != 0 then 5 else 4 }

  function MissTerm(d: bv16): bv16 { if d & 0x100 != 0 then 0 else 0xffff }

  function HitBit(d: bv16): bv16 { if d & 1 == 1 then (d >> 9) & 1 else 0 }

  function MissBit(d: bv16): bv16 { (d >> 8) & 1 }

  lemma HitBits(r: bv16, d: bv16)
    ensures HitValue(r, d) == r + HitBit(d) && HitTerm(d) == 4 + HitBit(d)
  {
  }

  lemma MissBits(r: bv16, d: bv16)
    ensures MissValue(r, d) == r + MissBit(d) && MissTerm(d) == 0xffff + MissBit(d)
  {
  }

  lemma PlusOne(a: bv16)
    ensures Plus(a, 1) == a + 1
  {
  }

  lemma BalanceIs(r: bv16, found: bv16, missed: bv16)
    ensures Balance(r, found, missed) == r + (found * 4 - missed)
  {
  }

  lemma FourMore(r: bv16, found: bv16, missed: bv16, b: bv16)
    ensures Balance(r + b, found + 1, missed) == Plus(r + (found * 4 - missed), 4 + b)
  {
  }

  lemma OneLess(r: bv16, found: bv16, missed: bv16, b: bv16)
    ensures Balance(r + b, found, missed + 1) == Plus(r + (found * 4 - missed), 0xffff + b)
  {
  }

  lemma HitCounts(r: bv16, found: bv16, missed: bv16, d: bv16)
    ensures Balance(HitValue(r, d), Plus(found, 1), missed) == Plus(Balance(r, found, missed), HitTerm(d))
  {
    hide *;
    HitBits(r, d);
    PlusOne(found);
    FourMore(r, found, missed, HitBit(d));
    BalanceIs(r, found, missed);
  }

  lemma MissCounts(r: bv16, found: bv16, missed: bv16, d: bv16)
    ensures Balance(MissValue(r, d), found, Plus(missed, 1)) == Plus(Balance(r, found, missed), MissTerm(d))
  {
    hide *;
    MissBits(r, d);
    PlusOne(missed);
    OneLess(r, found, missed, MissBit(d));
    BalanceIs(r, found, missed);
  }

  lemma OneHit(s: Finds, i: nat)
    requires 2 <= |s.cells| && Found(s, i)
    ensures var t, d := FindStep(s, i), s.cells[Position(s.cells, KeyOf(s, i))].data;
            t.retval == HitValue(s.retval, d) && t.found == Plus(s.found, 1) && t.missed == s.missed &&
            RoundTerm(s.cells, KeyOf(s, i)) == HitTerm(d)
  {
    hide HitValue, Shuffled;
  }

  lemma OneMiss(s: Finds, i: nat)
    requires 2 <= |s.cells| && !Found(s, i)
    ensures var t, d := FindStep(s, i), s.cells[|s.cells| - 2].data;
            t.retval == MissValue(s.retval, d) && t.found == s.found && t.missed == Plus(s.missed, 1) &&
            RoundTerm(s.cells, KeyOf(s, i)) == MissTerm(d)
  {
    hide MissValue;
    assert Reversed(s.cells)[1] == s.cells[|s.cells| - 2];
  }

  lemma OneRound(s: Finds, i: nat)
    requires 2 <= |s.cells|
    ensures var t := FindStep(s, i);
            Balance(t.retval, t.found, t.missed) ==
            Plus(Balance(s.retval, s.found, s.missed), RoundTerm(s.cells, KeyOf(s, i)))
    ensures var t := FindStep(s, i);
            if Found(s, i) then t.found == Plus(s.found, 1) && t.missed == s.missed
            else t.found == s.found && t.missed == Plus(s.missed, 1)
  {
    hide *;
    if Found(s, i) {
      OneHit(s, i);
      FoundIs(s, i);
      HitCounts(s.retval, s.found, s.missed, s.cells[Position(s.cells, KeyOf(s, i))].data);
    } else {
      OneMiss(s, i);
      MissCounts(s.retval, s.found, s.missed, s.cells[|s.cells| - 2].data);
    }
  }

  lemma FoundIs(s: Finds, i: nat)
    ensures Found(s, i) <==> Position(s.cells, KeyOf(s, i)) < |s.cells|
  {
  }

  // ---------- all rounds ----------

  lemma {:induction false} RunCounts(before: seq<Cell>, idx: S16, n: nat)
    requires 2 <= |before|
    ensures var s0 := Finds(before, idx, 0, 0, 0);
            var s := FindRun(s0, n);
            Balance(s.retval, s.found, s.missed) == Terms(s0, n) && s.found == Ones(Hits(s0, n)) &&
            s.missed == Ones(n - Hits(s0, n))
  {
    hide *;
    var s0 := Finds(before, idx, 0, 0, 0);
    if n == 0 {
      NoBalance(s0);
    } else {
      RunCounts(before, idx, n - 1);
      OneRound(FindRun(s0, n - 1), n - 1);
      OneMoreRound(s0, n);
    }
  }

  lemma OneMoreRound(s0: Finds, n: nat)
    requires 2 <= |s0.cells| && 0 < n
    ensures FindRun(s0, n) == FindStep(FindRun(s0, n - 1), n - 1)
    ensures var s := FindRun(s0, n - 1); Terms(s0, n) == Plus(Terms(s0, n - 1), RoundTerm(s.cells, KeyOf(s, n - 1)))
    ensures if Found(FindRun(s0, n - 1), n - 1)
            then Ones(Hits(s0, n)) == Plus(Ones(Hits(s0, n - 1)), 1) && n - Hits(s0, n) == n - 1 - Hits(s0, n - 1)
            else Ones(n - Hits(s0, n)) == Plus(Ones(n - 1 - Hits(s0, n - 1)), 1) && Hits(s0, n) == Hits(s0, n - 1)
  {
    hide FindStep, RoundTerm, KeyOf, Found, Plus;
  }

  lemma NoBalance(s0: Finds)
    requires 2 <= |s0.cells|
    ensures Balance(0, 0, 0) == 0 && FindRun(s0, 0) == s0 && Terms(s0, 0) == 0 && Hits(s0, 0) == 0 && Ones(0) == 0
  {
  }

  // The balance of the find phase is the sum of its rounds.
  lemma BalanceIsSum(before: seq<Cell>, found: seq<Cell>, findNum: S16, finderIdx: S16, key: Cell, balance: bv16)
    requires FindsOutcome(before, found, findNum, finderIdx, key, balance)
    ensures 2 <= |before| && balance == Terms(Finds(before, finderIdx, 0, 0, 0), if findNum > 0 then findNum else 0)
  {
    hide Balance, FindRun, LowByte;
    RunCounts(before, finderIdx, if findNum > 0 then findNum else 0);
  }

  // So is what a run of the benchmark starts its CRC with.
  lemma RunStartsWithSum(before: seq<Cell>, mid: seq<Cell>, after: seq<Cell>, findNum: S16, finderIdx: S16, key: Cell,
                         retval: bv16)
    requires BenchOutcome(before, mid, after, findNum, finderIdx, key, retval)
    ensures 2 <= |before| && 3 <= |mid| == |after|
    ensures retval == CrcTimes(after[0].data, |after| - 1, Checked(Without(mid, 1), key,
                        Terms(Finds(before, finderIdx, 0, 0, 0), if findNum > 0 then findNum else 0)))
  {
    hide Balance, FindRun, LowByte, SortedAs, CrcTimes, Checked, FindsOutcome;
    var found: seq<Cell>, balance: bv16 :|
      FindsOutcome(before, found, findNum, finderIdx, key, balance) &&
      (if finderIdx > 0 then SortedAs(Complex, found, mid) else mid == found) &&
      RestOutcome(mid, after, key, balance, retval);
    BalanceIsSum(before, found, findNum, finderIdx, key, balance);
  }
}
