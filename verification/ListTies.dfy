/**
  Exactly when a run of the benchmark (software/coremark_app/cmark.c:496-563) keeps the head, or every cell,
    of a list in
  order of index in its place: whatever the data, the numbers of searches and the kind of run.
*/
module ListTies {
  import opened Words
  import opened MergeOrder
  import opened ListCells
  import opened ListSort
  import opened ListOps
  import opened ListBench
  import opened ListRuns

  ghost predicate HasIndices(s: seq<Cell>, idx: seq<S16>) {
    |s| == |idx| && forall i | 0 <= i < |s| :: s[i].idx == idx[i]
  }

  ghost predicate Backed(s: seq<Cell>) { forall i | 0 <= i < |s| :: s[i].data == Regenerated(s[i].data) }

  // Some run makes after of before.
  ghost predicate Runs(before: seq<Cell>, after: seq<Cell>) {
    exists mid: seq<Cell>, findNum: S16, finderIdx: S16, key: Cell, retval: bv16 ::
      BenchOutcome(before, mid, after, findNum, finderIdx, key, retval)
  }

  // Every run on every list with these indices and with own backups keeps the cell in front, or all cells in place.
  ghost predicate HeadKept(idx: seq<S16>) {
    forall before, after | HasIndices(before, idx) && Backed(before) && Runs(before, after) ::
      0 < |after| && 0 < |before| && after[0] == before[0]
  }

  ghost predicate PlacesKept(idx: seq<S16>) {
    forall before, after | HasIndices(before, idx) && Backed(before) && Runs(before, after) :: after == before
  }

  // ---------- a run only rearranges ----------

  // b has the cells of a in the order p, with the same index and the same backup.
  ghost predicate Rearranged(a: seq<Cell>, b: seq<Cell>, p: seq<nat>) {
    |a| == |b| && IsPerm(p, |a|) &&
    forall i | 0 <= i < |b| :: b[i].idx == a[p[i]].idx && Regenerated(b[i].data) == Regenerated(a[p[i]].data)
  }

  function Composed(p: seq<nat>, q: seq<nat>): (r: seq<nat>)
    requires forall i | 0 <= i < |q| :: q[i] < |p|
    ensures |r| == |q| && forall i | 0 <= i < |q| :: r[i] == p[q[i]]
  {
    seq(|q|, i requires 0 <= i < |q| => p[q[i]])
  }

  lemma RearrangedTwice(a: seq<Cell>, b: seq<Cell>, c: seq<Cell>, p: seq<nat>, q: seq<nat>)
    requires Rearranged(a, b, p) && Rearranged(b, c, q)
    ensures Rearranged(a, c, Composed(p, q))
  {
    hide Regenerated;
  }

  lemma RearrangedNot(a: seq<Cell>)
    ensures Rearranged(a, a, Identity(|a|))
  {
  }

  function Backward(n: nat): (p: seq<nat>)
    ensures |p| == n && forall i | 0 <= i < n :: p[i] == n - 1 - i
  {
    seq(n, i requires 0 <= i < n => n - 1 - i)
  }

  lemma ReversedIsRearranged(a: seq<Cell>)
    ensures Rearranged(a, Reversed(a), Backward(|a|))
  {
  }

  function Up(n: nat, k: nat): (p: seq<nat>)
    requires 0 < k < n
    ensures |p| == n && forall i | 0 <= i < n :: p[i] == MovedFrom(k, i)
  {
    seq(n, i requires 0 <= i < n => MovedFrom(k, i))
  }

  lemma ShuffledIsRearranged(a: seq<Cell>, k: nat) returns (p: seq<nat>)
    requires 0 < k <= |a|
    ensures Rearranged(a, Shuffled(a, k), p)
  {
    if k < |a| {
      p := Up(|a|, k);
      UpIsPerm(|a|, k);
      hide IsPerm, Regenerated;
    } else {
      RearrangedNot(a);
      p := Identity(|a|);
    }
  }

  lemma UpIsPerm(n: nat, k: nat)
    requires 0 < k < n
    ensures IsPerm(Up(n, k), n)
  {
    var p := Up(n, k);
    hide Up;
    forall i, j | 0 <= i < j < n ensures p[i] != p[j] {
      assert MovedFrom(k, i) != MovedFrom(k, j);
    }
  }

  lemma FindStepRearranges(s: Finds, i: nat) returns (p: seq<nat>)
    requires 2 <= |s.cells|
    ensures Rearranged(s.cells, FindStep(s, i).cells, p)
  {
    hide Rearranged, Shuffled, Composed, Reversed;
    var r, k := Reversed(s.cells), Position(s.cells, Cell(LowByte(i), s.idx));
    ReversedIsRearranged(s.cells);
    ReversedSize(s.cells);
    p := Backward(|s.cells|);
    if k < |s.cells| {
      StepFound(s, i, k);
      var w := ShuffledIsRearranged(r, |s.cells| - k);
      Composable(s.cells, r, Shuffled(r, |s.cells| - k), p, w);
      p := Composed(p, w);
    } else {
      StepMissed(s, i);
    }
  }

  lemma ReversedSize(s: seq<Cell>)
    ensures |Reversed(s)| == |s|
  {
  }

  lemma Composable(a: seq<Cell>, b: seq<Cell>, c: seq<Cell>, p: seq<nat>, q: seq<nat>)
    requires Rearranged(a, b, p) && Rearranged(b, c, q)
    ensures (forall i | 0 <= i < |q| :: q[i] < |p|) && Rearranged(a, c, Composed(p, q))
  {
    RearrangedTwice(a, b, c, p, q);
  }

  lemma {:induction false} FindRunRearranges(s: Finds, n: nat) returns (p: seq<nat>)
    requires 2 <= |s.cells|
    ensures Rearranged(s.cells, FindRun(s, n).cells, p)
  {
    hide Rearranged, FindStep, Composed;
    if n == 0 {
      RearrangedNot(s.cells);
      p := Identity(|s.cells|);
    } else {
      var t := FindRun(s, n - 1);
      var q := FindRunRearranges(s, n - 1);
      var w := FindStepRearranges(t, n - 1);
      Composable(s.cells, t.cells, FindStep(t, n - 1).cells, q, w);
      p := Composed(q, w);
    }
  }

  lemma SortRearranges(m: Mode, a: seq<Cell>, b: seq<Cell>) returns (p: seq<nat>)
    requires SortedAs(m, a, b)
    ensures Rearranged(a, b, p)
  {
    var seen: seq<Cell>, perm: seq<nat> :| SortedBy(m, a, b, seen, perm);
    p := perm;
    hide Evolves, Regenerated, Settled;
    forall i | 0 <= i < |b| ensures Regenerated(b[i].data) == Regenerated(a[p[i]].data) {
      SameBackup(m, a[p[i]].data, seen[p[i]].data);
    }
  }

  lemma SameBackup(m: Mode, a: bv16, b: bv16)
    requires Evolves(m, a, b)
    ensures Regenerated(b) == Regenerated(a)
  {
  }

  lemma SortedBacked(a: seq<Cell>, b: seq<Cell>)
    requires SortedAs(IdxRegen, a, b)
    ensures Backed(b)
  {
    hide Evolves, Regenerated;
    var seen: seq<Cell>, perm: seq<nat> :| SortedBy(IdxRegen, a, b, seen, perm);
  }

  // After a run the same cells stand in order of index.
  lemma RunRearranges(before: seq<Cell>, after: seq<Cell>) returns (p: seq<nat>)
    requires Runs(before, after) && Backed(before)
    ensures |after| == |before| >= 3 && IsPerm(p, |before|) && ByIndexOrder(after) &&
            forall i | 0 <= i < |after| :: after[i] == before[p[i]]
  {
    hide *;
    var found, mid, finderIdx, q := OpenRun(before, after);
    var r := SortRearranges(IdxRegen, mid, after);
    SortedBacked(mid, after);
    SortedByIndex(mid, after);
    if finderIdx > 0 {
      var w := SortRearranges(Complex, found, mid);
      Composable(before, found, mid, q, w);
      q := Composed(q, w);
    }
    Composable(before, mid, after, q, r);
    p := Composed(q, r);
    SameCells(before, after, p);
  }

  lemma OpenRun(before: seq<Cell>, after: seq<Cell>)
    returns (found: seq<Cell>, mid: seq<Cell>, finderIdx: S16, q: seq<nat>)
    requires Runs(before, after)
    ensures Rearranged(before, found, q) && (if finderIdx > 0 then SortedAs(Complex, found, mid) else mid == found)
    ensures SortedAs(IdxRegen, mid, after) && |after| >= 3
  {
    hide SortedAs, FindRun, Rearranged, Checked, CrcTimes, Balance, LowByte, Without;
    var mid0: seq<Cell>, findNum: S16, finderIdx0: S16, key: Cell, retval: bv16 :|
      BenchOutcome(before, mid0, after, findNum, finderIdx0, key, retval);
    var found0: seq<Cell>, balance: bv16 :|
      FindsOutcome(before, found0, findNum, finderIdx0, key, balance) &&
      (if finderIdx0 > 0 then SortedAs(Complex, found0, mid0) else mid0 == found0) &&
      RestOutcome(mid0, after, key, balance, retval);
    found, mid, finderIdx := found0, mid0, finderIdx0;
    q := FindRunRearranges(Finds(before, finderIdx, 0, 0, 0), if findNum > 0 then findNum else 0);
  }

  lemma SameCells(a: seq<Cell>, b: seq<Cell>, p: seq<nat>)
    requires Rearranged(a, b, p) && Backed(a) && Backed(b)
    ensures |b| == |a| && IsPerm(p, |a|) && forall i | 0 <= i < |b| :: b[i] == a[p[i]]
  {
    hide Regenerated;
  }

  // ---------- when it keeps places ----------

  lemma RunKeepsIndices(idx: seq<S16>, before: seq<Cell>, after: seq<Cell>) returns (p: seq<nat>)
    requires Rising(idx) && HasIndices(before, idx) && Backed(before) && Runs(before, after)
    ensures |after| == |before| == |idx| >= 3 && IsPerm(p, |idx|)
    ensures forall i | 0 <= i < |after| :: after[i] == before[p[i]] && idx[p[i]] == idx[i]
  {
    p := RunRearranges(before, after);
    hide Runs, Backed, Rising;
    forall i | 0 <= i < |after| ensures idx[p[i]] == idx[i] {
      SameIndexThere(idx, p, i);
    }
  }

  // ---------- and when it does not ----------

  // The place of x behind all ranks with no greater key.
  function PlaceOf(keys: seq<int>, p: seq<nat>, x: int): (k: nat)
    requires forall i | 0 <= i < |p| :: p[i] < |keys|
    ensures k <= |p| && (forall i | 0 <= i < k :: keys[p[i]] <= x) && (k < |p| ==> keys[p[k]] > x)
  {
    if p == [] || keys[p[0]] > x then 0 else 1 + PlaceOf(keys, p[1..], x)
  }

  // Keys can always be put in stable order.
  lemma {:induction false} SortExists(keys: seq<int>) returns (perm: seq<nat>)
    ensures StablySorted(keys, perm)
  {
    if keys == [] {
      perm := [];
    } else {
      var n := |keys| - 1;
      var p := SortExists(keys[..n]);
      var k := PlaceOf(keys, p, keys[n]);
      perm := p[..k] + [n] + p[k..];
      InsertedIsSorted(keys, p, k, perm);
    }
  }

  lemma InsertedIsSorted(keys: seq<int>, p: seq<nat>, k: nat, perm: seq<nat>)
    requires keys != [] && StablySorted(keys[..|keys| - 1], p) && k <= |p| && perm == p[..k] + [|keys| - 1] + p[k..]
    requires (forall i | 0 <= i < k :: keys[p[i]] <= keys[|keys| - 1]) && (k < |p| ==> keys[p[k]] > keys[|keys| - 1])
    ensures StablySorted(keys, perm)
  {
    var n := |keys| - 1;
    assert forall i | 0 <= i < |perm| :: perm[i] == if i < k then p[i] else if i == k then n else p[i - 1];
    forall i | k < i < |p| ensures keys[p[i]] > keys[n] {
      assert Less(keys[..n], p[k], p[i]);
    }
    forall i, j | 0 <= i < j < |perm| ensures Less(keys, perm[i], perm[j]) {
      var x, y := if i < k then i else i - 1, if j < k then j else j - 1;
      if i != k && j != k { assert Less(keys[..n], p[x], p[y]); }
    }
  }

  // One cell is marked by its data.
  function Marked(idx: seq<S16>, a: nat): (s: seq<Cell>)
    ensures |s| == |idx| && forall i | 0 <= i < |s| :: s[i] == Cell(if i == a then 0x0202 else 0x0101, idx[i])
  {
    seq(|idx|, i requires 0 <= i < |idx| => Cell(if i == a then 0x0202 else 0x0101, idx[i]))
  }

  lemma MarkedSize(idx: seq<S16>, a: nat)
    ensures |Marked(idx, a)| == |idx|
  {
  }

  lemma OwnBackups()
    ensures Regenerated(0x0101) == 0x0101 && Regenerated(0x0202) == 0x0202
  {
  }

  lemma NoneMatches(idx: seq<S16>, a: nat)
    ensures Position(Marked(idx, a), Cell(LowByte(0), -1)) == |idx|
  {
    forall i | 0 <= i < |idx| ensures !Matches(Marked(idx, a)[i], Cell(LowByte(0), -1)) {
      LowBytes();
    }
  }

  lemma LowBytes()
    ensures 0x0101 & 0xff != LowByte(0) && 0x0202 & 0xff != LowByte(0)
  {
  }

  // A single search by data that finds nothing turns the list round.
  lemma TurnedRound(idx: seq<S16>, a: nat)
    requires 2 <= |idx|
    ensures var t := FindRun(Finds(Marked(idx, a), -1, 0, 0, 0), 1); t.cells == Reversed(Marked(idx, a)) && t.idx == -1
  {
    hide MissValue, LowByte;
    var s := Finds(Marked(idx, a), -1, 0, 0, 0);
    NoneMatches(idx, a);
    StepMissed(s, 0);
    assert FindRun(s, 1) == FindStep(FindRun(s, 0), 0);
  }

  // That list, sorted by index, is the outcome of a run.
  lemma TurnedRun(idx: seq<S16>, a: nat) returns (after: seq<Cell>, perm: seq<nat>)
    requires 3 <= |idx|
    ensures Runs(Marked(idx, a), after) && |after| == |idx|
    ensures StablySorted(KeysOf(IdxRegen, Reversed(Marked(idx, a))), perm)
    ensures IsPerm(perm, |idx|) && forall i | 0 <= i < |idx| :: after[i] == Reversed(Marked(idx, a))[perm[i]]
  {
    var before := Marked(idx, a);
    var mid := Reversed(before);
    perm := SortExists(KeysOf(IdxRegen, mid));
    after := seq(|idx|, i requires 0 <= i < |idx| => mid[perm[i]]);
    OwnBackups();
    assert SortedBy(IdxRegen, mid, after, mid, perm);
    hide *;
    ItIsSorted(mid, after, mid, perm);
    TurnedOutcome(idx, a, after);
  }

  lemma ItIsSorted(a: seq<Cell>, b: seq<Cell>, seen: seq<Cell>, perm: seq<nat>)
    requires SortedBy(IdxRegen, a, b, seen, perm)
    ensures SortedAs(IdxRegen, a, b)
  {
  }

  lemma TurnedOutcome(idx: seq<S16>, a: nat, after: seq<Cell>)
    requires 3 <= |idx| == |after| && SortedAs(IdxRegen, Reversed(Marked(idx, a)), after)
    ensures Runs(Marked(idx, a), after)
  {
    hide SortedAs, FindRun, LowByte, CrcTimes, Checked, Balance, Marked;
    var before := Marked(idx, a);
    var mid := Reversed(before);
    TurnedRound(idx, a);
    MarkedSize(idx, a);
    var s := FindRun(Finds(before, -1, 0, 0, 0), 1);
    var key, balance := Cell(LowByte(0), -1), Balance(s.retval, s.found, s.missed);
    var retval := CrcTimes(after[0].data, |after| - 1, Checked(Without(mid, 1), key, balance));
    assert FindsOutcome(before, mid, 1, -1, key, balance);
    assert RestOutcome(mid, after, key, balance, retval);
    hide FindsOutcome, RestOutcome;
    assert BenchOutcome(before, mid, after, 1, -1, key, retval);
  }

  // The first cell of a tie is not in its place then: the others of the tie, which stood behind it, come first.
  lemma TieMoves(idx: seq<S16>, a: nat, after: seq<Cell>, perm: seq<nat>)
    requires Rising(idx) && a + 1 < |idx| && idx[a] == idx[a + 1] && forall y | 0 <= y < a :: idx[y] < idx[a]
    requires StablySorted(KeysOf(IdxRegen, Reversed(Marked(idx, a))), perm)
    requires |after| == |idx| && IsPerm(perm, |idx|) && forall i | 0 <= i < |idx| ::
             after[i] == Reversed(Marked(idx, a))[perm[i]]
    ensures after[a] != Marked(idx, a)[a]
  {
    var n, keys := |idx|, KeysOf(IdxRegen, Reversed(Marked(idx, a)));
    var p := Composed(Backward(n), perm);
    RanksBackward(idx, a, perm);
    hide KeysOf, Reversed, Backward, Composed, Rising, IsPerm, Marked;
    forall i, j | 0 <= i < j < n ensures idx[p[i]] <= idx[p[j]] && (idx[p[i]] == idx[p[j]] ==> p[j] < p[i]) {
      assert Less(keys, perm[i], perm[j]);
    }
    BehindItsPlace(idx, p, a);
    MarkedOnce(idx, a, p[a]);
  }

  lemma RanksBackward(idx: seq<S16>, a: nat, perm: seq<nat>)
    requires IsPerm(perm, |idx|)
    ensures var n, keys, p := |idx|, KeysOf(IdxRegen, Reversed(Marked(idx, a))), Composed(Backward(|idx|), perm);
            |keys| == n && IsPerm(p, n) &&
            (forall i | 0 <= i < n :: keys[perm[i]] == idx[p[i]] && p[i] == n - 1 - perm[i]) &&
            forall i | 0 <= i < n :: Reversed(Marked(idx, a))[perm[i]] == Marked(idx, a)[p[i]]
  {
    var keys, p := KeysOf(IdxRegen, Reversed(Marked(idx, a))), Composed(Backward(|idx|), perm);
    assert forall i | 0 <= i < |idx| :: p[i] == |idx| - 1 - perm[i];
    assert forall r | 0 <= r < |idx| :: keys[r] == idx[|idx| - 1 - r];
  }

  lemma BehindItsPlace(idx: seq<S16>, p: seq<nat>, a: nat)
    requires Rising(idx) && a + 1 < |idx| && idx[a] == idx[a + 1] && forall y | 0 <= y < a :: idx[y] < idx[a]
    requires IsPerm(p, |idx|)
    requires forall i, j | 0 <= i < j < |p| :: idx[p[i]] <= idx[p[j]] && (idx[p[i]] == idx[p[j]] ==> p[j] < p[i])
    ensures p[a] > a
  {
    SameIndexThere(idx, p, a);
    SameIndexThere(idx, p, a + 1);
    hide Rising, IsPerm;
    assert p[a + 1] < p[a];
  }

  lemma MarkedOnce(idx: seq<S16>, a: nat, b: nat)
    requires a < |idx| && b < |idx| && a != b
    ensures Marked(idx, a)[b] != Marked(idx, a)[a]
  {
  }

  lemma {:induction false} FirstOfTie(idx: seq<S16>, i: nat, j: nat) returns (a: nat)
    requires Rising(idx) && i < j < |idx| && idx[i] == idx[j]
    ensures a <= i && a + 1 < |idx| && idx[a] == idx[a + 1] == idx[i] && forall y | 0 <= y < a :: idx[y] < idx[a]
    decreases i
  {
    if i > 0 && idx[i - 1] == idx[i] {
      a := FirstOfTie(idx, i - 1, i);
    } else {
      a := i;
      if i > 0 {
        forall y | 0 <= y < i ensures idx[y] < idx[i] {
          assert idx[y] <= idx[i - 1] <= idx[i];
        }
      }
    }
  }

  // A run that moves the first cell of a tie.
  lemma TieRun(idx: seq<S16>, a: nat) returns (after: seq<Cell>)
    requires Rising(idx) && 3 <= |idx| && a + 1 < |idx| && idx[a] == idx[a + 1] &&
             forall y | 0 <= y < a :: idx[y] < idx[a]
    ensures HasIndices(Marked(idx, a), idx) && Backed(Marked(idx, a)) && Runs(Marked(idx, a), after)
    ensures |after| == |idx| && after[a] != Marked(idx, a)[a]
  {
    var perm;
    after, perm := TurnedRun(idx, a);
    TieMoves(idx, a, after, perm);
    OwnBackups();
    hide Regenerated, Runs;
  }

  // ---------- exactly ----------

  // Every run keeps the head of a list in order of index exactly if the head shares its index with no other cell.
  lemma HeadKeptIff(idx: seq<S16>)
    requires 3 <= |idx| && Rising(idx)
    ensures HeadKept(idx) <==> HeadAlone(idx)
  {
    hide HasIndices, Backed, Runs, Marked;
    if HeadAlone(idx) {
      forall before, after | HasIndices(before, idx) && Backed(before) && Runs(before, after)
        ensures 0 < |after| && 0 < |before| && after[0] == before[0]
      {
        var p := RunKeepsIndices(idx, before, after);
        assert idx[p[0]] == idx[0];
      }
    } else {
      assert idx[0] == idx[1];
      var after := TieRun(idx, 0);
    }
  }

  // It keeps every cell in its place exactly if no two cells share an index.
  lemma PlacesKeptIff(idx: seq<S16>)
    requires 3 <= |idx| && Rising(idx)
    ensures PlacesKept(idx) <==> AllDistinct(idx)
  {
    hide HasIndices, Backed, Runs, Marked;
    if AllDistinct(idx) {
      forall before, after | HasIndices(before, idx) && Backed(before) && Runs(before, after) ensures after == before {
        var p := RunKeepsIndices(idx, before, after);
        forall i | 0 <= i < |idx| ensures p[i] == i { OneOwner(idx, p[i], i); }
      }
    } else {
      var i, j :| 0 <= i < j < |idx| && idx[i] == idx[j];
      var a := FirstOfTie(idx, i, j);
      var after := TieRun(idx, a);
    }
  }
}
