/**
  The order kept by the bottom-up mergesort of the benchmark list, on plain sequences.

  A rank is the place of a node in the list handed to the sort. Keys and flags are indexed by rank;
  perm says which rank stands at which position. A flag says that a comparator has already seen the
  element (its key can no longer change).
*/
module MergeOrder {

  datatype Seen = Seen(keys: seq<int>, flags: seq<bool>)

  // A merge under way: the p run holds positions pi..pe, the q run qi..qe, and k were out before it.
  datatype Place = Place(k: nat, pi: nat, pe: nat, qi: nat, qe: nat)

  function Min(a: int, b: int): int { if a <= b then a else b }

  ghost predicate IsPerm(p: seq<nat>, n: nat) {
    |p| == n && (forall i | 0 <= i < n :: p[i] < n) && (forall i, j | 0 <= i < j < n :: p[i] != p[j])
  }

  // Strictly before in the stable order: by key, and by rank among equal keys.
  ghost predicate Less(keys: seq<int>, x: nat, y: nat)
    requires x < |keys| && y < |keys|
  {
    keys[x] < keys[y] || (keys[x] == keys[y] && x < y)
  }

  ghost predicate Within(perm: seq<nat>, from: nat, to: nat, lo: nat, hi: nat) {
    forall i | from <= i < to && i < |perm| :: lo <= perm[i] < hi
  }

  ghost predicate Ascending(keys: seq<int>, perm: seq<nat>, from: nat, to: nat) {
    to <= |perm| && (forall i | from <= i < to :: perm[i] < |keys|) &&
    forall i, j | from <= i < j < to :: Less(keys, perm[i], perm[j])
  }

  ghost predicate AllSettled(flags: seq<bool>, from: nat, to: nat)
    requires to <= |flags|
  {
    forall r | from <= r < to :: flags[r]
  }

  // The runs hold the ranks k..pe and pe..qe. What is taken so far is ascending and below all that is
  // waiting; a run of one element may be unsettled until it is first compared.
  ghost predicate Ordered(s: Seen, perm: seq<nat>, out: seq<nat>, at: Place)
  {
    |s.flags| == |s.keys| && Laid(|s.keys|, perm, out, at) && Ascends(s.keys, perm, out, at) &&
    Marked(s.flags, |out|, at)
  }

  ghost predicate Laid(n: nat, perm: seq<nat>, out: seq<nat>, at: Place) {
    var Place(k, pi, pe, qi, qe) := at;
    |perm| == n && k <= pi <= pe <= qi <= qe <= n && |out| == pi + qi - pe &&
    Within(perm, k, pe, k, pe) && Within(perm, pe, qe, pe, qe) && Within(out, k, |out|, k, qe)
  }

  ghost predicate Ascends(keys: seq<int>, perm: seq<nat>, out: seq<nat>, at: Place)
  {
    var Place(k, pi, pe, qi, qe) := at;
    Ascending(keys, perm, pi, pe) && Ascending(keys, perm, qi, qe) && Ascending(keys, out, k, |out|) &&
    forall x, i | k <= x < |out| && (pi <= i < pe || qi <= i < qe) :: Less(keys, out[x], perm[i])
  }

  ghost predicate Marked(flags: seq<bool>, taken: nat, at: Place) {
    var Place(k, pi, pe, qi, qe) := at;
    pe <= qe <= |flags| &&
    ((taken > k && qe > pe) || pe > k + 1 ==> AllSettled(flags, k, pe)) &&
    ((taken > k && qe > pe) || qe > pe + 1 ==> AllSettled(flags, pe, qe))
  }

  lemma TakeP(s: Seen, perm: seq<nat>, out: seq<nat>, at: Place)
    requires Ordered(s, perm, out, at) && at.pi < at.pe
    requires at.qi < at.qe ==> s.keys[perm[at.pi]] <= s.keys[perm[at.qi]] && AllSettled(s.flags, at.k, at.qe)
    ensures Ordered(s, perm, out + [perm[at.pi]], at.(pi := at.pi + 1))
  {
  }

  lemma TakeQ(s: Seen, perm: seq<nat>, out: seq<nat>, at: Place)
    requires Ordered(s, perm, out, at) && at.qi < at.qe && at.k < at.pe
    requires at.pi < at.pe ==> s.keys[perm[at.pi]] > s.keys[perm[at.qi]] && AllSettled(s.flags, at.k, at.qe)
    ensures Ordered(s, perm, out + [perm[at.qi]], at.(qi := at.qi + 1))
  {
  }

  // Settling the two heads for the first time changes no order already known.
  lemma Settle(s: Seen, s': Seen, perm: seq<nat>, out: seq<nat>, at: Place)
    requires Ordered(s, perm, out, at) && at.pi < at.pe && at.qi < at.qe
    requires |s'.keys| == |s.keys| && |s'.flags| == |s.flags| && s'.flags[perm[at.pi]] && s'.flags[perm[at.qi]]
    requires forall r | 0 <= r < |s.keys| ::
               s.flags[r] || (r != perm[at.pi] && r != perm[at.qi]) ==>
                 s'.keys[r] == s.keys[r] && s'.flags[r] == s.flags[r]
    ensures Ordered(s', perm, out, at) && AllSettled(s'.flags, at.k, at.qe)
  {
    assert AllSettled(s'.flags, at.k, at.qe) by {
      hide Ascends;
      assert if at.pe == at.k + 1 then perm[at.pi] == at.k else AllSettled(s.flags, at.k, at.pe);
      assert if at.qe == at.pe + 1 then perm[at.qi] == at.pe else AllSettled(s.flags, at.pe, at.qe);
    }
    assert Ascends(s'.keys, perm, out, at) by {
      SettledKeys(s, s', perm, out, at);
    }
  }

  lemma SettledKeys(s: Seen, s': Seen, perm: seq<nat>, out: seq<nat>, at: Place)
    requires Ordered(s, perm, out, at) && at.pi < at.pe && at.qi < at.qe
    requires |s'.keys| == |s.keys| && |s'.flags| == |s.flags|
    requires forall r | 0 <= r < |s.keys| ::
               s.flags[r] || (r != perm[at.pi] && r != perm[at.qi]) ==> s'.keys[r] == s.keys[r]
    ensures Ascends(s'.keys, perm, out, at)
  {
    var Place(k, pi, pe, qi, qe) := at;
    if pe > k + 1 || |out| > k {
      forall r | k <= r < pe ensures s'.keys[r] == s.keys[r] { assert AllSettled(s.flags, k, pe); }
    }
    if qe > pe + 1 || |out| > k {
      forall r | pe <= r < qe ensures s'.keys[r] == s.keys[r] { assert AllSettled(s.flags, pe, qe); }
    }
    hide Ascending, Marked, Ordered;
    AscendingKept(s.keys, s'.keys, perm, pi, pe);
    AscendingKept(s.keys, s'.keys, perm, qi, qe);
    AscendingKept(s.keys, s'.keys, out, k, |out|);
  }

  lemma AscendingKept(keys: seq<int>, keys': seq<int>, perm: seq<nat>, from: nat, to: nat)
    requires |keys'| == |keys| && Ascending(keys, perm, from, to)
    requires to <= from + 1 || forall i | from <= i < to :: keys'[perm[i]] == keys[perm[i]]
    ensures Ascending(keys', perm, from, to)
  {
  }

  ghost predicate Extends(s: seq<nat>, t: seq<nat>) {
    |t| <= |s| && forall x | 0 <= x < |t| :: s[x] == t[x]
  }

  // st[i] is where the block of position i starts: blocks are w long, the last may be shorter.
  ghost predicate Starts(st: seq<nat>, w: nat, from: nat) {
    (forall i | from <= i < |st| :: st[i] <= i < st[i] + w) &&
    (forall i, j | from <= i < j < |st| :: st[i] == st[j] || st[i] + w <= st[j])
  }

  // A block holds exactly the ranks of its own positions, in stable order ...
  ghost predicate BlockOrder(keys: seq<int>, perm: seq<nat>, st: seq<nat>, w: nat, from: nat) {
    |st| == |perm| <= |keys| &&
    (forall i | from <= i < |perm| :: st[i] <= perm[i] < st[i] + w && perm[i] < |keys|) &&
    (forall i, j | from <= i < j < |perm| && st[i] == st[j] :: Less(keys, perm[i], perm[j]))
  }

  // ... and all settled, unless it has one element.
  ghost predicate BlockFlags(flags: seq<bool>, st: seq<nat>, w: nat, from: nat) {
    |st| <= |flags| && forall i | from <= i < |st| && w > 1 && st[i] + 1 < |st| :: flags[i]
  }

  ghost predicate Blocks(s: Seen, perm: seq<nat>, st: seq<nat>, w: nat, from: nat) {
    |s.flags| == |s.keys| && Starts(st, w, from) && BlockOrder(s.keys, perm, st, w, from) &&
    BlockFlags(s.flags, st, w, from)
  }

  lemma RunsOfBlocks(s: Seen, perm: seq<nat>, st: seq<nat>, w: nat, out: seq<nat>, pe: nat, qe: nat)
    requires Blocks(s, perm, st, w, |out|) && 0 < w && IsPerm(perm, |s.keys|)
    requires |out| < |perm| && st[|out|] == |out|
    requires pe == Min(|out| + w, |perm|) && qe == Min(pe + w, |perm|)
    ensures Ordered(s, perm, out, Place(|out|, |out|, pe, pe, qe))
    ensures qe < |perm| ==> st[qe] == qe
  {
    var k := |out|;
    StartsOfRuns(st, w, k, pe, qe);
    var at := Place(k, k, pe, pe, qe);
    hide Starts, IsPerm;
    assert Marked(s.flags, k, at) by { hide BlockOrder; }
    hide BlockFlags, Marked;
    assert Laid(|s.keys|, perm, out, at);
    assert Ascending(s.keys, perm, k, pe) && Ascending(s.keys, perm, pe, qe);
  }

  // The next two blocks from the start of a block on.
  lemma StartsOfRuns(st: seq<nat>, w: nat, k: nat, pe: nat, qe: nat)
    requires Starts(st, w, k) && 0 < w && k < |st| && st[k] == k
    requires pe == Min(k + w, |st|) && qe == Min(pe + w, |st|)
    ensures forall i | k <= i < pe :: st[i] == k
    ensures forall i | pe <= i < qe :: st[i] == pe
    ensures qe < |st| ==> st[qe] == qe
  {
    assert pe < |st| ==> st[pe] == pe;
  }

  function WithBlock(st: seq<nat>, k: nat, qe: nat): seq<nat> {
    st + seq(if k <= qe then qe - k else 0, _ => k)
  }

  ghost predicate Closed(st: seq<nat>, w: nat) {
    forall i | 0 <= i < |st| :: st[i] + w <= |st|
  }

  ghost predicate SameOn(s: Seen, s': Seen, from: int, to: int) {
    |s'.keys| == |s.keys| && |s'.flags| == |s.flags| && |s.flags| == |s.keys| &&
    forall r | 0 <= r < |s.keys| && from <= r < to :: s'.keys[r] == s.keys[r] && s'.flags[r] == s.flags[r]
  }

  lemma AddStarts(st: seq<nat>, w: nat, k: nat, qe: nat)
    requires Starts(st, w, 0) && Closed(st, w) && |st| == k < qe <= k + w
    ensures Starts(WithBlock(st, k, qe), w, 0)
  {
    var st' := WithBlock(st, k, qe);
    assert forall i | 0 <= i < k :: st'[i] == st[i];
    assert forall i | k <= i < qe :: st'[i] == k;
  }

  // Adds the block just merged to the blocks of width w built so far.
  lemma AddBlock(s: Seen, s': Seen, perm: seq<nat>, out: seq<nat>, out': seq<nat>, st: seq<nat>, w: nat, pe: nat,
                 qe: nat)
    requires Blocks(s, out, st, w, 0) && Closed(st, w) && |out| < qe <= |out| + w && qe <= |s.keys|
    requires |out'| == qe && Extends(out', out) && SameOn(s, s', 0, |out|)
    requires Ordered(s', perm, out', Place(|out|, pe, pe, qe, qe)) && |out| < pe
    ensures Blocks(s', out', WithBlock(st, |out|, qe), w, 0)
  {
    assert |s'.flags| == |s'.keys| == |s.keys| && |st| == |out|;
    hide Starts, BlockOrder, BlockFlags, Ordered, Extends, SameOn;
    AddStarts(st, w, |out|, qe);
    AddOrder(s, s', perm, out, out', st, w, pe, qe);
    AddFlags(s, s', perm, out, out', st, w, pe, qe);
  }

  lemma AddOrder(s: Seen, s': Seen, perm: seq<nat>, out: seq<nat>, out': seq<nat>, st: seq<nat>, w: nat, pe: nat,
                 qe: nat)
    requires Starts(st, w, 0) && BlockOrder(s.keys, out, st, w, 0) && Closed(st, w) && |out| < qe <= |out| + w &&
             qe <= |s.keys|
    requires |out'| == qe && Extends(out', out) && SameOn(s, s', 0, |out|)
    requires Ordered(s', perm, out', Place(|out|, pe, pe, qe, qe)) && |out| < pe
    ensures BlockOrder(s'.keys, out', WithBlock(st, |out|, qe), w, 0)
  {
    var k, st' := |out|, WithBlock(st, |out|, qe);
    forall i | 0 <= i < k ensures st'[i] == st[i] && out'[i] == out[i] && st[i] <= out[i] < st[i] + w <= k {}
    forall i | k <= i < qe ensures st'[i] == k && k <= out'[i] < qe {}
    assert Ascending(s'.keys, out', k, qe);
    hide Ordered, Within, Starts, Closed;
    forall i, j | 0 <= i < j < qe && st'[i] == st'[j] ensures Less(s'.keys, out'[i], out'[j]) {
      if j < k { assert Less(s.keys, out[i], out[j]); }
    }
  }

  lemma AddFlags(s: Seen, s': Seen, perm: seq<nat>, out: seq<nat>, out': seq<nat>, st: seq<nat>, w: nat, pe: nat,
                 qe: nat)
    requires BlockFlags(s.flags, st, w, 0) && |st| == |out| < qe <= |s.keys| && |out| < pe && Closed(st, w)
    requires SameOn(s, s', 0, |out|) && |out'| == qe && Ordered(s', perm, out', Place(|out|, pe, pe, qe, qe))
    ensures BlockFlags(s'.flags, WithBlock(st, |out|, qe), w, 0)
  {
    var k, st' := |out|, WithBlock(st, |out|, qe);
    if qe > k + 1 { assert AllSettled(s'.flags, k, qe); }
    hide Ordered;
    forall i | 0 <= i < qe && w > 1 && st'[i] + 1 < qe ensures s'.flags[i] {
      if i < k { assert st'[i] == st[i]; }
    }
  }

  lemma LaterBlocks(s: Seen, s': Seen, perm: seq<nat>, st: seq<nat>, w: nat, k: nat, qe: nat)
    requires Blocks(s, perm, st, w, k) && k <= qe && (qe < |perm| ==> st[qe] == qe)
    requires SameOn(s, s', qe, |s.keys|)
    ensures Blocks(s', perm, st, w, qe)
  {
    assert forall i | qe <= i < |perm| :: st[i] >= qe;
  }
}
