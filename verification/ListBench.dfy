/**
  core_bench_list (software/coremark_app/cmark.c:496-563): find cells and shuffle the list, sort it by
  data, take a cell out and put it back, and sort by index, in effect returning the list to its original state.
*/
module ListBench {
  import opened Words
  import opened Crc16
  import opened MergeOrder
  import opened ListCells
  import opened ListSort
  import opened ListOps

  // The same cells, in some order.
  predicate Same(s: seq<ListHead>, t: seq<ListHead>) {
    |s| == |t| && (forall i | 0 <= i < |s| :: s[i] in t) && (forall i | 0 <= i < |t| :: t[i] in s)
  }

  ghost predicate AllIn(cur: seq<ListHead>, all: set<ListHead>) {
    forall i | 0 <= i < |cur| :: cur[i] in all
  }

  lemma SameTrans(s: seq<ListHead>, t: seq<ListHead>, u: seq<ListHead>, all: set<ListHead>)
    requires Same(s, t) && Same(t, u) && AllIn(u, all)
    ensures Same(s, u) && AllIn(s, all) && AllIn(t, all)
  {
  }

  lemma SameChain(s: seq<ListHead>, t: seq<ListHead>, u: seq<ListHead>)
    requires Same(s, t) && Same(t, u)
    ensures Same(s, u)
  {
  }

  lemma SameSelf(s: seq<ListHead>)
    ensures Same(s, s)
  {
  }

  // ---------- the find phase ----------

  function LowByte(i: int): bv16 { (i % 0x100) as bv16 }

  // What a round adds to the running value, and the balance after the last round.
  function MissValue(retval: bv16, second: bv16): bv16 { retval + ((second >> 8) & 1) }
  function HitValue(retval: bv16, hit: bv16): bv16 { if hit & 1 == 1 then retval + ((hit >> 9) & 1) else retval }
  function Balance(retval: bv16, found: bv16, missed: bv16): bv16 { retval + (found * 4 - missed) }

  datatype Finds = Finds(cells: seq<Cell>, idx: S16, retval: bv16, found: bv16, missed: bv16)

  function FindStep(s: Finds, i: nat): (t: Finds)
    requires 2 <= |s.cells|
    ensures |t.cells| == |s.cells|
  {
    var n, cells := |s.cells|, Reversed(s.cells);
    var k := Position(s.cells, Cell(LowByte(i), s.idx));
    var idx := if s.idx >= 0 then ToS16(s.idx + 1) else s.idx;
    if k == n then
      Finds(cells, idx, MissValue(s.retval, cells[1].data), s.found, s.missed + 1)
    else
      var hit := s.cells[k].data;
      Finds(Shuffled(cells, n - k), idx, HitValue(s.retval, hit), s.found + 1, s.missed)
  }

  function FindRun(s: Finds, n: nat): (t: Finds)
    requires 2 <= |s.cells|
    ensures |t.cells| == |s.cells|
  {
    if n == 0 then s else FindStep(FindRun(s, n - 1), n - 1)
  }

  lemma ReversedContents(nodes: seq<ListHead>)
    ensures Contents(Reversed(nodes)) == Reversed(Contents(nodes)) && Same(Reversed(nodes), nodes)
  {
    var r := Reversed(nodes);
    forall i | 0 <= i < |nodes| ensures nodes[i] in r { assert r[|nodes| - 1 - i] == nodes[i]; }
    assert forall i | 0 <= i < |nodes| :: r[i] in nodes;
  }

  lemma MovedUpContents(nodes: seq<ListHead>, k: nat)
    requires 0 < k < |nodes|
    ensures Contents(MovedUp(nodes, k)) == MovedUp(Contents(nodes), k) && Same(MovedUp(nodes, k), nodes)
  {
    var m := MovedUp(nodes, k);
    assert nodes == nodes[..1] + nodes[1..k] + [nodes[k]] + nodes[k + 1..];
  }

  lemma SecondCell(list: ListHead, nodes: seq<ListHead>)
    requires IsList(list, nodes) && 2 <= |nodes|
    ensures list.next != null && Contents(nodes)[1] == Cell(list.next.info.data16, list.next.info.idx)
  {
    CellIs(nodes, 1);
  }

  function Advanced(idx: S16, cells: seq<Cell>, retval: bv16, found: bv16, missed: bv16): Finds {
    Finds(cells, if idx >= 0 then ToS16(idx + 1) else idx, retval, found, missed)
  }

  lemma StepMissed(s: Finds, i: nat)
    requires 2 <= |s.cells| && Position(s.cells, Cell(LowByte(i), s.idx)) == |s.cells|
    ensures var cells := Reversed(s.cells);
            FindStep(s, i) == Advanced(s.idx, cells, MissValue(s.retval, cells[1].data), s.found, s.missed + 1)
  {
  }

  lemma StepFound(s: Finds, i: nat, k: nat)
    requires 2 <= |s.cells| && Position(s.cells, Cell(LowByte(i), s.idx)) == k < |s.cells|
    ensures var cells, hit := Reversed(s.cells), s.cells[k].data;
            FindStep(s, i) == Advanced(s.idx, Shuffled(cells, |s.cells| - k), HitValue(s.retval, hit), s.found + 1,
              s.missed)
  {
  }

  lemma LowByteIs(i: int)
    ensures LowByte(i) == (i % 0x100) as bv16
  {
  }

  lemma BalanceIs(retval: bv16, found: bv16, missed: bv16)
    ensures Balance(retval, found, missed) == retval + (found * 4 - missed)
  {
  }

  lemma CellBounds(nodes: seq<ListHead>, s: seq<Cell>, k: nat)
    requires s == Contents(nodes) && k <= |s|
    ensures k < |s| ==> s[k].data == nodes[k].info.data16
  {
  }

  lemma NotEmpty(list: ListHead?, nodes: seq<ListHead>)
    requires IsList(list, nodes) && 2 <= |nodes|
    ensures list != null && list == nodes[0] && list.next == nodes[1] == CellAt(nodes, 1)
  {
  }

  // In the list just reversed, the cell behind the hit (the one before it, as the list stood) moves up behind the head.
  method CacheHit(list: ListHead, thisFind: ListHead, ghost cur0: seq<ListHead>, ghost all: set<ListHead>,
                  ghost k: nat) returns (ghost cur: seq<ListHead>)
    requires IsList(list, Reversed(cur0)) && k < |cur0| && thisFind == cur0[k] && AllIn(cur0, all)
    modifies all`next
    ensures IsList(list, cur) && Same(cur, cur0) && AllIn(cur, all)
    ensures Contents(cur) == Shuffled(old(Contents(Reversed(cur0))), |cur0| - k)
  {
    cur := Reversed(cur0);
    ReversedContents(cur0);
    ReversedAt(cur0, k);
    SameSelf(cur0);
    SameTrans(cur, cur0, cur0, all);
    hide IsList, Contents, Cells, Reversed, MovedUp, Same;
    CacheNext(list, thisFind, cur, |cur0| - 1 - k);
    if k > 0 {
      MovedUpContents(cur, |cur0| - k);
      SameTrans(MovedUp(cur, |cur0| - k), cur, cur0, all);
      cur := MovedUp(cur, |cur0| - k);
    }
  }

  function Shuffled(s: seq<Cell>, k: nat): (t: seq<Cell>)
    requires 0 < k <= |s|
    ensures |t| == |s|
  {
    if k < |s| then MovedUp(s, k) else s
  }

  // The body of the find loop between setting the key and advancing it.
  method FindRound(list0: ListHead, info: ListData, retval0: bv16, found0: bv16, missed0: bv16,
                   ghost cur0: seq<ListHead>, ghost all: set<ListHead>, ghost i: nat)
    returns (list: ListHead?, retval: bv16, found: bv16, missed: bv16, ghost cur: seq<ListHead>)
    requires IsList(list0, cur0) && 2 <= |cur0| && AllIn(cur0, all) && info.data16 == LowByte(i)
    modifies all`next
    ensures IsList(list, cur) && Same(cur, cur0) && AllIn(cur, all)
    ensures Advanced(info.idx, Contents(cur), retval, found, missed) ==
            FindStep(Finds(old(Contents(cur0)), info.idx, retval0, found0, missed0), i)
  {
    hide FindStep, LowByte, MissValue, HitValue, IsList, Contents, Cells, Reversed, Shuffled, Position, Same,
      DistinctNodes, Advanced;
    ghost var s := Finds(Contents(cur0), info.idx, retval0, found0, missed0);
    ghost var k := Position(s.cells, Cell(info.data16, info.idx));
    retval, found, missed := retval0, found0, missed0;
    var thisFind := CoreListFind(list0, info, cur0, s.cells);
    CellBounds(cur0, s.cells, k);
    list := CoreListReverse(list0, cur0);
    cur := Reversed(cur0);
    ReversedContents(cur0);
    NotEmpty(list, cur);
    if thisFind == null {
      missed := missed + 1;
      SecondCell(list, cur);
      retval := MissValue(retval, list.next.info.data16);
      StepMissed(s, i);
      SameSelf(cur0);
      SameTrans(cur, cur0, cur0, all);
    } else {
      found := found + 1;
      retval := HitValue(retval, thisFind.info.data16);
      StepFound(s, i, k);
      cur := CacheHit(list, thisFind, cur0, all, k);
    }
  }

  // One pass of the find loop.
  method FindPass(list0: ListHead, i: nat, info: ListData, retval0: bv16, found0: bv16, missed0: bv16,
                  ghost cur0: seq<ListHead>, ghost all: set<ListHead>, ghost s: Finds)
    returns (list: ListHead, retval: bv16, found: bv16, missed: bv16, ghost cur: seq<ListHead>)
    requires IsList(list0, cur0) && 2 <= |cur0| && AllIn(cur0, all) && forall x | x in all :: x.info != info
    requires s == Finds(Contents(cur0), info.idx, retval0, found0, missed0)
    modifies all`next, info
    ensures IsList(list, cur) && Same(cur, cur0) && AllIn(cur, all) && info.data16 == LowByte(i)
    ensures Finds(Contents(cur), info.idx, retval, found, missed) == FindStep(s, i)
  {
    hide FindStep, LowByte;
    info.data16 := (i % 0x100) as bv16;
    LowByteIs(i);
    assert Contents(cur0) == s.cells;
    hide IsList;
    var list1;
    list1, retval, found, missed, cur := FindRound(list0, info, retval0, found0, missed0, cur0, all, i);
    NotEmpty(list1, cur);
    list := list1;
    ghost var cells := Contents(cur);
    forall i | 0 <= i < |cur| ensures cur[i].info != info {
      assert cur[i] in all;
    }
    if info.idx >= 0 {
      info.idx := ToS16(info.idx + 1);
    }
    assert Contents(cur) == cells;
  }

  lemma ReversedAt<T>(s: seq<T>, k: nat)
    requires k < |s|
    ensures Reversed(s)[|s| - 1 - k] == s[k]
  {
  }

  method FindPhase(list0: ListHead, findNum: S16, info: ListData, ghost cur0: seq<ListHead>, ghost all: set<ListHead>)
    returns (list: ListHead, retval: bv16, ghost cur: seq<ListHead>)
    requires IsList(list0, cur0) && 2 <= |cur0| && AllIn(cur0, all) && forall x | x in all :: x.info != info
    modifies all`next, info
    ensures IsList(list, cur) && Same(cur, cur0) && AllIn(cur, all)
    ensures info.data16 == if findNum > 0 then LowByte(findNum - 1) else old(info.data16)
    ensures var s := FindRun(Finds(old(Contents(cur0)), old(info.idx), 0, 0, 0), if findNum > 0 then findNum else 0);
            Contents(cur) == s.cells && info.idx == s.idx && retval == Balance(s.retval, s.found, s.missed)
  {
    hide IsList, Contents, Cells, FindStep, Same, AllIn, LowByte, Balance;
    SameSelf(cur0);
    ghost var s0 := Finds(Contents(cur0), info.idx, 0, 0, 0);
    var found: bv16, missed: bv16 := 0, 0;
    list, retval, cur := list0, 0, cur0;
    var i: int := 0;
    while i < findNum
      invariant 0 <= i && (i <= findNum || i == 0)
      invariant IsList(list, cur) && Same(cur, cur0) && AllIn(cur, all)
      invariant info.data16 == if i > 0 then LowByte(i - 1) else old(info.data16)
      invariant Finds(Contents(cur), info.idx, retval, found, missed) == FindRun(s0, i)
    {
      ghost var before := cur;
      list, retval, found, missed, cur := FindPass(list, i, info, retval, found, missed, cur, all, FindRun(s0, i));
      SameTrans(cur, before, cur0, all);
      i := i + 1;
    }
    BalanceIs(retval, found, missed);
    retval := retval + (found * 4 - missed);
  }

  // ---------- the CRC loops ----------

  function CrcTimes(d: bv16, m: nat, crc: bv16): bv16 {
    if m == 0 then crc else Fold(LittleEndian16(d), CrcTimes(d, m - 1, crc))
  }

  // The data of the head goes into the CRC once for every cell from finder on.
  method CrcFrom(list: ListHead, finder0: ListHead?, retval0: bv16, ghost cur: seq<ListHead>, ghost k: nat)
    returns (retval: bv16)
    requires IsList(list, cur) && k <= |cur| && finder0 == CellAt(cur, k)
    ensures retval == CrcTimes(list.info.data16, |cur| - k, retval0)
  {
    hide Fold, LittleEndian16;
    var finder := finder0;
    retval := retval0;
    ghost var i := k;
    while finder != null
      invariant k <= i <= |cur| && finder == CellAt(cur, i)
      invariant retval == CrcTimes(list.info.data16, i - k, retval0)
      decreases |cur| - i
    {
      retval := Crcu16(list.info.data16, retval);
      assert finder.next == CellAt(cur, i + 1);
      finder := finder.next;
      i := i + 1;
    }
  }

  // ---------- sorting a rearranged list ----------

  // b is a with the data as the comparator left it, in stable order of the keys.
  ghost predicate SortedAs(m: Mode, a: seq<Cell>, b: seq<Cell>) {
    exists seen: seq<Cell>, perm: seq<nat> :: SortedBy(m, a, b, seen, perm)
  }

  ghost predicate SortedBy(m: Mode, a: seq<Cell>, b: seq<Cell>, seen: seq<Cell>, perm: seq<nat>) {
    |seen| == |a| == |b| && IsPerm(perm, |a|) &&
    (forall r | 0 <= r < |a| :: seen[r].idx == a[r].idx && Evolves(m, a[r].data, seen[r].data) &&
      Settled(m, seen[r].data)) &&
    (forall i | 0 <= i < |b| :: b[i] == seen[perm[i]]) && StablySorted(KeysOf(m, seen), perm)
  }

  function KeysOf(m: Mode, s: seq<Cell>): (k: seq<int>)
    ensures |k| == |s|
  {
    seq(|s|, i requires 0 <= i < |s| => Key(m, s[i].data, s[i].idx))
  }

  function Prefix(p: seq<nat>, k: nat): set<nat>
    requires k <= |p|
  {
    set i | 0 <= i < k :: p[i]
  }

  lemma {:induction false} PrefixSize(p: seq<nat>, n: nat, k: nat)
    requires IsPerm(p, n) && k <= n
    ensures |Prefix(p, k)| == k
  {
    if k > 0 {
      hide IsPerm, Prefix;
      PrefixSize(p, n, k - 1);
      PrefixGrows(p, n, k);
    } else {
      assert Prefix(p, 0) == {};
    }
  }

  lemma PrefixGrows(p: seq<nat>, n: nat, k: nat)
    requires IsPerm(p, n) && 0 < k <= n
    ensures |p| == n && p[k - 1] !in Prefix(p, k - 1) && Prefix(p, k) == Prefix(p, k - 1) + {p[k - 1]}
  {
  }

  lemma PermOnto(p: seq<nat>, n: nat, r: nat)
    requires IsPerm(p, n) && r < n
    ensures r in p
  {
    PrefixSize(p, n, n);
    var id := Identity(n);
    PrefixSize(id, n, n);
    assert r == id[r];
    if r !in p {
      forall x | x in Prefix(p, n) ensures x in Prefix(id, n) && x != r {
        assert id[x] == x;
      }
      SubsetSize(Prefix(p, n), Prefix(id, n) - {r});
    }
  }

  lemma {:induction false} SubsetSize(a: set<nat>, b: set<nat>)
    requires a <= b
    ensures |a| <= |b|
    decreases a
  {
    if a != {} {
      var x :| x in a;
      SubsetSize(a - {x}, b - {x});
    }
  }

  lemma PickedSame(s: seq<ListHead>, p: seq<nat>)
    requires IsPerm(p, |s|)
    ensures Same(Picked(s, p), s)
  {
    forall i | 0 <= i < |s| ensures s[i] in Picked(s, p) {
      PermOnto(p, |s|, i);
      var j :| 0 <= j < |p| && p[j] == i;
      assert Picked(s, p)[j] == s[i];
    }
    assert forall i | 0 <= i < |s| :: Picked(s, p)[i] in s;
  }

  lemma SortedCells(m: Mode, v: seq<bv16>, v': seq<bv16>, idx: seq<S16>, a: seq<Cell>, b: seq<Cell>, perm: seq<nat>,
                    c: Ctx)
    requires 2 <= |a| == |b| == |v| == |v'| == |idx| && c.mode == m && c.idx == idx && IsPerm(perm, |a|)
    requires SortOutcome(c, v, v', perm)
    requires forall i | 0 <= i < |a| :: a[i] == Cell(v[i], idx[i])
    requires forall i | 0 <= i < |b| :: b[i] == Cell(v'[perm[i]], idx[perm[i]])
    ensures SortedAs(m, a, b)
  {
    hide Evolves, Settled, Key;
    var seen := seq(|a|, i requires 0 <= i < |a| => Cell(v'[i], idx[i]));
    assert KeysOf(m, seen) == SeenOf(c, v').keys;
    forall r | 0 <= r < |a| ensures Evolves(m, a[r].data, seen[r].data) && Settled(m, seen[r].data) {
      assert SeenOf(c, v').flags[r];
    }
    assert SortedBy(m, a, b, seen, perm);
  }

  // What a sort may do to the data of each cell.
  ghost predicate AllEvolved(m: Mode, v: seq<bv16>, v': seq<bv16>) {
    |v| == |v'| && forall r | 0 <= r < |v| :: Evolves(m, v[r], v'[r]) && Settled(m, v'[r])
  }

  // k numbers the cells of c in another order.
  ghost predicate Renumbers(k: Ctx, c: Ctx) {
    |c.nodes| == |c.data| == |c.idx| == |k.nodes| == |k.data| == |k.idx| && DistinctNodes(c.nodes) &&
    DistinctData(c.data) &&
    (forall r | 0 <= r < |c.nodes| :: Placed(k, c, r)) && (forall i | 0 <= i < |k.nodes| :: Ranked(k, i, c))
  }

  ghost predicate SameCell(k: Ctx, i: int, c: Ctx, r: int)
    requires |c.nodes| == |c.data| == |c.idx| == |k.nodes| == |k.data| == |k.idx|
  {
    0 <= i < |k.nodes| && 0 <= r < |c.nodes| && k.nodes[i] == c.nodes[r] && k.data[i] == c.data[r] &&
    k.idx[i] == c.idx[r]
  }

  ghost predicate Placed(k: Ctx, c: Ctx, r: int)
    requires |c.nodes| == |c.data| == |c.idx| == |k.nodes| == |k.data| == |k.idx|
  {
    exists i :: SameCell(k, i, c, r)
  }

  ghost predicate Ranked(k: Ctx, i: int, c: Ctx)
    requires |c.nodes| == |c.data| == |c.idx| == |k.nodes| == |k.data| == |k.idx|
  {
    exists r :: SameCell(k, i, c, r)
  }

  lemma CurCells(m: Mode, cur: seq<ListHead>, c: Ctx)
    requires Intact(c) && Same(cur, c.nodes) && DistinctNodes(cur)
    ensures Renumbers(CtxOf(m, cur), c) && DistinctData(Cells(cur))
  {
    var k := CtxOf(m, cur);
    forall i | 0 <= i < |cur| ensures Ranked(k, i, c) {
      assert cur[i] in c.nodes;
      var r :| 0 <= r < |c.nodes| && c.nodes[r] == cur[i];
      assert SameCell(k, i, c, r);
    }
    forall r | 0 <= r < |c.nodes| ensures Placed(k, c, r) {
      assert c.nodes[r] in cur;
      var i :| 0 <= i < |cur| && cur[i] == c.nodes[r];
      assert SameCell(k, i, c, r);
    }
  }

  lemma IntactAgain(m: Mode, cur: seq<ListHead>, c: Ctx)
    requires Renumbers(CtxOf(m, cur), c)
    ensures Intact(c)
  {
    forall r | 0 <= r < |c.nodes| ensures c.nodes[r].info == c.data[r] && c.data[r].idx == c.idx[r] {
      assert Placed(CtxOf(m, cur), c, r);
      var i :| SameCell(CtxOf(m, cur), i, c, r);
    }
  }

  lemma Writable(k: Ctx, c: Ctx)
    requires Renumbers(k, c)
    ensures (forall i | 0 <= i < |k.nodes| :: k.nodes[i] in c.nodes) &&
            (forall i | 0 <= i < |k.data| :: k.data[i] in c.data)
  {
    forall i | 0 <= i < |k.nodes| ensures k.nodes[i] in c.nodes && k.data[i] in c.data {
      assert Ranked(k, i, c);
      var r :| SameCell(k, i, c, r);
    }
  }

  lemma ContentsAre(cur: seq<ListHead>)
    ensures forall i | 0 <= i < |cur| :: Contents(cur)[i] == Cell(Values(Cells(cur))[i], Indices(Cells(cur))[i])
  {
  }

  lemma PickedContents(cur: seq<ListHead>, perm: seq<nat>)
    requires IsPerm(perm, |cur|)
    ensures forall i | 0 <= i < |cur| ::
              Contents(Picked(cur, perm))[i] == Cell(Values(Cells(cur))[perm[i]], Indices(Cells(cur))[perm[i]])
  {
  }

  lemma CellInRange(k: Ctx, i: int, c: Ctx, r: int)
    requires Renumbers(k, c) && SameCell(k, i, c, r)
    ensures 0 <= i < |k.nodes|
  {
  }

  // The cells are the same objects whichever way they are numbered.
  lemma EvolvedInOrder(k: Ctx, v: seq<bv16>, v': seq<bv16>, perm: seq<nat>, c: Ctx, w: seq<bv16>, w': seq<bv16>)
    requires Renumbers(k, c) && |v| == |v'| == |w| == |w'| == |k.idx| >= 2 && SortOutcome(k, v, v', perm)
    requires forall r, i | SameCell(k, i, c, r) :: w[r] == v[i] && w'[r] == v'[i]
    ensures AllEvolved(k.mode, w, w')
  {
    hide Evolves, Settled, StablySorted, SameCell;
    forall r | 0 <= r < |w| ensures Evolves(k.mode, w[r], w'[r]) && Settled(k.mode, w'[r]) {
      assert Placed(k, c, r);
      var i :| SameCell(k, i, c, r);
      CellInRange(k, i, c, r);
      assert SeenOf(k, v').flags[i];
    }
  }

  lemma ValuesAgree(k: Ctx, c: Ctx)
    requires Renumbers(k, c)
    ensures forall r, i | SameCell(k, i, c, r) :: Values(c.data)[r] == Values(k.data)[i]
  {
  }

  // Sorts a rearranged list; c numbers the cells as they stood at first.
  method SortList(list0: ListHead, cmp: Comparator, res: Results?, ghost cur: seq<ListHead>, ghost c: Ctx)
    returns (list: ListHead, ghost cur': seq<ListHead>)
    requires Usable(cmp, res) && Intact(c) && 2 <= |cur| && IsList(list0, cur) && Same(cur, c.nodes)
    modifies c.nodes`next, c.data`data16, Target(res)`crc, Target(res)`runs, Target(res)`crcmatrix,
             Target(res)`crcstate, Buffers(res)
    ensures Usable(cmp, res) && Intact(c) && IsList(list, cur') && Same(cur', c.nodes)
    ensures SortedAs(ModeOf(cmp, res), old(Contents(cur)), Contents(cur'))
    ensures AllEvolved(ModeOf(cmp, res), old(Values(c.data)), Values(c.data))
  {
    ghost var m := ModeOf(cmp, res);
    ghost var k, a, v, w := CtxOf(m, cur), Contents(cur), Values(Cells(cur)), Values(c.data);
    CurCells(m, cur, c);
    ContentsAre(cur);
    Writable(k, c);
    ValuesAgree(k, c);
    hide Usable, Target, Buffers, Intact, IsList, SortOutcome, Same, Contents, AllEvolved, SortedAs, Values,
      Renumbers, SameCell, DistinctNodes, DistinctData, Picked;
    ghost var perm;
    list, perm := MergeSort(list0, cmp, res, cur);
    IntactAgain(m, cur, c);
    ValuesAgree(k, c);
    cur' := Picked(cur, perm);
    PickedSame(cur, perm);
    SameChain(cur', cur, c.nodes);
    PickedContents(cur, perm);
    SortedCells(m, v, Values(k.data), k.idx, a, Contents(cur'), perm, k);
    EvolvedInOrder(k, v, Values(k.data), perm, c, w, Values(c.data));
  }

  // ---------- out and back ----------

  // The head's data enters the CRC once for every cell from the match on, or from the second if there is none.
  function Checked(s: seq<Cell>, key: Cell, crc: bv16): bv16
    requires 2 <= |s|
  {
    var k := Position(s, key);
    CrcTimes(s[0].data, |s| - (if k < |s| then k else 1), crc)
  }

  method CrcFromMatch(list: ListHead, info: ListData, retval0: bv16, ghost cur: seq<ListHead>, ghost s: seq<Cell>)
    returns (retval: bv16)
    requires IsList(list, cur) && 2 <= |cur| && s == Contents(cur)
    ensures retval == Checked(s, Cell(info.data16, info.idx), retval0)
    ensures IsList(list, cur) && list.next == cur[1]
  {
    hide CrcTimes, Position;
    hide Contents, IsList;
    var finder := CoreListFind(list, info, cur, s);
    ghost var k := Position(s, Cell(info.data16, info.idx));
    NotEmpty(list, cur);
    CellBounds(cur, s, 0);
    if finder == null {
      finder := list.next;
    }
    retval := CrcFrom(list, finder, retval0, cur, if k < |cur| then k else 1);
  }

  // The contents without the second cell, after it was taken out.
  lemma OutContents(cur: seq<ListHead>, cells: seq<ListData>, s: seq<Cell>)
    requires 3 <= |cur| == |cells| == |s| && cur[1].info == cells[2]
    requires forall i | 0 <= i < |cur| && i != 1 && i != 2 :: cur[i].info == cells[i]
    requires forall i | 0 <= i < |cur| :: s[i] == Cell(cells[i].data16, cells[i].idx)
    ensures Contents(Without(cur, 2)) == Without(s, 1)
  {
    var w := Without(cur, 2);
    assert |w| == |s| - 1;
  }

  lemma BackAgain(cur: seq<ListHead>)
    requires 3 <= |cur|
    ensures Inserted(Without(cur, 2), 2, cur[2]) == cur
    ensures |Without(cur, 2)| == |cur| - 1 && Without(cur, 2)[0] == cur[0] && Without(cur, 2)[1] == cur[1]
  {
  }

  // The first three cells stand apart from each other and from the rest.
  lemma ThreeApart(list: ListHead, cur: seq<ListHead>)
    requires IsList(list, cur) && 3 <= |cur|
    ensures list == cur[0] && list.next == cur[1] && cur[1] != cur[2] && cur[0] != cur[1] && cur[0] != cur[2]
    ensures forall i | 0 <= i < |cur| && i != 1 && i != 2 :: cur[i] != cur[1] && cur[i] != cur[2]
    ensures cur[2] !in Without(cur, 2)
  {
  }

  method OutAndBack(list: ListHead, info: ListData, retval0: bv16, ghost cur: seq<ListHead>) returns (retval: bv16)
    requires IsList(list, cur) && 3 <= |cur|
    modifies cur[1], cur[2]
    ensures IsList(list, cur) && Cells(cur) == old(Cells(cur)) && Contents(cur) == old(Contents(cur))
    ensures retval == Checked(Without(old(Contents(cur)), 1), Cell(info.data16, info.idx), retval0)
  {
    hide *;
    ghost var cells, s, rest := Cells(cur), Contents(cur), Without(cur, 2);
    CellsOf(cur, cells, s);
    ThreeApart(list, cur);
    BackAgain(cur);
    var remover := CoreListRemove(list.next, list, cur, 1);
    OutContents(cur, cells, s);
    NotEmpty(list, rest);
    retval := CrcFromMatch(list, info, retval0, rest, Without(s, 1));
    remover := CoreListUndoRemove(remover, list.next, list, rest, 1);
    CellsAre(cur, cells, s);
  }

  // ---------- the benchmark ----------

  // The run in terms of the list contents: the find phase, the optional sort by data leading to mid, the two
  // CRC loops and the sort by index. key is what the find phase leaves to be found in the second search.
  ghost predicate BenchOutcome(before: seq<Cell>, mid: seq<Cell>, after: seq<Cell>, findNum: S16, finderIdx: S16,
                               key: Cell, retval: bv16) {
    exists found: seq<Cell>, balance: bv16 ::
      FindsOutcome(before, found, findNum, finderIdx, key, balance) &&
      (if finderIdx > 0 then SortedAs(Complex, found, mid) else mid == found) &&
        RestOutcome(mid, after, key, balance, retval)
  }

  // What the find phase leaves: the shuffled cells, the key and the balance of hits and misses.
  ghost predicate FindsOutcome(before: seq<Cell>, found: seq<Cell>, findNum: S16, finderIdx: S16, key: Cell,
                               balance: bv16) {
    2 <= |before| &&
    var s := FindRun(Finds(before, finderIdx, 0, 0, 0), if findNum > 0 then findNum else 0);
    found == s.cells && key.idx == s.idx && (findNum > 0 ==> key.data == LowByte(findNum - 1)) &&
    balance == Balance(s.retval, s.found, s.missed)
  }

  ghost predicate RestOutcome(mid: seq<Cell>, after: seq<Cell>, key: Cell, balance: bv16, retval: bv16) {
    3 <= |mid| == |after| && SortedAs(IdxRegen, mid, after) &&
    retval == CrcTimes(after[0].data, |after| - 1, Checked(Without(mid, 1), key, balance))
  }

  ghost predicate ByIndexOrder(s: seq<Cell>) { forall i, j | 0 <= i < j < |s| :: s[i].idx <= s[j].idx }

  // The optional sort by data.
  method DataSort(list0: ListHead, finderIdx: S16, res: Results, ghost cur0: seq<ListHead>, ghost c: Ctx)
    returns (list: ListHead, ghost cur: seq<ListHead>)
    requires res.Ready() && Intact(c) && 2 <= |cur0| && IsList(list0, cur0) && Same(cur0, c.nodes)
    modifies c.nodes`next, c.data`data16, Target(res)`crc, Target(res)`runs, Target(res)`crcmatrix,
             Target(res)`crcstate, Buffers(res)
    ensures res.Ready() && Intact(c) && IsList(list, cur) && Same(cur, c.nodes)
    ensures if finderIdx > 0 then SortedAs(Complex, old(Contents(cur0)), Contents(cur))
            else Contents(cur) == old(Contents(cur0))
    ensures OnlyEvolved(Complex, old(Values(c.data)), Values(c.data), 0, |c.data|)
  {
    hide Intact, IsList, Same, Contents, Values, SortedAs, Evolves, Settled;
    list, cur := list0, cur0;
    if finderIdx > 0 {
      assert Usable(ByValue, res);
      ghost var v := Values(c.data);
      list, cur := SortList(list, ByValue, res, cur, c);
      EvolvedOnly(Complex, v, Values(c.data));
    } else {
      OnlyEvolvedRefl(Complex, Values(c.data), 0, |c.data|);
    }
  }

  lemma EvolvedOnly(m: Mode, v: seq<bv16>, v': seq<bv16>)
    requires AllEvolved(m, v, v')
    ensures OnlyEvolved(m, v, v', 0, |v|)
  {
    hide Evolves, Settled;
  }

  lemma RegeneratedFromHigh(a: bv16, b: bv16, d: bv16)
    requires Evolves(Complex, a, b) && Evolves(IdxRegen, b, d) && Settled(IdxRegen, d)
    ensures d == Regenerated(a)
  {
  }

  lemma BeginBench(list: ListHead, nodes: seq<ListHead>, c: Ctx, all: set<ListHead>)
    requires IsList(list, nodes) && DistinctData(Cells(nodes)) && c == CtxOf(c.mode, nodes) && all == set x | x in nodes
    ensures Intact(c) && Same(nodes, c.nodes) && AllIn(nodes, all) && forall x | x in all :: x.info in c.data
  {
    forall x | x in all ensures x.info in c.data {
      var i :| 0 <= i < |nodes| && nodes[i] == x;
      assert Cells(nodes)[i] == x.info;
    }
  }

  // The find phase leaves every cell with its data.
  method BenchFinds(res: Results, finderIdx: S16, ghost nodes: seq<ListHead>, ghost c: Ctx)
    returns (list: ListHead, info: ListData, retval: bv16, ghost cur: seq<ListHead>)
    requires res.Ready() && IsList(res.list, nodes) && 3 <= |nodes| && DistinctData(Cells(nodes)) &&
             c == CtxOf(c.mode, nodes)
    modifies nodes`next
    ensures res.Ready() && Intact(c) && IsList(list, cur) && Same(cur, c.nodes) && fresh(info) && info !in c.data
    ensures Values(c.data) == old(Values(c.data))
    ensures FindsOutcome(old(Contents(nodes)), Contents(cur), res.seed3, finderIdx, Cell(info.data16, info.idx), retval)
  {
    hide FindRun, Balance, LowByte, IsList, Same, Intact, CtxOf, DistinctData;
    ghost var all := set x | x in nodes;
    BeginBench(res.list, nodes, c, all);
    CtxIs(c, c.mode, nodes);
    ghost var s := Contents(nodes);
    info := new ListData(finderIdx);
    assert Contents(nodes) == s;
    hide Contents;
    list, retval, cur := FindPhase(res.list, res.seed3, info, nodes, all);
  }

  // Whatever else happens, a cell ends with the data its high byte stands for ...
  ghost predicate AllRegenerated(v: seq<bv16>, v': seq<bv16>) {
    |v| == |v'| && forall r | 0 <= r < |v| :: v'[r] == Regenerated(v[r])
  }

  lemma DataComesBack(v: seq<bv16>, v1: seq<bv16>, v2: seq<bv16>)
    requires OnlyEvolved(Complex, v, v1, 0, |v|) && AllEvolved(IdxRegen, v1, v2)
    ensures AllRegenerated(v, v2)
  {
    hide Evolves, Settled;
    forall r | 0 <= r < |v| ensures v2[r] == Regenerated(v[r]) {
      RegeneratedFromHigh(v[r], v1[r], v2[r]);
    }
  }

  // ... and the cells end in order of their index.
  lemma SortedByIndex(a: seq<Cell>, b: seq<Cell>)
    requires SortedAs(IdxRegen, a, b)
    ensures ByIndexOrder(b) && |a| == |b|
  {
    hide Evolves, Settled;
    var seen, perm :| SortedBy(IdxRegen, a, b, seen, perm);
    forall i, j | 0 <= i < j < |b| ensures b[i].idx <= b[j].idx {
      assert Less(KeysOf(IdxRegen, seen), perm[i], perm[j]);
    }
  }

  // Out and back again keeps every cell with its data.
  method OutBackIntact(list: ListHead, info: ListData, retval0: bv16, ghost cur: seq<ListHead>, ghost c: Ctx)
    returns (retval: bv16)
    requires Intact(c) && 3 <= |cur| && IsList(list, cur) && Same(cur, c.nodes)
    modifies c.nodes
    ensures Intact(c) && IsList(list, cur) && Contents(cur) == old(Contents(cur)) &&
            Values(c.data) == old(Values(c.data))
    ensures retval == Checked(Without(old(Contents(cur)), 1), Cell(info.data16, info.idx), retval0)
  {
    CurCells(IdxRegen, cur, c);
    ghost var k := CtxOf(IdxRegen, cur);
    assert cur[1] in c.nodes && cur[2] in c.nodes;
    hide Intact, Same, Contents, Checked, Renumbers, IsList;
    retval := OutAndBack(list, info, retval0, cur);
    assert CtxOf(IdxRegen, cur) == k;
    IntactAgain(IdxRegen, cur, c);
  }

  lemma SameSize(s: seq<ListHead>, t: seq<ListHead>)
    requires Same(s, t)
    ensures |s| == |t|
  {
  }

  // The second half: out and back, sort by index, CRC of the result.
  method BenchRest(list0: ListHead, info: ListData, retval0: bv16, ghost cur0: seq<ListHead>, ghost c: Ctx)
    returns (retval: bv16, ghost cur: seq<ListHead>)
    requires Intact(c) && 3 <= |cur0| && IsList(list0, cur0) && Same(cur0, c.nodes)
    modifies c.nodes, c.data`data16
    ensures Intact(c) && Same(cur, c.nodes) && 3 <= |cur| && IsList(cur[0], cur)
    ensures SortedAs(IdxRegen, old(Contents(cur0)), Contents(cur)) &&
            AllEvolved(IdxRegen, old(Values(c.data)), Values(c.data))
    ensures RestOutcome(old(Contents(cur0)), Contents(cur), old(Cell(info.data16, info.idx)), retval0, retval)
  {
    hide Intact, Same, Contents, Values, SortedAs, AllEvolved, Checked, CrcTimes, Renumbers, IsList;
    SameSize(cur0, c.nodes);
    retval := OutBackIntact(list0, info, retval0, cur0, c);
    var list;
    list, cur := SortList(list0, ByIndex, null, cur0, c);
    SameSize(cur, c.nodes);
    NotEmpty(list, cur);
    CellIs(cur, 0);
    retval := CrcFrom(list, list.next, retval, cur, 1);
  }

  // The first half: the find phase and the optional sort by data.
  method BenchStart(res: Results, finderIdx: S16, ghost nodes: seq<ListHead>, ghost c: Ctx)
    returns (list: ListHead, info: ListData, retval: bv16, ghost cur: seq<ListHead>, ghost found: seq<Cell>,
      ghost key: Cell)
    requires res.Ready() && IsList(res.list, nodes) && 3 <= |nodes| && DistinctData(Cells(nodes)) &&
             c == CtxOf(c.mode, nodes)
    modifies nodes`next, c.data`data16, Target(res)`crc, Target(res)`runs, Target(res)`crcmatrix,
             Target(res)`crcstate, Buffers(res)
    ensures res.Ready() && Intact(c) && IsList(list, cur) && Same(cur, c.nodes) && 3 <= |cur|
    ensures key == Cell(info.data16, info.idx) &&
            FindsOutcome(old(Contents(nodes)), found, res.seed3, finderIdx, key, retval)
    ensures if finderIdx > 0 then SortedAs(Complex, found, Contents(cur)) else Contents(cur) == found
    ensures OnlyEvolved(Complex, old(Values(c.data)), Values(c.data), 0, |c.data|)
  {
    hide Intact, IsList, Same, Contents, Values, SortedAs, OnlyEvolved, FindsOutcome, DistinctData, CtxOf;
    CtxIs(c, c.mode, nodes);
    list, info, retval, cur := BenchFinds(res, finderIdx, nodes, c);
    SameSize(cur, nodes);
    found, key := Contents(cur), Cell(info.data16, info.idx);
    list, cur := DataSort(list, finderIdx, res, cur, c);
    SameSize(cur, nodes);
  }

  method CoreBenchList(res: Results, finderIdx: S16, ghost nodes: seq<ListHead>, ghost c: Ctx)
    returns (retval: bv16, ghost cur: seq<ListHead>, ghost mid: seq<Cell>, ghost key: Cell)
    requires res.Ready() && IsList(res.list, nodes) && 3 <= |nodes| && DistinctData(Cells(nodes)) &&
             c == CtxOf(IdxRegen, nodes)
    modifies nodes, Cells(nodes)`data16, Target(res)`crc, Target(res)`runs, Target(res)`crcmatrix,
             Target(res)`crcstate, Buffers(res)
    ensures res.Ready() && Intact(c) && Same(cur, nodes) && IsList(cur[0], cur)
    ensures ByIndexOrder(Contents(cur)) && AllRegenerated(old(Values(c.data)), Values(c.data))
    ensures BenchOutcome(old(Contents(nodes)), mid, Contents(cur), res.seed3, finderIdx, key, retval)
  {
    hide *;
    CtxIs(c, IdxRegen, nodes);
    ghost var v, before := Values(c.data), Contents(nodes);
    var list, info;
    ghost var found;
    list, info, retval, cur, found, key := BenchStart(res, finderIdx, nodes, c);
    mid := Contents(cur);
    ghost var v1, balance := Values(c.data), retval;
    retval, cur := BenchRest(list, info, retval, cur, c);
    DataComesBack(v, v1, Values(c.data));
    SortedByIndex(mid, Contents(cur));
    SameSize(cur, nodes);
    OutcomeIs(before, found, mid, Contents(cur), res.seed3, finderIdx, key, balance, retval);
  }

  lemma OutcomeIs(before: seq<Cell>, found: seq<Cell>, mid: seq<Cell>, after: seq<Cell>, findNum: S16, finderIdx: S16,
                  key: Cell, balance: bv16, retval: bv16)
    requires FindsOutcome(before, found, findNum, finderIdx, key, balance) &&
             RestOutcome(mid, after, key, balance, retval)
    requires if finderIdx > 0 then SortedAs(Complex, found, mid) else mid == found
    ensures BenchOutcome(before, mid, after, findNum, finderIdx, key, retval)
  {
  }

  lemma CtxIs(c: Ctx, m: Mode, nodes: seq<ListHead>)
    requires c == CtxOf(m, nodes)
    ensures c.mode == m && c.nodes == nodes && c.data == Cells(nodes) && |c.data| == |c.nodes| == |c.idx|
  {
  }
}
