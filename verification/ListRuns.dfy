/**
  The list after a run of the benchmark, and run after run (software/coremark_app/cmark.c:496-563, 898-916): "the list
  is back to original state".
*/
module ListRuns {
  import opened Words
  import opened Crc16
  import opened MergeOrder
  import opened ListCells
  import opened ListSort
  import opened ListOps
  import opened ListBench

  ghost predicate Rising(idx: seq<S16>) { forall i, j | 0 <= i < j < |idx| :: idx[i] <= idx[j] }

  ghost predicate AllDistinct(idx: seq<S16>) { forall i, j | 0 <= i < j < |idx| :: idx[i] != idx[j] }

  // The index of the head is less than all others.
  ghost predicate HeadAlone(idx: seq<S16>) { forall i | 0 < i < |idx| :: idx[0] < idx[i] }

  ghost predicate OwnBackup(v: seq<bv16>) { forall r | 0 <= r < |v| :: v[r] == Regenerated(v[r]) }

  // ---------- where the cells went ----------

  ghost function RankOf(nodes: seq<ListHead>, x: ListHead): (r: nat)
    requires x in nodes
    ensures r < |nodes| && nodes[r] == x
  {
    if nodes[0] == x then 0 else 1 + RankOf(nodes[1..], x)
  }

  // The ranks in nodes of the cells of cur.
  ghost function Ranks(cur: seq<ListHead>, nodes: seq<ListHead>): (p: seq<nat>)
    requires Same(cur, nodes)
    ensures |p| == |cur| && forall i | 0 <= i < |cur| :: p[i] < |nodes| && nodes[p[i]] == cur[i]
  {
    seq(|cur|, i requires 0 <= i < |cur| => RankOf(nodes, cur[i]))
  }

  lemma RanksArePerm(cur: seq<ListHead>, nodes: seq<ListHead>)
    requires Same(cur, nodes) && DistinctNodes(cur)
    ensures IsPerm(Ranks(cur, nodes), |nodes|)
  {
  }

  // Up to any place some rank is no lower than the place, by counting ...
  lemma SomeHigh(p: seq<nat>, n: nat, i: nat)
    requires IsPerm(p, n) && i < n
    ensures exists x :: 0 <= x <= i && p[x] >= i
  {
    if forall x | 0 <= x <= i :: p[x] < i {
      var id := Identity(n);
      PrefixSize(p, n, i + 1);
      PrefixSize(id, n, i);
      forall y | y in Prefix(p, i + 1) ensures y in Prefix(id, i) {
        assert id[y] == y;
      }
      SubsetSize(Prefix(p, i + 1), Prefix(id, i));
    }
  }

  function Mirror(p: seq<nat>, n: nat): (q: seq<nat>)
    requires |p| == n && forall i | 0 <= i < n :: p[i] < n
    ensures |q| == n && forall i | 0 <= i < n :: q[i] == n - 1 - p[n - 1 - i]
  {
    seq(n, i requires 0 <= i < n => n - 1 - p[n - 1 - i])
  }

  // ... and from any place on some rank is no higher.
  lemma SomeLow(p: seq<nat>, n: nat, i: nat)
    requires IsPerm(p, n) && i < n
    ensures exists y :: i <= y < n && p[y] <= i
  {
    var q := Mirror(p, n);
    SomeHigh(q, n, n - 1 - i);
    var x :| 0 <= x <= n - 1 - i && q[x] >= n - 1 - i;
    assert p[n - 1 - x] <= i;
  }

  // So putting a rising sequence in rising order changes nothing.
  lemma SameIndexThere(idx: seq<S16>, p: seq<nat>, i: nat)
    requires IsPerm(p, |idx|) && i < |idx| && Rising(idx)
    requires forall j, k | 0 <= j < k < |p| :: idx[p[j]] <= idx[p[k]]
    ensures idx[p[i]] == idx[i]
  {
    SomeHigh(p, |idx|, i);
    var x :| 0 <= x <= i && p[x] >= i;
    SomeLow(p, |idx|, i);
    var y :| i <= y < |p| && p[y] <= i;
    assert idx[i] <= idx[p[x]] <= idx[p[i]] <= idx[p[y]] <= idx[i];
  }

  // ---------- after one run ----------

  lemma IndexOfCell(c: Ctx, cur: seq<ListHead>, i: nat)
    requires Intact(c) && Same(cur, c.nodes) && i < |cur|
    ensures Ranks(cur, c.nodes)[i] < |c.idx| && Contents(cur)[i].idx == Indices(Cells(cur))[i] ==
            c.idx[Ranks(cur, c.nodes)[i]]
  {
    CellIs(cur, i);
  }

  // A list that was in order of index has the same index in every place again: only cells that share an index can
  // have traded places.
  lemma OnlyTiesMove(c: Ctx, cur: seq<ListHead>)
    requires Intact(c) && Same(cur, c.nodes) && DistinctNodes(cur) && ByIndexOrder(Contents(cur)) && Rising(c.idx)
    ensures Indices(Cells(cur)) == c.idx
  {
    var p := Ranks(cur, c.nodes);
    RanksArePerm(cur, c.nodes);
    forall i | 0 <= i < |cur| ensures Contents(cur)[i].idx == Indices(Cells(cur))[i] ==
      c.idx[p[i]] { IndexOfCell(c, cur, i); }
    assert |c.idx| == |p|;
    hide Intact, Same, Contents, Indices, Cells, DistinctNodes, Ranks, IsPerm, Rising;
    forall i | 0 <= i < |cur| ensures c.idx[p[i]] == c.idx[i] { SameIndexThere(c.idx, p, i); }
  }

  // A run leaves the index in every place and the data of every cell as they were exactly if the list was in order of
  // index and every low byte equal to its backup.
  lemma RestoredIff(c: Ctx, cur: seq<ListHead>, v: seq<bv16>, v': seq<bv16>)
    requires Intact(c) && Same(cur, c.nodes) && DistinctNodes(cur)
    requires ByIndexOrder(Contents(cur)) && AllRegenerated(v, v')
    ensures Indices(Cells(cur)) == c.idx && v' == v <==> Rising(c.idx) && OwnBackup(v)
  {
    if Rising(c.idx) { OnlyTiesMove(c, cur); }
    if Indices(Cells(cur)) == c.idx {
      forall i, j | 0 <= i < j < |c.idx| ensures c.idx[i] <= c.idx[j] {
        IndexOfCell(c, cur, i);
        IndexOfCell(c, cur, j);
      }
    }
  }

  // Where no two cells share an index, every cell is then back in its place.
  lemma BackInPlace(c: Ctx, cur: seq<ListHead>)
    requires Intact(c) && Same(cur, c.nodes) && AllDistinct(c.idx)
    ensures Indices(Cells(cur)) == c.idx <==> cur == c.nodes
  {
    var p := Ranks(cur, c.nodes);
    if Indices(Cells(cur)) == c.idx {
      forall i | 0 <= i < |cur| ensures cur[i] == c.nodes[i] {
        IndexOfCell(c, cur, i);
        OneOwner(c.idx, p[i], i);
      }
    }
  }

  lemma OneOwner(idx: seq<S16>, r: nat, i: nat)
    requires AllDistinct(idx) && r < |idx| && i < |idx| && idx[r] == idx[i]
    ensures r == i
  {
  }

  // The head is back in its place if it shares its index with no other cell.
  lemma HeadBack(c: Ctx, cur: seq<ListHead>)
    requires Intact(c) && Same(cur, c.nodes) && 0 < |cur| && HeadAlone(c.idx) && Indices(Cells(cur)) == c.idx
    ensures cur[0] == c.nodes[0]
  {
    IndexOfCell(c, cur, 0);
  }

  // ---------- run after run ----------

  // What a run asks of the list besides its shape. c numbers the cells as they stood at first.
  ghost predicate Fit(c: Ctx, cur: seq<ListHead>)
    reads c.nodes, c.data, cur, Cells(cur)
  {
    Intact(c) && Same(cur, c.nodes) && 3 <= |cur| && Rising(c.idx) && HeadAlone(c.idx) &&
    OwnBackup(Values(c.data)) && Indices(Cells(cur)) == c.idx
  }

  lemma FitParts(c: Ctx, cur: seq<ListHead>, list: ListHead)
    requires Fit(c, cur) && IsList(list, cur)
    ensures Intact(c) && Same(cur, c.nodes) && 3 <= |cur| && DistinctNodes(cur) && list == cur[0] &&
            OwnBackup(Values(c.data))
    ensures var k := CtxOf(IdxRegen, cur);
            Renumbers(k, c) && DistinctData(Cells(cur)) && k.idx == c.idx && Rising(k.idx) && HeadAlone(k.idx) &&
              OwnBackup(Values(k.data))
  {
    CurCells(IdxRegen, cur, c);
    var k := CtxOf(IdxRegen, cur);
    ValuesAgree(k, c);
    forall i | 0 <= i < |k.data| ensures Values(k.data)[i] == Regenerated(Values(k.data)[i]) {
      assert Ranked(k, i, c);
      var r :| SameCell(k, i, c, r);
    }
  }

  lemma SameValues(k: Ctx, c: Ctx, v: seq<bv16>, w: seq<bv16>)
    requires Renumbers(k, c) && w == Values(k.data) && |v| == |c.data|
    requires forall r, i | SameCell(k, i, c, r) :: v[r] == w[i]
    ensures Values(c.data) == v
  {
    ValuesAgree(k, c);
    forall r | 0 <= r < |v| ensures Values(c.data)[r] == v[r] {
      assert Placed(k, c, r);
      var i :| SameCell(k, i, c, r);
    }
  }

  // A run on such a list leaves such a list, from the same head.
  method BenchOnce(res: Results, finderIdx: S16, ghost cur0: seq<ListHead>, ghost c: Ctx)
    returns (retval: bv16, ghost cur: seq<ListHead>)
    requires res.Ready() && IsList(res.list, cur0) && Fit(c, cur0)
    modifies c.nodes, c.data`data16, Target(res)`crc, Target(res)`runs, Target(res)`crcmatrix, Target(res)`crcstate,
             Buffers(res)
    ensures res.Ready() && IsList(res.list, cur) && Fit(c, cur) && Values(c.data) == old(Values(c.data))
    ensures AllDistinct(c.idx) ==> cur == cur0
  {
    hide BenchOutcome, ByIndexOrder, AllRegenerated, Contents, Same, OwnBackup, Fit, Intact, IsList, Renumbers,
      DistinctNodes, DistinctData,
         Rising, HeadAlone, AllDistinct, Values, Indices, Cells, SameCell;
    FitParts(c, cur0, res.list);
    ghost var k, v := CtxOf(IdxRegen, cur0), Values(c.data);
    ghost var w := Values(k.data);
    ValuesAgree(k, c);
    Writable(k, c);
    ghost var mid, key;
    retval, cur, mid, key := CoreBenchList(res, finderIdx, cur0, k);
    SameSize(cur, cur0);
    AfterRun(c, k, cur0, cur, v, w);
  }

  lemma AfterRun(c: Ctx, k: Ctx, cur0: seq<ListHead>, cur: seq<ListHead>, v: seq<bv16>, w: seq<bv16>)
    requires Renumbers(k, c) && Intact(k) && k.nodes == cur0 && k.mode == IdxRegen && k.idx == c.idx && 3 <= |cur0|
    requires Same(cur0, c.nodes) && Same(cur, cur0) && |cur| == |cur0| && IsList(cur[0], cur) &&
             ByIndexOrder(Contents(cur))
    requires Rising(k.idx) && HeadAlone(k.idx) && OwnBackup(w) && AllRegenerated(w, Values(k.data))
    requires |v| == |c.data| && (forall r, i | SameCell(k, i, c, r) :: v[r] == w[i]) && OwnBackup(v)
    ensures Fit(c, cur) && Values(c.data) == v && cur[0] == cur0[0] && (AllDistinct(c.idx) ==> cur == cur0)
  {
    assert DistinctNodes(cur);
    SameChain(cur, cur0, c.nodes);
    hide Same, IsList, ByIndexOrder, Contents, DistinctNodes, Renumbers, Intact, HeadAlone, Indices, Cells;
    RestoredIff(k, cur, w, Values(k.data));
    HeadBack(k, cur);
    if AllDistinct(c.idx) { BackInPlace(k, cur); }
    SameValues(k, c, v, w);
    StillIntact(k, c);
  }

  lemma StillIntact(k: Ctx, c: Ctx)
    requires Renumbers(k, c) && Intact(k)
    ensures Intact(c)
  {
    forall r | 0 <= r < |c.nodes| ensures c.nodes[r].info == c.data[r] && c.data[r].idx == c.idx[r] {
      assert Placed(k, c, r);
      var i :| SameCell(k, i, c, r);
    }
  }

  // A run, and its result in the CRC of all runs.
  method BenchAndCrc(res: Results, finderIdx: S16, ghost cur0: seq<ListHead>, ghost c: Ctx)
    returns (ghost cur: seq<ListHead>)
    requires res.Ready() && IsList(res.list, cur0) && Fit(c, cur0)
    modifies c.nodes, c.data`data16, Target(res)`crc, Target(res)`runs, Target(res)`crcmatrix, Target(res)`crcstate,
             Buffers(res)
    ensures res.Ready() && IsList(res.list, cur) && Fit(c, cur) && Values(c.data) == old(Values(c.data))
    ensures AllDistinct(c.idx) ==> cur == cur0
  {
    hide *;
    var crc;
    crc, cur := BenchOnce(res, finderIdx, cur0, c);
    AddCrc(res, crc, cur, c);
  }

  method AddCrc(res: Results, crc: bv16, ghost cur: seq<ListHead>, ghost c: Ctx)
    requires res.Ready() && IsList(res.list, cur) && Fit(c, cur)
    modifies Target(res)`crc
    ensures res.Ready() && IsList(res.list, cur) && Fit(c, cur) && Values(c.data) == old(Values(c.data))
    ensures res.crc == Fold(LittleEndian16(crc), old(res.crc))
  {
    hide Fold, LittleEndian16, IsList, Same, Rising, HeadAlone, OwnBackup;
    res.crc := Crcu16(crc, res.crc);
  }

  // The two runs of an iteration.
  method BenchTwice(res: Results, first: bool, ghost cur0: seq<ListHead>, ghost c: Ctx)
    returns (ghost cur: seq<ListHead>)
    requires res.Ready() && IsList(res.list, cur0) && Fit(c, cur0)
    modifies c.nodes, c.data`data16, Target(res)`crc, Target(res)`crclist, Target(res)`runs, Target(res)`crcmatrix,
             Target(res)`crcstate, Buffers(res)
    ensures res.Ready() && IsList(res.list, cur) && Fit(c, cur) && Values(c.data) == old(Values(c.data))
    ensures AllDistinct(c.idx) ==> cur == cur0
  {
    hide IsList, AllDistinct, Same, Rising, HeadAlone, OwnBackup;
    cur := BenchAndCrc(res, 1, cur0, c);
    cur := BenchAndCrc(res, -1, cur, c);
    if first { res.crclist := res.crc; }
  }

  // iterate runs on the same list every time: the cells keep their data, every place keeps its index and the list its
  // head; where no two cells share an index the list is exactly what it was.
  method Iterate(res: Results, iterations: nat, ghost nodes: seq<ListHead>) returns (ghost cur: seq<ListHead>)
    requires res.Ready() && IsList(res.list, nodes) && 3 <= |nodes| && DistinctData(Cells(nodes))
    requires Rising(Indices(Cells(nodes))) && HeadAlone(Indices(Cells(nodes))) && OwnBackup(Values(Cells(nodes)))
    modifies nodes, Cells(nodes)`data16, Target(res)`crc, Target(res)`crclist, Target(res)`runs, Target(res)`crcmatrix,
             Target(res)`crcstate, Buffers(res)
    ensures res.Ready() && IsList(res.list, cur) && Same(cur, nodes)
    ensures Contents(nodes) == old(Contents(nodes)) && Cells(nodes) == old(Cells(nodes))
    ensures Indices(Cells(cur)) == old(Indices(Cells(nodes))) &&
            (AllDistinct(old(Indices(Cells(nodes)))) ==> cur == nodes)
  {
    hide *;
    ClearCrcs(res, nodes);
    ghost var c, s, v := CtxOf(IdxRegen, nodes), Contents(nodes), Values(Cells(nodes));
    FitAtFirst(c, nodes, res.list, s);
    cur := nodes;
    for i := 0 to iterations
      invariant res.Ready() && IsList(res.list, cur) && Fit(c, cur) && Values(c.data) == v &&
                (AllDistinct(c.idx) ==> cur == nodes)
    {
      cur := BenchTwice(res, i == 0, cur, c);
    }
    AtLast(c, cur, s, v);
  }

  method ClearCrcs(res: Results, ghost nodes: seq<ListHead>)
    requires res.Ready() && IsList(res.list, nodes) && DistinctData(Cells(nodes))
    modifies Target(res)`crc, Target(res)`crclist, Target(res)`runs, Target(res)`crcmatrix, Target(res)`crcstate
    ensures res.Ready() && IsList(res.list, nodes) && Cells(nodes) == old(Cells(nodes)) &&
            Contents(nodes) == old(Contents(nodes))
    ensures Indices(Cells(nodes)) == old(Indices(Cells(nodes))) && Values(Cells(nodes)) == old(Values(Cells(nodes)))
    ensures res.crc == res.crclist == res.crcmatrix == res.crcstate == 0
  {
    hide IsList, DistinctData;
    res.crc, res.crclist, res.crcmatrix, res.crcstate := 0, 0, 0, 0;
  }

  lemma FitAtFirst(c: Ctx, nodes: seq<ListHead>, list: ListHead, s: seq<Cell>)
    requires s == Contents(nodes) && c == CtxOf(IdxRegen, nodes) && IsList(list, nodes) && 3 <= |nodes| &&
             DistinctData(Cells(nodes))
    requires Rising(Indices(Cells(nodes))) && HeadAlone(Indices(Cells(nodes))) && OwnBackup(Values(Cells(nodes)))
    ensures Fit(c, nodes) && c.nodes == nodes && c.data == Cells(nodes) && c.idx == Indices(Cells(nodes))
    ensures |s| == |Values(c.data)| && forall i | 0 <= i < |s| :: s[i] == Cell(Values(c.data)[i], c.idx[i])
  {
    SameSelf(nodes);
    ContentsAre(nodes);
  }

  lemma AtLast(c: Ctx, cur: seq<ListHead>, s: seq<Cell>, v: seq<bv16>)
    requires Fit(c, cur) && Values(c.data) == v && |s| == |v| && forall i | 0 <= i < |s| :: s[i] == Cell(v[i], c.idx[i])
    ensures Cells(c.nodes) == c.data && Contents(c.nodes) == s && Same(cur, c.nodes) && Indices(Cells(cur)) == c.idx
  {
  }
}
