/**
  core_list_mergesort (software/coremark_app/cmark.c:790-860): an iterative mergesort that relinks the cells
  in place, bottom up, while the comparator changes the data of the cells it looks at.
*/
module ListSort {
  import opened MergeOrder
  import opened ListCells
  import opened Words

  // What a sort runs on: nodes and data are the cells by rank, idx their fixed index fields.
  // Under the comparator by value, work is the number of kernel runs so far and still to come.
  datatype Ctx = Ctx(mode: Mode, nodes: seq<ListHead>, data: seq<ListData>, idx: seq<S16>, work: nat)

  ghost predicate DistinctNodes(nodes: seq<ListHead>) {
    forall i, j | 0 <= i < j < |nodes| :: nodes[i] != nodes[j]
  }

  ghost predicate DistinctData(data: seq<ListData>) {
    forall i, j | 0 <= i < j < |data| :: data[i] != data[j]
  }

  ghost predicate Intact(c: Ctx)
    reads c.nodes`info, c.data`idx
  {
    DistinctNodes(c.nodes) && DistinctData(c.data) && |c.data| == |c.nodes| == |c.idx| &&
    forall r | 0 <= r < |c.nodes| :: c.nodes[r].info == c.data[r] && c.data[r].idx == c.idx[r]
  }

  ghost predicate Sorting(c: Ctx, cmp: Comparator, res: Results?)
    reads c.nodes`info, c.data, Target(res)`runs, Buffers(res)
  {
    Intact(c) && Usable(cmp, res) && c.mode == ModeOf(cmp, res) && (c.mode == Complex ==> Worked(c, res))
  }

  // Each cell not yet seen is one run to come.
  ghost predicate Worked(c: Ctx, res: Results?)
    reads c.data, Target(res)`runs
  {
    Ran(res) + Uncached(Values(c.data)) == c.work
  }

  function Uncached(v: seq<bv16>): nat { if v == [] then 0 else Unseen(v[0]) + Uncached(v[1..]) }

  lemma {:induction false} UncachedUpdate(v: seq<bv16>, x: nat, d: bv16)
    requires x < |v|
    ensures Uncached(v[x := d]) + Unseen(v[x]) == Uncached(v) + Unseen(d)
  {
    hide Unseen;
    if x == 0 {
      assert v[0 := d][1..] == v[1..];
    } else {
      assert v[x := d][1..] == v[1..][x - 1 := d] && v[x := d][0] == v[0] && v[1..][x - 1] == v[x];
      UncachedUpdate(v[1..], x - 1, d);
    }
  }

  lemma {:induction false} NoneUncached(v: seq<bv16>)
    requires forall r | 0 <= r < |v| :: Cached(v[r])
    ensures Uncached(v) == 0
  {
    hide Cached;
    if v != [] {
      assert Cached(v[0]) && forall r | 0 <= r < |v[1..]| :: v[1..][r] == v[r + 1];
      NoneUncached(v[1..]);
    }
  }

  ghost function Values(data: seq<ListData>): (v: seq<bv16>)
    reads data
    ensures |v| == |data|
  {
    seq(|data|, r requires 0 <= r < |data| reads data => data[r].data16)
  }

  ghost function Links(nodes: seq<ListHead>): (l: seq<ListHead?>)
    reads nodes
    ensures |l| == |nodes|
  {
    seq(|nodes|, r requires 0 <= r < |nodes| reads nodes => nodes[r].next)
  }

  ghost function SeenOf(c: Ctx, v: seq<bv16>): (s: Seen)
    ensures |s.keys| == |v| == |s.flags|
  {
    Seen(seq(|v|, r requires 0 <= r < |v| => if r < |c.idx| then Key(c.mode, v[r], c.idx[r]) else 0),
         seq(|v|, r requires 0 <= r < |v| => Settled(c.mode, v[r])))
  }

  ghost predicate OnlyEvolved(m: Mode, before: seq<bv16>, after: seq<bv16>, from: nat, to: nat) {
    |before| == |after| && forall r | 0 <= r < |after| ::
      if from <= r < to then Evolves(m, before[r], after[r]) else after[r] == before[r]
  }

  lemma OnlyEvolvedRefl(m: Mode, a: seq<bv16>, from: nat, to: nat)
    ensures OnlyEvolved(m, a, a, from, to)
  {
  }

  lemma OnlyEvolvedTrans(m: Mode, a: seq<bv16>, b: seq<bv16>, c: seq<bv16>, from: nat, to: nat)
    requires OnlyEvolved(m, a, b, from, to) && OnlyEvolved(m, b, c, from, to)
    ensures OnlyEvolved(m, a, c, from, to)
  {
  }

  lemma OnlyEvolvedJoin(m: Mode, a: seq<bv16>, b: seq<bv16>, c: seq<bv16>, k: nat, to: nat)
    requires OnlyEvolved(m, a, b, 0, k) && OnlyEvolved(m, b, c, k, to) && k <= to
    ensures OnlyEvolved(m, a, c, 0, to)
  {
  }

  lemma OnlyEvolvedSeen(c: Ctx, a: seq<bv16>, b: seq<bv16>, from: nat, to: nat)
    requires |a| == |b| == |c.idx| && OnlyEvolved(c.mode, a, b, from, to)
    ensures SameOn(SeenOf(c, a), SeenOf(c, b), 0, from) && SameOn(SeenOf(c, a), SeenOf(c, b), to, |a|)
  {
  }

  // ---------- links ----------

  // The node of the rank at position k, or NULL past the end.
  ghost function NodeAt(nodes: seq<ListHead>, perm: seq<nat>, k: nat): ListHead? {
    if k < |perm| && perm[k] < |nodes| then nodes[perm[k]] else null
  }

  // perm[from..to] is linked in order
  ghost predicate Linked(nodes: seq<ListHead>, links: seq<ListHead?>, perm: seq<nat>, from: int, to: int)
  {
    IsPerm(perm, |nodes|) && 0 <= from && to <= |perm| && |links| == |nodes| &&
    forall j | from <= j < to - 1 :: links[perm[j]] == nodes[perm[j + 1]]
  }

  // The rest of the list from position qi on is linked and ends in NULL.
  ghost predicate Rest(nodes: seq<ListHead>, links: seq<ListHead?>, perm: seq<nat>, qi: nat)
  {
    qi <= |nodes| && Linked(nodes, links, perm, qi, |perm|) && (qi < |perm| ==> links[perm[|perm| - 1]] == null)
  }

  ghost predicate Apart(out: seq<nat>, perm: seq<nat>, at: Place) {
    forall x, j | 0 <= x < |out| && 0 <= j < |perm| && (at.pi <= j < at.pe || at.qi <= j) :: out[x] != perm[j]
  }

  ghost predicate OutChain(nodes: seq<ListHead>, links: seq<ListHead?>, out: seq<nat>, list: ListHead?, tail: ListHead?)
  {
    |links| == |nodes| && (forall x | 0 <= x < |out| :: out[x] < |nodes|) &&
    (forall x, y | 0 <= x < y < |out| :: out[x] != out[y]) &&
    (forall x | 0 <= x < |out| - 1 :: links[out[x]] == nodes[out[x + 1]]) &&
    (if out == [] then list == null && tail == null
     else list == nodes[out[0]] && tail == nodes[out[|out| - 1]])
  }

  // Heap shape inside a merge: out is linked from list to tail, the rest of the p run and the
  // rest of the list from q on are still linked as they were, and no taken node is still waiting.
  ghost predicate Shape(nodes: seq<ListHead>, links: seq<ListHead?>, perm: seq<nat>, out: seq<nat>, at: Place,
                        list: ListHead?, tail: ListHead?)
  {
    |links| == |nodes| && IsPerm(perm, |nodes|) && at.pi <= at.pe <= at.qi <= |nodes| &&
    |out| == at.pi + at.qi - at.pe &&
    OutChain(nodes, links, out, list, tail) && Apart(out, perm, at) &&
    Linked(nodes, links, perm, at.pi, at.pe) && Rest(nodes, links, perm, at.qi)
  }

  // Taking the head of one of the two runs.
  ghost predicate Takes(at: Place, at': Place, j: nat, n: nat) {
    at' == at.(pi := at'.pi, qi := at'.qi) &&
    ((j == at.pi < at.pe && at'.pi == at.pi + 1 && at'.qi == at.qi) ||
      (j == at.qi < n && at'.pi == at.pi && at'.qi == at.qi + 1))
  }

  lemma AppendKeepsShape(nodes: seq<ListHead>, links: seq<ListHead?>, links': seq<ListHead?>, perm: seq<nat>,
                         out: seq<nat>,
                         at: Place, at': Place, j: nat, list: ListHead?, tail: ListHead?)
    requires |links| == |nodes| && Shape(nodes, links, perm, out, at, list, tail) && Takes(at, at', j, |nodes|)
    requires links' == if out == [] then links else links[out[|out| - 1] := nodes[perm[j]]]
    ensures Shape(nodes, links', perm, out + [perm[j]], at', if out == [] then nodes[perm[j]] else list, nodes[perm[j]])
  {
    assert Apart(out + [perm[j]], perm, at');
    assert perm[j] < |nodes| && forall x | 0 <= x < |out| :: out[x] != perm[j];
    assert forall i | 0 <= i < |perm| && (at.pi <= i < at.pe || at.qi <= i) :: links'[perm[i]] == links[perm[i]];
    hide Apart, IsPerm;
    ChainGrows(nodes, links, links', out, perm[j], list, tail);
    hide OutChain;
  }

  lemma ChainGrows(nodes: seq<ListHead>, links: seq<ListHead?>, links': seq<ListHead?>, out: seq<nat>, e: nat,
                   list: ListHead?, tail: ListHead?)
    requires OutChain(nodes, links, out, list, tail) && e < |nodes| && forall x | 0 <= x < |out| :: out[x] != e
    requires links' == if out == [] then links else links[out[|out| - 1] := nodes[e]]
    ensures OutChain(nodes, links', out + [e], if out == [] then nodes[e] else list, nodes[e])
  {
    assert forall x | 0 <= x < |out| - 1 :: links'[out[x]] == links[out[x]];
  }

  method Append(e: ListHead, list0: ListHead?, tail0: ListHead?, ghost nodes: seq<ListHead>, ghost perm: seq<nat>,
                ghost out: seq<nat>, ghost at: Place, ghost at': Place, ghost j: nat)
    returns (list: ListHead?, tail: ListHead)
    requires DistinctNodes(nodes) && Shape(nodes, Links(nodes), perm, out, at, list0, tail0) &&
             Takes(at, at', j, |nodes|)
    requires e == nodes[perm[j]]
    modifies nodes`next
    ensures Shape(nodes, Links(nodes), perm, out + [perm[j]], at', list, tail)
  {
    list := list0;
    if tail0 != null {
      tail0.next := e;
    } else {
      list := e;
    }
    tail := e;
    assert Links(nodes) == if out == [] then old(Links(nodes)) else old(Links(nodes))[out[|out| - 1] := e];
    AppendKeepsShape(nodes, old(Links(nodes)), Links(nodes), perm, out, at, at', j, list0, tail0);
  }

  // ---------- one merge ----------

  // The two cursors of a merge: p at position pi of its run, q at position qi of the list.
  ghost predicate Cursors(nodes: seq<ListHead>, perm: seq<nat>, p: ListHead?, psize: int, q: ListHead?, at: Place)
  {
    psize == at.pe - at.pi >= 0 && at.pe <= |perm| && (psize > 0 ==> p == NodeAt(nodes, perm, at.pi)) &&
    q == NodeAt(nodes, perm, at.qi)
  }

  lemma SettledStays(m: Mode, d: bv16, d': bv16)
    requires Settled(m, d) && Evolves(m, d, d')
    ensures d' == d
  {
  }

  lemma SettleValues(c: Ctx, v: seq<bv16>, v': seq<bv16>, perm: seq<nat>, out: seq<nat>, at: Place)
    requires |v| == |v'| == |c.idx| && Ordered(SeenOf(c, v), perm, out, at) && at.pi < at.pe && at.qi < at.qe
    requires OnlySettled(c, v, v', perm[at.pi], perm[at.qi])
    ensures Ordered(SeenOf(c, v'), perm, out, at) && AllSettled(SeenOf(c, v').flags, at.k, at.qe)
    ensures OnlyEvolved(c.mode, v, v', at.k, at.qe)
    ensures Key(c.mode, v'[perm[at.pi]], c.idx[perm[at.pi]]) == SeenOf(c, v').keys[perm[at.pi]]
    ensures Key(c.mode, v'[perm[at.qi]], c.idx[perm[at.qi]]) == SeenOf(c, v').keys[perm[at.qi]]
  {
    hide Settled, Key, Cached;
    var x, y := perm[at.pi], perm[at.qi];
    if Settled(c.mode, v[x]) { SettledStays(c.mode, v[x], v'[x]); }
    if Settled(c.mode, v[y]) { SettledStays(c.mode, v[y], v'[y]); }
    Settle(SeenOf(c, v), SeenOf(c, v'), perm, out, at);
  }

  lemma HeadRanks(s: Seen, perm: seq<nat>, out: seq<nat>, at: Place)
    requires Ordered(s, perm, out, at) && at.pi < at.pe && at.qi < at.qe
    ensures at.pi < at.qi < |perm| && perm[at.pi] < at.pe <= perm[at.qi] < |s.keys|
  {
  }

  lemma Sizes(c: Ctx, cmp: Comparator, res: Results?)
    requires Sorting(c, cmp, res)
    ensures |c.data| == |c.nodes| == |c.idx|
  {
  }

  // Compares the cells of ranks x and y.
  method CompareAt(cmp: Comparator, res: Results?, a: ListData, b: ListData, ghost c: Ctx, ghost x: nat, ghost y: nat)
    returns (r: int)
    requires Sorting(c, cmp, res) && x != y && x < |c.data| && y < |c.data| && a == c.data[x] && b == c.data[y]
    modifies c.data`data16, Target(res)`crc, Target(res)`runs, Target(res)`crcmatrix, Target(res)`crcstate, Buffers(res)
    ensures Sorting(c, cmp, res)
    ensures OnlySettled(c, old(Values(c.data)), Values(c.data), x, y)
    ensures r == Key(c.mode, Values(c.data)[x], c.idx[x]) - Key(c.mode, Values(c.data)[y], c.idx[y])
  {
    hide *;
    SortingParts(c, cmp, res);
    ghost var v, ran := Values(c.data), Ran(res);
    r := CompareData(cmp, res, a, b, c, x, y);
    SettledWork(c, v, Values(c.data), x, y, ran, Ran(res));
    SortingAgain(c, cmp, res, ran, v);
  }

  lemma SortingParts(c: Ctx, cmp: Comparator, res: Results?)
    requires Sorting(c, cmp, res)
    ensures Intact(c) && Usable(cmp, res) && c.mode == ModeOf(cmp, res) && |c.data| == |c.nodes| == |c.idx|
    ensures c.mode == Complex ==> Ran(res) + Uncached(Values(c.data)) == c.work
  {
  }

  lemma SortingAgain(c: Ctx, cmp: Comparator, res: Results?, ran: nat, v: seq<bv16>)
    requires Intact(c) && Usable(cmp, res) && c.mode == ModeOf(cmp, res)
    requires c.mode == Complex ==> ran + Uncached(v) == c.work == Ran(res) + Uncached(Values(c.data))
    ensures Sorting(c, cmp, res)
  {
  }

  // What is taken off the cells not yet seen was run.
  lemma SettledWork(c: Ctx, v: seq<bv16>, v': seq<bv16>, x: nat, y: nat, ran: nat, ran': nat)
    requires OnlySettled(c, v, v', x, y) && x != y
    requires c.mode == Complex ==> ran' == ran + Unseen(v[x]) + Unseen(v[y])
    ensures c.mode == Complex ==> ran' + Uncached(v') == ran + Uncached(v)
  {
    hide Evolves, Cached, Uncached;
    var w := v[x := v'[x]];
    UncachedUpdate(v, x, v'[x]);
    UncachedUpdate(w, y, v'[y]);
    assert w[y := v'[y]] == v';
  }

  method CompareData(cmp: Comparator, res: Results?, a: ListData, b: ListData, ghost c: Ctx, ghost x: nat, ghost y: nat)
    returns (r: int)
    requires Intact(c) && Usable(cmp, res) && c.mode == ModeOf(cmp, res)
    requires x != y && x < |c.data| && y < |c.data| && a == c.data[x] && b == c.data[y]
    modifies c.data`data16, Target(res)`crc, Target(res)`runs, Target(res)`crcmatrix, Target(res)`crcstate, Buffers(res)
    ensures Intact(c) && Usable(cmp, res)
    ensures OnlySettled(c, old(Values(c.data)), Values(c.data), x, y)
    ensures r == Key(c.mode, Values(c.data)[x], c.idx[x]) - Key(c.mode, Values(c.data)[y], c.idx[y])
    ensures c.mode == Complex ==>
            Ran(res) == old(Ran(res)) + Unseen(old(Values(c.data))[x]) + Unseen(old(Values(c.data))[y])
  {
    hide *;
    ghost var v := Values(c.data);
    Others(c, x, y);
    NotBuffers(c.data, res);
    NodesNotBuffers(c.nodes, res);
    ValuesOf(c.data, v);
    r := Compare(cmp, a, b, res);
    ghost var v' := v[x := a.data16][y := b.data16];
    ValuesAre(c.data, v');
    TwoSettled(c, v, v', x, y);
  }

  lemma ValuesOf(data: seq<ListData>, v: seq<bv16>)
    requires v == Values(data)
    ensures |v| == |data| && forall r | 0 <= r < |v| :: v[r] == data[r].data16
  {
  }

  lemma ValuesAre(data: seq<ListData>, v: seq<bv16>)
    requires |v| == |data| && forall r | 0 <= r < |v| :: v[r] == data[r].data16
    ensures Values(data) == v
  {
  }

  lemma TwoSettled(c: Ctx, v: seq<bv16>, v': seq<bv16>, x: nat, y: nat)
    requires x < |v| == |v'| && y < |v| && x != y && v' == v[x := v'[x]][y := v'[y]]
    requires Settled(c.mode, v'[x]) && Evolves(c.mode, v[x], v'[x]) && Settled(c.mode, v'[y]) &&
             Evolves(c.mode, v[y], v'[y])
    ensures OnlySettled(c, v, v', x, y)
  {
    hide Settled, Evolves;
  }

  lemma NodesNotBuffers(nodes: seq<ListHead>, res: Results?)
    ensures forall r | 0 <= r < |nodes| :: nodes[r] as object !in Buffers(res)
  {
  }

  lemma NotBuffers(data: seq<ListData>, res: Results?)
    ensures forall r | 0 <= r < |data| :: data[r] as object !in Buffers(res)
  {
  }

  lemma Others(c: Ctx, x: nat, y: nat)
    requires Intact(c) && x < |c.data| && y < |c.data| && x != y
    ensures c.data[x] != c.data[y] && c.data[x].idx == c.idx[x] && c.data[y].idx == c.idx[y] &&
            |c.data| == |c.nodes| == |c.idx|
    ensures forall r | 0 <= r < |c.data| && r != x && r != y :: c.data[r] != c.data[x] && c.data[r] != c.data[y]
  {
  }

  // Two values were settled, the others did not change.
  ghost predicate OnlySettled(c: Ctx, v: seq<bv16>, v': seq<bv16>, x: nat, y: nat) {
    x < |v| && y < |v| && |v| == |v'| &&
    Settled(c.mode, v'[x]) && Evolves(c.mode, v[x], v'[x]) && Settled(c.mode, v'[y]) && Evolves(c.mode, v[y], v'[y]) &&
    forall r | 0 <= r < |v| && r != x && r != y :: v'[r] == v[r]
  }

  method Decide(cmp: Comparator, res: Results?, a: ListData, b: ListData, ghost c: Ctx, ghost perm: seq<nat>,
                ghost out: seq<nat>, ghost at: Place)
    returns (r: int)
    requires Sorting(c, cmp, res)
    requires Ordered(SeenOf(c, Values(c.data)), perm, out, at)
    requires at.pi < at.pe && at.qi < at.qe && a == c.data[perm[at.pi]] && b == c.data[perm[at.qi]]
    modifies c.data`data16, Target(res)`crc, Target(res)`runs, Target(res)`crcmatrix, Target(res)`crcstate, Buffers(res)
    ensures Sorting(c, cmp, res)
    ensures Ordered(SeenOf(c, Values(c.data)), perm, out, at)
    ensures AllSettled(SeenOf(c, Values(c.data)).flags, at.k, at.qe)
    ensures r == SeenOf(c, Values(c.data)).keys[perm[at.pi]] - SeenOf(c, Values(c.data)).keys[perm[at.qi]]
    ensures OnlyEvolved(c.mode, old(Values(c.data)), Values(c.data), at.k, at.qe)
  {
    assert |c.data| == |c.nodes| == |c.idx|;
    hide Sorting, Ordered, OnlyEvolved, OnlySettled, SeenOf, Settled, Evolves, Key, Values;
    HeadRanks(SeenOf(c, Values(c.data)), perm, out, at);
    ghost var v := Values(c.data);
    r := CompareAt(cmp, res, a, b, c, perm[at.pi], perm[at.qi]);
    SettleValues(c, v, Values(c.data), perm, out, at);
  }

  // Which run the next element comes from; c <= 0 stands for the p run.
  method Choose(cmp: Comparator, res: Results?, p: ListHead?, psize: nat, q: ListHead?, qsize: nat,
                ghost c: Ctx, ghost v0: seq<bv16>, ghost perm: seq<nat>, ghost out: seq<nat>, ghost at: Place)
    returns (r: int)
    requires Sorting(c, cmp, res)
    requires Ordered(SeenOf(c, Values(c.data)), perm, out, at) && at.k < at.pe && IsPerm(perm, |c.nodes|)
    requires OnlyEvolved(c.mode, v0, Values(c.data), at.k, at.qe)
    requires Cursors(c.nodes, perm, p, psize, q, at)
    requires at.qi < |c.nodes| ==> (qsize > 0 <==> at.qi < at.qe)
    requires psize > 0 || (qsize > 0 && q != null)
    modifies c.data`data16, Target(res)`crc, Target(res)`runs, Target(res)`crcmatrix, Target(res)`crcstate, Buffers(res)
    ensures Sorting(c, cmp, res)
    ensures r <= 0 ==>
            at.pi < at.pe &&
            Ordered(SeenOf(c, Values(c.data)), perm, out + [perm[at.pi]], at.(pi := at.pi + 1))
    ensures r > 0 ==>
            at.qi < at.qe &&
            Ordered(SeenOf(c, Values(c.data)), perm, out + [perm[at.qi]], at.(qi := at.qi + 1))
    ensures OnlyEvolved(c.mode, v0, Values(c.data), at.k, at.qe)
    ensures Links(c.nodes) == old(Links(c.nodes))
  {
    hide Usable, OnlyEvolved, SeenOf;
    if psize == 0 {
      r := 1;
    } else if qsize == 0 || q == null {
      r := 0;
    } else {
      r := Decide(cmp, res, p.info, q.info, c, perm, out, at);
      OnlyEvolvedTrans(c.mode, v0, old(Values(c.data)), Values(c.data), at.k, at.qe);
    }
    if r <= 0 {
      TakeP(SeenOf(c, Values(c.data)), perm, out, at);
    } else {
      TakeQ(SeenOf(c, Values(c.data)), perm, out, at);
    }
  }

  method TakeFromP(p0: ListHead, list0: ListHead?, tail0: ListHead?, ghost c: Ctx, ghost cmp: Comparator,
                   ghost res: Results?,
                   ghost perm: seq<nat>, ghost out: seq<nat>, ghost at: Place)
    returns (p: ListHead?, list: ListHead?, tail: ListHead?)
    requires Sorting(c, cmp, res) && Shape(c.nodes, Links(c.nodes), perm, out, at, list0, tail0)
    requires at.pi < at.pe && p0 == NodeAt(c.nodes, perm, at.pi)
    modifies c.nodes`next
    ensures Sorting(c, cmp, res) && Values(c.data) == old(Values(c.data))
    ensures Shape(c.nodes, Links(c.nodes), perm, out + [perm[at.pi]], at.(pi := at.pi + 1), list, tail)
    ensures at.pi + 1 < at.pe ==> p == NodeAt(c.nodes, perm, at.pi + 1)
  {
    var e := p0;
    p := p0.next;
    assert p == Links(c.nodes)[perm[at.pi]];
    list, tail := Append(e, list0, tail0, c.nodes, perm, out, at, at.(pi := at.pi + 1), at.pi);
  }

  method TakeFromQ(q0: ListHead, list0: ListHead?, tail0: ListHead?, ghost c: Ctx, ghost cmp: Comparator,
                   ghost res: Results?,
                   ghost perm: seq<nat>, ghost out: seq<nat>, ghost at: Place)
    returns (q: ListHead?, list: ListHead?, tail: ListHead?)
    requires Sorting(c, cmp, res) && Shape(c.nodes, Links(c.nodes), perm, out, at, list0, tail0)
    requires at.qi < |c.nodes| && q0 == NodeAt(c.nodes, perm, at.qi)
    modifies c.nodes`next
    ensures Sorting(c, cmp, res) && Values(c.data) == old(Values(c.data))
    ensures Shape(c.nodes, Links(c.nodes), perm, out + [perm[at.qi]], at.(qi := at.qi + 1), list, tail)
    ensures q == NodeAt(c.nodes, perm, at.qi + 1)
  {
    var e := q0;
    q := q0.next;
    assert q == Links(c.nodes)[perm[at.qi]];
    list, tail := Append(e, list0, tail0, c.nodes, perm, out, at, at.(qi := at.qi + 1), at.qi);
  }

  // One round of the merge loop: choose between the two runs, unlink the chosen head, append it.
  method MergeStep(p0: ListHead?, psize0: nat, q0: ListHead?, qsize0: nat, list0: ListHead?, tail0: ListHead?,
                   cmp: Comparator, res: Results?,
                   ghost c: Ctx, ghost v0: seq<bv16>, ghost perm: seq<nat>, ghost out0: seq<nat>, ghost at0: Place)
    returns (p: ListHead?, psize: nat, q: ListHead?, qsize: nat, list: ListHead?, tail: ListHead?, ghost e: nat,
      ghost at: Place)
    requires Sorting(c, cmp, res)
    requires Shape(c.nodes, Links(c.nodes), perm, out0, at0, list0, tail0)
    requires Ordered(SeenOf(c, Values(c.data)), perm, out0, at0) && at0.k < at0.pe
    requires OnlyEvolved(c.mode, v0, Values(c.data), at0.k, at0.qe)
    requires Cursors(c.nodes, perm, p0, psize0, q0, at0)
    requires at0.qi < |c.nodes| ==> (qsize0 > 0 <==> at0.qi < at0.qe)
    requires psize0 > 0 || (qsize0 > 0 && q0 != null)
    modifies c.nodes`next, c.data`data16, Target(res)`crc, Target(res)`runs, Target(res)`crcmatrix,
             Target(res)`crcstate, Buffers(res)
    ensures Sorting(c, cmp, res)
    ensures Shape(c.nodes, Links(c.nodes), perm, out0 + [e], at, list, tail)
    ensures Ordered(SeenOf(c, Values(c.data)), perm, out0 + [e], at)
    ensures OnlyEvolved(c.mode, v0, Values(c.data), at.k, at.qe)
    ensures Cursors(c.nodes, perm, p, psize, q, at)
    ensures at.pi <= at.pe <= at.qi <= at.qe
    ensures at == at0.(pi := at.pi, qi := at.qi) && qsize0 - qsize == at.qi - at0.qi &&
            at.pi - at0.pi + at.qi - at0.qi == 1
  {
    assert |c.data| == |c.nodes| == |c.idx|;
    ShapeBounds(c.nodes, Links(c.nodes), perm, out0, at0, list0, tail0, p0, psize0, q0);
    OrderedBounds(SeenOf(c, Values(c.data)), perm, out0, at0);
    hide *;
    p, psize, q, qsize, at := p0, psize0, q0, qsize0, at0;
    var r := Choose(cmp, res, p, psize, q, qsize, c, v0, perm, out0, at);
    if r <= 0 {
      p, list, tail := TakeFromP(p, list0, tail0, c, cmp, res, perm, out0, at);
      psize := psize - 1;
      e, at := perm[at.pi], at.(pi := at.pi + 1);
    } else {
      q, list, tail := TakeFromQ(q, list0, tail0, c, cmp, res, perm, out0, at);
      qsize := qsize - 1;
      e, at := perm[at.qi], at.(qi := at.qi + 1);
    }
    CursorsMoved(c.nodes, perm, p0, psize0, q0, at0, p, psize, q, at);
  }

  lemma ShapeBounds(nodes: seq<ListHead>, links: seq<ListHead?>, perm: seq<nat>, out: seq<nat>, at: Place,
                    list: ListHead?, tail: ListHead?,
                    p: ListHead?, psize: nat, q: ListHead?)
    requires Shape(nodes, links, perm, out, at, list, tail) && Cursors(nodes, perm, p, psize, q, at)
    ensures IsPerm(perm, |nodes|) && |perm| == |nodes| && at.pi <= at.pe <= at.qi <= |nodes| && psize == at.pe - at.pi
    ensures (psize > 0 ==> p == NodeAt(nodes, perm, at.pi) != null) && q == NodeAt(nodes, perm, at.qi) &&
            (at.qi < |nodes| ==> q != null)
  {
  }

  lemma OrderedBounds(s: Seen, perm: seq<nat>, out: seq<nat>, at: Place)
    requires Ordered(s, perm, out, at)
    ensures at.k <= at.pi <= at.pe <= at.qi <= at.qe <= |perm| == |s.keys|
  {
  }

  // The cursors after one of the runs gave up its head.
  lemma CursorsMoved(nodes: seq<ListHead>, perm: seq<nat>, p0: ListHead?, psize0: nat, q0: ListHead?, at0: Place,
                     p: ListHead?, psize: nat, q: ListHead?, at: Place)
    requires Cursors(nodes, perm, p0, psize0, q0, at0)
    requires (at == at0.(pi := at0.pi + 1) && at0.pi < at0.pe && psize == psize0 - 1 && q == q0 &&
             (at0.pi + 1 < at0.pe ==> p == NodeAt(nodes, perm, at0.pi + 1))) ||
             (at == at0.(qi := at0.qi + 1) && p == p0 && psize == psize0 && q == NodeAt(nodes, perm, at0.qi + 1))
    ensures Cursors(nodes, perm, p, psize, q, at)
  {
  }

  method MergeRuns(p0: ListHead, psize0: nat, q0: ListHead?, insize: nat, list0: ListHead?, tail0: ListHead?,
                   cmp: Comparator, res: Results?,
                   ghost c: Ctx, ghost perm: seq<nat>, ghost out0: seq<nat>, ghost pe: nat, ghost qe: nat)
    returns (q: ListHead?, list: ListHead?, tail: ListHead?, ghost out: seq<nat>)
    requires Sorting(c, cmp, res)
    requires Shape(c.nodes, Links(c.nodes), perm, out0, Place(|out0|, |out0|, pe, pe, qe), list0, tail0)
    requires Ordered(SeenOf(c, Values(c.data)), perm, out0, Place(|out0|, |out0|, pe, pe, qe))
    requires 0 < psize0 && Cursors(c.nodes, perm, p0, psize0, q0, Place(|out0|, |out0|, pe, pe, qe))
    requires 0 < insize && qe == Min(pe + insize, |c.nodes|)
    modifies c.nodes`next, c.data`data16, Target(res)`crc, Target(res)`runs, Target(res)`crcmatrix,
             Target(res)`crcstate, Buffers(res)
    ensures Sorting(c, cmp, res)
    ensures q == NodeAt(c.nodes, perm, qe)
    ensures |out| == qe > |out0| && Extends(out, out0)
    ensures Shape(c.nodes, Links(c.nodes), perm, out, Place(|out0|, pe, pe, qe, qe), list, tail)
    ensures Ordered(SeenOf(c, Values(c.data)), perm, out, Place(|out0|, pe, pe, qe, qe))
    ensures OnlyEvolved(c.mode, old(Values(c.data)), Values(c.data), |out0|, qe)
  {
    assert |c.data| == |c.nodes| == |c.idx|;
    OrderedBounds(SeenOf(c, Values(c.data)), perm, out0, Place(|out0|, |out0|, pe, pe, qe));
    assert qe == Min(pe + insize, |c.nodes|) && Extends(out0, out0);
    hide *;
    OnlyEvolvedRefl(c.mode, Values(c.data), |out0|, qe);
    var p: ListHead?, psize: nat, qsize: nat := p0, psize0, insize;
    q, list, tail, out := q0, list0, tail0, out0;
    ghost var at, n := Place(|out0|, |out0|, pe, pe, qe), |c.nodes|;
    while psize > 0 || (qsize > 0 && q != null)
      invariant at == Place(|out0|, at.pi, pe, at.qi, qe) && at.pi <= pe <= at.qi <= qe &&
                qsize == insize - (at.qi - pe)
      invariant Sorting(c, cmp, res)
      invariant Shape(c.nodes, Links(c.nodes), perm, out, at, list, tail)
      invariant Ordered(SeenOf(c, Values(c.data)), perm, out, at)
      invariant Cursors(c.nodes, perm, p, psize, q, at)
      invariant Extends(out, out0)
      invariant OnlyEvolved(c.mode, old(Values(c.data)), Values(c.data), at.k, at.qe)
      decreases pe - at.pi + qe - at.qi
    {
      ghost var e;
      RunsBounds(c.nodes, Links(c.nodes), perm, out, at, list, tail, p, psize, q, pe, qe, insize, qsize);
      p, psize, q, qsize, list, tail, e,
        at := MergeStep(p, psize, q, qsize, list, tail, cmp, res, c, old(Values(c.data)), perm, out, at);
      ExtendsMore(out, out0, e);
      out := out + [e];
    }
    RunsBounds(c.nodes, Links(c.nodes), perm, out, at, list, tail, p, psize, q, pe, qe, insize, qsize);
  }

  lemma ExtendsMore(out: seq<nat>, out0: seq<nat>, e: nat)
    requires Extends(out, out0)
    ensures Extends(out + [e], out0)
  {
  }

  // What the sizes left over say about the places of the cursors.
  lemma RunsBounds(nodes: seq<ListHead>, links: seq<ListHead?>, perm: seq<nat>, out: seq<nat>, at: Place,
                   list: ListHead?, tail: ListHead?,
                   p: ListHead?, psize: nat, q: ListHead?, pe: nat, qe: nat, insize: nat, qsize: nat)
    requires Shape(nodes, links, perm, out, at, list, tail) && Cursors(nodes, perm, p, psize, q, at)
    requires at.pe == pe && at.qi <= at.qe == qe && qe == Min(pe + insize, |nodes|) && qsize == insize - (at.qi - pe)
    ensures |out| == at.pi + at.qi - pe && q == NodeAt(nodes, perm, at.qi) &&
            (at.qi < |nodes| ==> (qsize > 0 <==> at.qi < qe))
    ensures psize == 0 && (qsize == 0 || q == null) ==> at.pi == pe && at.qi == qe
  {
  }

  // ---------- one pass over the list ----------

  // The cursor q runs insize places along from p, or off the end.
  method StepAlong(p: ListHead, insize: nat, ghost nodes: seq<ListHead>, ghost perm: seq<nat>, ghost k: nat)
    returns (q: ListHead?, psize: nat)
    requires IsPerm(perm, |nodes|) && k < |nodes| && Rest(nodes, Links(nodes), perm, k)
    requires p == NodeAt(nodes, perm, k) && 0 < insize
    ensures psize == Min(insize, |nodes| - k)
    ensures q == NodeAt(nodes, perm, k + psize)
  {
    q, psize := p, 0;
    for i := 0 to insize
      invariant psize == i && k + i < |nodes| && q == NodeAt(nodes, perm, k + i)
    {
      psize := psize + 1;
      assert q.next == Links(nodes)[perm[k + i]];
      q := q.next;
      assert q == NodeAt(nodes, perm, k + i + 1);
      if q == null { break; }
    }
  }

  // A pass under way: out is linked from list to tail in blocks of 2 * w, the rest still stands in blocks of w.
  ghost predicate Passing(c: Ctx, v: seq<bv16>, links: seq<ListHead?>, perm: seq<nat>, st: seq<nat>, w: nat,
                          out: seq<nat>, st2: seq<nat>, list: ListHead?, tail: ListHead?)
  {
    var k := |out|;
    |v| == |c.nodes| == |c.idx| == |links| && Shape(c.nodes, links, perm, out, Place(k, k, k, k, k), list, tail) &&
    Blocks(SeenOf(c, v), perm, st, w, k) && Blocks(SeenOf(c, v), out, st2, 2 * w, 0) &&
    (k < |perm| ==> st[k] == k && Closed(st2, 2 * w))
  }

  lemma BeginMerge(c: Ctx, v: seq<bv16>, links: seq<ListHead?>, perm: seq<nat>, st: seq<nat>, w: nat, out: seq<nat>,
                   st2: seq<nat>,
                   list: ListHead?, tail: ListHead?, pe: nat, qe: nat)
    requires |v| == |c.nodes| == |c.idx| == |links| && 0 < w
    requires Passing(c, v, links, perm, st, w, out, st2, list, tail) && |out| < |perm|
    requires pe == Min(|out| + w, |perm|) && qe == Min(pe + w, |perm|)
    ensures Shape(c.nodes, links, perm, out, Place(|out|, |out|, pe, pe, qe), list, tail)
    ensures Ordered(SeenOf(c, v), perm, out, Place(|out|, |out|, pe, pe, qe))
    ensures qe < |perm| ==> st[qe] == qe
  {
    RunsOfBlocks(SeenOf(c, v), perm, st, w, out, pe, qe);
  }

  lemma EndMerge(c: Ctx, v: seq<bv16>, v': seq<bv16>, links: seq<ListHead?>, links': seq<ListHead?>, perm: seq<nat>,
                 st: seq<nat>, w: nat,
                 out: seq<nat>, out': seq<nat>, st2: seq<nat>, list: ListHead?, tail: ListHead?, list': ListHead?,
                   tail': ListHead?, pe: nat, qe: nat)
    requires |v| == |v'| == |c.nodes| == |c.idx| == |links| == |links'| && 0 < w
    requires Passing(c, v, links, perm, st, w, out, st2, list, tail) && |out| < |perm|
    requires pe == Min(|out| + w, |perm|) && qe == Min(pe + w, |perm|) && (qe < |perm| ==> st[qe] == qe)
    requires |out'| == qe && Extends(out', out)
    requires Shape(c.nodes, links', perm, out', Place(|out|, pe, pe, qe, qe), list', tail')
    requires Ordered(SeenOf(c, v'), perm, out', Place(|out|, pe, pe, qe, qe))
    requires OnlyEvolved(c.mode, v, v', |out|, qe)
    ensures Passing(c, v', links', perm, st, w, out', WithBlock(st2, |out|, qe), list', tail')
  {
    hide Ordered, Rest, OutChain;
    OnlyEvolvedSeen(c, v, v', |out|, qe);
    AddBlock(SeenOf(c, v), SeenOf(c, v'), perm, out, out', st2, 2 * w, pe, qe);
    LaterBlocks(SeenOf(c, v), SeenOf(c, v'), perm, st, w, |out|, qe);
    assert qe < |perm| ==> Closed(WithBlock(st2, |out|, qe), 2 * w);
  }

  lemma StartCursors(nodes: seq<ListHead>, perm: seq<nat>, p: ListHead, psize: nat, q: ListHead?, k: nat, pe: nat,
                     qe: nat, insize: nat)
    requires IsPerm(perm, |nodes|) && k < |nodes| && p == NodeAt(nodes, perm, k) && 0 < insize
    requires psize == Min(insize, |nodes| - k) && q == NodeAt(nodes, perm, k + psize)
    requires pe == k + psize && qe == if pe + insize <= |nodes| then pe + insize else |nodes|
    ensures 0 < psize && qe == Min(pe + insize, |nodes|) && k < pe <= qe <= |nodes| &&
            pe == Min(k + insize, |nodes|) && qe == Min(k + 2 * insize, |nodes|)
    ensures Cursors(nodes, perm, p, psize, q, Place(k, k, pe, pe, qe))
  {
  }

  method MergeBlocks(p: ListHead, psize: nat, q0: ListHead?, insize: nat, list0: ListHead?, tail0: ListHead?,
                     cmp: Comparator, res: Results?, ghost c: Ctx, ghost v0: seq<bv16>,
                  ghost perm: seq<nat>, ghost st: seq<nat>, ghost out0: seq<nat>, ghost st20: seq<nat>)
    returns (q: ListHead?, list: ListHead?, tail: ListHead?, ghost out: seq<nat>, ghost st2: seq<nat>)
    requires Sorting(c, cmp, res) && 0 < insize
    requires Passing(c, Values(c.data), Links(c.nodes), perm, st, insize, out0, st20, list0, tail0)
    requires |out0| < |c.nodes| && p == NodeAt(c.nodes, perm, |out0|)
    requires psize == Min(insize, |c.nodes| - |out0|) && q0 == NodeAt(c.nodes, perm, |out0| + psize)
    requires OnlyEvolved(c.mode, v0, Values(c.data), 0, |out0|)
    modifies c.nodes`next, c.data`data16, Target(res)`crc, Target(res)`runs, Target(res)`crcmatrix,
             Target(res)`crcstate, Buffers(res)
    ensures Sorting(c, cmp, res)
    ensures Passing(c, Values(c.data), Links(c.nodes), perm, st, insize, out, st2, list, tail)
    ensures |out| == Min(|out0| + 2 * insize, |c.nodes|) && st2 == WithBlock(st20, |out0|, |out|)
    ensures q == NodeAt(c.nodes, perm, |out|)
    ensures OnlyEvolved(c.mode, v0, Values(c.data), 0, |out|)
  {
    hide *;
    Sizes(c, cmp, res);
    ghost var v, links := Values(c.data), Links(c.nodes);
    PassingRest(c, v, links, perm, st, insize, out0, st20, list0, tail0);
    ghost var pe := |out0| + psize;
    ghost var qe := if pe + insize <= |c.nodes| then pe + insize else |c.nodes|;
    StartCursors(c.nodes, perm, p, psize, q0, |out0|, pe, qe, insize);
    BeginMerge(c, v, links, perm, st, insize, out0, st20, list0, tail0, pe, qe);
    q, list, tail, out := MergeRuns(p, psize, q0, insize, list0, tail0, cmp, res, c, perm, out0, pe, qe);
    st2 := WithBlock(st20, |out0|, qe);
    EndMerge(c, v, Values(c.data), links, Links(c.nodes), perm, st, insize,
             out0, out, st20, list0, tail0, list, tail, pe, qe);
    OnlyEvolvedJoin(c.mode, v0, v, Values(c.data), |out0|, qe);
  }

  lemma PassingRest(c: Ctx, v: seq<bv16>, links: seq<ListHead?>, perm: seq<nat>, st: seq<nat>, w: nat,
                    out: seq<nat>, st2: seq<nat>, list: ListHead?, tail: ListHead?)
    requires |v| == |c.nodes| == |c.idx| == |links|
    requires Passing(c, v, links, perm, st, w, out, st2, list, tail)
    ensures IsPerm(perm, |c.nodes|) && |out| <= |c.nodes| && Rest(c.nodes, links, perm, |out|)
  {
  }

  method PassStep(p: ListHead, insize: nat, list0: ListHead?, tail0: ListHead?, cmp: Comparator, res: Results?,
                  ghost c: Ctx, ghost v0: seq<bv16>,
                  ghost perm: seq<nat>, ghost st: seq<nat>, ghost out0: seq<nat>, ghost st20: seq<nat>)
    returns (q: ListHead?, list: ListHead?, tail: ListHead?, ghost out: seq<nat>, ghost st2: seq<nat>)
    requires Sorting(c, cmp, res) && 0 < insize
    requires Passing(c, Values(c.data), Links(c.nodes), perm, st, insize, out0, st20, list0, tail0)
    requires |out0| < |c.nodes| && p == NodeAt(c.nodes, perm, |out0|)
    requires OnlyEvolved(c.mode, v0, Values(c.data), 0, |out0|)
    modifies c.nodes`next, c.data`data16, Target(res)`crc, Target(res)`runs, Target(res)`crcmatrix,
             Target(res)`crcstate, Buffers(res)
    ensures Sorting(c, cmp, res)
    ensures Passing(c, Values(c.data), Links(c.nodes), perm, st, insize, out, st2, list, tail)
    ensures |out| == Min(|out0| + 2 * insize, |c.nodes|) && st2 == WithBlock(st20, |out0|, |out|)
    ensures q == NodeAt(c.nodes, perm, |out|)
    ensures OnlyEvolved(c.mode, v0, Values(c.data), 0, |out|)
  {
    hide Passing, OnlyEvolved, SeenOf, WithBlock;
    PassingRest(c, Values(c.data), Links(c.nodes), perm, st, insize, out0, st20, list0, tail0);
    var psize;
    q, psize := StepAlong(p, insize, c.nodes, perm, |out0|);
    q, list, tail, out, st2 := MergeBlocks(p, psize, q, insize, list0, tail0, cmp, res, c, v0, perm, st, out0, st20);
  }

  // tail.next := NULL closes the list that a pass has built.
  method Close(tail: ListHead, ghost c: Ctx, ghost cmp: Comparator, ghost res: Results?, ghost perm: seq<nat>,
               ghost out: seq<nat>, ghost list: ListHead)
    requires Sorting(c, cmp, res) && |out| == |c.nodes| > 0
    requires Shape(c.nodes, Links(c.nodes), perm, out, Place(|out|, |out|, |out|, |out|, |out|), list, tail)
    modifies c.nodes`next
    ensures Sorting(c, cmp, res) && Values(c.data) == old(Values(c.data))
    ensures IsPerm(out, |c.nodes|) && list == c.nodes[out[0]] && Rest(c.nodes, Links(c.nodes), out, 0)
  {
    tail.next := null;
    assert Links(c.nodes) == old(Links(c.nodes))[out[|out| - 1] := null];
  }

  lemma BeginPass(c: Ctx, v: seq<bv16>, links: seq<ListHead?>, perm: seq<nat>, st: seq<nat>, w: nat)
    requires |v| == |c.nodes| == |c.idx| == |links| && 0 < w
    requires IsPerm(perm, |c.nodes|) && Rest(c.nodes, links, perm, 0) && Blocks(SeenOf(c, v), perm, st, w, 0)
    ensures Passing(c, v, links, perm, st, w, [], [], null, null) && OnlyEvolved(c.mode, v, v, 0, 0)
  {
  }

  lemma EndPass(c: Ctx, v: seq<bv16>, links: seq<ListHead?>, perm: seq<nat>, st: seq<nat>, w: nat, out: seq<nat>,
                st2: seq<nat>,
                list: ListHead?, tail: ListHead?)
    requires |v| == |c.nodes| == |c.idx| == |links| == |out| > 0
    requires Passing(c, v, links, perm, st, w, out, st2, list, tail)
    ensures list != null && tail != null && list == c.nodes[out[0]] && Blocks(SeenOf(c, v), out, st2, 2 * w, 0)
    ensures Shape(c.nodes, links, perm, out, Place(|out|, |out|, |out|, |out|, |out|), list, tail)
  {
  }

  // What the number of merges says: one merge makes one block.
  ghost predicate Counted(nmerges: nat, insize: nat, n: nat, done: nat, st2: seq<nat>) {
    done <= n && (nmerges == 0 <==> done == 0) && (nmerges == 0 ==> st2 == []) &&
    (nmerges == 1 ==> done == Min(2 * insize, n) && st2 == WithBlock([], 0, done)) && (nmerges > 1 ==> 2 * insize < n)
  }

  lemma StartCount(insize: nat, n: nat)
    ensures Counted(0, insize, n, 0, [])
  {
  }

  lemma CountMerge(nmerges: nat, insize: nat, n: nat, done: nat, st2: seq<nat>)
    requires Counted(nmerges, insize, n, done, st2) && done < n && 0 < insize
    ensures var done' := Min(done + 2 * insize, n);
            done < done' && Counted(nmerges + 1, insize, n, done', WithBlock(st2, done, done'))
  {
  }

  lemma EndCount(nmerges: nat, insize: nat, n: nat, st2: seq<nat>)
    requires Counted(nmerges, insize, n, n, st2) && 0 < n
    ensures nmerges > 1 ==> 2 * insize < n
    ensures nmerges <= 1 ==> st2 == WithBlock([], 0, n)
  {
  }

  lemma AtEnd(nodes: seq<ListHead>, perm: seq<nat>, k: nat)
    requires IsPerm(perm, |nodes|) && k <= |nodes|
    ensures NodeAt(nodes, perm, k) == null <==> k == |nodes|
  {
  }

  method MergePass(list0: ListHead, insize: nat, cmp: Comparator, res: Results?, ghost c: Ctx, ghost perm: seq<nat>,
                   ghost st: seq<nat>)
    returns (list: ListHead, nmerges: nat, ghost out: seq<nat>, ghost st2: seq<nat>)
    requires Sorting(c, cmp, res) && 0 < insize
    requires IsPerm(perm, |c.nodes|) && 0 < |c.nodes| && list0 == NodeAt(c.nodes, perm, 0) &&
             Rest(c.nodes, Links(c.nodes), perm, 0)
    requires Blocks(SeenOf(c, Values(c.data)), perm, st, insize, 0)
    modifies c.nodes`next, c.data`data16, Target(res)`crc, Target(res)`runs, Target(res)`crcmatrix,
             Target(res)`crcstate, Buffers(res)
    ensures Sorting(c, cmp, res)
    ensures IsPerm(out, |c.nodes|) && list == c.nodes[out[0]] && Rest(c.nodes, Links(c.nodes), out, 0)
    ensures Blocks(SeenOf(c, Values(c.data)), out, st2, 2 * insize, 0)
    ensures nmerges > 1 ==> 2 * insize < |c.nodes|
    ensures nmerges <= 1 ==> st2 == WithBlock([], 0, |c.nodes|)
    ensures OnlyEvolved(c.mode, old(Values(c.data)), Values(c.data), 0, |c.nodes|)
  {
    hide *;
    Sizes(c, cmp, res);
    var p: ListHead? := list0;
    var list1: ListHead?, tail: ListHead? := null, null;
    nmerges := 0;
    out, st2 := [], [];
    StartCount(insize, |c.nodes|);
    BeginPass(c, Values(c.data), Links(c.nodes), perm, st, insize);
    while p != null
      invariant |out| <= |c.nodes| && p == NodeAt(c.nodes, perm, |out|)
      invariant Sorting(c, cmp, res)
      invariant Passing(c, Values(c.data), Links(c.nodes), perm, st, insize, out, st2, list1, tail)
      invariant Counted(nmerges, insize, |c.nodes|, |out|, st2)
      invariant OnlyEvolved(c.mode, old(Values(c.data)), Values(c.data), 0, |out|)
      decreases |c.nodes| - |out|
    {
      AtEnd(c.nodes, perm, |out|);
      CountMerge(nmerges, insize, |c.nodes|, |out|, st2);
      nmerges := nmerges + 1;
      p, list1, tail, out, st2 := PassStep(p, insize, list1, tail, cmp, res, c, old(Values(c.data)), perm, st, out,
        st2);
    }
    AtEnd(c.nodes, perm, |out|);
    EndCount(nmerges, insize, |c.nodes|, st2);
    EndPass(c, Values(c.data), Links(c.nodes), perm, st, insize, out, st2, list1, tail);
    list := list1;
    Close(tail, c, cmp, res, perm, out, list);
  }

  // ---------- the sort ----------

  // list is the head of a NULL-terminated chain of exactly these nodes.
  ghost predicate IsList(list: ListHead?, nodes: seq<ListHead>)
    reads nodes`next
  {
    DistinctNodes(nodes) &&
    (if nodes == [] then list == null else list == nodes[0] && nodes[|nodes| - 1].next == null) &&
    forall i | 0 <= i < |nodes| - 1 :: nodes[i].next == nodes[i + 1]
  }

  ghost function Cells(nodes: seq<ListHead>): (d: seq<ListData>)
    reads nodes
    ensures |d| == |nodes|
  {
    seq(|nodes|, r requires 0 <= r < |nodes| reads nodes => nodes[r].info)
  }

  ghost function Indices(data: seq<ListData>): (x: seq<S16>)
    reads data
    ensures |x| == |data|
  {
    seq(|data|, r requires 0 <= r < |data| reads data => data[r].idx)
  }

  function Picked<T>(s: seq<T>, perm: seq<nat>): (t: seq<T>)
    requires forall i | 0 <= i < |perm| :: perm[i] < |s|
    ensures |t| == |perm| && forall i | 0 <= i < |perm| :: t[i] == s[perm[i]]
  {
    seq(|perm|, i requires 0 <= i < |perm| => s[perm[i]])
  }

  ghost predicate StablySorted(keys: seq<int>, perm: seq<nat>) {
    IsPerm(perm, |keys|) && forall i, j | 0 <= i < j < |perm| :: Less(keys, perm[i], perm[j])
  }

  // What a sort did to the data: the final keys are in stable order along perm, no cell changed except
  // as the comparator is meant to change it, and a list of two or more has been seen by it completely.
  ghost predicate SortOutcome(c: Ctx, before: seq<bv16>, after: seq<bv16>, perm: seq<nat>)
    requires |before| == |after| == |c.idx|
  {
    StablySorted(SeenOf(c, after).keys, perm) && OnlyEvolved(c.mode, before, after, 0, |after|) &&
    (1 < |after| ==> AllSettled(SeenOf(c, after).flags, 0, |after|))
  }

  lemma PickedIsList(nodes: seq<ListHead>, perm: seq<nat>)
    requires DistinctNodes(nodes) && IsPerm(perm, |nodes|) && 0 < |nodes| && Rest(nodes, Links(nodes), perm, 0)
    ensures IsList(nodes[perm[0]], Picked(nodes, perm))
  {
    var p := Picked(nodes, perm);
    assert forall i | 0 <= i < |p| :: p[i].next == Links(nodes)[perm[i]];
  }

  lemma SingleBlock(s: Seen, perm: seq<nat>, st: seq<nat>, w: nat)
    requires Blocks(s, perm, st, w, 0) && st == WithBlock([], 0, |s.keys|) && IsPerm(perm, |s.keys|) && 1 < w
    ensures StablySorted(s.keys, perm)
    ensures 1 < |s.keys| ==> AllSettled(s.flags, 0, |s.keys|)
  {
  }

  function Identity(n: nat): (p: seq<nat>)
    ensures |p| == n && forall i | 0 <= i < n :: p[i] == i
  {
    seq(n, i => i)
  }

  ghost function CtxOf(m: Mode, nodes: seq<ListHead>): (c: Ctx)
    reads nodes, Cells(nodes)
    ensures |c.data| == |c.nodes| == |c.idx|
  {
    Ctx(m, nodes, Cells(nodes), Indices(Cells(nodes)), 0)
  }

  lemma EndSort(c: Ctx, before: seq<bv16>, perm: seq<nat>, st: seq<nat>, w: nat)
    requires 0 < |c.nodes| && 1 < w && |before| == |c.data| && Intact(c)
    requires IsPerm(perm, |c.nodes|) && Rest(c.nodes, Links(c.nodes), perm, 0)
    requires Blocks(SeenOf(c, Values(c.data)), perm, st, w, 0) && st == WithBlock([], 0, |c.nodes|)
    requires OnlyEvolved(c.mode, before, Values(c.data), 0, |c.data|)
    ensures SortOutcome(c, before, Values(c.data), perm) && IsList(c.nodes[perm[0]], Picked(c.nodes, perm))
  {
    SingleBlock(SeenOf(c, Values(c.data)), perm, st, w);
    PickedIsList(c.nodes, perm);
  }

  lemma BeginSort(c: Ctx, list: ListHead)
    requires IsList(list, c.nodes) && DistinctData(c.data) && c == CtxOf(c.mode, c.nodes).(work := c.work)
    ensures 0 < |c.nodes|
    ensures var p := Identity(|c.nodes|);
            IsPerm(p, |c.nodes|) && list == c.nodes[p[0]] && Rest(c.nodes, Links(c.nodes), p, 0) &&
            Blocks(SeenOf(c, Values(c.data)), p, p, 1, 0) && Intact(c) &&
              OnlyEvolved(c.mode, Values(c.data), Values(c.data), 0, |c.nodes|)
  {
  }

  method MergePasses(list0: ListHead, cmp: Comparator, res: Results?, ghost c: Ctx)
    returns (list: ListHead, ghost perm: seq<nat>)
    requires Sorting(c, cmp, res)
    requires 0 < |c.nodes| && list0 == c.nodes[0] && Rest(c.nodes, Links(c.nodes), Identity(|c.nodes|), 0)
    requires Blocks(SeenOf(c, Values(c.data)), Identity(|c.nodes|), Identity(|c.nodes|), 1, 0)
    modifies c.nodes`next, c.data`data16, Target(res)`crc, Target(res)`runs, Target(res)`crcmatrix,
             Target(res)`crcstate, Buffers(res)
    ensures Sorting(c, cmp, res)
    ensures IsPerm(perm, |c.nodes|) && IsList(list, Picked(c.nodes, perm))
    ensures SortOutcome(c, old(Values(c.data)), Values(c.data), perm)
  {
    assert |c.data| == |c.nodes| == |c.idx|;
    ghost var n, v := |c.nodes|, Values(c.data);
    var insize := 1;
    list := list0;
    perm := Identity(n);
    ghost var st: seq<nat> := perm;
    OnlyEvolvedRefl(c.mode, v, 0, n);
    hide Sorting, Target, Buffers, SeenOf, OnlyEvolved, Blocks, Rest, Linked, DistinctNodes, DistinctData, IsList,
      SortOutcome, Values, Links;
    while true
      invariant Sorting(c, cmp, res)
      invariant insize == 1 || insize < n
      invariant 0 < insize && IsPerm(perm, n) && list == c.nodes[perm[0]] && Rest(c.nodes, Links(c.nodes), perm, 0)
      invariant Blocks(SeenOf(c, Values(c.data)), perm, st, insize, 0)
      invariant OnlyEvolved(c.mode, v, Values(c.data), 0, n)
      decreases n - insize
    {
      ghost var before := Values(c.data);
      var nmerges;
      list, nmerges, perm, st := MergePass(list, insize, cmp, res, c, perm, st);
      OnlyEvolvedTrans(c.mode, v, before, Values(c.data), 0, n);
      if nmerges <= 1 {
        EndSort(c, v, perm, st, 2 * insize);
        return;
      }
      insize := 2 * insize;
    }
  }

  method MergeSort(list0: ListHead, cmp: Comparator, res: Results?, ghost nodes: seq<ListHead>)
    returns (list: ListHead, ghost perm: seq<nat>)
    requires Usable(cmp, res)
    requires IsList(list0, nodes) && DistinctData(Cells(nodes))
    modifies nodes`next, Cells(nodes)`data16, Target(res)`crc, Target(res)`runs, Target(res)`crcmatrix,
             Target(res)`crcstate, Buffers(res)
    ensures Usable(cmp, res) && CtxOf(ModeOf(cmp, res), nodes) == old(CtxOf(ModeOf(cmp, res), nodes))
    ensures IsPerm(perm, |nodes|) && IsList(list, Picked(nodes, perm))
    ensures SortOutcome(CtxOf(ModeOf(cmp, res), nodes), old(Values(Cells(nodes))), Values(Cells(nodes)), perm)
    ensures ModeOf(cmp, res) == Complex ==>
            Ran(res) + Uncached(Values(Cells(nodes))) == old(Ran(res) + Uncached(Values(Cells(nodes)))) &&
            (1 < |nodes| ==> Uncached(Values(Cells(nodes))) == 0)
  {
    ghost var v := Values(Cells(nodes));
    ghost var c := CtxOf(ModeOf(cmp, res), nodes).(work := Ran(res) + Uncached(v));
    BeginSort(c, list0);
    assert Sorting(c, cmp, res);
    hide Sorting, Target, Buffers, SeenOf, OnlyEvolved, Blocks, Rest, Linked, DistinctNodes, DistinctData, IsList,
      SortOutcome, Values, Links, Uncached, Ran;
    list, perm := MergePasses(list0, cmp, res, c);
    SortingParts(c, cmp, res);
    assert Cells(nodes) == c.data;
    assert Indices(c.data) == c.idx;
    OutcomeIsSame(c, CtxOf(ModeOf(cmp, res), nodes), v, Values(c.data), perm);
    if c.mode == Complex && 1 < |nodes| { AllSeen(c, v, Values(c.data), perm); }
  }

  lemma OutcomeIsSame(c: Ctx, d: Ctx, before: seq<bv16>, after: seq<bv16>, perm: seq<nat>)
    requires |before| == |after| == |c.idx| && SortOutcome(c, before, after, perm) && d == c.(work := d.work)
    ensures SortOutcome(d, before, after, perm)
  {
    assert SeenOf(d, after) == SeenOf(c, after);
  }

  lemma AllSeen(c: Ctx, before: seq<bv16>, after: seq<bv16>, perm: seq<nat>)
    requires 1 < |before| == |after| == |c.idx| && SortOutcome(c, before, after, perm) && c.mode == Complex
    ensures Uncached(after) == 0
  {
    forall r | 0 <= r < |after| ensures Cached(after[r]) {
      assert SeenOf(c, after).flags[r];
    }
    NoneUncached(after);
  }
}
