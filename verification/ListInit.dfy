/**
  core_list_init (software/coremark_app/cmark.c:577-669): builds the benchmark list in two blocks of
  memory, indexes it and sorts it by index.
*/
module ListInit {
  import opened Words
  import opened MergeOrder
  import opened ListCells
  import opened ListSort
  import opened ListOps
  import opened ListBench

  // ---------- one new cell ----------

  // The two blocks of memory: cells and their data, slot by slot.
  datatype Blocks = Blocks(heads: seq<ListHead>, datas: seq<ListData>) {
    ghost predicate Valid() { |heads| == |datas| && DistinctNodes(heads) && DistinctData(datas) }
  }

  // The list built from the first mem slots: slot 0 is the head, every later slot was put right behind it.
  function BuiltFrom<T>(slots: seq<T>, mem: nat): (s: seq<T>)
    requires 0 < mem <= |slots|
    ensures |s| == mem && forall j | 0 <= j < mem :: s[j] == if j == 0 then slots[0] else slots[mem - j]
  {
    seq(mem, j requires 0 <= j < mem => if j == 0 then slots[0] else slots[mem - j])
  }

  ghost predicate Built(b: Blocks, mem: nat)
    requires b.Valid()
    reads b.heads
  {
    0 < mem <= |b.heads| && IsList(b.heads[0], BuiltFrom(b.heads, mem)) &&
    forall i | 0 <= i < mem :: b.heads[i].info == b.datas[i]
  }

  lemma NextCells(list: ListHead, nodes: seq<ListHead>)
    requires IsList(list, nodes)
    ensures forall j | 0 <= j < |nodes| :: nodes[j].next == CellAt(nodes, j + 1)
  {
  }

  // The next free slot goes right behind the head, unless it is the last one.
  method CoreListInsertNew(insertPoint: ListHead, info: ListData, mem: nat, b: Blocks)
    returns (newItem: ListHead?, mem': nat)
    requires b.Valid() && Built(b, mem) && insertPoint == b.heads[0] && info !in b.datas
    modifies b.heads, if mem < |b.datas| then {b.datas[mem]} else {}
    ensures mem' == (if mem + 1 >= |b.heads| then mem else mem + 1) && Built(b, mem')
    ensures if mem + 1 >= |b.heads| then newItem == null else newItem == b.heads[mem]
    ensures mem + 1 < |b.heads| ==> b.datas[mem].data16 == info.data16 && b.datas[mem].idx == info.idx
    ensures mem + 1 >= |b.heads| ==> forall d | d in b.datas :: d.data16 == old(d.data16) && d.idx == old(d.idx)
  {
    if mem + 1 >= |b.heads| { return null, mem; }
    ghost var s, links := BuiltFrom(b.heads, mem), Links(BuiltFrom(b.heads, mem));
    BeforeInsert(b, mem, s, links);
    hide Built, BuiltFrom, Links, DistinctNodes, DistinctData;
    newItem := b.heads[mem];
    mem' := mem + 1;
    newItem.next := insertPoint.next;
    insertPoint.next := newItem;
    newItem.info := b.datas[mem];
    CopyInfo(newItem.info, info);
    AfterInsert(b, mem, s, links);
  }

  lemma BeforeInsert(b: Blocks, mem: nat, s: seq<ListHead>, links: seq<ListHead?>)
    requires b.Valid() && Built(b, mem) && mem < |b.heads| && s == BuiltFrom(b.heads, mem) && links == Links(s)
    ensures 0 < mem && b.heads[0].next == links[0] && Forward(s, links) &&
            forall j | 1 <= j < mem :: s[j].next == links[j]
    ensures forall j | 1 <= j < mem :: s[j] != b.heads[0] && s[j] != b.heads[mem]
    ensures forall i | 0 <= i < mem :: b.heads[i].info == b.datas[i] && b.heads[i] != b.heads[mem]
  {
    NextCells(b.heads[0], s);
  }

  lemma AfterInsert(b: Blocks, mem: nat, s: seq<ListHead>, links: seq<ListHead?>)
    requires b.Valid() && 0 < mem < |b.heads| && s == BuiltFrom(b.heads, mem) && Forward(s, links)
    requires b.heads[0].next == b.heads[mem] && b.heads[mem].next == links[0] &&
             forall j | 1 <= j < mem :: s[j].next == links[j]
    requires forall i | 0 <= i <= mem :: b.heads[i].info == b.datas[i]
    ensures Built(b, mem + 1)
  {
    var t := BuiltFrom(b.heads, mem + 1);
    hide DistinctData;
    forall j | 0 <= j <= mem ensures t[j].next == CellAt(t, j + 1) {
      if j == 1 {
        assert CellAt(s, 1) == CellAt(t, 2);
      } else if j > 1 {
        assert t[j] == s[j - 1];
      }
    }
  }

  method CopyInfo(to: ListData, from: ListData)
    modifies to
    ensures to.data16 == old(from.data16) && to.idx == old(from.idx)
  {
    to.data16 := from.data16;
    to.idx := from.idx;
  }

  // ---------- what the cells hold ----------

  function Low16(i: nat): bv16 { (i % 0x1_0000) as bv16 }

  // Four bits of pattern and three of type, in the low byte and again as its backup.
  function ItemData(seed: bv16, i: nat): bv16 {
    var dat := (((seed ^ Low16(i)) & 0xf) << 3) | (Low16(i) & 7);
    (dat << 8) | dat
  }

  // Type, pattern and cache bit of an item, and its backup.
  lemma ItemDataBits(seed: bv16, i: nat)
    ensures var d, n := ItemData(seed, i), (i % 0x1_0000) as bv16;
            d & 7 == n & 7 && (d >> 3) & 0xf == (seed ^ n) & 0xf && d & 0x80 == 0 && d >> 8 == d & 0xff
  {
    hide Low16;
    ItemBits(seed, Low16(i));
    LowIs(i);
  }

  lemma LowIs(i: nat)
    ensures Low16(i) == (i % 0x1_0000) as bv16
  {
  }

  lemma ItemBits(seed: bv16, n: bv16)
    ensures var dat := (((seed ^ n) & 0xf) << 3) | (n & 7);
            var d := (dat << 8) | dat;
            d & 7 == n & 7 && (d >> 3) & 0xf == (seed ^ n) & 0xf && d & 0x80 == 0 && d >> 8 == d & 0xff
  {
  }

  function Pat(seed: bv16, j: bv16): bv16 { j ^ seed }

  // 14 bits of a pattern and of the three low bits of the next place.
  function Mixed(pat: bv16, next: bv16): bv16 { 0x3fff & (((next & 7) << 8) | pat) }

  lemma MixedFits(pat: bv16, next: bv16)
    ensures Mixed(pat, next) as int < 0x4000
  {
    assert Mixed(pat, next) < 0x4000;
  }

  function MixedIdx(pat: bv16, next: bv16): (x: S16)
    ensures 0 <= x < 0x4000
  {
    hide Mixed;
    MixedFits(pat, next);
    Mixed(pat, next) as int
  }

  // The index of the cell in place j: the first fifth in order, then a mixed pattern.
  function InitIdx(seed: bv16, size: nat, j: nat): S16 {
    if j < size / 5 then ToS16(j) else MixedIdx(Pat(seed, Low16(j)), Low16(j + 1))
  }

  // An index behind the first fifth has 14 bits: those of the place XOR the seed, and those of the next place modulo 8
  // over bits 8 to 10.
  lemma InitIdxBits(seed: bv16, size: nat, j: nat) returns (x: bv16)
    ensures j < size / 5 ==> (InitIdx(seed, size, j) - j) % 0x1_0000 == 0
    ensures j >= size / 5 ==>
              var p, n := ((j % 0x1_0000) as bv16) ^ seed, ((j + 1) % 0x1_0000) as bv16;
              x as int == InitIdx(seed, size, j) && x & 0xc000 == 0 && x & 0x38ff == p & 0x38ff &&
              (x >> 8) & 7 == ((p >> 8) & 7) | (n & 7)
  {
    var p, n := Pat(seed, Low16(j)), Low16(j + 1);
    x := Mixed(p, n);
    MixedBits(p, n);
    LowIs(j);
    LowIs(j + 1);
    PatIs(seed, Low16(j));
    hide Mixed, Low16, Pat;
    if j < size / 5 { Congruent(j, ToS16(j)); }
  }

  lemma PatIs(seed: bv16, j: bv16)
    ensures Pat(seed, j) == j ^ seed
  {
  }

  lemma Congruent(x: int, y: int)
    requires (x - y) % 0x1_0000 == 0
    ensures (y - x) % 0x1_0000 == 0
  {
  }

  lemma MixedBits(p: bv16, n: bv16)
    ensures var x := Mixed(p, n);
            x & 0xc000 == 0 && x & 0x38ff == p & 0x38ff && (x >> 8) & 7 == ((p >> 8) & 7) | (n & 7)
  {
  }

  // By slot, before the cells are indexed.
  function SlotCell(seed: bv16, i: nat): Cell {
    if i == 0 then Cell(0x8080, 0) else if i == 1 then Cell(0xffff, 0x7fff) else Cell(ItemData(seed, i - 2), 0x7fff)
  }

  // The list as built in size slots and indexed, before it is sorted; the last slot stays unused.
  function InitCells(seed: bv16, size: nat): (s: seq<Cell>)
    requires 3 <= size
    ensures |s| == size - 1
  {
    seq(size - 1, j requires 0 <= j < size - 1 =>
      if j == 0 then SlotCell(seed, 0) else if j == size - 2 then SlotCell(seed, 1)
      else Cell(ItemData(seed, size - 3 - j), InitIdx(seed, size, j)))
  }

  // ---------- the two loops ----------

  ghost predicate Filled(b: Blocks, seed: bv16, mem: nat)
    requires b.Valid()
    reads b.datas
  {
    mem <= |b.datas| && forall i | 0 <= i < mem :: Cell(b.datas[i].data16, b.datas[i].idx) == SlotCell(seed, i)
  }

  method InsertItems(list: ListHead, info: ListData, seed: bv16, mem0: nat, b: Blocks) returns (mem: nat)
    requires b.Valid() && 3 <= |b.heads| && mem0 == 2 && list == b.heads[0] && info !in b.datas && info.idx == 0x7fff
    requires Built(b, mem0) && Filled(b, seed, mem0)
    modifies b.heads, b.datas, info
    ensures mem == |b.heads| - 1 && Built(b, mem) && Filled(b, seed, mem)
  {
    hide ItemData, Built;
    mem := mem0;
    var size := |b.heads|;
    for i := 0 to size
      invariant mem == (if 2 + i < size then 2 + i else size - 1) && Built(b, mem) && Filled(b, seed, mem) &&
                info.idx == 0x7fff
    {
      info.data16 := ItemData(seed, i);
      var item;
      item, mem := CoreListInsertNew(list, info, mem, b);
    }
  }

  // Numbers all cells but the head and the last one, whose indices they keep.
  method IndexItems(list: ListHead, seed: bv16, size: nat, ghost cur: seq<ListHead>, ghost cells: seq<ListData>)
    requires IsList(list, cur) && 2 <= |cur| && cells == Cells(cur) && DistinctData(cells)
    modifies cells`idx
    ensures forall j | 0 <= j < |cur| :: cells[j].idx == if 0 < j < |cur| - 1 then InitIdx(seed, size, j)
            else old(cells[j].idx)
  {
    hide Low16, MixedIdx, Pat, ToS16, DistinctNodes;
    NextCells(list, cur);
    var finder := list.next;
    assert finder == cur[1];
    var i: nat := 1;
    while finder.next != null
      invariant 1 <= i < |cur| && finder == cur[i]
      invariant forall j | 0 <= j < |cur| :: cells[j].idx == if 0 < j < i then InitIdx(seed, size, j)
                else old(cells[j].idx)
      decreases |cur| - i
    {
      assert finder.next == CellAt(cur, i + 1) && finder.info == cells[i];
      if i < size / 5 {
        finder.info.idx := ToS16(i);
        i := i + 1;
      } else {
        var pat := Pat(seed, Low16(i));
        i := i + 1;
        finder.info.idx := MixedIdx(pat, Low16(i));
      }
      finder := finder.next;
    }
    assert finder.next == CellAt(cur, i + 1);
  }

  lemma BuiltCells(b: Blocks, seed: bv16, mem: nat)
    requires b.Valid() && 2 <= mem && Built(b, mem) && Filled(b, seed, mem)
    ensures var order := BuiltFrom(b.heads, mem);
            Cells(order) == BuiltFrom(b.datas, mem) && DistinctData(Cells(order)) && order[0] == b.heads[0] &&
            forall j | 0 <= j < mem :: Cells(order)[j].data16 == SlotCell(seed, if j == 0 then 0 else mem - j).data &&
                                       Cells(order)[j].idx == SlotCell(seed, if j == 0 then 0 else mem - j).idx
  {
    hide SlotCell;
    assert Cells(BuiltFrom(b.heads, mem)) == BuiltFrom(b.datas, mem);
  }

  // Fills the blocks; the list is then built but not yet indexed.
  method BuildList(seed: bv16, b: Blocks) returns (list: ListHead)
    requires b.Valid() && 3 <= |b.heads|
    modifies b.heads, b.datas
    ensures list == b.heads[0] && Built(b, |b.heads| - 1) && Filled(b, seed, |b.heads| - 1)
  {
    list := b.heads[0];
    list.next := null;
    list.info := b.datas[0];
    list.info.idx := 0;
    list.info.data16 := 0x8080;
    var info := new ListData(0x7fff);
    info.data16 := 0xffff;
    assert BuiltFrom(b.heads, 1) == [b.heads[0]];
    var item, mem := CoreListInsertNew(list, info, 1, b);
    mem := InsertItems(list, info, seed, mem, b);
  }

  method BuildIndexed(seed: bv16, b: Blocks) returns (list: ListHead, ghost order: seq<ListHead>)
    requires b.Valid() && 3 <= |b.heads|
    modifies b.heads, b.datas
    ensures IsList(list, order) && |order| == |b.heads| - 1 && DistinctData(Cells(order)) && AllFrom(order, b)
    ensures Contents(order) == InitCells(seed, |b.heads|)
  {
    hide Low16, ItemData, InitIdx, Built, Filled, BuiltFrom, SlotCell, IsList, DistinctData, AllFrom, Contents, Cells;
    var size := |b.heads|;
    list := BuildList(seed, b);
    order := BuiltFrom(b.heads, size - 1);
    BuiltCells(b, seed, size - 1);
    ghost var cells := Cells(order);
    FromBlocks(b, seed, size - 1);
    IndexItems(list, seed, size, order, cells);
    IndexedCells(seed, size, order, cells);
  }

  lemma FromBlocks(b: Blocks, seed: bv16, mem: nat)
    requires b.Valid() && Built(b, mem)
    ensures AllFrom(BuiltFrom(b.heads, mem), b) && IsList(b.heads[0], BuiltFrom(b.heads, mem))
    ensures forall j | 0 <= j < mem :: Cells(BuiltFrom(b.heads, mem))[j] in b.datas
  {
  }

  lemma IndexedCells(seed: bv16, size: nat, order: seq<ListHead>, cells: seq<ListData>)
    requires 3 <= size && |order| == size - 1 && cells == Cells(order)
    requires forall j | 0 <= j < |cells| :: cells[j].data16 == SlotCell(seed, if j == 0 then 0 else size - 1 - j).data
    requires forall j | 0 <= j < |cells| ::
               cells[j].idx == if 0 < j < |order| - 1 then InitIdx(seed, size, j)
                 else SlotCell(seed, if j == 0 then 0 else size - 1 - j).idx
    ensures Contents(order) == InitCells(seed, size)
  {
    hide ItemData, InitIdx;
    assert forall j | 0 <= j < |order| :: Contents(order)[j] == Cell(cells[j].data16, cells[j].idx);
  }

  ghost predicate AllFrom(nodes: seq<ListHead>, b: Blocks)
    reads nodes
  {
    forall i | 0 <= i < |nodes| :: nodes[i] in b.heads && nodes[i].info in b.datas
  }

  method CoreListInit(seed: bv16, b: Blocks) returns (list: ListHead, ghost cur: seq<ListHead>)
    requires b.Valid() && 3 <= |b.heads|
    modifies b.heads, b.datas
    ensures IsList(list, cur) && |cur| == |b.heads| - 1 && DistinctData(Cells(cur))
    ensures SortedAs(IdxRegen, InitCells(seed, |b.heads|), Contents(cur))
  {
    ghost var order;
    list, order := BuildIndexed(seed, b);
    ghost var c := CtxOf(IdxRegen, order);
    hide InitCells, SortedAs, AllEvolved, Contents, Values;
    list, cur := SortList(list, ByIndex, null, order, c);
    CurCells(IdxRegen, cur, c);
  }
}
