/**
  The elementary operations on the benchmark list (software/coremark_app/cmark.c:680-788): find, reverse,
  remove and its undo, and the move of the cell behind a hit to the place behind the head.
*/
module ListOps {
  import opened Words
  import opened ListCells
  import opened ListSort

  datatype Cell = Cell(data: bv16, idx: S16)

  // What the list holds, in list order.
  ghost function Contents(nodes: seq<ListHead>): (s: seq<Cell>)
    reads nodes, Cells(nodes)
    ensures |s| == |nodes|
  {
    seq(|nodes|, i requires 0 <= i < |nodes| reads nodes, Cells(nodes) =>
      assert nodes[i].info == Cells(nodes)[i]; Cell(nodes[i].info.data16, nodes[i].info.idx))
  }

  lemma CellIs(nodes: seq<ListHead>, i: nat)
    requires i < |nodes|
    ensures Contents(nodes)[i] == Cell(nodes[i].info.data16, nodes[i].info.idx) && nodes[i].info in Cells(nodes)
  {
    assert Cells(nodes)[i] == nodes[i].info;
  }

  lemma CellsOf(nodes: seq<ListHead>, cells: seq<ListData>, s: seq<Cell>)
    requires cells == Cells(nodes) && s == Contents(nodes)
    ensures forall i | 0 <= i < |nodes| :: nodes[i].info == cells[i] && s[i] == Cell(cells[i].data16, cells[i].idx)
  {
  }

  lemma CellsAre(nodes: seq<ListHead>, cells: seq<ListData>, s: seq<Cell>)
    requires |cells| == |nodes| == |s|
    requires forall i | 0 <= i < |nodes| :: nodes[i].info == cells[i] && s[i] == Cell(cells[i].data16, cells[i].idx)
    ensures Cells(nodes) == cells && Contents(nodes) == s
  {
  }

  // node.next := next, where node is cell i.
  method Link(node: ListHead, next: ListHead?, ghost nodes: seq<ListHead>, ghost i: nat)
    requires DistinctNodes(nodes) && i < |nodes| && node == nodes[i]
    modifies node`next
    ensures Links(nodes) == old(Links(nodes))[i := next] && Cells(nodes) == old(Cells(nodes)) &&
            Contents(nodes) == old(Contents(nodes))
  {
    ghost var cells, s, links := Cells(nodes), Contents(nodes), Links(nodes);
    CellsOf(nodes, cells, s);
    NextsAre(nodes, links);
    hide Cells, Contents, Links;
    node.next := next;
    LinksAre(nodes, links[i := next]);
    CellsAre(nodes, cells, s);
  }

  lemma NextIs(nodes: seq<ListHead>, i: nat)
    requires i < |nodes|
    ensures Links(nodes)[i] == nodes[i].next
  {
  }

  // ---------- find ----------

  // By index if info has one, otherwise by the low data byte.
  predicate Matches(c: Cell, info: Cell) {
    if info.idx >= 0 then c.idx == info.idx else c.data & 0xff == info.data
  }

  // The first match, or the length of the list.
  function Position(s: seq<Cell>, info: Cell): (k: nat)
    ensures k <= |s| && (forall i | 0 <= i < k :: !Matches(s[i], info)) && (k < |s| ==> Matches(s[k], info))
  {
    if s == [] || Matches(s[0], info) then 0 else 1 + Position(s[1..], info)
  }

  lemma {:induction false} PositionFrom(s: seq<Cell>, info: Cell, i: nat)
    requires i <= |s| && forall j | 0 <= j < i :: !Matches(s[j], info)
    requires i < |s| ==> Matches(s[i], info)
    ensures Position(s, info) == i
  {
    hide Matches;
    if i > 0 {
      assert forall j | 0 <= j < i - 1 :: s[1..][j] == s[j + 1];
      PositionFrom(s[1..], info, i - 1);
    }
  }

  method CoreListFind(list0: ListHead?, info: ListData, ghost nodes: seq<ListHead>, ghost s: seq<Cell>)
    returns (list: ListHead?)
    requires IsList(list0, nodes) && s == Contents(nodes)
    ensures s == Contents(nodes)
    ensures var k := Position(s, Cell(info.data16, info.idx)); list == if k < |nodes| then nodes[k] else null
  {
    hide Position, DistinctNodes;
    ghost var key, i: nat := Cell(info.data16, info.idx), 0;
    list := list0;
    if info.idx >= 0 {
      while list != null && list.info.idx != info.idx
        invariant i <= |nodes| && list == (if i < |nodes| then nodes[i] else null)
        invariant forall j | 0 <= j < i :: !Matches(s[j], key)
        decreases |nodes| - i
      {
        assert s[i] == Cell(list.info.data16, list.info.idx);
        list := list.next;
        i := i + 1;
      }
    } else {
      while list != null && list.info.data16 & 0xff != info.data16
        invariant i <= |nodes| && list == (if i < |nodes| then nodes[i] else null)
        invariant forall j | 0 <= j < i :: !Matches(s[j], key)
        decreases |nodes| - i
      {
        assert s[i] == Cell(list.info.data16, list.info.idx);
        list := list.next;
        i := i + 1;
      }
    }
    PositionFrom(s, key, i);
  }

  // ---------- reverse ----------

  function Reversed<T>(s: seq<T>): (r: seq<T>)
    ensures |r| == |s| && forall i | 0 <= i < |s| :: r[i] == s[|s| - 1 - i]
  {
    seq(|s|, i requires 0 <= i < |s| => s[|s| - 1 - i])
  }

  // The cell at place i, or NULL off either end.
  function CellAt(nodes: seq<ListHead>, i: int): ListHead? { if 0 <= i < |nodes| then nodes[i] else null }

  method CoreListReverse(list0: ListHead?, ghost nodes: seq<ListHead>) returns (list: ListHead?)
    requires IsList(list0, nodes)
    modifies nodes`next
    ensures IsList(list, Reversed(nodes)) && Cells(nodes) == old(Cells(nodes)) &&
            Contents(nodes) == old(Contents(nodes))
  {
    var l, next: ListHead? := list0, null;
    ghost var i: nat, links := 0, Links(nodes);
    StartsForward(list0, nodes);
    hide *;
    while l != null
      invariant i <= |nodes| && l == CellAt(nodes, i) && next == CellAt(nodes, i - 1) && Turned(nodes, Links(nodes), i)
      invariant Cells(nodes) == old(Cells(nodes)) && Contents(nodes) == old(Contents(nodes))
      decreases |nodes| - i
    {
      links := Links(nodes);
      TurnOne(nodes, links, i);
      NextIs(nodes, i);
      var tmp := l.next;
      Link(l, next, nodes, i);
      next := l;
      l := tmp;
      i := i + 1;
    }
    list := next;
    EndsBackward(list, nodes, i);
  }

  // The first i cells point backward, the others still forward.
  ghost predicate Turned(nodes: seq<ListHead>, links: seq<ListHead?>, i: nat) {
    |links| == |nodes| && forall j | 0 <= j < |nodes| :: links[j] == if j < i then CellAt(nodes, j - 1)
      else CellAt(nodes, j + 1)
  }

  lemma TurnOne(nodes: seq<ListHead>, links: seq<ListHead?>, i: nat)
    requires Turned(nodes, links, i) && CellAt(nodes, i) != null
    ensures i < |nodes| == |links| && CellAt(nodes, i) == nodes[i] && links[i] == CellAt(nodes, i + 1)
    ensures Turned(nodes, links[i := CellAt(nodes, i - 1)], i + 1)
  {
  }

  lemma NextsAre(nodes: seq<ListHead>, links: seq<ListHead?>)
    requires links == Links(nodes)
    ensures forall j | 0 <= j < |nodes| :: nodes[j].next == links[j]
  {
  }

  lemma LinksAre(nodes: seq<ListHead>, links: seq<ListHead?>)
    requires |links| == |nodes| && forall j | 0 <= j < |nodes| :: nodes[j].next == links[j]
    ensures Links(nodes) == links
  {
  }

  lemma StartsForward(list: ListHead?, nodes: seq<ListHead>)
    requires IsList(list, nodes)
    ensures DistinctNodes(nodes) && list == CellAt(nodes, 0) && CellAt(nodes, -1) == null &&
            Turned(nodes, Links(nodes), 0)
  {
  }

  lemma EndsBackward(list: ListHead?, nodes: seq<ListHead>, i: nat)
    requires DistinctNodes(nodes) && i <= |nodes| && CellAt(nodes, i) == null && list == CellAt(nodes, i - 1) &&
             Turned(nodes, Links(nodes), i)
    ensures IsList(list, Reversed(nodes))
  {
    var r := Reversed(nodes);
    forall j | 0 <= j < |r| ensures r[j].next == CellAt(r, j + 1) {
      assert r[j] == nodes[|nodes| - 1 - j] && Links(nodes)[|nodes| - 1 - j] == r[j].next;
    }
  }

  // ---------- remove and undo ----------

  function Without<T>(s: seq<T>, k: nat): seq<T>
    requires k < |s|
  {
    s[..k] + s[k + 1..]
  }

  function Inserted<T>(s: seq<T>, k: nat, x: T): seq<T>
    requires k <= |s|
  {
    s[..k] + [x] + s[k..]
  }

  // Unlinks the cell behind item and gives its data to item.
  method CoreListRemove(item: ListHead, ghost list: ListHead, ghost nodes: seq<ListHead>, ghost k: nat)
    returns (ret: ListHead)
    requires IsList(list, nodes) && k + 1 < |nodes| && item == nodes[k]
    modifies item, nodes[k + 1]
    ensures ret == nodes[k + 1] && ret.next == null && IsList(list, Without(nodes, k + 1))
    ensures item.info == old(ret.info) && ret.info == old(item.info)
  {
    ret := item.next;
    var tmp := item.info;
    item.info := ret.info;
    ret.info := tmp;
    item.next := item.next.next;
    ret.next := null;
  }

  method CoreListUndoRemove(removed: ListHead, modified: ListHead, ghost list: ListHead, ghost nodes: seq<ListHead>,
                            ghost k: nat) returns (ret: ListHead)
    requires IsList(list, nodes) && k < |nodes| && modified == nodes[k] && removed !in nodes
    modifies removed, modified
    ensures ret == removed && IsList(list, Inserted(nodes, k + 1, removed))
    ensures modified.info == old(removed.info) && removed.info == old(modified.info)
  {
    var tmp := removed.info;
    removed.info := modified.info;
    modified.info := tmp;
    removed.next := modified.next;
    modified.next := removed;
    ret := removed;
  }

  // ---------- behind the head ----------

  // The cell at k moves to the place behind the head.
  function MovedUp<T>(s: seq<T>, k: nat): (r: seq<T>)
    requires 0 < k < |s|
    ensures |r| == |s|
    ensures forall i | 0 <= i < |s| :: r[i] == if i == 1 then s[k] else if 1 < i <= k then s[i - 1] else s[i]
  {
    s[..1] + [s[k]] + s[1..k] + s[k + 1..]
  }

  // The place from which the cell at i has moved.
  function MovedFrom(k: nat, i: nat): nat { if i == 1 then k else if 1 < i <= k then i - 1 else i }

  lemma MovedApart(nodes: seq<ListHead>, k: nat)
    requires DistinctNodes(nodes) && 0 < k < |nodes|
    ensures DistinctNodes(MovedUp(nodes, k))
  {
    var m := MovedUp(nodes, k);
    assert forall i | 0 <= i < |m| :: m[i] == nodes[MovedFrom(k, i)];
    hide MovedUp;
    forall i, j | 0 <= i < j < |m| ensures m[i] != m[j] {
      var x, y := MovedFrom(k, i), MovedFrom(k, j);
      assert x != y && x < |nodes| && y < |nodes|;
      assert nodes[x] != nodes[y];
    }
  }

  // The three assignments, as one.
  function Relinked(nodes: seq<ListHead>, links: seq<ListHead?>, k: nat): seq<ListHead?>
    requires k + 1 < |nodes| == |links|
  {
    var l1 := links[k := links[k + 1]];
    l1[k + 1 := l1[0]][0 := nodes[k + 1]]
  }

  lemma RelinkedIsMoved(list: ListHead, nodes: seq<ListHead>, links: seq<ListHead?>, k: nat)
    requires k + 1 < |nodes| == |links| && DistinctNodes(nodes) && list == nodes[0]
    requires Forward(nodes, links) && Links(nodes) == Relinked(nodes, links, k)
    ensures IsList(list, MovedUp(nodes, k + 1))
  {
    var m := MovedUp(nodes, k + 1);
    MovedApart(nodes, k + 1);
    hide DistinctNodes;
    forall i | 0 <= i < |m| ensures m[i].next == CellAt(m, i + 1) {
      var x := MovedFrom(k + 1, i);
      assert m[i] == nodes[x] && nodes[x].next == Links(nodes)[x];
    }
  }

  method CacheNext(list: ListHead, thisFind: ListHead, ghost nodes: seq<ListHead>, ghost k: nat)
    requires IsList(list, nodes) && k < |nodes| && thisFind == nodes[k]
    modifies nodes`next
    ensures IsList(list, if k + 1 < |nodes| then MovedUp(nodes, k + 1) else nodes)
    ensures Cells(nodes) == old(Cells(nodes)) && Contents(nodes) == old(Contents(nodes))
  {
    ghost var links := Links(nodes);
    StartsForward(list, nodes);
    ListEnd(list, nodes, k);
    FirstCells(list, nodes, links, k);
    hide *;
    if thisFind.next != null {
      var finder := thisFind.next;
      NextIs(nodes, k + 1);
      Link(thisFind, finder.next, nodes, k);
      NextIs(nodes, 0);
      Link(finder, list.next, nodes, k + 1);
      Link(list, finder, nodes, 0);
      assert Links(nodes) == links[k := links[k + 1]][k + 1 := links[k := links[k + 1]][0]][0 := nodes[k + 1]];
      RelinkedIs(nodes, links, k);
      RelinkedIsMoved(list, nodes, links, k);
    }
  }

  lemma FirstCells(list: ListHead, nodes: seq<ListHead>, links: seq<ListHead?>, k: nat)
    requires IsList(list, nodes) && k < |nodes| && links == Links(nodes)
    ensures list == nodes[0] && (k + 1 < |nodes| ==> nodes[k].next == nodes[k + 1]) && Forward(nodes, links)
  {
    if k + 1 < |nodes| { assert nodes[k].next == nodes[k + 1]; }
  }

  ghost predicate Forward(nodes: seq<ListHead>, links: seq<ListHead?>) {
    |links| == |nodes| && forall i | 0 <= i < |nodes| :: links[i] == CellAt(nodes, i + 1)
  }

  lemma RelinkedIs(nodes: seq<ListHead>, links: seq<ListHead?>, k: nat)
    requires k + 1 < |nodes| == |links|
    ensures Relinked(nodes, links, k) ==
            links[k := links[k + 1]][k + 1 := links[k := links[k + 1]][0]][0 := nodes[k + 1]]
  {
  }

  lemma ListEnd(list: ListHead, nodes: seq<ListHead>, k: nat)
    requires IsList(list, nodes) && k < |nodes|
    ensures nodes[k].next != null <==> k + 1 < |nodes|
  {
    if k + 1 < |nodes| { assert nodes[k].next == nodes[k + 1]; }
  }
}
