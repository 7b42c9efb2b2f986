/**
  Customised mnemonics (model/components/capstone/cs.c:718-772, 520-533, 570-587): a linked list, edited in
  place by cs_option, that must act as a map from instruction ids to mnemonics.
*/
module Mnemonics {

  const CS_MNEMONIC_SIZE := 32

  // strncpy into the field, which always ends in NUL.
  function Truncated(s: string): (t: string)
    ensures |t| < CS_MNEMONIC_SIZE
  {
    if |s| < CS_MNEMONIC_SIZE then s else s[..CS_MNEMONIC_SIZE - 1]
  }

  // What is kept is the longest beginning of at most 31 characters.
  lemma TruncatedIs(s: string)
    ensures var t := Truncated(s); t <= s && |t| <= 31 && (|s| <= 31 ==> t == s) && (|s| > 31 ==> |t| == 31)
  {
  }

  class InsnMnem {
    var id: nat
    var mnemonic: string
    var next: InsnMnem?

    constructor (id: nat, mnemonic: string, next: InsnMnem?)
      ensures this.id == id && this.mnemonic == mnemonic && this.next == next
    {
      this.id, this.mnemonic, this.next := id, mnemonic, next;
    }
  }

  datatype Entry = Entry(id: nat, mnemonic: string)

  // The list as a map; of two entries with one id the first would count.
  function AsMap(s: seq<Entry>): (m: map<nat, string>)
    ensures forall x :: x in m <==> exists i :: 0 <= i < |s| && s[i].id == x
  {
    if s == [] then map[] else AsMap(s[1..])[s[0].id := s[0].mnemonic]
  }

  ghost predicate DistinctIds(s: seq<Entry>) { forall i, j | 0 <= i < j < |s| :: s[i].id != s[j].id }

  lemma {:induction false} MapAt(s: seq<Entry>, i: nat)
    requires DistinctIds(s) && i < |s|
    ensures s[i].id in AsMap(s) && AsMap(s)[s[i].id] == s[i].mnemonic
  {
    if i > 0 {
      MapAt(s[1..], i - 1);
      assert s[1..][i - 1] == s[i];
    }
  }

  lemma MapIs(s: seq<Entry>, m: map<nat, string>)
    requires DistinctIds(s)
    requires forall i | 0 <= i < |s| :: s[i].id in m && m[s[i].id] == s[i].mnemonic
    requires forall x | x in m :: HasId(s, x)
    ensures AsMap(s) == m
  {
    hide AsMap;
    forall i | 0 <= i < |s| ensures s[i].id in AsMap(s) && AsMap(s)[s[i].id] == s[i].mnemonic {
      MapAt(s, i);
    }
  }

  ghost predicate HasId(s: seq<Entry>, id: nat) { exists i :: 0 <= i < |s| && s[i].id == id }

  lemma MapReplaced(s: seq<Entry>, i: nat, mnemonic: string)
    requires DistinctIds(s) && i < |s|
    ensures AsMap(s[i := Entry(s[i].id, mnemonic)]) == AsMap(s)[s[i].id := mnemonic]
  {
    hide AsMap;
    var t := s[i := Entry(s[i].id, mnemonic)];
    forall j | 0 <= j < |s| ensures s[j].id in AsMap(s) && AsMap(s)[s[j].id] == s[j].mnemonic && t[j].id == s[j].id {
      MapAt(s, j);
    }
    MapIs(t, AsMap(s)[s[i].id := mnemonic]);
  }

  function Without<T>(s: seq<T>, i: nat): (r: seq<T>)
    requires i < |s|
    ensures |r| == |s| - 1
  {
    s[..i] + s[i + 1..]
  }

  lemma RestDistinct(s: seq<Entry>, i: nat)
    requires DistinctIds(s) && i < |s|
    ensures DistinctIds(Without(s, i))
  {
  }

  lemma MapExtended(s: seq<Entry>, id: nat, mnemonic: string)
    requires DistinctIds(s) && forall i | 0 <= i < |s| :: s[i].id != id
    ensures DistinctIds([Entry(id, mnemonic)] + s) && AsMap([Entry(id, mnemonic)] + s) == AsMap(s)[id := mnemonic]
  {
    assert ([Entry(id, mnemonic)] + s)[1..] == s;
  }

  lemma WithoutAt<T>(s: seq<T>, i: nat, j: nat)
    requires i < |s| && j < |s| - 1
    ensures Without(s, i)[j] == if j < i then s[j] else s[j + 1]
  {
  }

  lemma WithoutEntry(s: seq<Entry>, i: nat, j: nat)
    requires DistinctIds(s) && i < |s| && j < |s| - 1
    ensures var e := Without(s, i)[j]; e.id in AsMap(s) - {s[i].id} && AsMap(s)[e.id] == e.mnemonic
  {
    WithoutAt(s, i, j);
    MapAt(s, if j < i then j else j + 1);
  }

  lemma WithoutHas(s: seq<Entry>, i: nat, x: nat)
    requires i < |s| && HasId(s, x) && x != s[i].id
    ensures HasId(Without(s, i), x)
  {
    var j :| 0 <= j < |s| && s[j].id == x;
    WithoutAt(s, i, if j < i then j else j - 1);
  }

  lemma MapRemoved(s: seq<Entry>, i: nat)
    requires DistinctIds(s) && i < |s|
    ensures AsMap(Without(s, i)) == AsMap(s) - {s[i].id}
  {
    RestDistinct(s, i);
    forall x | x in AsMap(s) - {s[i].id} ensures HasId(Without(s, i), x) { WithoutHas(s, i, x); }
    hide AsMap, Without, DistinctIds, HasId;
    forall j: nat | j < |s| - 1 ensures Without(s, i)[j].id in AsMap(s) - {s[i].id} &&
      AsMap(s)[Without(s, i)[j].id] == Without(s, i)[j].mnemonic {
      WithoutEntry(s, i, j);
    }
    MapIs(Without(s, i), AsMap(s) - {s[i].id});
  }

  ghost predicate NoRepeats(nodes: seq<InsnMnem>) { forall i, j | 0 <= i < j < |nodes| :: nodes[i] != nodes[j] }

  lemma WithoutNoRepeats(nodes: seq<InsnMnem>, k: nat)
    requires NoRepeats(nodes) && k < |nodes|
    ensures NoRepeats(Without(nodes, k))
  {
  }

  ghost function EntriesOf(nodes: seq<InsnMnem>): (s: seq<Entry>)
    reads nodes
    ensures |s| == |nodes|
  {
    seq(|nodes|, i requires 0 <= i < |nodes| reads nodes => Entry(nodes[i].id, nodes[i].mnemonic))
  }

  lemma EntriesWithout(nodes: seq<InsnMnem>, k: nat)
    requires k < |nodes|
    ensures EntriesOf(Without(nodes, k)) == Without(EntriesOf(nodes), k)
  {
  }

  ghost function Nexts(nodes: seq<InsnMnem>): (s: seq<InsnMnem?>)
    reads nodes
    ensures |s| == |nodes|
  {
    seq(|nodes|, i requires 0 <= i < |nodes| reads nodes => nodes[i].next)
  }

  lemma NextsWithout(nodes: seq<InsnMnem>, k: nat)
    requires k < |nodes|
    ensures Nexts(Without(nodes, k)) == Without(Nexts(nodes), k)
  {
  }

  function At(nodes: seq<InsnMnem>, i: nat): InsnMnem? { if i < |nodes| then nodes[i] else null }

  // From head on every node leads to the one behind it, the last to NULL.
  ghost predicate Chained(head: InsnMnem?, nodes: seq<InsnMnem>, nexts: seq<InsnMnem?>) {
    |nexts| == |nodes| && head == At(nodes, 0) && forall i | 0 <= i < |nodes| :: nexts[i] == At(nodes, i + 1)
  }

  lemma AtWithout(nodes: seq<InsnMnem>, k: nat, i: nat)
    requires k < |nodes|
    ensures At(Without(nodes, k), i) == At(nodes, if i < k then i else i + 1)
  {
  }

  // Leading past node k takes it out of the chain.
  lemma ChainedWithout(head: InsnMnem?, nodes: seq<InsnMnem>, nexts: seq<InsnMnem?>, k: nat)
    requires k < |nodes| && Chained(head, nodes, nexts)
    ensures Chained(if k == 0 then nexts[0] else head, Without(nodes, k),
            Without(if k == 0 then nexts else nexts[k - 1 := nexts[k]], k))
  {
    var bypassed := if k == 0 then nexts else nexts[k - 1 := nexts[k]];
    AtWithout(nodes, k, 0);
    forall i: nat | i < |nodes| - 1 ensures Without(bypassed, k)[i] == At(Without(nodes, k), i + 1) {
      AtWithout(nodes, k, i + 1);
      WithoutAt(bypassed, k, i);
    }
  }

  ghost predicate ShortNames(s: seq<Entry>) { forall i | 0 <= i < |s| :: |s[i].mnemonic| < CS_MNEMONIC_SIZE }

  lemma ShortWithout(s: seq<Entry>, k: nat)
    requires k < |s| && ShortNames(s)
    ensures ShortNames(Without(s, k))
  {
  }

  lemma WithoutIn(nodes: seq<InsnMnem>, k: nat)
    requires k < |nodes|
    ensures forall i | 0 <= i < |Without(nodes, k)| :: Without(nodes, k)[i] in nodes
  {
  }

  class Engine {
    var mnemList: InsnMnem?
    ghost var nodes: seq<InsnMnem>

    constructor ()
      ensures Valid() && Contents() == map[] && nodes == []
    {
      mnemList, nodes := null, [];
    }

    // The list is the acyclic chain of these nodes, with one entry for each id.
    ghost predicate Valid()
      reads this, nodes
    {
      NoRepeats(nodes) && Chained(mnemList, nodes, Nexts(nodes)) && DistinctIds(Entries()) && ShortNames(Entries())
    }

    ghost function Entries(): (s: seq<Entry>)
      reads this, nodes
      ensures |s| == |nodes|
    {
      EntriesOf(nodes)
    }

    ghost function Contents(): map<nat, string>
      reads this, nodes
    {
      AsMap(Entries())
    }

    // The node with this id, or NULL.
    method Find(id: nat) returns (tmp: InsnMnem?, ghost k: nat)
      requires Valid()
      ensures k <= |nodes| && tmp == At(nodes, k) && (tmp != null ==> tmp.id == id) &&
              forall i | 0 <= i < k :: nodes[i].id != id
    {
      tmp, k := mnemList, 0;
      while tmp != null
        invariant k <= |nodes| && tmp == At(nodes, k)
        invariant forall i | 0 <= i < k :: nodes[i].id != id
        decreases |nodes| - k
      {
        if tmp.id == id { return; }
        assert tmp.next == Nexts(nodes)[k];
        tmp := tmp.next;
        k := k + 1;
      }
    }

    // CS_OPT_MNEMONIC with a mnemonic: replace the entry of this id, or head the list with a new one.
    method SetMnemonic(id: nat, mnemonic: string)
      requires Valid()
      modifies this, nodes
      ensures Valid() && fresh(set x | x in nodes && x !in old(nodes))
      ensures Contents() == if id == 0 then old(Contents()) else old(Contents())[id := Truncated(mnemonic)]
    {
      hide AsMap, Truncated, DistinctIds;
      if id == 0 { return; }
      ghost var k;
      var tmp;
      tmp, k := Find(id);
      if tmp != null {
        Rename(tmp, mnemonic, k);
      } else {
        AddFirst(id, mnemonic);
      }
    }

    method Rename(tmp: InsnMnem, mnemonic: string, ghost k: nat)
      requires Valid() && k < |nodes| && tmp == nodes[k]
      modifies nodes
      ensures Valid() && nodes == old(nodes) && Contents() == old(Contents())[old(tmp.id) := Truncated(mnemonic)]
    {
      hide AsMap, Truncated;
      ghost var s := Entries();
      tmp.mnemonic := Truncated(mnemonic);
      assert Entries() == s[k := Entry(tmp.id, Truncated(mnemonic))];
      assert Nexts(nodes) == old(Nexts(nodes));
      MapReplaced(s, k, Truncated(mnemonic));
    }

    method AddFirst(id: nat, mnemonic: string)
      requires Valid() && forall i | 0 <= i < |nodes| :: nodes[i].id != id
      modifies this
      ensures Valid() && |nodes| > 0 && fresh(nodes[0]) && nodes[1..] == old(nodes)
      ensures Contents() == old(Contents())[id := Truncated(mnemonic)]
    {
      hide AsMap, Truncated;
      ghost var s := Entries();
      var tmp := new InsnMnem(id, Truncated(mnemonic), mnemList);
      mnemList := tmp;
      nodes := [tmp] + nodes;
      assert Nexts(nodes) == [tmp.next] + old(Nexts(nodes));
      assert Entries() == [Entry(id, Truncated(mnemonic))] + s;
      MapExtended(s, id, Truncated(mnemonic));
    }

    lemma BypassedBy(tmp: InsnMnem, prev: InsnMnem, k: nat)
      requires Valid() && k < |nodes| && tmp == nodes[k] && prev == nodes[if k == 0 then 0 else k - 1]
      ensures (tmp == prev <==> k == 0) && forall i | 0 <= i < |nodes| && i + 1 != k && k > 0 :: nodes[i] != prev
    {
    }

    method Unlink(tmp: InsnMnem, prev: InsnMnem, ghost k: nat)
      requires Valid() && k < |nodes| && tmp == nodes[k] && prev == nodes[if k == 0 then 0 else k - 1]
      modifies this, nodes
      ensures Entries() == Without(old(Entries()), k)
      ensures Valid() && forall i | 0 <= i < |nodes| :: nodes[i] in old(nodes)
    {
      ghost var s, all, head, nexts := Entries(), nodes, mnemList, Nexts(nodes);
      BypassedBy(tmp, prev, k);
      hide Without, DistinctIds, NoRepeats, Chained, ShortNames;
      if tmp == prev {
        mnemList := tmp.next;
      } else {
        prev.next := tmp.next;
      }
      nodes := Without(all, k);
      assert EntriesOf(all) == s;
      assert Nexts(all) == if k == 0 then nexts else nexts[k - 1 := nexts[k]];
      assert mnemList == if k == 0 then nexts[0] else head;
      hide EntriesOf, Nexts;
      EntriesWithout(all, k);
      NextsWithout(all, k);
      ChainedWithout(head, all, nexts, k);
      WithoutNoRepeats(all, k);
      WithoutIn(all, k);
      RestDistinct(s, k);
      ShortWithout(s, k);
    }

    // CS_OPT_MNEMONIC without a mnemonic: take the entry of this id out of the list.
    method DeleteMnemonic(id: nat)
      requires Valid()
      modifies this, nodes
      ensures Valid() && forall i | 0 <= i < |nodes| :: nodes[i] in old(nodes)
      ensures Contents() == if id == 0 then old(Contents()) else old(Contents()) - {id}
    {
      hide AsMap, DistinctIds;
      if id == 0 { return; }
      ghost var s := Entries();
      var tmp, prev := mnemList, mnemList;
      ghost var k: nat := 0;
      while tmp != null
        invariant k <= |nodes| && tmp == At(nodes, k) && prev == At(nodes, if k == 0 then 0 else k - 1)
        invariant forall i | 0 <= i < k :: nodes[i].id != id
        decreases |nodes| - k
      {
        if tmp.id == id {
          Unlink(tmp, prev, k);
          MapRemoved(s, k);
          return;
        }
        assert tmp.next == Nexts(nodes)[k];
        prev := tmp;
        tmp := tmp.next;
        k := k + 1;
      }
    }

    // fill_insn: a customised mnemonic takes the place of as many characters as the default name has, whatever they
    // are, if the outcome fits the field. A default name longer than the text would make the code read past its end.
    method FillMnemonic(id: nat, name: string, target: string) returns (result: string)
      requires Valid() && |target| < CS_MNEMONIC_SIZE && |name| <= |target|
      ensures result == Customised(Contents(), id, name, target) && |result| < CS_MNEMONIC_SIZE
    {
      hide AsMap;
      result := target;
      var tmp;
      ghost var k;
      tmp, k := Find(id);
      if tmp != null {
        MapAt(Entries(), k);
        if |target| - |name| + |tmp.mnemonic| < CS_MNEMONIC_SIZE - 1 {
          result := tmp.mnemonic + target[|name|..];
        }
      }
    }
  }

  function Customised(m: map<nat, string>, id: nat, name: string, target: string): string
    requires |name| <= |target|
  {
    if id in m && |target| - |name| + |m[id]| < CS_MNEMONIC_SIZE - 1 then m[id] + target[|name|..] else target
  }

  predicate NoBlank(s: string) { forall i | 0 <= i < |s| :: s[i] != ' ' }

  // Where the text starts with the name, the customised mnemonic takes exactly its place.
  lemma NameReplaced(m: map<nat, string>, id: nat, name: string, rest: string)
    requires id in m && |rest| + |m[id]| < CS_MNEMONIC_SIZE - 1
    ensures Customised(m, id, name, name + rest) == m[id] + rest
  {
    assert (name + rest)[|name|..] == rest;
  }

  // Behind a prefix of the instruction, such as "lock", it does so exactly if it is the default name itself and the
  // prefix happens to start with it: no other mnemonic survives a prefix.
  lemma PrefixIff(m: map<nat, string>, id: nat, prefix: string, name: string, rest: string)
    requires id in m && name != "" && NoBlank(prefix) && NoBlank(name) && NoBlank(m[id])
    requires |prefix| + 1 + |m[id]| + |rest| < CS_MNEMONIC_SIZE - 1
    ensures Customised(m, id, name, prefix + " " + name + rest) == prefix + " " + m[id] + rest <==>
            m[id] == name && name <= prefix
  {
    var target, mnemonic := prefix + " " + name + rest, m[id];
    var done, wanted := mnemonic + target[|name|..], prefix + " " + mnemonic + rest;
    if m[id] == name && name <= prefix {
      assert target == name + target[|name|..];
    }
    if done == wanted {
      BlankStays(prefix, name, rest, mnemonic);
      NameStays(prefix, name, rest, mnemonic);
    }
  }

  // The first blank of the outcome is the one of the prefix only if the mnemonic is as long as the name.
  lemma BlankStays(prefix: string, name: string, rest: string, mnemonic: string)
    requires NoBlank(prefix) && NoBlank(name) && NoBlank(mnemonic)
    requires mnemonic + (prefix + " " + name + rest)[|name|..] == prefix + " " + mnemonic + rest
    ensures |mnemonic| == |name| <= |prefix|
  {
    var target, p := prefix + " " + name + rest, |prefix|;
    var done, wanted := mnemonic + target[|name|..], prefix + " " + mnemonic + rest;
    assert wanted[p] == ' ';
    assert done[p] == target[|name| + p - |mnemonic|];
    if |name| <= p {
      var q := p - |name| + |mnemonic|;
      assert done[q] == target[p] == ' ';
    }
  }

  lemma NameStays(prefix: string, name: string, rest: string, mnemonic: string)
    requires |mnemonic| == |name| <= |prefix|
    requires mnemonic + (prefix + " " + name + rest)[|name|..] == prefix + " " + mnemonic + rest
    ensures mnemonic == name && name <= prefix
  {
    var target, p := prefix + " " + name + rest, |prefix|;
    var done, wanted := mnemonic + target[|name|..], prefix + " " + mnemonic + rest;
    forall i | 0 <= i < |name| ensures mnemonic[i] == prefix[i] && mnemonic[i] == name[i] {
      assert done[i] == wanted[i];
      assert done[p + 1 + i] == wanted[p + 1 + i];
      assert done[p + 1 + i] == target[p + 1 + i] == name[i];
    }
  }

  // For instance "lock add" with "plus" for "add".
  lemma PrefixGarbled()
    ensures Customised(map[8 := "plus"], 8, "add", "lock add") == "plusk add"
  {
  }

  // ---------- runs of options ----------

  datatype Option = Set(id: nat, mnemonic: string) | Delete(id: nat)

  function Applied(m: map<nat, string>, op: Option): map<nat, string> {
    if op.id == 0 then m
    else match op
      case Set(id, mnemonic) => m[id := Truncated(mnemonic)]
      case Delete(id) => m - {id}
  }

  function RunOf(ops: seq<Option>): map<nat, string> {
    if ops == [] then map[] else Applied(RunOf(ops[..|ops| - 1]), ops[|ops| - 1])
  }

  // The last option given for an id.
  function LastFor(ops: seq<Option>, id: nat): (k: int)
    ensures -1 <= k < |ops| && (k >= 0 ==> ops[k].id == id) && forall i | k < i < |ops| :: ops[i].id != id
  {
    if ops == [] then -1 else if ops[|ops| - 1].id == id then |ops| - 1 else LastFor(ops[..|ops| - 1], id)
  }

  // After any run of options an id has exactly the mnemonic it was last given, or none if it was deleted since.
  lemma {:induction false} LastOptionCounts(ops: seq<Option>, id: nat)
    requires id != 0
    ensures var k := LastFor(ops, id);
            if k >= 0 && ops[k].Set? then id in RunOf(ops) && RunOf(ops)[id] == Truncated(ops[k].mnemonic)
              else id !in RunOf(ops)
  {
    if ops != [] {
      LastOptionCounts(ops[..|ops| - 1], id);
    }
  }

  method Configure(ops: seq<Option>) returns (e: Engine)
    ensures e.Valid() && e.Contents() == RunOf(ops)
  {
    hide AsMap, Truncated;
    e := new Engine();
    for i := 0 to |ops|
      invariant e.Valid() && e.Contents() == RunOf(ops[..i]) && fresh(e) && fresh(set x | x in e.nodes)
    {
      assert ops[..i + 1][..i] == ops[..i];
      match ops[i]
      case Set(id, mnemonic) => e.SetMnemonic(id, mnemonic);
      case Delete(id) => e.DeleteMnemonic(id);
    }
    assert ops[..|ops|] == ops;
  }
}
