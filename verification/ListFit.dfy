/**
  Whether the list that core_list_init builds (software/coremark_app/cmark.c:577-669) is fit for the benchmark: its data
  always is; whether its cells have different indices depends on the seed and on the size.
*/
module ListFit {
  import opened Words
  import opened Division
  import opened MergeOrder
  import opened ListCells
  import opened ListSort
  import opened ListOps
  import opened ListBench
  import opened ListRuns
  import opened ListInit

  // ---------- is the new list fit for the benchmark? ----------

  ghost predicate IndicesDiffer(s: seq<Cell>) { forall i, j | 0 <= i < j < |s| :: s[i].idx != s[j].idx }

  ghost predicate IndicesRise(s: seq<Cell>) { forall i, j | 0 <= i < j < |s| :: s[i].idx < s[j].idx }

  // Sorting by index is strict exactly if no two cells share an index.
  lemma RiseIffDiffer(a: seq<Cell>, b: seq<Cell>)
    requires SortedAs(IdxRegen, a, b)
    ensures IndicesRise(b) <==> IndicesDiffer(a)
  {
    hide Evolves, Settled;
    var seen, perm :| SortedBy(IdxRegen, a, b, seen, perm);
    SortedByIndex(a, b);
    if IndicesDiffer(a) {
      forall i, j | 0 <= i < j < |b| ensures b[i].idx < b[j].idx {
        assert perm[i] != perm[j];
      }
    }
    if IndicesRise(b) {
      forall i, j | 0 <= i < j < |a| ensures a[i].idx != a[j].idx {
        PermOnto(perm, |a|, i);
        PermOnto(perm, |a|, j);
        var x :| 0 <= x < |perm| && perm[x] == i;
        var y :| 0 <= y < |perm| && perm[y] == j;
        assert b[x].idx == a[i].idx && b[y].idx == a[j].idx;
      }
    }
  }

  // Every cell is built with its low byte equal to its backup, so the sort leaves the data alone.
  lemma BuiltWithBackup(seed: bv16, i: nat)
    ensures SlotCell(seed, i).data == Regenerated(SlotCell(seed, i).data)
  {
    if i > 1 { ItemBackup(seed, Low16(i - 2)); }
  }

  lemma ItemBackup(seed: bv16, i: bv16)
    ensures var dat := (((seed ^ i) & 0xf) << 3) | (i & 7); (dat << 8) | dat == Regenerated((dat << 8) | dat)
  {
  }

  // The sort leaves the data alone: every cell comes as it was built, in order of index.
  lemma BuiltInOrder(seed: bv16, size: nat, s: seq<Cell>) returns (perm: seq<nat>)
    requires 3 <= size && SortedAs(IdxRegen, InitCells(seed, size), s)
    ensures |s| == size - 1 && IsPerm(perm, size - 1) &&
            forall i | 0 <= i < |s| :: s[i] == InitCells(seed, size)[perm[i]]
  {
    hide Settled;
    var a := InitCells(seed, size);
    var seen, p :| SortedBy(IdxRegen, a, s, seen, p);
    perm := p;
    forall i | 0 <= i < |s| ensures s[i] == a[p[i]] {
      BuiltWithBackup(seed, SlotOf(size, p[i]));
      BuiltFromSlot(seed, size, p[i]);
    }
  }

  // The slot of the cell in place j of the unsorted list.
  function SlotOf(size: nat, j: nat): (i: nat)
    requires 3 <= size && j < size - 1
  {
    if j == 0 then 0 else if j == size - 2 then 1 else size - 1 - j
  }

  lemma BuiltFromSlot(seed: bv16, size: nat, j: nat)
    requires 3 <= size && j < size - 1
    ensures InitCells(seed, size)[j].data == SlotCell(seed, SlotOf(size, j)).data
  {
    hide ItemData;
  }

  // What core_list_init returns is what iterate needs, except that the head may share its index. The indices differ
  // exactly if those of the unsorted list do.
  lemma FreshListReady(seed: bv16, size: nat, cur: seq<ListHead>)
    requires 3 <= size && SortedAs(IdxRegen, InitCells(seed, size), Contents(cur))
    ensures OwnBackup(Values(Cells(cur))) && Rising(Indices(Cells(cur)))
    ensures AllDistinct(Indices(Cells(cur))) <==> IndicesDiffer(InitCells(seed, size))
  {
    var s := Contents(cur);
    ContentsAre(cur);
    var perm := BuiltInOrder(seed, size, s);
    SortedByIndex(InitCells(seed, size), s);
    RiseIffDiffer(InitCells(seed, size), s);
    hide Contents, Cells, Values, Indices, InitCells, SortedAs;
    forall r | 0 <= r < |cur| ensures Values(Cells(cur))[r] == Regenerated(Values(Cells(cur))[r]) {
      BuiltWithBackup(seed, SlotOf(size, perm[r]));
      BuiltFromSlot(seed, size, perm[r]);
    }
    assert forall r | 0 <= r < |cur| :: Indices(Cells(cur))[r] == s[r].idx;
  }

  // The head shares its index, which is 0, exactly if some mixed index is 0.
  lemma HeadAloneIff(seed: bv16, size: nat, cur: seq<ListHead>)
    requires 3 <= size <= 0x2_8000 && SortedAs(IdxRegen, InitCells(seed, size), Contents(cur))
    ensures HeadAlone(Indices(Cells(cur))) <==> forall j: nat | Max(1, size / 5) <= j < size - 2 ::
            InitIdx(seed, size, j) != 0
  {
    var s, a := Contents(cur), InitCells(seed, size);
    ContentsAre(cur);
    var perm := BuiltInOrder(seed, size, s);
    SortedByIndex(a, s);
    ZeroIndices(seed, size);
    hide Contents, Cells, Values, Indices, InitCells, SortedAs, InitIdx, Max;
    assert forall r | 0 <= r < |cur| :: Indices(Cells(cur))[r] == s[r].idx;
    FirstAloneIff(a, s, perm);
  }

  // Seed 7 in 31 slots, what the standard 2000 bytes leave for the list, ties the head with the cell in place 7.
  lemma SeedTiesHead(cur: seq<ListHead>)
    requires SortedAs(IdxRegen, InitCells(7, 31), Contents(cur))
    ensures !HeadAlone(Indices(Cells(cur)))
  {
    HeadAloneIff(7, 31, cur);
    SevenIsZero();
    hide InitIdx, HeadAlone, InitCells;
    assert Max(1, 31 / 5) <= 7 < 31 - 2;
  }

  lemma SevenIsZero()
    ensures InitIdx(7, 31, 7) == 0
  {
    hide *;
    SevenAndEight();
    NothingMixed();
    IdxIsMixed(7, 31, 7);
  }

  lemma SevenAndEight()
    ensures Low16(7) == 7 && Low16(8) == 8
  {
    LowIsSmall(7);
    LowIsSmall(8);
  }

  lemma LowIsSmall(j: nat)
    requires j < 0x1_0000
    ensures Low16(j) == j as bv16
  {
    assert j % 0x1_0000 == j;
  }

  lemma NothingMixed()
    ensures MixedIdx(Pat(7, 7), 8) == 0
  {
    assert Mixed(Pat(7, 7), 8) == 0;
  }

  lemma ZeroIndices(seed: bv16, size: nat)
    requires 3 <= size <= 0x2_8000
    ensures var a := InitCells(seed, size);
            a[0].idx == 0 && (forall r | 0 <= r < |a| :: a[r].idx >= 0) &&
            ((forall r | 0 < r < |a| :: a[r].idx != 0) <==>
              forall j: nat | Max(1, size / 5) <= j < size - 2 :: InitIdx(seed, size, j) != 0)
  {
    var a, q := InitCells(seed, size), Max(1, size / 5);
    hide ItemData, MixedIdx, Low16, Pat;
    assert a[0] == SlotCell(seed, 0) && a[size - 2] == SlotCell(seed, 1) && q >= 1;
    forall r | 0 < r < size - 2 ensures a[r].idx == InitIdx(seed, size, r) && (r < q ==> a[r].idx == r) &&
      a[r].idx >= 0 {
      IdxInOrder(seed, size, r);
    }
    hide InitCells, SlotCell, InitIdx, Max;
    if forall j: nat | q <= j < size - 2 :: InitIdx(seed, size, j) != 0 {
      forall r | 0 < r < |a| ensures a[r].idx != 0 {
      }
    }
    if forall r | 0 < r < |a| :: a[r].idx != 0 {
      forall j: nat | q <= j < size - 2 ensures InitIdx(seed, size, j) != 0 {
        assert a[j].idx == InitIdx(seed, size, j);
      }
    }
  }

  lemma IdxInOrder(seed: bv16, size: nat, r: nat)
    requires 3 <= size <= 0x2_8000
    ensures InitIdx(seed, size, r) >= 0 && (0 < r < Max(1, size / 5) ==> InitIdx(seed, size, r) == r) &&
            Max(1, size / 5) >= 1
  {
    hide MixedIdx, Low16, Pat;
  }

  lemma FirstAloneIff(a: seq<Cell>, b: seq<Cell>, perm: seq<nat>)
    requires 0 < |a| == |b| && IsPerm(perm, |a|) && ByIndexOrder(b) && forall i | 0 <= i < |b| :: b[i] == a[perm[i]]
    requires a[0].idx == 0 && forall r | 0 <= r < |a| :: a[r].idx >= 0
    ensures (forall i | 0 < i < |b| :: b[0].idx < b[i].idx) <==> (forall r | 0 < r < |a| :: a[r].idx != 0)
  {
    PermOnto(perm, |a|, 0);
    var x :| 0 <= x < |perm| && perm[x] == 0;
    assert b[0].idx == 0;
    if r :| 0 < r < |a| && a[r].idx == 0 {
      PermOnto(perm, |a|, r);
      var y :| 0 <= y < |perm| && perm[y] == r;
      assert b[x].idx == 0 && b[y].idx == 0;
    }
  }

  // ---------- when do the indices differ? ----------

  // ----- bits -----

  lemma BitsOf(x: nat)
    requires x < 0x1_0000
    ensures (x as bv16 & 0x1 != 0 <==> x % 2 == 1) && (x as bv16 & 0x2 != 0 <==> x / 0x2 % 2 == 1)
    ensures (x as bv16 & 0x4 != 0 <==> x / 0x4 % 2 == 1) && (x as bv16 & 0x8 != 0 <==> x / 0x8 % 2 == 1)
    ensures (x as bv16 & 0x10 != 0 <==> x / 0x10 % 2 == 1) && (x as bv16 & 0x20 != 0 <==> x / 0x20 % 2 == 1)
    ensures (x as bv16 & 0x40 != 0 <==> x / 0x40 % 2 == 1) && (x as bv16 & 0x80 != 0 <==> x / 0x80 % 2 == 1)
    ensures (x as bv16 & 0x100 != 0 <==> x / 0x100 % 2 == 1)
  {
  }

  lemma HighBitsOf(x: nat)
    requires x < 0x1_0000
    ensures (x as bv16 & 0x200 != 0 <==> x / 0x200 % 2 == 1) && (x as bv16 & 0x400 != 0 <==> x / 0x400 % 2 == 1)
    ensures (x as bv16 & 0x800 != 0 <==> x / 0x800 % 2 == 1) && (x as bv16 & 0x1000 != 0 <==> x / 0x1000 % 2 == 1)
    ensures (x as bv16 & 0x2000 != 0 <==> x / 0x2000 % 2 == 1) && (x as bv16 & 0x4000 != 0 <==> x / 0x4000 % 2 == 1)
    ensures (x as bv16 & 0x8000 != 0 <==> x / 0x8000 % 2 == 1)
  {
  }

  predicate SameLowBits(a: bv16, b: bv16) {
    (a & 0x1 != 0 <==> b & 0x1 != 0) && (a & 0x2 != 0 <==> b & 0x2 != 0) && (a & 0x4 != 0 <==> b & 0x4 != 0) &&
    (a & 0x8 != 0 <==> b & 0x8 != 0) && (a & 0x10 != 0 <==> b & 0x10 != 0) && (a & 0x20 != 0 <==> b & 0x20 != 0) &&
    (a & 0x40 != 0 <==> b & 0x40 != 0) && (a & 0x80 != 0 <==> b & 0x80 != 0)
  }

  predicate SameHighBits(a: bv16, b: bv16) {
    (a & 0x200 != 0 <==> b & 0x200 != 0) && (a & 0x400 != 0 <==> b & 0x400 != 0) &&
    (a & 0x800 != 0 <==> b & 0x800 != 0) &&
    (a & 0x1000 != 0 <==> b & 0x1000 != 0) && (a & 0x2000 != 0 <==> b & 0x2000 != 0) &&
    (a & 0x4000 != 0 <==> b & 0x4000 != 0) && (a & 0x8000 != 0 <==> b & 0x8000 != 0)
  }

  lemma SameBits(a: bv16, b: bv16)
    requires SameLowBits(a, b) && SameHighBits(a, b) && a & 0x100 == 0 && b & 0x100 != 0
    ensures b == a | 0x100
  {
  }

  lemma LowHalves(x: nat)
    ensures (x + 0x100) % 2 == x % 2 && (x + 0x100) / 2 % 2 == x / 2 % 2 && (x + 0x100) / 4 % 2 == x / 4 % 2
    ensures (x + 0x100) / 8 % 2 == x / 8 % 2 && (x + 0x100) / 0x10 % 2 == x / 0x10 % 2
    ensures (x + 0x100) / 0x20 % 2 == x / 0x20 % 2 && (x + 0x100) / 0x40 % 2 == x / 0x40 % 2
    ensures (x + 0x100) / 0x80 % 2 == x / 0x80 % 2
  {
    AddEven(x, 1, 128);
    AddEven(x, 2, 64);
    AddEven(x, 4, 32);
    AddEven(x, 8, 16);
    AddEven(x, 0x10, 8);
    AddEven(x, 0x20, 4);
    AddEven(x, 0x40, 2);
    AddEven(x, 0x80, 1);
  }

  lemma AddEven(x: nat, d: nat, e: nat)
    requires 0 < d
    ensures (x + d * (2 * e)) / d % 2 == x / d % 2
  {
    var q := x / d;
    assert x + d * (2 * e) == d * (q + 2 * e) + x % d;
    QuotientIs(x + d * (2 * e), d, q + 2 * e, x % d);
    SameParity(q, e);
  }

  lemma SameParity(q: nat, e: nat)
    ensures (q + 2 * e) % 2 == q % 2
  {
  }

  lemma Bit8(x: nat)
    requires x % 0x200 < 0x100
    ensures x / 0x100 % 2 == 0 && (x + 0x100) / 0x100 % 2 == 1
  {
    var m, r := x / 0x200, x % 0x200;
    assert x == 0x200 * m + r;
    QuotientIs(x, 0x100, 2 * m, r);
    QuotientIs(x + 0x100, 0x100, 2 * m + 1, r);
  }

  lemma HighHalves(x: nat)
    requires x % 0x200 < 0x100
    ensures (x + 0x100) / 0x200 == x / 0x200 && (x + 0x100) / 0x400 == x / 0x400 && (x + 0x100) / 0x800 == x / 0x800
    ensures (x + 0x100) / 0x1000 == x / 0x1000 && (x + 0x100) / 0x2000 == x / 0x2000
    ensures (x + 0x100) / 0x4000 == x / 0x4000 && (x + 0x100) / 0x8000 == x / 0x8000
  {
    QuotientIs(x + 0x100, 0x200, x / 0x200, x % 0x200 + 0x100);
    HalvesAgree(x, x + 0x100, 0x200);
    HalvesAgree(x, x + 0x100, 0x400);
    HalvesAgree(x, x + 0x100, 0x800);
    HalvesAgree(x, x + 0x100, 0x1000);
    HalvesAgree(x, x + 0x100, 0x2000);
    HalvesAgree(x, x + 0x100, 0x4000);
  }

  lemma HalvesAgree(x: nat, y: nat, m: nat)
    requires 0 < m && x / m == y / m
    ensures x / (2 * m) == y / (2 * m)
  {
    HalfOf(x, m);
    HalfOf(y, m);
  }

  lemma HalfOf(x: nat, m: nat)
    requires 0 < m
    ensures x / (2 * m) == x / m / 2
  {
    var q, r := x / m, x % m;
    var h, e := q / 2, q % 2;
    assert x == m * q + r && q == 2 * h + e;
    assert x == 2 * m * h + (m * e + r) by { assert m * (2 * h + e) == 2 * m * h + m * e; }
    QuotientIs(x, 2 * m, h, m * e + r);
  }

  // Adding 256 to a number with bit 8 clear sets that bit and changes no other.
  lemma SetsBit8(x: nat)
    requires x + 0x100 < 0x1_0000 && x % 0x200 < 0x100
    ensures (x + 0x100) as bv16 == x as bv16 | 0x100
  {
    SetsLow(x);
    SetsHigh(x);
    hide SameLowBits, SameHighBits;
    SameBits(x as bv16, (x + 0x100) as bv16);
  }

  lemma SetsLow(x: nat)
    requires x + 0x100 < 0x1_0000 && x % 0x200 < 0x100
    ensures SameLowBits(x as bv16, (x + 0x100) as bv16) && x as bv16 & 0x100 == 0 && (x + 0x100) as bv16 & 0x100 != 0
  {
    BitsOf(x);
    BitsOf(x + 0x100);
    LowHalves(x);
    Bit8(x);
  }

  lemma SetsHigh(x: nat)
    requires x + 0x100 < 0x1_0000 && x % 0x200 < 0x100
    ensures SameHighBits(x as bv16, (x + 0x100) as bv16)
  {
    HighBitsOf(x);
    HighBitsOf(x + 0x100);
    HighHalves(x);
  }

  lemma Remainders(j: nat)
    requires j % 0x200 < 0x100
    ensures var x := j % 0x1_0000; x + 0x100 < 0x1_0000 && x % 0x200 < 0x100 && (j + 0x100) % 0x1_0000 == x + 0x100
  {
    var q, x := j / 0x1_0000, j % 0x1_0000;
    var h, r := x / 0x200, x % 0x200;
    QuotientIs(j, 0x200, 0x80 * q + h, r);
    QuotientIs(j + 0x100, 0x1_0000, q, x + 0x100);
  }

  lemma Low16Plus256(j: nat)
    requires j % 0x200 < 0x100
    ensures Low16(j + 0x100) == Low16(j) | 0x100
  {
    Remainders(j);
    SetsBit8(j % 0x1_0000);
  }

  // An even place with bit 8 clear and the place 256 further on get the same index, whatever the seed: the odd place
  // behind each masks the one bit in which they differ.
  lemma Masked(seed: bv16, a: bv16, n: bv16)
    requires n & 1 != 0
    ensures MixedIdx(Pat(seed, a), n) == MixedIdx(Pat(seed, a | 0x100), n | 0x100)
  {
    MaskedBits(seed, a, n);
  }

  lemma MaskedBits(seed: bv16, a: bv16, n: bv16)
    requires n & 1 != 0
    ensures Mixed(Pat(seed, a), n) == Mixed(Pat(seed, a | 0x100), n | 0x100)
  {
  }

  lemma OddBit(j: nat)
    requires j % 2 == 1
    ensures Low16(j) & 1 != 0
  {
    var x := j % 0x1_0000;
    assert x % 2 == 1;
    BitsOf(x);
  }

  lemma Collides(seed: bv16, size: nat, j: nat)
    requires size / 5 <= j && j % 2 == 0 && j % 0x200 < 0x100
    ensures InitIdx(seed, size, j) == InitIdx(seed, size, j + 0x100)
  {
    hide *;
    Low16Plus256(j);
    Behind(j);
    Low16Plus256(j + 1);
    OddBit(j + 1);
    Masked(seed, Low16(j), Low16(j + 1));
    IdxIsMixed(seed, size, j);
    IdxIsMixed(seed, size, j + 0x100);
  }

  lemma Behind(j: nat)
    requires j % 2 == 0 && j % 0x200 < 0x100
    ensures (j + 1) % 2 == 1 && (j + 1) % 0x200 < 0x100 && j + 1 + 0x100 == j + 0x100 + 1
  {
    var m, r, h := j / 0x200, j % 0x200, j / 2;
    assert j == 0x200 * m + r && j == 2 * h;
    QuotientIs(j + 1, 0x200, m, r + 1);
    QuotientIs(j + 1, 2, h, 1);
  }

  // From 323 slots on there always is such a place.
  lemma CollidingPlace(size: nat) returns (j: nat)
    requires 323 <= size
    ensures size / 5 <= j < size - 258 && j % 2 == 0 && j % 0x200 < 0x100
  {
    var q := size / 5;
    var m, r, h := q / 0x200, q % 0x200, q / 2;
    assert q == 0x200 * m + r && q == 2 * h + q % 2;
    if r >= 0xff {
      j := 0x200 * (m + 1);
      QuotientIs(j, 0x200, m + 1, 0);
      QuotientIs(j, 2, 0x100 * (m + 1), 0);
    } else {
      j := q + q % 2;
      QuotientIs(j, 0x200, m, r + q % 2);
      QuotientIs(j, 2, h + q % 2, 0);
    }
  }

  // ----- few cells -----

  lemma MixedApart(seed: bv16, j: bv16, j': bv16, k: bv16, k': bv16)
    requires j & 0xff != k & 0xff
    ensures MixedIdx(Pat(seed, j), j') != MixedIdx(Pat(seed, k), k')
  {
    LowBits(seed, j, j', k, k');
    SameInt(Mixed(Pat(seed, j), j'), Mixed(Pat(seed, k), k'));
    hide Mixed, Pat;
  }

  lemma LowBits(seed: bv16, j: bv16, j': bv16, k: bv16, k': bv16)
    requires j & 0xff != k & 0xff
    ensures Mixed(Pat(seed, j), j') != Mixed(Pat(seed, k), k')
  {
    assert Mixed(Pat(seed, j), j') & 0xff == (j ^ seed) & 0xff;
    assert Mixed(Pat(seed, k), k') & 0xff == (k ^ seed) & 0xff;
  }

  lemma IdxIsMixed(seed: bv16, size: nat, j: nat)
    requires size / 5 <= j
    ensures InitIdx(seed, size, j) == MixedIdx(Pat(seed, Low16(j)), Low16(j + 1))
  {
    hide Low16, MixedIdx;
  }

  lemma Low16Int(j: nat)
    requires j < 0x200
    ensures Low16(j) as int == j && Low16(j) < 0x200 && (j < 0x100 <==> Low16(j) < 0x100)
  {
    IntBack(j);
    FewHalves(j);
    BitsOf(j);
    HighBitsOf(j);
    hide Low16;
    assert Low16(j) == j as bv16;
    FewBits(j as bv16);
  }

  lemma IntBack(x: nat)
    requires x < 0x200
    ensures Low16(x) == x as bv16 && (x as bv16) as int == x
  {
    assert x % 0x1_0000 == x;
  }

  lemma FewHalves(x: nat)
    requires x < 0x200
    ensures (x < 0x100 <==> x / 0x100 % 2 == 0) && x / 0x200 == x / 0x400 == x / 0x800 == x / 0x1000 == 0
    ensures x / 0x2000 == x / 0x4000 == x / 0x8000 == 0
  {
  }

  lemma FewBits(a: bv16)
    requires SameHighBits(a, 0)
    ensures a < 0x200 && (a < 0x100 <==> a & 0x100 == 0)
  {
  }

  // Two places less than 256 apart differ in the low byte.
  lemma LowBytesDiffer(j: nat, k: nat)
    requires j < k < j + 0x100 && k < 0x200
    ensures Low16(j) & 0xff != Low16(k) & 0xff
  {
    hide Low16;
    Low16Int(j);
    Low16Int(k);
    if j < 0x100 {
      Low16Plus256(j);
      Low16Int(j + 0x100);
      OtherHalf(Low16(j), Low16(k));
    } else {
      SameHalf(Low16(j), Low16(k));
    }
  }

  lemma OtherHalf(a: bv16, b: bv16)
    requires a < 0x100 && b < 0x200 && a != b && b != a | 0x100
    ensures a & 0xff != b & 0xff
  {
  }

  lemma SameHalf(a: bv16, b: bv16)
    requires 0x100 <= a < 0x200 && 0x100 <= b < 0x200 && a != b
    ensures a & 0xff != b & 0xff
  {
  }

  lemma MixedDiffer(seed: bv16, size: nat, j: nat, k: nat)
    requires size / 5 <= j < k < j + 0x100 && k < 0x200
    ensures InitIdx(seed, size, j) != InitIdx(seed, size, k)
  {
    hide *;
    LowBytesDiffer(j, k);
    IdxIsMixed(seed, size, j);
    IdxIsMixed(seed, size, k);
    MixedApart(seed, Low16(j), Low16(j + 1), Low16(k), Low16(k + 1));
  }

  lemma SameInt(a: bv16, b: bv16)
    ensures a as int == b as int ==> a == b
  {
    assert (a as int) as bv16 == a && (b as int) as bv16 == b;
  }

  lemma MixedRange(seed: bv16, size: nat, j: nat)
    requires size / 5 <= j
    ensures 0 <= InitIdx(seed, size, j) < 0x4000
  {
    hide Low16, MixedIdx;
  }

  function Max(a: int, b: int): int { if a < b then b else a }

  lemma FirstFifth(seed: bv16, size: nat, q: nat)
    requires 3 <= size < 323 && q == Max(1, size / 5)
    ensures forall j | 0 < j < q && j < size - 2 :: InitCells(seed, size)[j].idx == j
  {
    hide ItemData, Low16, MixedIdx;
  }

  // All mixed indices stay above the first fifth.
  ghost predicate MixedHigh(seed: bv16, size: nat) {
    forall j: nat | Max(1, size / 5) <= j < size - 2 :: InitIdx(seed, size, j) >= Max(1, size / 5)
  }

  lemma SmallDifferIff(seed: bv16, size: nat)
    requires 3 <= size < 323
    ensures IndicesDiffer(InitCells(seed, size)) <==> MixedHigh(seed, size)
  {
    var s, q := InitCells(seed, size), Max(1, size / 5);
    assert 1 <= q && size / 5 <= q && (q < size - 2 || q == 1) && size - 2 <= q + 0x100;
    FirstFifth(seed, size, q);
    hide ItemData, InitIdx, Max;
    assert s[0] == SlotCell(seed, 0) && SlotCell(seed, 0).idx == 0;
    assert s[size - 2] == SlotCell(seed, 1) && SlotCell(seed, 1).idx == 0x7fff;
    forall j: nat | q <= j < size - 2 ensures 0 <= s[j].idx < 0x4000 && s[j].idx == InitIdx(seed, size, j) {
      MixedRange(seed, size, j);
    }
    hide InitCells, SlotCell;
    if MixedHigh(seed, size) {
      forall i, j | 0 <= i < j < |s| ensures s[i].idx != s[j].idx {
        if q <= i && j < size - 2 { MixedDiffer(seed, size, i, j); }
      }
    }
    if exists j: nat :: q <= j < size - 2 && InitIdx(seed, size, j) < q {
      var j: nat :| q <= j < size - 2 && InitIdx(seed, size, j) < q;
      assert s[s[j].idx].idx == s[j].idx;
    }
  }

  lemma LargeCollide(seed: bv16, size: nat)
    requires 323 <= size
    ensures !IndicesDiffer(InitCells(seed, size))
  {
    var j := CollidingPlace(size);
    Collides(seed, size, j);
    hide InitIdx, ItemData;
    var s := InitCells(seed, size);
    assert 0 < j && s[j].idx == InitIdx(seed, size, j) && s[j + 0x100].idx == InitIdx(seed, size, j + 0x100);
  }

  // No two cells of a new list share an index exactly if there are fewer than 323 slots and no mixed index falls among
  // the first fifth.
  lemma DifferIff(seed: bv16, size: nat)
    requires 3 <= size
    ensures IndicesDiffer(InitCells(seed, size)) <==> size < 323 && MixedHigh(seed, size)
  {
    hide *;
    if size < 323 { SmallDifferIff(seed, size); } else { LargeCollide(seed, size); }
  }

  // A seed with a bit set among bits 9 to 13 (or, up to 257 slots, 8 to 13) keeps all mixed indices high; 0x3415, one
  // of the two default seeds of the application, is such a seed.
  lemma HighSeedsDiffer(seed: bv16, size: nat)
    requires 3 <= size < 323 && if size <= 257 then seed & 0x3f00 != 0 else seed & 0x3e00 != 0
    ensures IndicesDiffer(InitCells(seed, size))
  {
    forall j: nat | Max(1, size / 5) <= j < size - 2 ensures InitIdx(seed, size, j) >= 0x100 {
      hide Low16, MixedIdx;
      Low16Int(j);
      HighStays(seed, Low16(j), Low16(j + 1));
    }
    DifferIff(seed, size);
  }

  lemma HighStays(seed: bv16, j: bv16, next: bv16)
    requires j < 0x200 && (seed & 0x3e00 != 0 || (seed & 0x3f00 != 0 && j < 0x100))
    ensures MixedIdx(Pat(seed, j), next) >= 0x100
  {
    var x := Mixed(Pat(seed, j), next);
    assert x & 0x3f00 != 0;
    assert x >= 0x100;
  }

  // So does seed 0, the other default: no mixed index is below its place.
  lemma ZeroSeedDiffers(size: nat)
    requires 3 <= size < 323
    ensures IndicesDiffer(InitCells(0, size))
  {
    forall j: nat | Max(1, size / 5) <= j < size - 2 ensures InitIdx(0, size, j) >= j {
      hide Low16, MixedIdx;
      Low16Int(j);
      NotBelow(Low16(j), Low16(j + 1));
    }
    DifferIff(0, size);
  }

  lemma NotBelow(j: bv16, next: bv16)
    requires j < 0x200
    ensures MixedIdx(Pat(0, j), next) >= j as int
  {
    assert Mixed(Pat(0, j), next) >= j;
  }

  // Seed 22 gives the cells in places 1 and 23 the same index: in 31 slots, what the standard 2000 bytes leave for the
  // list beside the other two kernels, as well as in 98, what they hold if the list has them alone.
  lemma SeedCollision(size: nat)
    requires 26 <= size < 120
    ensures 2000 / 3 / 20 - 2 == 31 && 2000 / 20 - 2 == 98 && !IndicesDiffer(InitCells(22, size))
  {
    hide ItemData, SlotCell;
    var s := InitCells(22, size);
    IdxOf23(size);
    assert s[1].idx == 1 && s[23].idx == 1;
  }

  lemma IdxOf23(size: nat)
    requires 26 <= size < 120
    ensures InitIdx(22, size, 23) == 1 && InitIdx(22, size, 1) == 1
  {
    assert Low16(23) == 23 && Low16(24) == 24;
    assert Mixed(23 ^ 22, 24) == 1;
  }
}
