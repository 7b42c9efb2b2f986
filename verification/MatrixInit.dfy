/**
  core_init_matrix (software/coremark_app/cmark.c:1412-1451): the dimension that fits the block, the
  aligned layout of the three matrices in it, and their first contents.
*/
module MatrixInit {
  import opened Division
  import opened Words
  import opened MatrixBench

  // ---------- the dimension ----------

  // The largest of the products 8 * i * i that have 32 bits.
  const MAX_BLKSIZE := 23170 * 23170 * 8

  ghost predicate LargestFitting(n: nat, blksize: int) { 8 * (n * n) < blksize <= 8 * ((n + 1) * (n + 1)) }

  method Dimension(blksize: int) returns (n: nat)
    requires 0 < blksize <= MAX_BLKSIZE
    ensures LargestFitting(n, blksize)
  {
    var i: nat, j: int := 0, 0;
    while j < blksize
      invariant j == 8 * (i * i) && (i == 0 || 8 * ((i - 1) * (i - 1)) < blksize)
      decreases 23170 - i
    {
      if i >= 23170 { Squares(23170, i); }
      i := i + 1;
      Squares(i, 23170);
      j := (i * i * 2 * 4) % 0x1_0000_0000;
    }
    n := i - 1;
  }

  lemma Squares(a: nat, b: nat)
    requires a <= b
    ensures a * a <= b * b
  {
    assert a * a <= a * b <= b * b;
  }

  // In a larger block the products pass through zero before they reach blksize: wherever the search ends then, the
  // matrices do not fit.
  lemma LargeBlocksOverflow(i: nat, blksize: int)
    requires MAX_BLKSIZE < blksize < 0x1_0000_0000 && 0 < i && (i * i * 2 * 4) % 0x1_0000_0000 >= blksize
    ensures 8 * ((i - 1) * (i - 1)) >= blksize
  {
    if i <= 23171 { SmallProducts(i); }
    if i >= 23172 { Squares(23171, i - 1); }
  }

  lemma SmallProducts(i: nat)
    requires i <= 23171
    ensures (i * i * 2 * 4) % 0x1_0000_0000 <= MAX_BLKSIZE
  {
    if i <= 23170 {
      Squares(i, 23170);
      SmallProduct(i * i);
    } else {
      assert i * i == 536895241;
    }
  }

  lemma SmallProduct(sq: nat)
    requires sq <= 23170 * 23170
    ensures (sq * 2 * 4) % 0x1_0000_0000 <= MAX_BLKSIZE
  {
  }

  // No other dimension would do.
  lemma LargestIsUnique(n: nat, m: nat, blksize: int)
    requires LargestFitting(n, blksize) && LargestFitting(m, blksize)
    ensures n == m
  {
    if n < m { Squares(n + 1, m); }
    if m < n { Squares(m + 1, n); }
  }

  // ---------- the layout ----------

  // align_mem: masking the two low bits of x - 1 and adding 4.
  function AlignMem(x: int): int
    requires 0 < x
  {
    4 + ((x - 1) - (x - 1) % 4)
  }

  // Byte addresses of A, B and C; A and B have two bytes a cell, C four.
  datatype Layout = Layout(a: int, b: int, c: int)

  function LayoutOf(memblk: int, n: nat): Layout
    requires 0 < memblk
  {
    LayoutFor(memblk, n * n)
  }

  function LayoutFor(memblk: int, sq: nat): Layout
    requires 0 < memblk
  {
    var a := AlignMem(memblk);
    var b := a + 2 * sq;
    Layout(a, b, AlignMem(b + 2 * sq))
  }

  lemma MultipleOf4(x: int)
    requires 0 < x
    ensures AlignMem(x) % 4 == 0 && AlignMem(x) == x + Padding(x) && (x % 4 == 0 ==> AlignMem(x) == x)
  {
  }

  // Padding in front of A; there is none anywhere else.
  function Padding(memblk: int): int { (0 - memblk) % 4 }

  // A, B and C lie aligned one behind the other; they stay inside the block exactly if the bytes left over
  // by the choice of n cover the padding. In a block aligned to four bytes they always do.
  lemma LayoutFits(memblk: int, blksize: int, n: nat)
    requires 0 < memblk && LargestFitting(n, blksize)
    ensures var l := LayoutOf(memblk, n);
            memblk <= l.a && l.a % 4 == 0 && l.b == l.a + 2 * (n * n) && l.c == l.b + 2 * (n * n) && l.c % 4 == 0 &&
            (l.c + 4 * (n * n) <= memblk + blksize <==> Padding(memblk) <= blksize - 8 * (n * n)) &&
            (memblk % 4 == 0 ==> l.c + 4 * (n * n) < memblk + blksize)
  {
    LayoutForFits(memblk, blksize, n * n);
  }

  lemma LayoutForFits(memblk: int, blksize: int, sq: nat)
    requires 0 < memblk && 8 * sq < blksize
    ensures var l := LayoutFor(memblk, sq);
            memblk <= l.a && l.a % 4 == 0 && l.b == l.a + 2 * sq && l.c == l.b + 2 * sq && l.c % 4 == 0 &&
            (l.c + 4 * sq <= memblk + blksize <==> Padding(memblk) <= blksize - 8 * sq) &&
            (memblk % 4 == 0 ==> l.c + 4 * sq < memblk + blksize)
  {
    MultipleOf4(memblk);
    Fourfold(AlignMem(memblk), sq);
    MultipleOf4(AlignMem(memblk) + 2 * sq + 2 * sq);
  }

  lemma Fourfold(a: int, sq: int)
    requires a % 4 == 0
    ensures (a + 2 * sq + 2 * sq) % 4 == 0
  {
  }

  // An unaligned block can be too small by up to two bytes.
  lemma UnalignedOverrun()
    ensures LargestFitting(1, 9) && LayoutOf(0x1001, 1).c + 4 > 0x1001 + 9
  {
  }

  // ---------- the contents ----------

  // The remainder of C division, with the sign of the dividend.
  function Rem(x: int, d: int): int
    requires 0 < d
  {
    if x >= 0 then x % d else -((-x) % d)
  }

  // The running seed after k cells; order counts from one.
  function SeedAfter(seed: S32, k: nat): S32 {
    if k == 0 then seed else NextSeed(k, SeedAfter(seed, k - 1))
  }

  function NextSeed(order: int, seed: S32): S32 { Rem(ToS32(order * seed), 0x1_0000) }

  function CellB(seed: S32, k: nat): S16 { ToS16(SeedAfter(seed, k + 1) + k + 1) }
  function CellA(seed: S32, k: nat): S16 { ToS16(CellB(seed, k) + k + 1) % 0x100 }

  // The running seed is the remainder of C division by 65536 of the wrapping product; a cell of B is congruent to it
  // plus the order modulo 2^16, and one of A to it plus twice the order modulo 256.
  lemma CellsAre(seed: S32, k: nat)
    ensures SeedAfter(seed, 0) == seed
    ensures var s, t := SeedAfter(seed, k), SeedAfter(seed, k + 1);
            && -0x1_0000 < t < 0x1_0000 && (t - (k + 1) * s) % 0x1_0000 == 0
            && (-0x8000_0000 <= (k + 1) * s < 0x8000_0000 ==> if (k + 1) * s >= 0 then t >= 0 else t <= 0)
    ensures (CellB(seed, k) - SeedAfter(seed, k + 1) - (k + 1)) % 0x1_0000 == 0
    ensures 0 <= CellA(seed, k) <= 255 && (CellA(seed, k) - SeedAfter(seed, k + 1) - 2 * (k + 1)) % 0x100 == 0
  {
    hide *;
    var s, t := SeedAfter(seed, k), SeedAfter(seed, k + 1);
    SeedSteps(seed, k);
    NextSeedIs(k + 1, s, (k + 1) * s);
    CellParts(seed, k);
    CellsFrom(t + k + 1, k + 1);
  }

  lemma SeedSteps(seed: S32, k: nat)
    ensures SeedAfter(seed, 0) == seed && SeedAfter(seed, k + 1) == NextSeed(k + 1, SeedAfter(seed, k))
  {
    hide NextSeed;
  }

  lemma CellParts(seed: S32, k: nat)
    ensures CellB(seed, k) == ToS16(SeedAfter(seed, k + 1) + k + 1)
    ensures CellA(seed, k) == ToS16(CellB(seed, k) + k + 1) % 0x100
  {
    hide NextSeed, SeedAfter;
  }

  lemma NextSeedIs(order: int, seed: S32, product: int)
    requires product == order * seed
    ensures var t := NextSeed(order, seed);
            && -0x1_0000 < t < 0x1_0000 && (t - product) % 0x1_0000 == 0
            && (-0x8000_0000 <= product < 0x8000_0000 ==> if product >= 0 then t >= 0 else t <= 0)
  {
    var w := ToS32(product);
    assert NextSeed(order, seed) == Rem(w, 0x1_0000);
    hide NextSeed;
    RemIs(w);
    assert (product - w) % 0x1_0000_0000 == 0;
    CongruentToo(product, w, Rem(w, 0x1_0000));
  }

  lemma RemIs(w: int)
    ensures var t := Rem(w, 0x1_0000);
            -0x1_0000 < t < 0x1_0000 && (w - t) % 0x1_0000 == 0 && if w >= 0 then t >= 0 else t <= 0
  {
  }

  lemma CongruentToo(x: int, w: int, t: int)
    requires (x - w) % 0x1_0000_0000 == 0 && (w - t) % 0x1_0000 == 0
    ensures (t - x) % 0x1_0000 == 0
  {
  }

  lemma CellsFrom(x: int, order: nat)
    ensures (ToS16(x) - x) % 0x1_0000 == 0
    ensures (ToS16(ToS16(x) + order) % 0x100 - x - order) % 0x100 == 0
  {
    var u := ToS16(x);
    var v := ToS16(u + order);
    hide ToS16;
    Negated(x - u, 0x1_0000);
    LowBytes(x, u, order, v);
  }

  lemma Negated(d: int, m: nat)
    requires 0 < m && d % m == 0
    ensures -d % m == 0
  {
    var q := d / m;
    assert -d == m * -q by { assert d == m * q; }
    QuotientIs(-d, m, -q, 0);
  }

  lemma LowBytes(x: int, u: int, order: nat, v: int)
    requires (x - u) % 0x1_0000 == 0 && (u + order - v) % 0x1_0000 == 0
    ensures (v % 0x100 - x - order) % 0x100 == 0
  {
    var a, b, c := (x - u) / 0x1_0000, (u + order - v) / 0x1_0000, v / 0x100;
    QuotientIs(v % 0x100 - x - order, 0x100, -0x100 * a - 0x100 * b - c, 0);
  }

  // One cell of B and of A; order is one ahead of its position.
  method FillCell(a: array<S16>, b: array<S16>, pos: nat, order: nat, seed0: S32, ghost s: S32) returns (seed: S32)
    requires a != b && pos < a.Length == b.Length && order == pos + 1 && seed0 == SeedAfter(s, pos)
    modifies a, b
    ensures seed == SeedAfter(s, pos + 1)
    ensures a[..] == old(a[..])[pos := CellA(s, pos)] && b[..] == old(b[..])[pos := CellB(s, pos)]
  {
    seed := Rem(ToS32(order * seed0), 0x1_0000);
    var val: S16 := ToS16(seed + order);
    b[pos] := val;
    val := ToS16(val + order) % 0x100;
    a[pos] := val;
  }

  method CoreInitMatrix(n: nat, seed0: S32, a: array<S16>, b: array<S16>)
    requires a.Length == b.Length == n * n && a != b
    modifies a, b
    ensures var seed := if seed0 == 0 then 1 else seed0;
            forall k | 0 <= k < n * n :: a[k] == CellA(seed, k) && b[k] == CellB(seed, k)
    ensures InRange(a[..], 255)
  {
    var order: nat, seed: S32 := 1, seed0;
    if seed == 0 { seed := 1; }
    ghost var s := seed;
    assert seed == SeedAfter(s, 0);
    hide NextSeed, ToS16, CellA, CellB, SeedAfter, InRange;
    for i := 0 to n
      invariant order == At(i, 0, n) + 1 && (At(i, 0, n) <= n * n) && seed == SeedAfter(s, At(i, 0, n))
      invariant forall k | 0 <= k < At(i, 0, n) && k < n * n :: a[k] == CellA(s, k) && b[k] == CellB(s, k)
    {
      for j := 0 to n
        invariant order == At(i, j, n) + 1 && (At(i, j, n) <= n * n) && seed == SeedAfter(s, At(i, j, n))
        invariant forall k | 0 <= k < At(i, j, n) && k < n * n :: a[k] == CellA(s, k) && b[k] == CellB(s, k)
      {
        AtFacts(i, j, n);
        seed := FillCell(a, b, i * n + j, order, seed, s);
        order := order + 1;
      }
      AtFacts(i, 0, n);
    }
    CellsInRange(a[..], s);
  }

  lemma CellsInRange(a: seq<S16>, seed: S32)
    requires forall k | 0 <= k < |a| :: a[k] == CellA(seed, k)
    ensures InRange(a, 255)
  {
    hide CellB;
  }

  // With what core_init_matrix puts into A and what calc_func adds to it, no product overflows up to N = 128.
  lemma FreshProductsExact(n: nat, a: seq<S16>, b: seq<S16>, val: S16)
    requires n <= 128 && |a| == |b| == n * n && InRange(a, 255) && 0 <= val <= 255
    ensures NeverOverflows(AddConstOf(a, val), b, n)
  {
    hide NeverOverflows;
    ExactUpTo128(n);
  }
}
