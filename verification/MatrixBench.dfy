/**
  The matrix benchmark (software/coremark_app/cmark.c): the kernels on N x N matrices stored row by
  row, and matrix_test, which must hand matrix A back unchanged.
*/
module MatrixBench {
  import opened Division
  import opened Words
  import opened MatrixSums
  import opened Crc16

  // ---------- positions ----------

  // Position of row i, column j.
  function At(i: nat, j: nat, n: nat): nat { i * n + j }

  lemma AtFacts(i: nat, j: nat, n: nat)
    requires i < n && j < n
    ensures At(i, j, n) < n * n && At(i, j, n) / n == i && At(i, j, n) % n == j
    ensures At(i, j + 1, n) == At(i, j, n) + 1 && At(i, n, n) == At(i + 1, 0, n)
  {
    StepUp(n, i, n);
    NextRow(i, n);
    Quotient(i, j, n);
  }

  lemma NextRow(i: nat, n: nat)
    ensures i * n == n * i && (i + 1) * n == i * n + n
  {
  }

  lemma Quotient(i: nat, j: nat, n: nat)
    requires j < n
    ensures (i * n + j) / n == i && (i * n + j) % n == j
  {
    QuotientIs(i * n + j, n, i, j);
  }

  // ---------- arithmetic ----------

  function Product(a: S16, b: S16): (p: S32) {
    ProductFits(a, b);
    a * b
  }

  lemma ProductFits(a: S16, b: S16)
    ensures -0x4000_0000 <= a * b <= 0x4000_0000
  {
    var x: int, y: int := a, b;
    if x >= 0 {
      MulBound(x, y);
    } else {
      MulBound(-x, y);
      assert x * y == -((-x) * y);
    }
  }

  lemma MulBound(a: int, b: int)
    requires 0 <= a <= 0x8000 && -0x8000 <= b <= 0x8000
    ensures -0x4000_0000 <= a * b <= 0x4000_0000
  {
    assert a * b <= a * 0x8000 && a * -0x8000 <= a * b;
  }

  // Accumulators wrap, as the 32-bit adds of the target do.
  function RowDot(a: seq<S16>, b: seq<S16>, i: nat, n: nat, m: nat): S32
    requires i < n && m <= n && |a| == |b| == n * n
    decreases m
  {
    if m == 0 then 0
    else
      AtFacts(i, m - 1, n);
      AtFacts(0, m - 1, n);
      ToS32(RowDot(a, b, i, n, m - 1) + Product(a[At(i, m - 1, n)], b[m - 1]))
  }

  function Dot(a: seq<S16>, b: seq<S16>, i: nat, j: nat, n: nat, m: nat): S32
    requires i < n && j < n && m <= n && |a| == |b| == n * n
    decreases m
  {
    if m == 0 then 0
    else
      AtFacts(i, m - 1, n);
      AtFacts(m - 1, j, n);
      ToS32(Dot(a, b, i, j, n, m - 1) + Product(a[At(i, m - 1, n)], b[At(m - 1, j, n)]))
  }

  // bit_extract(x, from, to) for the two ranges in use: arithmetic shift, then mask.
  function BitExtract24(x: S32): int { (x / 4) % 16 }
  function BitExtract57(x: S32): int { (x / 32) % 128 }

  // They are the bits 2 to 5 and 5 to 11 of the two's complement.
  lemma BitsExtracted(x: S32)
    ensures x % 64 == 4 * BitExtract24(x) + x % 4
    ensures x % 4096 == 32 * BitExtract57(x) + x % 32
  {
    BitsBetween(x, 4, 16);
    BitsBetween(x, 32, 128);
  }

  function BitDot(a: seq<S16>, b: seq<S16>, i: nat, j: nat, n: nat, m: nat): S32
    requires i < n && j < n && m <= n && |a| == |b| == n * n
    decreases m
  {
    if m == 0 then 0
    else
      AtFacts(i, m - 1, n);
      AtFacts(m - 1, j, n);
      var t := Product(a[At(i, m - 1, n)], b[At(m - 1, j, n)]);
      ToS32(BitDot(a, b, i, j, n, m - 1) + BitExtract24(t) * BitExtract57(t))
  }

  // ---------- the kernels ----------

  function AddConstOf(a: seq<S16>, val: int): (r: seq<S16>)
    ensures |r| == |a|
  {
    seq(|a|, k requires 0 <= k < |a| => ToS16(a[k] + val))
  }

  method MatrixAddConst(n: nat, a: array<S16>, val: S16)
    requires a.Length == n * n
    modifies a
    ensures a[..] == AddConstOf(old(a[..]), val)
  {
    for i := 0 to n
      invariant forall k | 0 <= k < n * n :: a[k] == if k < At(i, 0, n) then ToS16(old(a[k]) + val) else old(a[k])
    {
      for j := 0 to n
        invariant forall k | 0 <= k < n * n :: a[k] == if k < At(i, j, n) then ToS16(old(a[k]) + val) else old(a[k])
      {
        AtFacts(i, j, n);
        a[i * n + j] := ToS16(a[i * n + j] + val);
      }
      AtFacts(i, 0, n);
    }
  }

  function MulConstOf(a: seq<S16>, val: S16): (r: seq<S32>)
    ensures |r| == |a|
  {
    seq(|a|, k requires 0 <= k < |a| => Product(a[k], val))
  }

  method MatrixMulConst(n: nat, c: array<S32>, a: array<S16>, val: S16)
    requires a.Length == c.Length == n * n && c as object != a
    modifies c
    ensures c[..] == MulConstOf(a[..], val)
  {
    hide Product;
    for i := 0 to n
      invariant forall k | 0 <= k < At(i, 0, n) && k < n * n :: c[k] == Product(a[k], val)
    {
      for j := 0 to n
        invariant forall k | 0 <= k < At(i, j, n) && k < n * n :: c[k] == Product(a[k], val)
      {
        AtFacts(i, j, n);
        c[i * n + j] := Product(a[i * n + j], val);
      }
      AtFacts(i, 0, n);
    }
  }

  lemma RootBound(k: nat, n: nat)
    requires k < n
    ensures k < n * n
  {
    assert n <= n * n;
  }

  function MulVectOf(c: seq<S32>, a: seq<S16>, b: seq<S16>, n: nat): (r: seq<S32>)
    requires |a| == |b| == |c| == n * n
    ensures |r| == |c|
  {
    seq(|c|, k requires 0 <= k < |c| => if k < n then RowDot(a, b, k, n, n) else c[k])
  }

  method MatrixMulVect(n: nat, c: array<S32>, a: array<S16>, b: array<S16>)
    requires a.Length == b.Length == c.Length == n * n && c as object != a && c as object != b
    modifies c
    ensures c[..] == MulVectOf(old(c[..]), a[..], b[..], n)
  {
    ghost var a0, b0, c0 := a[..], b[..], c[..];
    for i := 0 to n
      invariant forall k | 0 <= k < n * n :: c[k] == if k < i then RowDot(a0, b0, k, n, n) else c0[k]
    {
      RootBound(i, n);
      c[i] := 0;
      for j := 0 to n
        invariant c[i] == RowDot(a0, b0, i, n, j)
        invariant forall k | 0 <= k < n * n && k != i :: c[k] == if k < i then RowDot(a0, b0, k, n, n) else c0[k]
      {
        AtFacts(i, j, n);
        AtFacts(0, j, n);
        c[i] := ToS32(c[i] + Product(a[i * n + j], b[j]));
      }
    }
  }

  lemma Cell(k: nat, n: nat)
    requires k < n * n
    ensures 0 < n && k / n < n && k % n < n && At(k / n, k % n, n) == k
  {
    QuotientBelow(k, n, n);
  }

  function MulMatrixOf(a: seq<S16>, b: seq<S16>, n: nat): (r: seq<S32>)
    requires |a| == |b| == n * n
    ensures |r| == n * n
  {
    seq(|a|, k requires 0 <= k < |a| => Cell(k, n); Dot(a, b, k / n, k % n, n, n))
  }

  lemma DotStep(a: seq<S16>, b: seq<S16>, i: nat, j: nat, n: nat, k: nat)
    requires |a| == |b| == n * n && i < n && j < n && k < n
    ensures i * n + k < n * n && k * n + j < n * n && Dot(a, b, i, j, n, 0) == 0
    ensures var tmp := Product(a[i * n + k], b[k * n + j]);
            Dot(a, b, i, j, n, k + 1) == ToS32(Dot(a, b, i, j, n, k) + tmp)
  {
    hide Product, ToS32;
    AtFacts(i, k, n);
    AtFacts(k, j, n);
  }

  lemma MulMatrixOfAt(a: seq<S16>, b: seq<S16>, n: nat, i: nat, j: nat)
    requires |a| == |b| == n * n && i < n && j < n
    ensures At(i, j, n) < n * n && MulMatrixOf(a, b, n)[At(i, j, n)] == Dot(a, b, i, j, n, n)
  {
    hide Dot;
    AtFacts(i, j, n);
  }

  // The inner loop: one cell of C.
  method MulCell(n: nat, c: array<S32>, a: array<S16>, b: array<S16>, i: nat, j: nat)
    requires a.Length == b.Length == c.Length == n * n && c as object != a && c as object != b && i < n && j < n
    modifies c
    ensures At(i, j, n) < n * n && c[..] == old(c[..])[At(i, j, n) := Dot(a[..], b[..], i, j, n, n)]
  {
    ghost var a0, b0, c0 := a[..], b[..], c[..];
    AtFacts(i, j, n);
    DotStep(a0, b0, i, j, n, 0);
    hide Dot, ToS32, Product;
    c[i * n + j] := 0;
    for k := 0 to n
      invariant c[..] == c0[i * n + j := Dot(a0, b0, i, j, n, k)]
    {
      DotStep(a0, b0, i, j, n, k);
      c[i * n + j] := ToS32(c[i * n + j] + Product(a[i * n + k], b[k * n + j]));
    }
  }

  // The first p cells are in place.
  ghost predicate SameUpTo(c: seq<S32>, r: seq<S32>, p: nat) {
    |c| == |r| && forall k | 0 <= k < p && k < |r| :: c[k] == r[k]
  }

  lemma OneMoreSame(c: seq<S32>, r: seq<S32>, p: nat)
    requires SameUpTo(c, r, p) && p < |r|
    ensures SameUpTo(c[p := r[p]], r, p + 1)
  {
  }

  lemma NoneSame(c: seq<S32>, r: seq<S32>, n: nat)
    requires |c| == |r|
    ensures SameUpTo(c, r, At(0, 0, n))
  {
  }

  lemma AllSame(c: seq<S32>, r: seq<S32>, n: nat)
    requires SameUpTo(c, r, At(n, 0, n)) && |r| == n * n
    ensures c == r
  {
  }

  method MatrixMulMatrix(n: nat, c: array<S32>, a: array<S16>, b: array<S16>)
    requires a.Length == b.Length == c.Length == n * n && c as object != a && c as object != b
    modifies c
    ensures c[..] == MulMatrixOf(a[..], b[..], n)
  {
    hide *;
    ghost var a0, b0 := a[..], b[..];
    ghost var r := MulMatrixOf(a0, b0, n);
    NoneSame(c[..], r, n);
    for i := 0 to n
      invariant SameUpTo(c[..], r, At(i, 0, n))
    {
      for j := 0 to n
        invariant SameUpTo(c[..], r, At(i, j, n))
      {
        AtFacts(i, j, n);
        MulMatrixOfAt(a0, b0, n, i, j);
        OneMoreSame(c[..], r, At(i, j, n));
        MulCell(n, c, a, b, i, j);
      }
      AtFacts(i, 0, n);
    }
    AllSame(c[..], r, n);
  }

  function BitExtractOf(a: seq<S16>, b: seq<S16>, n: nat): (r: seq<S32>)
    requires |a| == |b| == n * n
    ensures |r| == n * n
  {
    seq(|a|, k requires 0 <= k < |a| => Cell(k, n); BitDot(a, b, k / n, k % n, n, n))
  }

  lemma BitDotStep(a: seq<S16>, b: seq<S16>, i: nat, j: nat, n: nat, k: nat)
    requires |a| == |b| == n * n && i < n && j < n && k < n
    ensures i * n + k < n * n && k * n + j < n * n && BitDot(a, b, i, j, n, 0) == 0
    ensures var tmp := Product(a[i * n + k], b[k * n + j]);
            BitDot(a, b, i, j, n, k + 1) == ToS32(BitDot(a, b, i, j, n, k) + BitExtract24(tmp) * BitExtract57(tmp))
  {
    hide Product, BitExtract24, BitExtract57, ToS32;
    AtFacts(i, k, n);
    AtFacts(k, j, n);
  }

  lemma BitExtractOfAt(a: seq<S16>, b: seq<S16>, n: nat, i: nat, j: nat)
    requires |a| == |b| == n * n && i < n && j < n
    ensures At(i, j, n) < n * n && BitExtractOf(a, b, n)[At(i, j, n)] == BitDot(a, b, i, j, n, n)
  {
    hide BitDot;
    AtFacts(i, j, n);
  }

  method BitCell(n: nat, c: array<S32>, a: array<S16>, b: array<S16>, i: nat, j: nat)
    requires a.Length == b.Length == c.Length == n * n && c as object != a && c as object != b && i < n && j < n
    modifies c
    ensures At(i, j, n) < n * n && c[..] == old(c[..])[At(i, j, n) := BitDot(a[..], b[..], i, j, n, n)]
  {
    ghost var a0, b0, c0 := a[..], b[..], c[..];
    AtFacts(i, j, n);
    BitDotStep(a0, b0, i, j, n, 0);
    hide BitDot, ToS32, Product, BitExtract24, BitExtract57;
    c[i * n + j] := 0;
    for k := 0 to n
      invariant c[..] == c0[i * n + j := BitDot(a0, b0, i, j, n, k)]
    {
      BitDotStep(a0, b0, i, j, n, k);
      var tmp := Product(a[i * n + k], b[k * n + j]);
      c[i * n + j] := ToS32(c[i * n + j] + BitExtract24(tmp) * BitExtract57(tmp));
    }
  }

  method MatrixMulMatrixBitextract(n: nat, c: array<S32>, a: array<S16>, b: array<S16>)
    requires a.Length == b.Length == c.Length == n * n && c as object != a && c as object != b
    modifies c
    ensures c[..] == BitExtractOf(a[..], b[..], n)
  {
    hide *;
    ghost var a0, b0 := a[..], b[..];
    ghost var r := BitExtractOf(a0, b0, n);
    NoneSame(c[..], r, n);
    for i := 0 to n
      invariant SameUpTo(c[..], r, At(i, 0, n))
    {
      for j := 0 to n
        invariant SameUpTo(c[..], r, At(i, j, n))
      {
        AtFacts(i, j, n);
        BitExtractOfAt(a0, b0, n, i, j);
        OneMoreSame(c[..], r, At(i, j, n));
        BitCell(n, c, a, b, i, j);
      }
      AtFacts(i, 0, n);
    }
    AllSame(c[..], r, n);
  }

  // ---------- the check sum of a result ----------

  method MatrixSum(n: nat, c: array<S32>, clipval: S16) returns (ret: S16)
    requires c.Length == n * n
    ensures ret == SumOf(c[..], n * n, clipval).ret
    ensures ret == ToS16(10 * |Clipped(c[..], clipval, n * n)| + |Risen(c[..], clipval, n * n)|)
  {
    hide Clipped, Risen, SumOf, ToS16, ToS32;
    ghost var s := c[..];
    SumNone(s, clipval);
    var tmp: S32, prev: S32, cur: S32 := 0, 0, 0;
    ret := 0;
    for i := 0 to n
      invariant At(i, 0, n) <= n * n
      invariant SumState(tmp, prev, ret) == SumOf(s, At(i, 0, n), clipval)
    {
      for j := 0 to n
        invariant At(i, j, n) <= n * n
        invariant SumState(tmp, prev, ret) == SumOf(s, At(i, j, n), clipval)
      {
        AtFacts(i, j, n);
        SumStep(s, At(i, j, n) + 1, clipval);
        cur := c[i * n + j];
        tmp := ToS32(tmp + cur);
        if tmp > clipval {
          ret := ToS16(ret + 10);
          tmp := 0;
        } else {
          ret := ToS16(ret + if cur > prev then 1 else 0);
        }
        prev := cur;
      }
      AtFacts(i, 0, n);
    }
    SumCounts(s, n * n, clipval);
    hide *;
  }

  // ---------- matrix_test ----------

  // matrix_big: the upper four bits set, so the value lies in -4096 .. -1.
  function MatrixBig(val: S16): S16 { val % 0x1000 - 0x1000 }

  // It agrees with val in the lower twelve bits.
  lemma BigIs(val: S16)
    ensures -4096 <= MatrixBig(val) < 0 && (MatrixBig(val) - val) % 4096 == 0
  {
    assert val - val % 0x1000 == 0x1000 * (val / 0x1000);
  }

  function CrcSum(c: seq<S32>, clipval: S16, crc: bv16): bv16 {
    Fold(LittleEndian16(Bits16(SumOf(c, |c|, clipval).ret)), crc)
  }

  // The value of matrix_test: the CRC of the four results computed from A + val.
  function TestValue(a0: seq<S16>, b: seq<S16>, n: nat, val: S16): bv16
    requires |a0| == |b| == n * n
  {
    var a, clip := AddConstOf(a0, val), MatrixBig(val);
    var c1 := MulConstOf(a, val);
    var crc1 := CrcSum(c1, clip, 0);
    var crc2 := CrcSum(MulVectOf(c1, a, b, n), clip, crc1);
    var crc3 := CrcSum(MulMatrixOf(a, b, n), clip, crc2);
    CrcSum(BitExtractOf(a, b, n), clip, crc3)
  }

  // The clip value is the one number of -4096 to -1 that agrees with val in the lower twelve bits; each of the four
  // sums enters the CRC as ten for every clipped cell and one for every risen one.
  lemma TestValueIs(a0: seq<S16>, b: seq<S16>, n: nat, val: S16, clip: S16)
    requires |a0| == |b| == n * n && -4096 <= clip < 0 && (clip - val) % 4096 == 0
    ensures var a := AddConstOf(a0, val);
            var c1, c2, c3, c4 := MulConstOf(a, val), MulVectOf(MulConstOf(a, val), a, b, n), MulMatrixOf(a, b, n),
              BitExtractOf(a, b, n);
            var crc1 := Fold(LittleEndian16(Bits16(Rating(c1, clip))), 0);
            var crc2 := Fold(LittleEndian16(Bits16(Rating(c2, clip))), crc1);
            var crc3 := Fold(LittleEndian16(Bits16(Rating(c3, clip))), crc2);
            TestValue(a0, b, n, val) == Fold(LittleEndian16(Bits16(Rating(c4, clip))), crc3)
  {
    hide AddConstOf, MulConstOf, MulVectOf, MulMatrixOf, BitExtractOf, CrcSum, Rating, Fold, LittleEndian16, Bits16,
         MatrixBig;
    BigIs(val);
    OneClip(val, clip, MatrixBig(val));
    var a := AddConstOf(a0, val);
    var c1, c2, c3, c4 := MulConstOf(a, val), MulVectOf(MulConstOf(a, val), a, b, n), MulMatrixOf(a, b, n),
      BitExtractOf(a, b, n);
    var crc1 := CrcSum(c1, clip, 0);
    var crc2 := CrcSum(c2, clip, crc1);
    var crc3 := CrcSum(c3, clip, crc2);
    SumRated(c1, clip, 0);
    SumRated(c2, clip, crc1);
    SumRated(c3, clip, crc2);
    SumRated(c4, clip, crc3);
  }

  function Rating(c: seq<S32>, clip: S16): S16 { ToS16(10 * |Clipped(c, clip, |c|)| + |Risen(c, clip, |c|)|) }

  lemma OneClip(val: S16, x: int, y: int)
    requires -4096 <= x < 0 && -4096 <= y < 0 && (x - val) % 4096 == 0 && (y - val) % 4096 == 0
    ensures x == y
  {
  }

  lemma SumRated(c: seq<S32>, clip: S16, crc: bv16)
    ensures CrcSum(c, clip, crc) == Fold(LittleEndian16(Bits16(Rating(c, clip))), crc)
  {
    hide Fold, LittleEndian16, Bits16, ToS16, Clipped, Risen, SumOf;
    SumCounts(c, |c|, clip);
  }

  method AddSum(n: nat, c: array<S32>, clipval: S16, crc0: bv16) returns (crc: bv16)
    requires c.Length == n * n
    ensures crc == CrcSum(c[..], clipval, crc0)
  {
    var sum := MatrixSum(n, c, clipval);
    crc := Crcu16(Bits16(sum), crc0);
  }

  // -val, passed as a 16-bit parameter: the negation of -32768 is itself.
  function Negated(val: S16): S16 { ToS16(0 - val as int) }

  lemma AddedBack(x: S16, val: S16)
    ensures ToS16(ToS16(x + val) + Negated(val)) == x
  {
    var y: int, n: int := ToS16(x + val), Negated(val);
    assert (x + val - y) % 0x1_0000 == 0 && (0 - val - n) % 0x1_0000 == 0;
    var p, q := (x + val - y) / 0x1_0000, (0 - val - n) / 0x1_0000;
    assert y + n == x - 0x1_0000 * (p + q);
    WrapsTo(y + n, x, p + q);
  }

  lemma WrapsTo(z: int, x: S16, k: int)
    requires z == x - 0x1_0000 * k
    ensures ToS16(z) == x
  {
  }

  lemma AddConstUndone(a: seq<S16>, val: S16)
    ensures AddConstOf(AddConstOf(a, val), Negated(val)) == a
  {
    hide ToS16, Negated;
    forall k | 0 <= k < |a| ensures ToS16(ToS16(a[k] + val) + Negated(val)) == a[k] {
      AddedBack(a[k], val);
    }
  }

  method MatrixTest(n: nat, c: array<S32>, a: array<S16>, b: array<S16>, val: S16) returns (crc: bv16)
    requires a.Length == b.Length == c.Length == n * n && a != b && c as object != a && c as object != b
    modifies a, c
    ensures a[..] == old(a[..])
    ensures crc == TestValue(old(a[..]), b[..], n, val)
  {
    hide AddConstOf, MulConstOf, MulVectOf, MulMatrixOf, BitExtractOf, CrcSum;
    var clipval: S16 := val % 0x1000 - 0x1000;
    crc := 0;
    MatrixAddConst(n, a, val);
    MatrixMulConst(n, c, a, val);
    crc := AddSum(n, c, clipval, crc);
    MatrixMulVect(n, c, a, b);
    crc := AddSum(n, c, clipval, crc);
    MatrixMulMatrix(n, c, a, b);
    crc := AddSum(n, c, clipval, crc);
    MatrixMulMatrixBitextract(n, c, a, b);
    crc := AddSum(n, c, clipval, crc);
    AddConstUndone(old(a[..]), val);
    MatrixAddConst(n, a, Negated(val));
  }

  // The parameters of the benchmark; A, B and C are the regions laid out by core_init_matrix.
  datatype MatParams = MatParams(n: nat, a: array<S16>, b: array<S16>, c: array<S32>)

  predicate Shaped(p: MatParams) {
    p.a.Length == p.b.Length == p.c.Length == p.n * p.n && p.a != p.b && p.c as object != p.a && p.c as object != p.b
  }

  method CoreBenchMatrix(p: MatParams, seed: S16, crc0: bv16) returns (crc: bv16)
    requires Shaped(p)
    modifies p.a, p.c
    ensures p.a[..] == old(p.a[..])
    ensures crc == Fold(LittleEndian16(TestValue(old(p.a[..]), p.b[..], p.n, seed)), crc0)
  {
    var value := MatrixTest(p.n, p.c, p.a, p.b, seed);
    crc := Crcu16(value, crc0);
  }

  // ---------- when the products are exact ----------

  function ExactDot(a: seq<S16>, b: seq<S16>, i: nat, j: nat, n: nat, m: nat): int
    requires i < n && j < n && m <= n && |a| == |b| == n * n
    decreases m
  {
    if m == 0 then 0
    else
      AtFacts(i, m - 1, n);
      AtFacts(m - 1, j, n);
      ExactDot(a, b, i, j, n, m - 1) + (a[At(i, m - 1, n)] as int) * (b[At(m - 1, j, n)] as int)
  }

  predicate InRange(a: seq<S16>, hi: int) { forall k | 0 <= k < |a| :: 0 <= a[k] <= hi }

  lemma TermBound(x: int, y: S16)
    requires 0 <= x <= 510
    ensures -16711680 <= x * y <= 16711680
  {
    var z: int := y;
    assert x * z <= x * 0x8000 && x * -0x8000 <= x * z;
  }

  lemma {:induction false} DotBound(a: seq<S16>, b: seq<S16>, i: nat, j: nat, n: nat, m: nat)
    requires i < n && j < n && m <= n && |a| == |b| == n * n && InRange(a, 510)
    ensures -16711680 * m <= ExactDot(a, b, i, j, n, m) <= 16711680 * m
    decreases m
  {
    if m > 0 {
      DotBound(a, b, i, j, n, m - 1);
      AtFacts(i, m - 1, n);
      AtFacts(m - 1, j, n);
      TermBound(a[At(i, m - 1, n)], b[At(m - 1, j, n)]);
    }
  }

  // No partial sum of a product leaves the 32-bit range.
  ghost predicate NeverOverflows(a: seq<S16>, b: seq<S16>, n: nat)
    requires |a| == |b| == n * n
  {
    forall i: nat, j: nat, m: nat | i < n && j < n && m <= n :: -0x8000_0000 <= ExactDot(a, b, i, j, n, m) < 0x8000_0000
  }

  lemma {:induction false} ExactIfInRange(a: seq<S16>, b: seq<S16>, i: nat, j: nat, n: nat, m: nat)
    requires i < n && j < n && m <= n && |a| == |b| == n * n && NeverOverflows(a, b, n)
    ensures Dot(a, b, i, j, n, m) == ExactDot(a, b, i, j, n, m)
    decreases m
  {
    if m > 0 {
      ExactIfInRange(a, b, i, j, n, m - 1);
    }
  }

  function Constant(n: nat, x: S16): (s: seq<S16>)
    ensures |s| == n * n && forall k | 0 <= k < |s| :: s[k] == x
  {
    seq(n * n, _ => x)
  }

  lemma OneMore(m: int, p: int)
    ensures (m - 1) * p + p == m * p
  {
  }

  lemma {:induction false} ConstantDot(n: nat, x: S16, y: S16, m: nat)
    requires 0 < n && m <= n
    ensures ExactDot(Constant(n, x), Constant(n, y), 0, 0, n, m) == m * (x as int * y as int)
    decreases m
  {
    if m > 0 {
      ConstantDot(n, x, y, m - 1);
      AtFacts(0, m - 1, n);
      AtFacts(m - 1, 0, n);
      OneMore(m, x as int * y as int);
    }
  }

  // matrix_mul_matrix is exact for every A in 0..255 shifted by a val in 0..255 and every B exactly up to N = 128.
  lemma ExactUpTo128(n: nat)
    ensures (forall a: seq<S16>, b: seq<S16> | |a| == |b| == n * n && InRange(a, 510) :: NeverOverflows(a, b, n)) <==>
            n <= 128
  {
    if n <= 128 {
      forall a: seq<S16>, b: seq<S16> | |a| == |b| == n * n && InRange(a, 510) ensures NeverOverflows(a, b, n) {
        forall i: nat, j: nat, m: nat | i < n && j < n && m <= n
          ensures -0x8000_0000 <= ExactDot(a, b, i, j, n, m) < 0x8000_0000
        {
          DotBound(a, b, i, j, n, m);
        }
      }
    } else {
      var a, b := Constant(n, 510), Constant(n, -0x8000);
      ConstantDot(n, 510, -0x8000, 129);
      assert ExactDot(a, b, 0, 0, n, 129) < -0x8000_0000;
      assert !NeverOverflows(a, b, n);
    }
  }
}
