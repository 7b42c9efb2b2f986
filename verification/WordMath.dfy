/**
  Masks, powers of two, logarithms, common divisors and alignment
  (model/components/capstone/MathExtras.h:61-83, 270-303, 353-411, 421-437).
*/
module WordMath {
  import opened Division
  import opened ZeroCounts

  // ---------- masks ----------

  // n ones at the low end.
  function LowOnes(n: bv64): bv64
    requires 1 <= n <= 64
  {
    0xffff_ffff_ffff_ffff >> (64 - n)
  }

  predicate IsMask64(value: bv64) { value != 0 && (value + 1) & value == 0 }

  // The zeros below the lowest one filled in.
  function Filled(value: bv64): bv64 { (value - 1) | value }

  predicate IsShiftedMask64(value: bv64) { IsMask64(Filled(value)) }

  predicate OnesUpTo(value: bv64, n: bv64) { 1 <= n <= 64 && value == LowOnes(n) }

  // Ones from place k up to place n.
  predicate OnesFromTo(value: bv64, k: bv64, n: bv64) {
    k < n <= 64 && value == LowOnes(n) & (0xffff_ffff_ffff_ffff << k)
  }

  lemma MaskWidth(value: bv64, n: bv64)
    requires IsMask64(value) && Trailing64(!value, n)
    ensures OnesUpTo(value, n)
  {
  }

  lemma OnesAreMask(value: bv64, n: bv64)
    requires OnesUpTo(value, n)
    ensures IsMask64(value)
  {
  }

  // A mask is a run of ones from the lowest bit on.
  lemma MaskIff(value: bv64)
    ensures IsMask64(value) <==> exists n :: OnesUpTo(value, n)
  {
    hide IsMask64, OnesUpTo, Trailing64;
    if IsMask64(value) {
      MaskWidth(value, CountTrailingZeros64(!value));
    }
    if n :| OnesUpTo(value, n) {
      OnesAreMask(value, n);
    }
  }

  lemma RunOfMask(value: bv64, k: bv64, n: bv64)
    requires value != 0 && OnesUpTo(Filled(value), n) && Trailing64(value, k)
    ensures OnesFromTo(value, k, n)
  {
  }

  lemma RunIsMask(value: bv64, k: bv64, n: bv64)
    requires OnesFromTo(value, k, n)
    ensures OnesUpTo(Filled(value), n)
  {
  }

  // A shifted mask is a run of ones anywhere. The documentation of the function asks for ones; zero passes too.
  lemma ShiftedMaskIff(value: bv64)
    ensures IsShiftedMask64(value) <==> value == 0 || exists k, n :: OnesFromTo(value, k, n)
  {
    if value == 0 {
      assert IsShiftedMask64(0);
    } else {
      ShiftedMaskOfOnes(value);
    }
  }

  lemma ShiftedMaskOfOnes(value: bv64)
    requires value != 0
    ensures IsShiftedMask64(value) <==> exists k, n :: OnesFromTo(value, k, n)
  {
    hide IsMask64, Filled, OnesUpTo, OnesFromTo, Trailing64;
    MaskIff(Filled(value));
    if n :| OnesUpTo(Filled(value), n) {
      RunOfMask(value, CountTrailingZeros64(value), n);
    }
    if k, n :| OnesFromTo(value, k, n) {
      RunIsMask(value, k, n);
    }
  }

  // ---------- powers of two ----------

  predicate IsPowerOf2(p: bv64) { p != 0 && p & (p - 1) == 0 }

  // Smears the highest one over all lower bits.
  method NextPowerOf2(a0: bv64) returns (r: bv64)
    ensures r == 0 <==> a0 >= 0x8000_0000_0000_0000
    ensures r != 0 ==> IsPowerOf2(r) && r > a0 && r >> 1 <= a0
  {
    var a := a0;
    a := a | (a >> 1);
    a := a | (a >> 2);
    a := a | (a >> 4);
    a := a | (a >> 8);
    a := a | (a >> 16);
    a := a | (a >> 32);
    assert a == SmearAll(a0);
    SmearedIsMask(a0);
    SmearedAbove(a0);
    SmearedBelow(a0);
    hide SmearAll;
    NextOfMask(a0, a);
    r := a + 1;
  }

  function Smear(a: bv64, n: bv64): bv64
    requires n <= 64
  {
    a | (a >> n)
  }

  function SmearAll(a0: bv64): bv64 { Smear(Smear(Smear(Smear(Smear(Smear(a0, 1), 2), 4), 8), 16), 32) }

  lemma SmearedIsMask(a0: bv64)
    ensures SmearAll(a0) & (SmearAll(a0) + 1) == 0
  {
  }

  lemma SmearedAbove(a0: bv64)
    ensures SmearAll(a0) >= a0 && (SmearAll(a0) == 0xffff_ffff_ffff_ffff <==> a0 >= 0x8000_0000_0000_0000)
  {
  }

  lemma SmearedBelow(a0: bv64)
    ensures SmearAll(a0) >> 1 <= a0 && (a0 == 0 ==> SmearAll(a0) == 0) && (a0 != 0 ==> SmearAll(a0) >> 1 < a0)
  {
  }

  lemma NextOfMask(a0: bv64, a: bv64)
    requires a & (a + 1) == 0 && a >= a0 && (a == 0xffff_ffff_ffff_ffff <==> a0 >= 0x8000_0000_0000_0000) &&
             (a0 != 0 ==> a >> 1 < a0) && (a0 == 0 ==> a == 0)
    ensures a + 1 == 0 <==> a0 >= 0x8000_0000_0000_0000
    ensures a + 1 != 0 ==> IsPowerOf2(a + 1) && a + 1 > a0 && (a + 1) >> 1 <= a0
  {
  }

  // Nothing between: the result is the least power of two above a.
  lemma LeastPowerAbove(a: bv64, r: bv64, p: bv64)
    requires IsPowerOf2(r) && r > a && r >> 1 <= a && IsPowerOf2(p) && p > a
    ensures r <= p
  {
  }

  // p divides x: no bit of x below the one of p.
  predicate DividesBits(p: bv64, x: bv64) { IsPowerOf2(p) && x & (p - 1) == 0 }

  // The greatest power of two dividing both, unless both are zero.
  function MinAlign(a: bv64, b: bv64): (r: bv64)
    ensures a | b != 0 ==> DividesBits(r, a) && DividesBits(r, b)
    ensures a | b == 0 ==> r == 0
  {
    (a | b) & (1 + !(a | b))
  }

  lemma MinAlignGreatest(a: bv64, b: bv64, p: bv64)
    requires DividesBits(p, a) && DividesBits(p, b) && a | b != 0
    ensures p <= MinAlign(a, b)
  {
  }

  // ---------- logarithms ----------

  // Zero gives the all-ones word, the unsigned form of -1.
  method Log2Of32(value: bv32) returns (r: bv32)
    ensures if value == 0 then r == 0xffff_ffff else r < 32 && value >> r == 1
  {
    hide Leading32;
    var c := CountLeadingZeros32(value);
    FloorLog(value, c);
    r := 31 - c;
  }

  lemma FloorLog(value: bv32, c: bv32)
    requires Leading32(value, c)
    ensures if value == 0 then 31 - c == 0xffff_ffff else 31 - c < 32 && value >> (31 - c) == 1
  {
  }

  // The ceiling: value fits below 1 << r and not below half of it. Zero gives 32.
  method Log2CeilOf32(value: bv32) returns (r: bv32)
    ensures r <= 32
    ensures value == 0 ==> r == 32
    ensures value != 0 ==> (value - 1) >> r == 0 && (r > 0 ==> (value - 1) >> (r - 1) == 1)
  {
    hide Leading32;
    var c := CountLeadingZeros32(value - 1);
    CeilLog(value, c);
    r := 32 - c;
  }

  lemma CeilLog(value: bv32, c: bv32)
    requires Leading32(value - 1, c)
    ensures 32 - c <= 32
    ensures value == 0 ==> 32 - c == 32
    ensures value != 0 ==> (value - 1) >> (32 - c) == 0 && (32 - c > 0 ==> (value - 1) >> (32 - c - 1) == 1)
  {
  }

  // ---------- on numbers ----------

  ghost predicate Divides(d: nat, x: nat) { exists q: nat :: x == q * d }

  // The greatest of the common divisors: every one of them divides it. Both zero give zero.
  ghost predicate IsGcd(g: nat, a: nat, b: nat) {
    Divides(g, a) && Divides(g, b) && forall d: nat | Divides(d, a) && Divides(d, b) :: Divides(d, g)
  }

  lemma DividesSum(d: nat, x: nat, y: nat, k: nat)
    requires Divides(d, x) && Divides(d, y)
    ensures Divides(d, k * x + y)
  {
    var p: nat :| x == p * d;
    var q: nat :| y == q * d;
    assert k * x + y == (k * p + q) * d by {
      assert k * (p * d) == (k * p) * d;
    }
  }

  lemma DividesRest(d: nat, a: nat, b: nat)
    requires 0 < b && Divides(d, a) && Divides(d, b)
    ensures Divides(d, a % b)
  {
    var p: nat :| a == p * d;
    var q: nat :| b == q * d;
    DividesRestOf(d, p, q, a / b, a % b);
  }

  lemma DividesRestOf(d: nat, p: nat, q: nat, k: nat, r: nat)
    requires p * d == k * (q * d) + r && r < q * d
    ensures Divides(d, r)
  {
    RestIs(p, q, d, k, r);
    if d != 0 { FactorNotNegative(d, p - k * q); }
  }

  lemma RestIs(p: nat, q: nat, d: nat, k: nat, r: nat)
    requires p * d == k * (q * d) + r
    ensures r == (p - k * q) * d
  {
    assert k * (q * d) == (k * q) * d;
  }

  lemma GcdStep(g: nat, a: nat, b: nat)
    requires 0 < b && IsGcd(g, b, a % b)
    ensures IsGcd(g, a, b)
  {
    DividesSum(g, b, a % b, a / b);
    assert a == (a / b) * b + a % b;
    forall d: nat | Divides(d, a) && Divides(d, b) ensures Divides(d, g) {
      DividesRest(d, a, b);
    }
  }

  lemma GcdEnd(a: nat)
    ensures IsGcd(a, a, 0)
  {
    assert a == 1 * a;
    assert 0 == 0 * a;
  }

  method GreatestCommonDivisor64(a0: nat, b0: nat) returns (a: nat)
    requires a0 < 0x1_0000_0000_0000_0000 && b0 < 0x1_0000_0000_0000_0000
    ensures IsGcd(a, a0, b0)
  {
    hide IsGcd;
    a := a0;
    var b: nat := b0;
    while b != 0
      invariant forall g: nat | IsGcd(g, a, b) :: IsGcd(g, a0, b0)
      decreases b
    {
      forall g: nat | IsGcd(g, b, a % b) ensures IsGcd(g, a0, b0) {
        GcdStep(g, a, b);
      }
      var t := b;
      b := a % b;
      a := t;
    }
    GcdEnd(a);
  }

  const WORD := 0x1_0000_0000_0000_0000

  // In 64-bit arithmetic.
  function RoundUpToAlignment(value: nat, align: nat): nat
    requires 0 < align
  {
    ((value + align - 1) % WORD / align * align) % WORD
  }

  // What its documentation promises: the next multiple of align from value on, modulo 2^64.
  ghost predicate NextMultiple(r: nat, value: nat, align: nat)
    requires 0 < align
  {
    exists q: nat :: (q - 1) * align < value <= q * align && r == q * align % WORD
  }

  lemma CeilDiv(value: nat, align: nat, q: nat)
    requires 0 < align && (q - 1) * align < value <= q * align
    ensures q == (value + align - 1) / align
  {
    var x := value + align - 1;
    assert (q - 1) * align == align * q - align;
    QuotientIs(x, align, q, x - align * q);
  }

  lemma CeilBounds(value: nat, align: nat)
    requires 0 < align
    ensures var q := (value + align - 1) / align; (q - 1) * align < value <= q * align
  {
    var x := value + align - 1;
    var q := x / align;
    assert x == q * align + x % align;
  }

  // It keeps the promise exactly if the sum does not wrap, or align divides 2^64.
  lemma RoundUpIff(value: nat, align: nat)
    requires value < 0x1_0000_0000_0000_0000 && 0 < align < 0x1_0000_0000_0000_0000
    ensures NextMultiple(RoundUpToAlignment(value, align), value, align) <==>
            value + align - 1 < 0x1_0000_0000_0000_0000 || 0x1_0000_0000_0000_0000 % align == 0
  {
    var x := value + align - 1;
    var q := x / align;
    CeilBounds(value, align);
    forall p: nat | (p - 1) * align < value <= p * align ensures p == q { CeilDiv(value, align, p); }
    if x < WORD {
      assert x % WORD == x;
    } else {
      WrappedRoundUp(value, align);
    }
  }

  // With a wrapped sum the code gives zero, which is right only if 2^64 is a multiple of align.
  lemma WrappedRoundUp(value: nat, align: nat)
    requires value < WORD && 0 < align < WORD && value + align - 1 >= WORD
    ensures var q := (value + align - 1) / align; q * align % WORD == RoundUpToAlignment(value, align) <==>
            WORD % align == 0
  {
    var x := value + align - 1;
    var q := x / align;
    CeilBounds(value, align);
    WrapsToZero(value, align);
    assert (q - 1) * align == q * align - align;
    WordOrNot(q * align, value, align);
    if WORD % align == 0 {
      WholeQuotient(value, align);
    }
    if q * align == WORD {
      Multiple(q, align);
    }
  }

  lemma WrapsToZero(value: nat, align: nat)
    requires value < WORD && 0 < align < WORD && value + align - 1 >= WORD
    ensures RoundUpToAlignment(value, align) == 0
  {
    var x := value + align - 1;
    assert x % WORD == x - WORD;
    assert (x - WORD) / align == 0;
  }

  // The only multiple of 2^64 near a word.
  lemma WordOrNot(m: nat, value: nat, align: nat)
    requires value < WORD && 0 < align < WORD && value + align - 1 >= WORD && value <= m < value + align
    ensures m % WORD == 0 <==> m == WORD
  {
  }

  lemma WholeQuotient(value: nat, align: nat)
    requires value < WORD && 0 < align < WORD && value + align - 1 >= WORD && WORD % align == 0
    ensures (value + align - 1) / align * align == WORD
  {
    var m := WORD / align;
    assert WORD == align * m;
    QuotientIs(value + align - 1, align, m, value + align - 1 - WORD);
  }

  lemma Multiple(q: nat, d: nat)
    requires 0 < d
    ensures (q * d) % d == 0
  {
    QuotientIs(q * d, d, q, 0);
  }

  // The loop over a signed word: at most 31 halvings.
  method CountLeadingZerosInt(x0: int) returns (count: nat)
    requires -0x8000_0000 <= x0 < 0x8000_0000
    ensures if x0 < 0 then count == 0 else count == 32 - Digits(x0)
  {
    var x, i := x0, 32;
    count := 32;
    if x < 0 { return 0; }
    assert Power(10) == 0x400 && Power(20) == 0x10_0000 && Power(31) == 0x8000_0000;
    DigitsFit(x, 31, 0x8000_0000);
    i := i - 1;
    while i != 0
      invariant 0 <= i <= 31 && 0 <= x && count == i + 1 && Digits(x) <= i && Digits(x0) == Digits(x) + 32 - count
      decreases i
    {
      if x == 0 { break; }
      count := count - 1;
      x := x / 2;
      i := i - 1;
    }
  }

  // Number of binary digits.
  function Digits(x: nat): nat { if x == 0 then 0 else 1 + Digits(x / 2) }

  lemma {:induction false} DigitsFit(x: nat, n: nat, bound: nat)
    requires x < bound && bound == Power(n)
    ensures Digits(x) <= n
  {
    if n > 0 && x > 0 {
      DigitsFit(x / 2, n - 1, Power(n - 1));
    }
  }

  function Power(n: nat): nat { if n == 0 then 1 else 2 * Power(n - 1) }
}
