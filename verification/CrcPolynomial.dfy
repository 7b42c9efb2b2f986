/**
  What the CRC-16 register computes: the remainder of the message polynomial under schoolbook long
  division over GF(2), and which transmission errors therefore change it.

  A polynomial is a sequence of coefficients, highest power first. The generator is
  x^16 + x^15 + x^2 + 1; the code holds it bit-reversed as 0xA001.
*/
module CrcPolynomial {
  import opened Crc16

  // The coefficients of x^15 .. x^0: x^15, x^2 and 1 are present.
  function Generator(): (g: seq<bool>)
    ensures |g| == 16 && forall i | 0 <= i < 16 :: g[i] == (i == 0 || i == 13 || i == 15)
  {
    seq(16, i => i == 0 || i == 13 || i == 15)
  }

  function Zeros(n: nat): (z: seq<bool>)
    ensures |z| == n && forall i | 0 <= i < n :: !z[i]
  {
    seq(n, _ => false)
  }

  // Sum over GF(2); the shorter operand is aligned at the front.
  function Add(a: seq<bool>, b: seq<bool>): (r: seq<bool>)
    requires |b| <= |a|
    ensures |r| == |a| && forall i | 0 <= i < |a| :: r[i] == if i < |b| then a[i] != b[i] else a[i]
  {
    seq(|a|, i requires 0 <= i < |a| => if i < |b| then a[i] != b[i] else a[i])
  }

  // Schoolbook division: while a coefficient is left above x^15, subtract the generator from below it if it is 1.
  function Remainder(p: seq<bool>): (r: seq<bool>)
    requires 16 <= |p|
    ensures |r| == 16
    decreases |p|
  {
    if |p| == 16 then p
    else if p[0] then Remainder(Add(p[1..], Generator()))
    else Remainder(p[1..])
  }

  // ---------- the register, bit by bit ----------

  predicate Test(c: bv16, mask: bv16) { c & mask != 0 }

  function Mask(i: nat): bv16 { if i == 0 then 1 else Mask(i - 1) << 1 }

  // The register as coefficients of x^15 .. x^0: the lowest bit of the word is the highest coefficient.
  function Coefficients(c: bv16): (r: seq<bool>)
    ensures |r| == 16 && forall i | 0 <= i < 16 :: r[i] == Test(c, Mask(i))
  {
    seq(16, i requires 0 <= i < 16 => Test(c, Mask(i)))
  }

  function ByteBits(b: bv8): (r: seq<bool>)
    ensures |r| == 8 && forall i | 0 <= i < 8 :: r[i] == Test(b as bv16, Mask(i))
  {
    Coefficients(b as bv16)[..8]
  }

  function Message(bytes: seq<bv8>): (r: seq<bool>)
    ensures |r| == 8 * |bytes|
  {
    if bytes == [] then [] else ByteBits(bytes[0]) + Message(bytes[1..])
  }

  function Shift(bit: bool, r: seq<bool>): (s: seq<bool>)
    requires |r| == 16
    ensures |s| == 16
  {
    if bit != r[0] then Add(r[1..] + [false], Generator()) else r[1..] + [false]
  }

  function Run(bits: seq<bool>, r: seq<bool>): (s: seq<bool>)
    requires |r| == 16
    ensures |s| == 16
  {
    if bits == [] then r else Run(bits[1..], Shift(bits[0], r))
  }

  // ---------- the register divides ----------

  lemma {:induction false} RunDivides(bits: seq<bool>, r: seq<bool>)
    requires |r| == 16
    ensures Run(bits, r) == Remainder(Add(bits + Zeros(16), r))
    decreases |bits|
  {
    var p := Add(bits + Zeros(16), r);
    if bits == [] {
      assert p == r;
    } else {
      var p' := Add(bits[1..] + Zeros(16), Shift(bits[0], r));
      assert p[0] == (bits[0] != r[0]);
      assert p' == if p[0] then Add(p[1..], Generator()) else p[1..];
      RunDivides(bits[1..], Shift(bits[0], r));
    }
  }

  lemma {:induction false} RunLinear(a: seq<bool>, b: seq<bool>, r: seq<bool>, s: seq<bool>)
    requires |a| == |b| && |r| == |s| == 16
    ensures Run(Add(a, b), Add(r, s)) == Add(Run(a, r), Run(b, s))
    decreases |a|
  {
    if a != [] {
      assert Shift(a[0] != b[0], Add(r, s)) == Add(Shift(a[0], r), Shift(b[0], s));
      assert Add(a, b)[1..] == Add(a[1..], b[1..]);
      RunLinear(a[1..], b[1..], Shift(a[0], r), Shift(b[0], s));
    }
  }

  lemma ShiftInjective(bit: bool, r: seq<bool>, s: seq<bool>)
    requires |r| == |s| == 16 && Shift(bit, r) == Shift(bit, s)
    ensures r == s
  {
    assert Shift(bit, r)[15] == (bit != r[0]) && Shift(bit, s)[15] == (bit != s[0]);
    forall i | 1 <= i < 16 ensures r[i] == s[i] {
      assert Shift(bit, r)[i - 1] == (r[i] != (bit != r[0] && Generator()[i - 1]));
      assert Shift(bit, s)[i - 1] == (s[i] != (bit != s[0] && Generator()[i - 1]));
    }
  }

  lemma {:induction false} RunInjective(bits: seq<bool>, r: seq<bool>, s: seq<bool>)
    requires |r| == |s| == 16 && Run(bits, r) == Run(bits, s)
    ensures r == s
    decreases |bits|
  {
    if bits != [] {
      RunInjective(bits[1..], Shift(bits[0], r), Shift(bits[0], s));
      ShiftInjective(bits[0], r, s);
    }
  }

  // Up to 16 message bits may as well be added to the register first.
  lemma {:induction false} RunAbsorbs(bits: seq<bool>, r: seq<bool>)
    requires |r| == 16 && |bits| <= 16
    ensures Run(bits, r) == Run(Zeros(|bits|), Add(r, bits))
    decreases |bits|
  {
    if bits != [] {
      var n := |bits| - 1;
      RunAbsorbs(bits[1..], Shift(bits[0], r));
      assert Add(Shift(bits[0], r), bits[1..]) == Shift(false, Add(r, bits));
      assert Zeros(|bits|)[1..] == Zeros(n);
    }
  }

  lemma {:induction false} RunConcat(a: seq<bool>, b: seq<bool>, r: seq<bool>)
    requires |r| == 16
    ensures Run(a + b, r) == Run(b, Run(a, r))
    decreases |a|
  {
    if a == [] {
      assert a + b == b;
    } else {
      assert (a + b)[1..] == a[1..] + b;
      RunConcat(a[1..], b, Shift(a[0], r));
    }
  }

  // Every error burst that fits into 16 consecutive message bits changes the register.
  lemma BurstDetected(before: seq<bool>, x: seq<bool>, y: seq<bool>, after: seq<bool>, r: seq<bool>)
    requires |x| == |y| <= 16 && x != y && |r| == 16
    ensures Run(before + x + after, r) != Run(before + y + after, r)
  {
    hide Run, Generator;
    var s := Run(before, r);
    RunConcat(before + x, after, r);
    RunConcat(before, x, r);
    RunConcat(before + y, after, r);
    RunConcat(before, y, r);
    RunAbsorbs(x, s);
    RunAbsorbs(y, s);
    var i :| 0 <= i < |x| && x[i] != y[i];
    assert Add(s, x)[i] != Add(s, y)[i];
    RunKeepsApart(Zeros(|x|), Add(s, x), Add(s, y));
    RunKeepsApart(after, Run(x, s), Run(y, s));
  }

  lemma RunKeepsApart(bits: seq<bool>, r: seq<bool>, s: seq<bool>)
    requires |r| == |s| == 16 && r != s
    ensures Run(bits, r) != Run(bits, s)
  {
    hide Run;
    if Run(bits, r) == Run(bits, s) { RunInjective(bits, r, s); }
  }

  // ---------- the code's register is that register ----------

  lemma LowBit(bit: bv16, c: bv16)
    ensures Test(Step(bit, c), 1) == (Test(c, 2) != (Test(bit, 1) != Test(c, 1)))
  {
  }

  lemma TapBit(bit: bv16, c: bv16)
    ensures Test(Step(bit, c), 0x2000) == (Test(c, 0x4000) != (Test(bit, 1) != Test(c, 1)))
  {
  }

  lemma TopBit(bit: bv16, c: bv16)
    ensures Test(Step(bit, c), 0x8000) == (Test(bit, 1) != Test(c, 1))
  {
  }

  lemma PlainBit(bit: bv16, c: bv16, mask: bv16)
    requires mask & 0xA001 == 0
    ensures Test(Step(bit, c), mask) == Test(c, mask << 1)
  {
    PlainShift(bit, c, mask);
    ShiftedTest(c, mask);
  }

  lemma PlainShift(bit: bv16, c: bv16, mask: bv16)
    requires mask & 0xA001 == 0
    ensures Step(bit, c) & mask == (c >> 1) & mask && mask & 0x8000 == 0
  {
  }

  lemma MaskValues()
    ensures Mask(0) == 1 && Mask(1) == 2 && Mask(2) == 4 && Mask(3) == 8 && Mask(4) == 0x10 && Mask(5) == 0x20 &&
            Mask(6) == 0x40 && Mask(7) == 0x80
    ensures Mask(8) == 0x100 && Mask(9) == 0x200 && Mask(10) == 0x400 && Mask(11) == 0x800 && Mask(12) == 0x1000
    ensures Mask(13) == 0x2000 && Mask(14) == 0x4000 && Mask(15) == 0x8000
  {
  }

  lemma StepBit(bit: bv16, c: bv16, i: nat)
    requires i < 16
    ensures Test(Step(bit, c), Mask(i)) ==
            ((i < 15 && Test(c, Mask(i + 1))) != (Test(bit, 1) != Test(c, 1) && Generator()[i]))
  {
    MaskValues();
    hide Test, Step;
    LowBit(bit, c);
    TapBit(bit, c);
    TopBit(bit, c);
    if i != 0 && i != 13 && i != 15 {
      PlainBit(bit, c, Mask(i));
    }
  }

  lemma StepIsShift(bit: bv16, c: bv16)
    ensures Coefficients(Step(bit, c)) == Shift(Test(bit, 1), Coefficients(c))
  {
    hide Test, Step, Mask;
    var r, s := Coefficients(c), Coefficients(Step(bit, c));
    var t := Shift(Test(bit, 1), r);
    MaskValues();
    forall i | 0 <= i < 16 ensures s[i] == t[i] {
      StepBit(bit, c, i);
    }
  }

  lemma ShiftedTest(w: bv16, mask: bv16)
    requires mask & 0x8000 == 0
    ensures Test(w >> 1, mask) == Test(w, mask << 1)
  {
  }

  lemma NextMask(i: nat)
    requires i < 15
    ensures Mask(i + 1) == Mask(i) << 1 && Mask(i) & 0x8000 == 0
  {
    MaskValues();
  }

  lemma ShiftedBits(w: bv16, n: nat)
    requires 0 < n <= 8
    ensures Coefficients(w)[..n][1..] == Coefficients(w >> 1)[..n - 1]
  {
    hide Test, Mask;
    forall i | 0 <= i < n - 1 ensures Test(w, Mask(i + 1)) == Test(w >> 1, Mask(i)) {
      NextMask(i);
      ShiftedTest(w, Mask(i));
    }
  }

  lemma Widen(data: bv8)
    ensures (data >> 1) as bv16 == (data as bv16) >> 1
  {
  }

  lemma {:induction false} BitsIsRun(data: bv8, n: nat, c: bv16)
    requires n <= 8
    ensures Coefficients(Bits(data, n, c)) == Run(Coefficients(data as bv16)[..n], Coefficients(c))
    decreases n
  {
    hide Step, Test, Coefficients;
    if n > 0 {
      StepIsShift(data as bv16, c);
      ShiftedBits(data as bv16, n);
      Widen(data);
      assert Mask(0) == 1;
      BitsIsRun(data >> 1, n - 1, Step(data as bv16, c));
    }
  }

  lemma {:induction false} FoldIsRun(bytes: seq<bv8>, c: bv16)
    ensures Coefficients(Fold(bytes, c)) == Run(Message(bytes), Coefficients(c))
    decreases |bytes|
  {
    hide Bits, Coefficients, Shift;
    if bytes != [] {
      BitsIsRun(bytes[0], 8, c);
      RunConcat(ByteBits(bytes[0]), Message(bytes[1..]), Coefficients(c));
      FoldIsRun(bytes[1..], Byte(bytes[0], c));
    }
  }

  lemma XorTest(c: bv16, d: bv16, i: nat)
    requires i < 16
    ensures Test(c ^ d, Mask(i)) == (Test(c, Mask(i)) != Test(d, Mask(i)))
  {
    MaskValues();
    XorMask(c, d, Mask(i));
  }

  lemma XorMask(c: bv16, d: bv16, mask: bv16)
    requires mask & (mask - 1) == 0
    ensures Test(c ^ d, mask) == (Test(c, mask) != Test(d, mask))
  {
  }

  lemma CoefficientsAdd(c: bv16, d: bv16)
    ensures Coefficients(c ^ d) == Add(Coefficients(c), Coefficients(d))
  {
    hide Test, Mask;
    forall i | 0 <= i < 16 ensures Coefficients(c ^ d)[i] == Add(Coefficients(c), Coefficients(d))[i] {
      XorTest(c, d, i);
    }
  }

  lemma WordByTests(c: bv16, d: bv16)
    requires Test(c, 1) == Test(d, 1) && Test(c, 2) == Test(d, 2) && Test(c, 4) == Test(d, 4) &&
             Test(c, 8) == Test(d, 8) && Test(c, 0x10) == Test(d, 0x10) && Test(c, 0x20) == Test(d, 0x20) &&
             Test(c, 0x40) == Test(d, 0x40) && Test(c, 0x80) == Test(d, 0x80)
    requires Test(c, 0x100) == Test(d, 0x100) && Test(c, 0x200) == Test(d, 0x200) &&
             Test(c, 0x400) == Test(d, 0x400) && Test(c, 0x800) == Test(d, 0x800) &&
             Test(c, 0x1000) == Test(d, 0x1000) && Test(c, 0x2000) == Test(d, 0x2000) &&
             Test(c, 0x4000) == Test(d, 0x4000) && Test(c, 0x8000) == Test(d, 0x8000)
    ensures c == d
  {
  }

  lemma CoefficientsInjective(c: bv16, d: bv16)
    requires Coefficients(c) == Coefficients(d)
    ensures c == d
  {
    hide Test, Mask;
    MaskValues();
    assert forall i | 0 <= i < 16 :: Test(c, Mask(i)) == Test(d, Mask(i)) by {
      assert forall i | 0 <= i < 16 :: Coefficients(c)[i] == Coefficients(d)[i];
    }
    WordByTests(c, d);
  }

  // ---------- what crcu8 folded over a message computes and detects ----------

  // The register after a message is the remainder of message * x^16, with the start value added to its front.
  lemma CrcIsRemainder(bytes: seq<bv8>, crc: bv16)
    ensures Coefficients(Fold(bytes, crc)) == Remainder(Add(Message(bytes) + Zeros(16), Coefficients(crc)))
  {
    FoldIsRun(bytes, crc);
    RunDivides(Message(bytes), Coefficients(crc));
  }

  function Xor(a: seq<bv8>, b: seq<bv8>): (r: seq<bv8>)
    requires |a| == |b|
  {
    if a == [] then [] else [a[0] ^ b[0]] + Xor(a[1..], b[1..])
  }

  lemma ByteXor(a: bv8, b: bv8)
    ensures ByteBits(a ^ b) == Add(ByteBits(a), ByteBits(b))
  {
    hide Test, Mask, Coefficients;
    WidenXor(a, b);
    CoefficientsAdd(a as bv16, b as bv16);
  }

  lemma WidenXor(a: bv8, b: bv8)
    ensures (a ^ b) as bv16 == (a as bv16) ^ (b as bv16)
  {
  }

  lemma {:induction false} MessageXor(a: seq<bv8>, b: seq<bv8>)
    requires |a| == |b|
    ensures |Xor(a, b)| == |a| && Message(Xor(a, b)) == Add(Message(a), Message(b))
  {
    hide ByteBits;
    if a != [] {
      ByteXor(a[0], b[0]);
      MessageXor(a[1..], b[1..]);
      assert Xor(a, b)[1..] == Xor(a[1..], b[1..]);
    }
  }

  lemma AddedWord(u: bv16, v: bv16, w: bv16)
    requires Coefficients(u) == Add(Coefficients(v), Coefficients(w))
    ensures u == v ^ w
  {
    hide Coefficients, Test;
    CoefficientsAdd(v, w);
    CoefficientsInjective(u, v ^ w);
  }

  // XOR-linear in message and start value together.
  lemma CrcIsLinear(a: seq<bv8>, b: seq<bv8>, c: bv16, d: bv16)
    requires |a| == |b|
    ensures Fold(Xor(a, b), c ^ d) == Fold(a, c) ^ Fold(b, d)
  {
    hide Coefficients, Bits, Message, Run, Add, Xor, Fold;
    MessageXor(a, b);
    FoldIsRun(Xor(a, b), c ^ d);
    FoldIsRun(a, c);
    FoldIsRun(b, d);
    CoefficientsAdd(c, d);
    RunLinear(Message(a), Message(b), Coefficients(c), Coefficients(d));
    AddedWord(Fold(Xor(a, b), c ^ d), Fold(a, c), Fold(b, d));
  }

  lemma CrcIsInjectiveInStart(bytes: seq<bv8>, c: bv16, d: bv16)
    ensures Fold(bytes, c) == Fold(bytes, d) <==> c == d
  {
    hide Coefficients, Bits;
    if Fold(bytes, c) == Fold(bytes, d) {
      FoldIsRun(bytes, c);
      FoldIsRun(bytes, d);
      RunInjective(Message(bytes), Coefficients(c), Coefficients(d));
      CoefficientsInjective(c, d);
    }
  }

  lemma {:induction false} MessageConcat(a: seq<bv8>, b: seq<bv8>)
    ensures Message(a + b) == Message(a) + Message(b)
  {
    hide ByteBits;
    if a == [] {
      assert a + b == b;
    } else {
      assert (a + b)[1..] == a[1..] + b;
      MessageConcat(a[1..], b);
    }
  }

  lemma ByteBitsInjective(a: bv8, b: bv8)
    requires ByteBits(a) == ByteBits(b)
    ensures a == b
  {
    MaskValues();
    assert forall i | 0 <= i < 8 :: ByteBits(a)[i] == ByteBits(b)[i];
    hide Coefficients, Mask;
    assert forall i | 0 <= i < 8 :: Test(a as bv16, Mask(i)) == Test(b as bv16, Mask(i));
    ByteByTests(a, b);
  }

  lemma ByteByTests(a: bv8, b: bv8)
    requires Test(a as bv16, 1) == Test(b as bv16, 1) && Test(a as bv16, 2) == Test(b as bv16, 2) &&
             Test(a as bv16, 4) == Test(b as bv16, 4) && Test(a as bv16, 8) == Test(b as bv16, 8)
    requires Test(a as bv16, 0x10) == Test(b as bv16, 0x10) && Test(a as bv16, 0x20) == Test(b as bv16, 0x20) &&
             Test(a as bv16, 0x40) == Test(b as bv16, 0x40) && Test(a as bv16, 0x80) == Test(b as bv16, 0x80)
    ensures a == b
  {
  }

  lemma {:induction false} MessageInjective(a: seq<bv8>, b: seq<bv8>)
    requires |a| == |b| && Message(a) == Message(b)
    ensures a == b
  {
    hide ByteBits;
    if a != [] {
      assert ByteBits(a[0]) == Message(a)[..8] == Message(b)[..8] == ByteBits(b[0]);
      assert Message(a[1..]) == Message(a)[8..] == Message(b)[8..] == Message(b[1..]);
      ByteBitsInjective(a[0], b[0]);
      MessageInjective(a[1..], b[1..]);
    }
  }

  // Two messages of one length that differ only inside a window of at most two adjacent bytes have different CRCs.
  lemma WindowDetected(before: seq<bv8>, x: seq<bv8>, y: seq<bv8>, after: seq<bv8>, crc: bv16)
    requires |x| == |y| <= 2 && x != y
    ensures Fold(before + x + after, crc) != Fold(before + y + after, crc)
  {
    hide Coefficients, Bits, ByteBits, Run;
    FoldIsRun(before + x + after, crc);
    FoldIsRun(before + y + after, crc);
    MessageConcat(before + x, after);
    MessageConcat(before, x);
    MessageConcat(before + y, after);
    MessageConcat(before, y);
    if Message(x) == Message(y) {
      MessageInjective(x, y);
    }
    BurstDetected(Message(before), Message(x), Message(y), Message(after), Coefficients(crc));
  }
}
