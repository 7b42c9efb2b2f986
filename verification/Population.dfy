/** Counting ones (model/components/capstone/MathExtras.h:244-268), in parallel sums of two, four and eight bits. */
module Population {
  // The ones of the lowest byte, counted one by one.
  function Bits8Of32(v: bv32): bv32 {
    (v & 1) + ((v >> 1) & 1) + ((v >> 2) & 1) + ((v >> 3) & 1) + ((v >> 4) & 1) + ((v >> 5) & 1) + ((v >> 6) & 1) +
      ((v >> 7) & 1)
  }

  function Bits32(v: bv32): bv32 {
    Total32(Bits8Of32(v >> 0), Bits8Of32(v >> 8), Bits8Of32(v >> 16), Bits8Of32(v >> 24))
  }

  // Sums of two bits, of four, of eight, all at once.
  function Pairs32(value: bv32): bv32 { value - ((value >> 1) & 0x5555_5555) }
  function Nibbles32(v: bv32): bv32 { (v & 0x3333_3333) + ((v >> 2) & 0x3333_3333) }
  function Bytes32(v: bv32): bv32 { (v + (v >> 4)) & 0x0f0f_0f0f }
  function ByteSums32(value: bv32): bv32 { Bytes32(Nibbles32(Pairs32(value))) }

  lemma Byte0Of32(value: bv32)
    ensures (ByteSums32(value) >> 0) & 0xff == Bits8Of32(value >> 0)
  {
  }

  lemma Byte1Of32(value: bv32)
    ensures (ByteSums32(value) >> 8) & 0xff == Bits8Of32(value >> 8)
  {
  }

  lemma Byte2Of32(value: bv32)
    ensures (ByteSums32(value) >> 16) & 0xff == Bits8Of32(value >> 16)
  {
  }

  lemma Byte3Of32(value: bv32)
    ensures (ByteSums32(value) >> 24) & 0xff == Bits8Of32(value >> 24)
  {
  }

  lemma SumsMasked32(value: bv32)
    ensures ByteSums32(value) & 0x0f0f_0f0f == ByteSums32(value)
  {
  }

  lemma Bits8Small32(v: bv32)
    ensures Bits8Of32(v) <= 8
  {
  }

  function Total32(b0: bv32, b1: bv32, b2: bv32, b3: bv32): bv32 { b0 + b1 + b2 + b3 }

  // The top byte of the product.
  function ProductTop32(s: bv32): bv32 { (s * 0x0101_0101) >> 24 }

  lemma ProductAdds32(s: bv32, b0: bv32, b1: bv32, b2: bv32, b3: bv32)
    requires s & 0x0f0f_0f0f == s && (s >> 0) & 0xff == b0 <= 8 && (s >> 8) & 0xff == b1 <= 8 &&
             (s >> 16) & 0xff == b2 <= 8 && (s >> 24) & 0xff == b3 <= 8
    ensures ProductTop32(s) == Total32(b0, b1, b2, b3)
  {
  }

  function CountPopulation32(value: bv32): (r: bv32)
    ensures r == Bits32(value)
  {
    hide ByteSums32, Bits8Of32, ProductTop32, Total32;
    Byte0Of32(value); Byte1Of32(value); Byte2Of32(value); Byte3Of32(value);
    Bits8Small32(value >> 0); Bits8Small32(value >> 8); Bits8Small32(value >> 16); Bits8Small32(value >> 24);
    SumsMasked32(value);
    ProductAdds32(ByteSums32(value), Bits8Of32(value >> 0), Bits8Of32(value >> 8), Bits8Of32(value >> 16),
      Bits8Of32(value >> 24));
    ProductTop32(ByteSums32(value))
  }

  // The ones of the lowest byte, counted one by one.
  function Bits8Of64(v: bv64): bv64 {
    (v & 1) + ((v >> 1) & 1) + ((v >> 2) & 1) + ((v >> 3) & 1) + ((v >> 4) & 1) + ((v >> 5) & 1) + ((v >> 6) & 1) +
      ((v >> 7) & 1)
  }

  function Bits64(v: bv64): bv64 {
    Total64(Bits8Of64(v >> 0), Bits8Of64(v >> 8), Bits8Of64(v >> 16), Bits8Of64(v >> 24), Bits8Of64(v >> 32),
      Bits8Of64(v >> 40), Bits8Of64(v >> 48), Bits8Of64(v >> 56))
  }

  // Sums of two bits, of four, of eight, all at once.
  function Pairs64(value: bv64): bv64 { value - ((value >> 1) & 0x5555_5555_5555_5555) }
  function Nibbles64(v: bv64): bv64 { (v & 0x3333_3333_3333_3333) + ((v >> 2) & 0x3333_3333_3333_3333) }
  function Bytes64(v: bv64): bv64 { (v + (v >> 4)) & 0x0f0f_0f0f_0f0f_0f0f }
  function ByteSums64(value: bv64): bv64 { Bytes64(Nibbles64(Pairs64(value))) }

  lemma Byte0Of64(value: bv64)
    ensures (ByteSums64(value) >> 0) & 0xff == Bits8Of64(value >> 0)
  {
  }

  lemma Byte1Of64(value: bv64)
    ensures (ByteSums64(value) >> 8) & 0xff == Bits8Of64(value >> 8)
  {
  }

  lemma Byte2Of64(value: bv64)
    ensures (ByteSums64(value) >> 16) & 0xff == Bits8Of64(value >> 16)
  {
  }

  lemma Byte3Of64(value: bv64)
    ensures (ByteSums64(value) >> 24) & 0xff == Bits8Of64(value >> 24)
  {
  }

  lemma Byte4Of64(value: bv64)
    ensures (ByteSums64(value) >> 32) & 0xff == Bits8Of64(value >> 32)
  {
  }

  lemma Byte5Of64(value: bv64)
    ensures (ByteSums64(value) >> 40) & 0xff == Bits8Of64(value >> 40)
  {
  }

  lemma Byte6Of64(value: bv64)
    ensures (ByteSums64(value) >> 48) & 0xff == Bits8Of64(value >> 48)
  {
  }

  lemma Byte7Of64(value: bv64)
    ensures (ByteSums64(value) >> 56) & 0xff == Bits8Of64(value >> 56)
  {
  }

  lemma SumsMasked64(value: bv64)
    ensures ByteSums64(value) & 0x0f0f_0f0f_0f0f_0f0f == ByteSums64(value)
  {
  }

  lemma Bits8Small64(v: bv64)
    ensures Bits8Of64(v) <= 8
  {
  }

  function Plus(a: bv64, b: bv64): bv64 { a + b }

  function Total64(b0: bv64, b1: bv64, b2: bv64, b3: bv64, b4: bv64, b5: bv64, b6: bv64, b7: bv64): bv64 {
    Plus(Plus(Plus(b7, b6), Plus(b5, b4)), Plus(Plus(b3, b2), Plus(b1, b0)))
  }

  // The top byte of the product. The multiplication adds the word to itself shifted by one byte, by two, by four.
  function Product64(s: bv64): bv64 { s * 0x0101_0101_0101_0101 }
  function ProductTop64(s: bv64): bv64 { Product64(s) >> 56 }
  function AddByte(s: bv64): bv64 { s + (s << 8) }
  function AddTwoBytes(t: bv64): bv64 { t + (t << 16) }
  function AddFourBytes(u: bv64): bv64 { u + (u << 32) }

  function FourTerms(s: bv64): bv64 { s + (s << 8) + (s << 16) + (s << 24) }
  function EightTerms(s: bv64): bv64 {
    s + (s << 8) + (s << 16) + (s << 24) + (s << 32) + (s << 40) + (s << 48) + (s << 56)
  }

  lemma ProductIsEight(s: bv64)
    ensures Product64(s) == EightTerms(s)
  {
  }

  lemma Byte(s: bv64)
    ensures AddByte(s) == s + (s << 8)
  {
  }

  lemma TwoMakeFour(s: bv64)
    ensures AddTwoBytes(s + (s << 8)) == FourTerms(s)
  {
  }

  lemma FourAre(s: bv64)
    ensures FourTerms(s) == s + (s << 8) + (s << 16) + (s << 24)
  {
  }

  lemma FourMakeEight(s: bv64)
    ensures AddFourBytes(s + (s << 8) + (s << 16) + (s << 24)) == EightTerms(s)
  {
  }

  lemma ProductInSteps(s: bv64)
    ensures Product64(s) == AddFourBytes(AddTwoBytes(AddByte(s)))
  {
    hide Product64, AddByte, AddTwoBytes, AddFourBytes, FourTerms, EightTerms;
    ProductIsEight(s);
    Byte(s);
    TwoMakeFour(s);
    FourAre(s);
    FourMakeEight(s);
  }

  lemma BytesAdd(s: bv64, b0: bv64, b1: bv64, b2: bv64, b3: bv64, b4: bv64, b5: bv64, b6: bv64, b7: bv64)
    requires (s >> 0) & 0xff == b0 <= 8 && (s >> 8) & 0xff == b1 <= 8 && (s >> 16) & 0xff == b2 <= 8 &&
             (s >> 24) & 0xff == b3 <= 8
    requires (s >> 32) & 0xff == b4 <= 8 && (s >> 40) & 0xff == b5 <= 8 && (s >> 48) & 0xff == b6 <= 8 &&
             (s >> 56) & 0xff == b7 <= 8
    ensures PairsIn(AddByte(s), Plus(b1, b0), Plus(b3, b2), Plus(b5, b4), Plus(b7, b6))
  {
  }

  predicate PairsIn(t: bv64, c1: bv64, c3: bv64, c5: bv64, c7: bv64) {
    (t >> 56) & 0xff == c7 <= 16 && (t >> 40) & 0xff == c5 <= 16 && (t >> 24) & 0xff == c3 <= 16 &&
    (t >> 8) & 0xff == c1 <= 16 &&
    t & 0xe0e0_e0e0_e0e0_e0e0 == 0
  }

  predicate QuadsIn(u: bv64, d3: bv64, d7: bv64) {
    (u >> 56) & 0xff == d7 <= 32 && (u >> 24) & 0xff == d3 <= 32 && u & 0xc0c0_c0c0_c0c0_c0c0 == 0
  }

  lemma PairsAdd(t: bv64, c1: bv64, c3: bv64, c5: bv64, c7: bv64)
    requires PairsIn(t, c1, c3, c5, c7)
    ensures QuadsIn(AddTwoBytes(t), Plus(c3, c1), Plus(c7, c5))
  {
  }

  lemma HalvesAdd(u: bv64, d3: bv64, d7: bv64)
    requires QuadsIn(u, d3, d7)
    ensures AddFourBytes(u) >> 56 == Plus(d7, d3)
  {
  }

  lemma ProductAdds64(s: bv64, b0: bv64, b1: bv64, b2: bv64, b3: bv64, b4: bv64, b5: bv64, b6: bv64, b7: bv64)
    requires (s >> 0) & 0xff == b0 <= 8 && (s >> 8) & 0xff == b1 <= 8 && (s >> 16) & 0xff == b2 <= 8 &&
             (s >> 24) & 0xff == b3 <= 8
    requires (s >> 32) & 0xff == b4 <= 8 && (s >> 40) & 0xff == b5 <= 8 && (s >> 48) & 0xff == b6 <= 8 &&
             (s >> 56) & 0xff == b7 <= 8
    ensures ProductTop64(s) == Total64(b0, b1, b2, b3, b4, b5, b6, b7)
  {
    ProductInSteps(s);
    hide Product64, Plus, PairsIn, QuadsIn, AddByte, AddTwoBytes, AddFourBytes;
    BytesAdd(s, b0, b1, b2, b3, b4, b5, b6, b7);
    PairsAdd(AddByte(s), Plus(b1, b0), Plus(b3, b2), Plus(b5, b4), Plus(b7, b6));
    HalvesAdd(AddTwoBytes(AddByte(s)), Plus(Plus(b3, b2), Plus(b1, b0)), Plus(Plus(b7, b6), Plus(b5, b4)));
  }

  function CountPopulation64(value: bv64): (r: bv64)
    ensures r == Bits64(value)
  {
    hide ByteSums64, Bits8Of64, ProductTop64, Total64;
    Byte0Of64(value); Byte1Of64(value); Byte2Of64(value); Byte3Of64(value); Byte4Of64(value); Byte5Of64(value);
      Byte6Of64(value); Byte7Of64(value);
    Bits8Small64(value >> 0); Bits8Small64(value >> 8); Bits8Small64(value >> 16); Bits8Small64(value >> 24);
      Bits8Small64(value >> 32); Bits8Small64(value >> 40); Bits8Small64(value >> 48); Bits8Small64(value >> 56);
    SumsMasked64(value);
    ProductAdds64(ByteSums64(value), Bits8Of64(value >> 0), Bits8Of64(value >> 8), Bits8Of64(value >> 16),
      Bits8Of64(value >> 24), Bits8Of64(value >> 32), Bits8Of64(value >> 40), Bits8Of64(value >> 48),
      Bits8Of64(value >> 56));
    ProductTop64(ByteSums64(value))
  }
}
