/**
  The CRC-16 of the benchmark (software/coremark_app/cmark.c): the bit-serial register of crcu8, its
  little-endian foldings crcu16 and crcu32, and what they detect.
*/
module Crc16 {

  // One shift of the register.
  function Step(bit: bv16, crc: bv16): bv16 {
    if (bit ^ crc) & 1 == 1 then (crc >> 1) ^ 0xA001 else crc >> 1
  }

  // The register after n bits of data, least significant bit first.
  function Bits(data: bv8, n: nat, crc: bv16): bv16
    decreases n
  {
    if n == 0 then crc else Bits(data >> 1, n - 1, Step(data as bv16, crc))
  }

  function Byte(data: bv8, crc: bv16): bv16 { Bits(data, 8, crc) }

  function Fold(bytes: seq<bv8>, crc: bv16): bv16 {
    if bytes == [] then crc else Fold(bytes[1..], Byte(bytes[0], crc))
  }

  // ---------- the code ----------

  // x16 tells whether the polynomial is subtracted; the carry puts its top coefficient back.
  method ShiftIn(x16: bv16, crc0: bv16) returns (crc: bv16)
    ensures crc == if x16 == 1 then ((crc0 ^ 0x4002) >> 1) | 0x8000 else (crc0 >> 1) & 0x7fff
  {
    crc := crc0;
    var carry := false;
    if x16 == 1 {
      crc := crc ^ 0x4002;
      carry := true;
    }
    crc := crc >> 1;
    if carry {
      crc := crc | 0x8000;
    } else {
      crc := crc & 0x7fff;
    }
  }

  lemma CarryForm(data: bv8, crc: bv16)
    ensures Step(data as bv16, crc) ==
            if (data as bv16 & 1) ^ (crc & 1) == 1 then ((crc ^ 0x4002) >> 1) | 0x8000 else (crc >> 1) & 0x7fff
  {
  }

  lemma OneBit(data: bv8, n: nat, crc: bv16)
    requires 0 < n
    ensures Bits(data, n, crc) == Bits(data >> 1, n - 1, Step(data as bv16, crc))
  {
  }

  lemma NoBits(data: bv8, crc: bv16)
    ensures Bits(data, 0, crc) == crc
  {
  }

  method Crcu8(data0: bv8, crc0: bv16) returns (crc: bv16)
    ensures crc == Byte(data0, crc0)
  {
    hide Step, Bits;
    var data := data0;
    crc := crc0;
    for i := 0 to 8
      invariant Bits(data, 8 - i, crc) == Bits(data0, 8, crc0)
    {
      CarryForm(data, crc);
      OneBit(data, 8 - i, crc);
      var x16 := (data as bv16 & 1) ^ (crc & 1);
      data := data >> 1;
      crc := ShiftIn(x16, crc);
    }
    NoBits(data, crc);
  }

  function LittleEndian16(v: bv16): seq<bv8> { [(v & 0xff) as bv8, (v >> 8) as bv8] }

  function LittleEndian32(v: bv32): seq<bv8> {
    [(v & 0xff) as bv8, ((v >> 8) & 0xff) as bv8, ((v >> 16) & 0xff) as bv8, (v >> 24) as bv8]
  }

  // The low byte comes first; the bytes make up the word again.
  lemma LittleEndianIs(v: bv16, w: bv32)
    ensures |LittleEndian16(v)| == 2 && |LittleEndian32(w)| == 4
    ensures var b := LittleEndian16(v); (b[0] as bv16) | ((b[1] as bv16) << 8) == v
    ensures var b := LittleEndian32(w);
            (b[0] as bv32) | ((b[1] as bv32) << 8) | ((b[2] as bv32) << 16) | ((b[3] as bv32) << 24) == w
  {
  }

  lemma FoldOne(a: bv8, rest: seq<bv8>, crc: bv16)
    ensures Fold([a] + rest, crc) == Fold(rest, Byte(a, crc))
  {
  }

  method Crcu16(newval: bv16, crc0: bv16) returns (crc: bv16)
    ensures crc == Fold(LittleEndian16(newval), crc0)
  {
    hide Bits;
    var low, high := (newval & 0xff) as bv8, (newval >> 8) as bv8;
    assert LittleEndian16(newval) == [low] + [high];
    FoldOne(low, [high], crc0);
    FoldOne(high, [], Byte(low, crc0));
    crc := Crcu8(low, crc0);
    crc := Crcu8(high, crc);
  }

  method Crcu32(newval: bv32, crc0: bv16) returns (crc: bv16)
    ensures crc == Fold(LittleEndian32(newval), crc0)
  {
    hide Bits;
    var low, high := (newval & 0xffff) as bv16, (newval >> 16) as bv16;
    assert LittleEndian32(newval) == LittleEndian16(low) + LittleEndian16(high);
    FoldConcat(LittleEndian16(low), LittleEndian16(high), crc0);
    crc := Crcu16(low, crc0);
    crc := Crcu16(high, crc);
  }

  lemma {:induction false} FoldConcat(a: seq<bv8>, b: seq<bv8>, crc: bv16)
    ensures Fold(a + b, crc) == Fold(b, Fold(a, crc))
  {
    hide Bits;
    if a == [] {
      assert a + b == b;
    } else {
      assert (a + b)[1..] == a[1..] + b;
      FoldConcat(a[1..], b, Byte(a[0], crc));
    }
  }
}
