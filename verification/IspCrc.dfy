/**
  The CRC-8 of the bootloader's packets (tools/bootloader-isp.py): its lookup table, the bitwise shift
  register the table stands for, and the length-seeded check value of a buffer.
*/
module IspCrc {

  // The lookup table, sixteen entries a row.
  function TableRow(h: nat): (row: seq<bv8>)
    requires h < 16
    ensures |row| == 16
  {
    match h
    case 0 => [0x00, 0x07, 0x0E, 0x09, 0x1C, 0x1B, 0x12, 0x15, 0x38, 0x3F, 0x36, 0x31, 0x24, 0x23, 0x2A, 0x2D]
    case 1 => [0x70, 0x77, 0x7E, 0x79, 0x6C, 0x6B, 0x62, 0x65, 0x48, 0x4F, 0x46, 0x41, 0x54, 0x53, 0x5A, 0x5D]
    case 2 => [0xE0, 0xE7, 0xEE, 0xE9, 0xFC, 0xFB, 0xF2, 0xF5, 0xD8, 0xDF, 0xD6, 0xD1, 0xC4, 0xC3, 0xCA, 0xCD]
    case 3 => [0x90, 0x97, 0x9E, 0x99, 0x8C, 0x8B, 0x82, 0x85, 0xA8, 0xAF, 0xA6, 0xA1, 0xB4, 0xB3, 0xBA, 0xBD]
    case 4 => [0xC7, 0xC0, 0xC9, 0xCE, 0xDB, 0xDC, 0xD5, 0xD2, 0xFF, 0xF8, 0xF1, 0xF6, 0xE3, 0xE4, 0xED, 0xEA]
    case 5 => [0xB7, 0xB0, 0xB9, 0xBE, 0xAB, 0xAC, 0xA5, 0xA2, 0x8F, 0x88, 0x81, 0x86, 0x93, 0x94, 0x9D, 0x9A]
    case 6 => [0x27, 0x20, 0x29, 0x2E, 0x3B, 0x3C, 0x35, 0x32, 0x1F, 0x18, 0x11, 0x16, 0x03, 0x04, 0x0D, 0x0A]
    case 7 => [0x57, 0x50, 0x59, 0x5E, 0x4B, 0x4C, 0x45, 0x42, 0x6F, 0x68, 0x61, 0x66, 0x73, 0x74, 0x7D, 0x7A]
    case 8 => [0x89, 0x8E, 0x87, 0x80, 0x95, 0x92, 0x9B, 0x9C, 0xB1, 0xB6, 0xBF, 0xB8, 0xAD, 0xAA, 0xA3, 0xA4]
    case 9 => [0xF9, 0xFE, 0xF7, 0xF0, 0xE5, 0xE2, 0xEB, 0xEC, 0xC1, 0xC6, 0xCF, 0xC8, 0xDD, 0xDA, 0xD3, 0xD4]
    case 10 => [0x69, 0x6E, 0x67, 0x60, 0x75, 0x72, 0x7B, 0x7C, 0x51, 0x56, 0x5F, 0x58, 0x4D, 0x4A, 0x43, 0x44]
    case 11 => [0x19, 0x1E, 0x17, 0x10, 0x05, 0x02, 0x0B, 0x0C, 0x21, 0x26, 0x2F, 0x28, 0x3D, 0x3A, 0x33, 0x34]
    case 12 => [0x4E, 0x49, 0x40, 0x47, 0x52, 0x55, 0x5C, 0x5B, 0x76, 0x71, 0x78, 0x7F, 0x6A, 0x6D, 0x64, 0x63]
    case 13 => [0x3E, 0x39, 0x30, 0x37, 0x22, 0x25, 0x2C, 0x2B, 0x06, 0x01, 0x08, 0x0F, 0x1A, 0x1D, 0x14, 0x13]
    case 14 => [0xAE, 0xA9, 0xA0, 0xA7, 0xB2, 0xB5, 0xBC, 0xBB, 0x96, 0x91, 0x98, 0x9F, 0x8A, 0x8D, 0x84, 0x83]
    case _ => [0xDE, 0xD9, 0xD0, 0xD7, 0xC2, 0xC5, 0xCC, 0xCB, 0xE6, 0xE1, 0xE8, 0xEF, 0xFA, 0xFD, 0xF4, 0xF3]
  }

  const CRC_ARRAY: seq<bv8> :=
    TableRow(0) + TableRow(1) + TableRow(2) + TableRow(3) + TableRow(4) + TableRow(5) + TableRow(6) + TableRow(7) +
    TableRow(8) + TableRow(9) + TableRow(10) + TableRow(11) + TableRow(12) + TableRow(13) + TableRow(14) + TableRow(15)

  lemma TableSize()
    ensures |CRC_ARRAY| == 256
  {
    hide TableRow;
  }

  // ---------- the bitwise register for x^8 + x^2 + x + 1 ----------

  function Shift(c: bv8): bv8 { if c & 0x80 != 0 then (c << 1) ^ 7 else c << 1 }

  function Shifts(c: bv8, n: nat): bv8
    decreases n
  {
    if n == 0 then c else Shifts(Shift(c), n - 1)
  }

  function Unshift(c: bv8): bv8 { if c & 1 != 0 then ((c ^ 7) >> 1) | 0x80 else c >> 1 }

  function Unshifts(c: bv8, n: nat): bv8
    decreases n
  {
    if n == 0 then c else Unshift(Unshifts(c, n - 1))
  }

  function Plus(x: bv8, y: bv8): bv8 { x ^ y }

  // What the low four bits of an index add to the entry that starts its row.
  predicate RowOk(row: seq<bv8>)
    requires |row| == 16
  {
    row[1] == Plus(row[0], 0x07) && row[2] == Plus(row[0], 0x0E) && row[3] == Plus(row[0], 0x09) &&
    row[4] == Plus(row[0], 0x1C) && row[5] == Plus(row[0], 0x1B) &&
    row[6] == Plus(row[0], 0x12) && row[7] == Plus(row[0], 0x15) && row[8] == Plus(row[0], 0x38) &&
    row[9] == Plus(row[0], 0x3F) && row[10] == Plus(row[0], 0x36) &&
    row[11] == Plus(row[0], 0x31) && row[12] == Plus(row[0], 0x24) && row[13] == Plus(row[0], 0x23) &&
    row[14] == Plus(row[0], 0x2A) && row[15] == Plus(row[0], 0x2D)
  }

  lemma Rows0()
    ensures RowOk(TableRow(0))
    ensures RowOk(TableRow(1))
    ensures RowOk(TableRow(2))
    ensures RowOk(TableRow(3))
  {
  }

  lemma Rows4()
    ensures RowOk(TableRow(4))
    ensures RowOk(TableRow(5))
    ensures RowOk(TableRow(6))
    ensures RowOk(TableRow(7))
  {
  }

  lemma Rows8()
    ensures RowOk(TableRow(8))
    ensures RowOk(TableRow(9))
    ensures RowOk(TableRow(10))
    ensures RowOk(TableRow(11))
  {
  }

  lemma Rows12()
    ensures RowOk(TableRow(12))
    ensures RowOk(TableRow(13))
    ensures RowOk(TableRow(14))
    ensures RowOk(TableRow(15))
  {
  }

  lemma RowsOk(h: nat)
    requires h < 16
    ensures RowOk(TableRow(h))
  {
    hide TableRow, RowOk;
    Rows0();
    Rows4();
    Rows8();
    Rows12();
  }

  lemma Position(h: nat, l: nat)
    requires h < 16 && l < 16
    ensures |CRC_ARRAY| == 256 && CRC_ARRAY[16 * h + l] == TableRow(h)[l]
  {
    hide TableRow;
  }

  lemma Nibbles(x: bv8)
    ensures x as int == 16 * ((x >> 4) as int) + (x & 15) as int && (x >> 4) as int < 16 && (x & 15) as int < 16
  {
  }

  lemma NibbleSum(x: bv8)
    ensures x == Plus(x & 0xF0, x & 0x0F)
  {
  }

  lemma ShiftNone(x: bv8, y: bv8)
    requires x & 0x80 == 0 && y & 0x80 == 0
    ensures Shift(x ^ y) == Shift(x) ^ Shift(y)
  {
  }

  lemma ShiftOne(x: bv8, y: bv8)
    requires x & 0x80 != 0 && y & 0x80 == 0
    ensures Shift(x ^ y) == Shift(x) ^ Shift(y) && Shift(y ^ x) == Shift(y) ^ Shift(x)
  {
  }

  lemma ShiftBoth(x: bv8, y: bv8)
    requires x & 0x80 != 0 && y & 0x80 != 0
    ensures Shift(x ^ y) == Shift(x) ^ Shift(y)
  {
  }

  lemma ShiftXor(x: bv8, y: bv8)
    ensures Shift(x ^ y) == Shift(x) ^ Shift(y)
  {
    hide Shift;
    if x & 0x80 != 0 {
      if y & 0x80 != 0 { ShiftBoth(x, y); } else { ShiftOne(x, y); }
    } else {
      if y & 0x80 != 0 { ShiftOne(y, x); } else { ShiftNone(x, y); }
    }
  }

  lemma PlusIs(x: bv8, y: bv8)
    ensures Plus(x, y) == x ^ y
  {
  }

  lemma ShiftPlus(x: bv8, y: bv8)
    ensures Shift(Plus(x, y)) == Plus(Shift(x), Shift(y))
  {
    hide Shift, Plus;
    PlusIs(x, y);
    ShiftXor(x, y);
    PlusIs(Shift(x), Shift(y));
  }

  lemma {:induction false} ShiftsPlus(x: bv8, y: bv8, n: nat)
    ensures Shifts(Plus(x, y), n) == Plus(Shifts(x, n), Shifts(y, n))
    decreases n
  {
    hide Plus, Shift;
    if n > 0 {
      ShiftPlus(x, y);
      ShiftsPlus(Shift(x), Shift(y), n - 1);
    }
  }

  lemma RowLead(x: bv8)
    ensures (x >> 4) as int < 16 && TableRow((x >> 4) as int)[0] == Shifts(x & 0xF0, 8)
  {
    var h := x >> 4;
    assert h == 0 || h == 1 || h == 2 || h == 3 || h == 4 || h == 5 || h == 6 || h == 7 ||
           h == 8 || h == 9 || h == 10 || h == 11 || h == 12 || h == 13 || h == 14 || h == 15;
  }

  lemma RowRest(row: seq<bv8>, x: bv8)
    requires |row| == 16 && RowOk(row)
    ensures (x & 15) as int < 16 && row[(x & 15) as int] == Plus(row[0], Shifts(x & 15, 8))
  {
    assert Plus(row[0], 0) == row[0];
    hide Plus;
    var l := x & 15;
    assert l == 0 || l == 1 || l == 2 || l == 3 || l == 4 || l == 5 || l == 6 || l == 7 ||
           l == 8 || l == 9 || l == 10 || l == 11 || l == 12 || l == 13 || l == 14 || l == 15;
  }

  // Every table entry is eight shifts of its index.
  lemma TableIsEightShifts(x: bv8)
    ensures |CRC_ARRAY| == 256 && CRC_ARRAY[x as int] == Shifts(x, 8)
  {
    hide TableRow, Shifts, RowOk, CRC_ARRAY, Shift, Plus;
    Nibbles(x);
    var h, l := (x >> 4) as int, (x & 15) as int;
    Position(h, l);
    RowsOk(h);
    RowLead(x);
    RowRest(TableRow(h), x);
    NibbleSum(x);
    ShiftsPlus(x & 0xF0, x & 0x0F, 8);
  }

  lemma UnshiftInverts(c: bv8)
    ensures Unshift(Shift(c)) == c && Shift(Unshift(c)) == c
  {
  }

  lemma {:induction false} UnshiftsInvert(c: bv8, n: nat)
    ensures Unshifts(Shifts(c, n), n) == c && Shifts(Unshifts(c, n), n) == c
    decreases n
  {
    hide Shift, Unshift;
    if n > 0 {
      UnshiftsInvert(Shift(c), n - 1);
      UnshiftInverts(c);
      UnshiftsInvert(c, n - 1);
      UnshiftInverts(Unshifts(c, n - 1));
    }
  }

  // ---------- the check value of a buffer ----------

  function Next(crc: bv8, b: bv8): bv8 { Shifts(crc ^ b, 8) }

  function Fold(crc: bv8, bytes: seq<bv8>): bv8
    decreases |bytes|
  {
    if bytes == [] then crc else Fold(Next(crc, bytes[0]), bytes[1..])
  }

  // The register starts from the length modulo 256.
  function Check(bytes: seq<bv8>): bv8 { Fold((|bytes| % 256) as bv8, bytes) }

  method Crc8L(buf: seq<bv8>, length0: nat) returns (crc8: bv8)
    requires length0 <= |buf|
    ensures crc8 == Check(buf[..length0])
  {
    hide Shifts, TableRow, CRC_ARRAY;
    crc8 := (length0 % 256) as bv8;
    var i, length := 0, length0;
    TableSize();
    while length > 0
      invariant i + length == length0
      invariant Fold(crc8, buf[i..length0]) == Check(buf[..length0])
    {
      length := length - 1;
      TableIsEightShifts(crc8 ^ buf[i]);
      assert buf[i..length0][1..] == buf[i + 1..length0];
      crc8 := CRC_ARRAY[(crc8 ^ buf[i]) as int];
      i := i + 1;
    }
  }

  // The check value is where the register ends that starts from the length and moves by the table.
  lemma {:induction false} CheckRuns(bytes: seq<bv8>, regs: seq<bv8>)
    requires |regs| == |bytes| + 1 && regs[0] as int == |bytes| % 256 && |CRC_ARRAY| == 256
    requires forall i | 0 <= i < |bytes| :: regs[i + 1] == CRC_ARRAY[(regs[i] ^ bytes[i]) as int]
    ensures Check(bytes) == regs[|bytes|]
  {
    FoldRuns(bytes, regs, 0);
    assert bytes[0..] == bytes;
  }

  lemma {:induction false} FoldRuns(bytes: seq<bv8>, regs: seq<bv8>, i: nat)
    requires |regs| == |bytes| + 1 && i <= |bytes| && |CRC_ARRAY| == 256
    requires forall i | 0 <= i < |bytes| :: regs[i + 1] == CRC_ARRAY[(regs[i] ^ bytes[i]) as int]
    ensures Fold(regs[i], bytes[i..]) == regs[|bytes|]
    decreases |bytes| - i
  {
    hide CRC_ARRAY, Shifts;
    if i < |bytes| {
      TableIsEightShifts(regs[i] ^ bytes[i]);
      assert bytes[i..][1..] == bytes[i + 1..];
      FoldRuns(bytes, regs, i + 1);
    }
  }

  lemma NextInjective(c: bv8, d: bv8, a: bv8, b: bv8)
    requires Next(c, a) == Next(d, b)
    ensures c ^ a == d ^ b
  {
    hide Shifts, Unshifts;
    UnshiftsInvert(c ^ a, 8);
    UnshiftsInvert(d ^ b, 8);
  }

  lemma XorCancels(c: bv8, a: bv8, b: bv8)
    ensures (c ^ a == c ^ b <==> a == b) && (a ^ c == b ^ c <==> a == b)
  {
  }

  lemma {:induction false} FoldInjective(c: bv8, d: bv8, bytes: seq<bv8>)
    requires Fold(c, bytes) == Fold(d, bytes)
    ensures c == d
    decreases |bytes|
  {
    hide Next;
    if bytes != [] {
      FoldInjective(Next(c, bytes[0]), Next(d, bytes[0]), bytes[1..]);
      NextInjective(c, d, bytes[0], bytes[0]);
      XorCancels(bytes[0], c, d);
    }
  }

  lemma {:induction false} FoldConcat(c: bv8, a: seq<bv8>, b: seq<bv8>)
    ensures Fold(c, a + b) == Fold(Fold(c, a), b)
    decreases |a|
  {
    hide Next;
    if a == [] {
      assert a + b == b;
    } else {
      assert (a + b)[1..] == a[1..] + b;
      FoldConcat(Next(c, a[0]), a[1..], b);
    }
  }

  // Buffers of one length that differ in exactly one byte never share a check value.
  lemma OneByteDetected(buf: seq<bv8>, i: nat, b: bv8)
    requires i < |buf| && b != buf[i]
    ensures Check(buf[i := b]) != Check(buf)
  {
    hide Next;
    var seed := (|buf| % 256) as bv8;
    var c := Fold(seed, buf[..i]);
    assert buf == buf[..i] + ([buf[i]] + buf[i + 1..]) && buf[i := b] == buf[..i] + ([b] + buf[i + 1..]);
    FoldConcat(seed, buf[..i], [buf[i]] + buf[i + 1..]);
    FoldConcat(seed, buf[..i], [b] + buf[i + 1..]);
    assert ([buf[i]] + buf[i + 1..])[1..] == buf[i + 1..] && ([b] + buf[i + 1..])[1..] == buf[i + 1..];
    NextKeepsApart(c, buf[i], b);
    FoldKeepsApart(Next(c, buf[i]), Next(c, b), buf[i + 1..]);
  }

  lemma NextKeepsApart(c: bv8, a: bv8, b: bv8)
    requires a != b
    ensures Next(c, a) != Next(c, b)
  {
    hide Next;
    XorCancels(c, a, b);
    if Next(c, a) == Next(c, b) { NextInjective(c, c, a, b); }
  }

  lemma FoldKeepsApart(c: bv8, d: bv8, bytes: seq<bv8>)
    requires c != d
    ensures Fold(c, bytes) != Fold(d, bytes)
  {
    hide Fold;
    if Fold(c, bytes) == Fold(d, bytes) { FoldInjective(c, d, bytes); }
  }

  // The table is a permutation of the bytes.
  lemma TableIsPermutation(x: bv8, y: bv8)
    ensures |CRC_ARRAY| == 256
    ensures CRC_ARRAY[x as int] == CRC_ARRAY[y as int] <==> x == y
    ensures CRC_ARRAY[Unshifts(y, 8) as int] == y
  {
    hide Shifts, Unshifts, CRC_ARRAY;
    TableIsEightShifts(x);
    TableIsEightShifts(y);
    TableIsEightShifts(Unshifts(y, 8));
    UnshiftsInvert(x, 8);
    UnshiftsInvert(y, 8);
  }
}
