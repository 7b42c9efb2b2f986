/**
  Counting leading and trailing zeros (model/components/capstone/MathExtras.h:87-234) in the portable
  branches: by bisection, by halves, and by the remainder of the lowest one modulo 37 or 67.
*/
module ZeroCounts {
  // ---------- leading zeros ----------

  // Count zeros stand above the highest one of value.
  predicate Leading32(value: bv32, count: bv32) {
    if value == 0 then count == 32 else count < 32 && value >> (31 - count) == 1
  }

  lemma LeadingIsUnique32(value: bv32, c: bv32, d: bv32)
    requires Leading32(value, c) && Leading32(value, d)
    ensures c == d
  {
  }

  predicate Stride32(shift: bv32) { shift == 16 || shift == 8 || shift == 4 || shift == 2 || shift == 1 }

  // Where the bisection stands: the digits of value fit into bound, count has no bit below bound, and value is
  // the word shifted down by amount.
  predicate Bisecting32(shift: bv32, bound: bv32, count: bv32, amount: bv32, value: bv32) {
    Counted32(shift, bound, count, amount) && Below32(bound, value)
  }

  predicate Below32(bound: bv32, value: bv32) { value != 0 && bound <= 32 && value >> bound == 0 }

  lemma LowIsBelow32(shift: bv32, value: bv32)
    requires shift <= 32 && value >> shift == 0 && value != 0
    ensures Below32(shift, value)
  {
  }

  predicate Counted32(shift: bv32, bound: bv32, count: bv32, amount: bv32) {
    (shift == 0 || Stride32(shift)) &&
    bound == (if shift == 0 then 1 else shift << 1) && count & (32 - bound) == count &&
    amount == 32 - bound - count
  }

  lemma CountOn32(shift: bv32, bound: bv32, count: bv32, amount: bv32)
    requires shift != 0 && Counted32(shift, bound, count, amount)
    ensures Counted32(shift >> 1, shift, count | shift, amount) && amount <= 32
  {
    if shift == 16 { assert count & 0 == count; } else if shift == 8 { assert count & 16 == count; }
      else if shift == 4 { assert count & 24 == count; } else if shift == 2 { assert count & 28 == count; }
      else if shift == 1 { assert count & 30 == count; }
  }

  lemma KeepHigh32(shift: bv32, bound: bv32, count: bv32, amount: bv32, value: bv32)
    requires shift != 0 && Bisecting32(shift, bound, count, amount, value) && value >> shift != 0
    ensures Stride32(shift) && Bisecting32(shift >> 1, shift, count, amount + shift, value >> shift) &&
            Roomy32(amount, shift)
  {
  }

  lemma KeepLow32(shift: bv32, bound: bv32, count: bv32, amount: bv32, value: bv32)
    requires shift != 0 && shift <= 32 && Bisecting32(shift, bound, count, amount, value) && value >> shift == 0
    ensures Bisecting32(shift >> 1, shift, count | shift, amount, value) && amount <= 32
  {
    assert value != 0;
    hide Counted32, Below32;
    CountOn32(shift, bound, count, amount);
    LowIsBelow32(shift, value);
  }

  predicate ShiftedDown32(value0: bv32, amount: bv32, value: bv32) { amount <= 32 && value == value0 >> amount }

  predicate Roomy32(amount: bv32, shift: bv32) { amount <= 32 - shift - shift && amount & (shift + shift - 1) == 0 }

  lemma ShiftTwice32(value0: bv32, amount: bv32, shift: bv32, value: bv32)
    requires Stride32(shift) && Roomy32(amount, shift) && ShiftedDown32(value0, amount, value)
    ensures ShiftedDown32(value0, amount + shift, value >> shift)
  {
    if shift == 16 {} else if shift == 8 {} else if shift == 4 {} else if shift == 2 {} else if shift == 1 {}
  }

  method CountLeadingZeros32(value0: bv32) returns (count: bv32)
    ensures Leading32(value0, count)
  {
    if value0 == 0 { return 32; }
    var value := value0;
    count := 0;
    var shift: bv32 := 32 >> 1;
    ghost var bound: bv32, amount: bv32 := 32, 0;
    assert Bisecting32(shift, bound, count, amount, value);
    assert ShiftedDown32(value0, amount, value);
    hide Bisecting32, Stride32, ShiftedDown32, Roomy32;
    while shift != 0
      invariant Bisecting32(shift, bound, count, amount, value)
      invariant ShiftedDown32(value0, amount, value)
      decreases shift
    {
      var tmp := value >> shift;
      if tmp != 0 {
        KeepHigh32(shift, bound, count, amount, value);
        ShiftTwice32(value0, amount, shift, value);
        amount := amount + shift;
        value := tmp;
      } else {
        KeepLow32(shift, bound, count, amount, value);
        count := count | shift;
      }
      bound := shift;
      shift := shift >> 1;
    }
    Bisected32(value0, bound, count, amount, value);
  }

  lemma Bisected32(value0: bv32, bound: bv32, count: bv32, amount: bv32, value: bv32)
    requires Bisecting32(0, bound, count, amount, value) && ShiftedDown32(value0, amount, value)
    ensures Leading32(value0, count)
  {
  }

  // Count zeros stand above the highest one of value.
  predicate Leading64(value: bv64, count: bv64) {
    if value == 0 then count == 64 else count < 64 && value >> (63 - count) == 1
  }

  lemma LeadingIsUnique64(value: bv64, c: bv64, d: bv64)
    requires Leading64(value, c) && Leading64(value, d)
    ensures c == d
  {
  }

  predicate Stride64(shift: bv64) { shift == 32 || shift == 16 || shift == 8 || shift == 4 || shift == 2 || shift == 1 }

  // Where the bisection stands: the digits of value fit into bound, count has no bit below bound, and value is
  // the word shifted down by amount.
  predicate Bisecting64(shift: bv64, bound: bv64, count: bv64, amount: bv64, value: bv64) {
    Counted64(shift, bound, count, amount) && Below64(bound, value)
  }

  predicate Below64(bound: bv64, value: bv64) { value != 0 && bound <= 64 && value >> bound == 0 }

  lemma LowIsBelow64(shift: bv64, value: bv64)
    requires shift <= 64 && value >> shift == 0 && value != 0
    ensures Below64(shift, value)
  {
  }

  predicate Counted64(shift: bv64, bound: bv64, count: bv64, amount: bv64) {
    (shift == 0 || Stride64(shift)) &&
    bound == (if shift == 0 then 1 else shift << 1) && count & (64 - bound) == count &&
    amount == 64 - bound - count
  }

  lemma CountOnWide(shift: bv64, bound: bv64, count: bv64, amount: bv64)
    requires (shift == 32 || shift == 16 || shift == 8) && Counted64(shift, bound, count, amount)
    ensures Counted64(shift >> 1, shift, count | shift, amount) && amount <= 64
  {
    if shift == 32 { assert count & 0 == count; } else if shift == 16 { assert count & 32 == count; }
      else if shift == 8 { assert count & 48 == count; }
  }

  lemma CountOnNarrow(shift: bv64, bound: bv64, count: bv64, amount: bv64)
    requires (shift == 4 || shift == 2 || shift == 1) && Counted64(shift, bound, count, amount)
    ensures Counted64(shift >> 1, shift, count | shift, amount) && amount <= 64
  {
    if shift == 4 { assert count & 56 == count; } else if shift == 2 { assert count & 60 == count; }
      else if shift == 1 { assert count & 62 == count; }
  }

  lemma CountOn64(shift: bv64, bound: bv64, count: bv64, amount: bv64)
    requires shift != 0 && Counted64(shift, bound, count, amount)
    ensures Counted64(shift >> 1, shift, count | shift, amount) && amount <= 64
  {
    if shift >= 8 {
      CountOnWide(shift, bound, count, amount);
    } else {
      CountOnNarrow(shift, bound, count, amount);
    }
  }

  lemma KeepHigh64(shift: bv64, bound: bv64, count: bv64, amount: bv64, value: bv64)
    requires shift != 0 && Bisecting64(shift, bound, count, amount, value) && value >> shift != 0
    ensures Stride64(shift) && Bisecting64(shift >> 1, shift, count, amount + shift, value >> shift) &&
            Roomy64(amount, shift)
  {
  }

  lemma KeepLow64(shift: bv64, bound: bv64, count: bv64, amount: bv64, value: bv64)
    requires shift != 0 && shift <= 64 && Bisecting64(shift, bound, count, amount, value) && value >> shift == 0
    ensures Bisecting64(shift >> 1, shift, count | shift, amount, value) && amount <= 64
  {
    assert value != 0;
    hide Counted64, Below64;
    CountOn64(shift, bound, count, amount);
    LowIsBelow64(shift, value);
  }

  predicate ShiftedDown64(value0: bv64, amount: bv64, value: bv64) { amount <= 64 && value == value0 >> amount }

  predicate Roomy64(amount: bv64, shift: bv64) { amount <= 64 - shift - shift && amount & (shift + shift - 1) == 0 }

  lemma ShiftTwice64(value0: bv64, amount: bv64, shift: bv64, value: bv64)
    requires Stride64(shift) && Roomy64(amount, shift) && ShiftedDown64(value0, amount, value)
    ensures ShiftedDown64(value0, amount + shift, value >> shift)
  {
    if shift >= 8 {
      WideShiftTwice(value0, amount, shift, value);
    } else {
      NarrowShiftTwice(value0, amount, shift, value);
    }
  }

  lemma WideShiftTwice(value0: bv64, amount: bv64, shift: bv64, value: bv64)
    requires (shift == 32 || shift == 16 || shift == 8) && Roomy64(amount, shift) &&
             ShiftedDown64(value0, amount, value)
    ensures ShiftedDown64(value0, amount + shift, value >> shift)
  {
    if shift == 32 {} else if shift == 16 {} else if shift == 8 {}
  }

  lemma NarrowShiftTwice(value0: bv64, amount: bv64, shift: bv64, value: bv64)
    requires (shift == 4 || shift == 2 || shift == 1) && Roomy64(amount, shift) && ShiftedDown64(value0, amount, value)
    ensures ShiftedDown64(value0, amount + shift, value >> shift)
  {
    hide Roomy64, ShiftedDown64;
    if shift == 4 {
      FourMore(value0, amount, value);
    } else if shift == 2 {
      TwoMore(value0, amount, value);
    } else {
      OneMore(value0, amount, value);
    }
  }

  lemma FourMore(value0: bv64, amount: bv64, value: bv64)
    requires Roomy64(amount, 4) && ShiftedDown64(value0, amount, value)
    ensures ShiftedDown64(value0, amount + 4, value >> 4)
  {
    if amount == 0 {} else if amount == 8 {} else if amount == 16 {} else if amount == 24 {} else if amount == 32 {}
    else if amount == 40 {} else if amount == 48 {} else if amount == 56 {}
  }

  lemma TwoMore(value0: bv64, amount: bv64, value: bv64)
    requires Roomy64(amount, 2) && ShiftedDown64(value0, amount, value)
    ensures ShiftedDown64(value0, amount + 2, value >> 2)
  {
    if amount == 0 {} else if amount == 4 {} else if amount == 8 {} else if amount == 12 {} else if amount == 16 {}
    else if amount == 20 {} else if amount == 24 {} else if amount == 28 {} else if amount == 32 {}
    else if amount == 36 {} else if amount == 40 {} else if amount == 44 {} else if amount == 48 {}
    else if amount == 52 {} else if amount == 56 {} else if amount == 60 {}
  }

  lemma OneMore(value0: bv64, amount: bv64, value: bv64)
    requires Roomy64(amount, 1) && ShiftedDown64(value0, amount, value)
    ensures ShiftedDown64(value0, amount + 1, value >> 1)
  {
    if amount < 32 { OneMoreLow(value0, amount, value); } else { OneMoreHigh(value0, amount, value); }
  }

  lemma OneMoreLow(value0: bv64, amount: bv64, value: bv64)
    requires Roomy64(amount, 1) && ShiftedDown64(value0, amount, value) && amount < 32
    ensures ShiftedDown64(value0, amount + 1, value >> 1)
  {
    if amount == 0 {} else if amount == 2 {} else if amount == 4 {} else if amount == 6 {} else if amount == 8 {}
    else if amount == 10 {} else if amount == 12 {} else if amount == 14 {} else if amount == 16 {}
    else if amount == 18 {} else if amount == 20 {} else if amount == 22 {} else if amount == 24 {}
    else if amount == 26 {} else if amount == 28 {} else if amount == 30 {}
  }

  lemma OneMoreHigh(value0: bv64, amount: bv64, value: bv64)
    requires Roomy64(amount, 1) && ShiftedDown64(value0, amount, value) && amount >= 32
    ensures ShiftedDown64(value0, amount + 1, value >> 1)
  {
    if amount == 32 {} else if amount == 34 {} else if amount == 36 {} else if amount == 38 {}
    else if amount == 40 {} else if amount == 42 {} else if amount == 44 {} else if amount == 46 {}
    else if amount == 48 {} else if amount == 50 {} else if amount == 52 {} else if amount == 54 {}
    else if amount == 56 {} else if amount == 58 {} else if amount == 60 {} else if amount == 62 {}
  }

  method BisectLeadingZeros64(value0: bv64) returns (count: bv64)
    ensures Leading64(value0, count)
  {
    if value0 == 0 { return 64; }
    var value := value0;
    count := 0;
    var shift: bv64 := 64 >> 1;
    ghost var bound: bv64, amount: bv64 := 64, 0;
    assert Bisecting64(shift, bound, count, amount, value);
    assert ShiftedDown64(value0, amount, value);
    hide Bisecting64, Stride64, ShiftedDown64, Roomy64;
    while shift != 0
      invariant Bisecting64(shift, bound, count, amount, value)
      invariant ShiftedDown64(value0, amount, value)
      decreases shift
    {
      var tmp := value >> shift;
      if tmp != 0 {
        KeepHigh64(shift, bound, count, amount, value);
        ShiftTwice64(value0, amount, shift, value);
        amount := amount + shift;
        value := tmp;
      } else {
        KeepLow64(shift, bound, count, amount, value);
        count := count | shift;
      }
      bound := shift;
      shift := shift >> 1;
    }
    Bisected64(value0, bound, count, amount, value);
  }

  lemma Bisected64(value0: bv64, bound: bv64, count: bv64, amount: bv64, value: bv64)
    requires Bisecting64(0, bound, count, amount, value) && ShiftedDown64(value0, amount, value)
    ensures Leading64(value0, count)
  {
  }

  // Where long has 32 bits, the 64-bit count goes by halves.
  method CountLeadingZeros64(value: bv64) returns (count: bv64)
    ensures Leading64(value, count)
  {
    hide Leading32, Leading64;
    var hi, lo := (value >> 32) as bv32, (value & 0xffff_ffff) as bv32;
    if hi != 0 {
      var c := CountLeadingZeros32(hi);
      LeadingInHigh(value, c);
      count := c as bv64;
    } else {
      var c := CountLeadingZeros32(lo);
      LeadingInLow(value, c);
      count := c as bv64 + 32;
    }
  }

  lemma LeadingInHigh(value: bv64, c: bv32)
    requires (value >> 32) as bv32 != 0 && Leading32((value >> 32) as bv32, c)
    ensures Leading64(value, c as bv64)
  {
  }

  lemma LeadingInLow(value: bv64, c: bv32)
    requires (value >> 32) as bv32 == 0 && Leading32((value & 0xffff_ffff) as bv32, c)
    ensures Leading64(value, c as bv64 + 32)
  {
  }

  // ---------- trailing zeros ----------

  // The position table, by the remainder of the lowest one.
  function Mod37(r: bv32): bv32 {
    match r
    case 0 => 32 case 1 => 0 case 2 => 1 case 3 => 26 case 4 => 2 case 5 => 23 case 6 => 27 case 7 => 0
    case 8 => 3 case 9 => 16 case 10 => 24 case 11 => 30 case 12 => 28 case 13 => 11 case 14 => 0 case 15 => 13
    case 16 => 4 case 17 => 7 case 18 => 17 case 19 => 0 case 20 => 25 case 21 => 22 case 22 => 31 case 23 => 15
    case 24 => 29 case 25 => 10 case 26 => 12 case 27 => 6 case 28 => 0 case 29 => 21 case 30 => 14 case 31 => 9
    case 32 => 5 case 33 => 20 case 34 => 8 case 35 => 19 case 36 => 18
    case _ => 0
  }

  function Rem37(low: bv32): bv32 { low % 37 }

  // Count zeros stand below the lowest one of value.
  predicate Trailing32(value: bv32, count: bv32) {
    if value == 0 then count == 32 else count < 32 && value << (31 - count) == 0x80000000
  }

  predicate Single32(low: bv32) { low & (low - 1) == 0 }

  lemma Part0Of32(low: bv32)
    requires Single32(low) && low & 0xff == low && low != 0
    ensures Trailing32(low, Mod37(Rem37(low)))
  {
  }

  lemma Part1Of32(low: bv32)
    requires Single32(low) && low & 0xff00 == low && low != 0
    ensures Trailing32(low, Mod37(Rem37(low)))
  {
  }

  lemma Part2Of32(low: bv32)
    requires Single32(low) && low & 0xff0000 == low && low != 0
    ensures Trailing32(low, Mod37(Rem37(low)))
  {
  }

  lemma Part3Of32(low: bv32)
    requires Single32(low) && low & 0xff000000 == low && low != 0
    ensures Trailing32(low, Mod37(Rem37(low)))
  {
  }

  lemma TableOf32(low: bv32)
    requires Single32(low)
    ensures Trailing32(low, Mod37(Rem37(low)))
  {
    hide Mod37, Rem37, Trailing32;
    if low == 0 {
      TableOfNone32();
    } else if low & 0xff == low {
      Part0Of32(low);
    } else if low & 0xff00 == low {
      Part1Of32(low);
    } else if low & 0xff0000 == low {
      Part2Of32(low);
    } else if low & 0xff000000 == low {
      Part3Of32(low);
    }
  }

  lemma TableOfNone32()
    ensures Trailing32(0, Mod37(Rem37(0)))
  {
  }

  lemma LowestTells32(value: bv32, count: bv32)
    requires Trailing32((1 + !value) & value, count)
    ensures Trailing32(value, count)
  {
  }

  lemma LowestIsSingle32(value: bv32)
    ensures Single32((1 + !value) & value)
  {
  }

  function CountTrailingZeros32(value: bv32): (count: bv32)
    ensures Trailing32(value, count)
  {
    hide Mod37, Rem37, Trailing32, Single32;
    LowestIsSingle32(value);
    TableOf32((1 + !value) & value);
    LowestTells32(value, Mod37(Rem37((1 + !value) & value)));
    Mod37(Rem37((1 + !value) & value))
  }

  // The position table, by the remainder of the lowest one.
  function Mod67(r: nat): bv64 {
    match r
    case 0 => 64 case 1 => 0 case 2 => 1 case 3 => 39 case 4 => 2 case 5 => 15 case 6 => 40 case 7 => 23
    case 8 => 3 case 9 => 12 case 10 => 16 case 11 => 59 case 12 => 41 case 13 => 19 case 14 => 24 case 15 => 54
    case 16 => 4 case 17 => 64 case 18 => 13 case 19 => 10 case 20 => 17 case 21 => 62 case 22 => 60 case 23 => 28
    case 24 => 42 case 25 => 30 case 26 => 20 case 27 => 51 case 28 => 25 case 29 => 44 case 30 => 55 case 31 => 47
    case 32 => 5 case 33 => 32 case 34 => 65 case 35 => 38 case 36 => 14 case 37 => 22 case 38 => 11 case 39 => 58
    case 40 => 18 case 41 => 53 case 42 => 63 case 43 => 9 case 44 => 61 case 45 => 27 case 46 => 29 case 47 => 50
    case 48 => 43 case 49 => 46 case 50 => 31 case 51 => 37 case 52 => 21 case 53 => 57 case 54 => 52 case 55 => 8
    case 56 => 26 case 57 => 49 case 58 => 45 case 59 => 36 case 60 => 56 case 61 => 7 case 62 => 48 case 63 => 35
    case 64 => 6 case 65 => 34 case 66 => 33 case 67 => 0
    case _ => 0
  }

  function Rem67(low: bv64): nat { (low % 67) as int }

  // Count zeros stand below the lowest one of value.
  predicate Trailing64(value: bv64, count: bv64) {
    if value == 0 then count == 64 else count < 64 && value << (63 - count) == 0x8000000000000000
  }

  predicate Single64(low: bv64) { low & (low - 1) == 0 }

  lemma Part0Of64(low: bv64)
    requires Single64(low) && low & 0xffff == low && low != 0
    ensures Trailing64(low, Mod67(Rem67(low)))
  {
    if low == 0x1 { assert Rem67(0x1) == 1; } else if low == 0x2 { assert Rem67(0x2) == 2; }
      else if low == 0x4 { assert Rem67(0x4) == 4; } else
    if low == 0x8 { assert Rem67(0x8) == 8; } else if low == 0x10 { assert Rem67(0x10) == 16; }
      else if low == 0x20 { assert Rem67(0x20) == 32; } else
    if low == 0x40 { assert Rem67(0x40) == 64; } else if low == 0x80 { assert Rem67(0x80) == 61; }
      else if low == 0x100 { assert Rem67(0x100) == 55; } else
    if low == 0x200 { assert Rem67(0x200) == 43; } else if low == 0x400 { assert Rem67(0x400) == 19; }
      else if low == 0x800 { assert Rem67(0x800) == 38; } else
    if low == 0x1000 { assert Rem67(0x1000) == 9; } else if low == 0x2000 { assert Rem67(0x2000) == 18; }
      else if low == 0x4000 { assert Rem67(0x4000) == 36; } else
    if low == 0x8000 { assert Rem67(0x8000) == 5; }
  }

  lemma Part1Of64(low: bv64)
    requires Single64(low) && low & 0xffff0000 == low && low != 0
    ensures Trailing64(low, Mod67(Rem67(low)))
  {
    if low == 0x10000 { assert Rem67(0x10000) == 10; } else if low == 0x20000 { assert Rem67(0x20000) == 20; } else
    if low == 0x40000 { assert Rem67(0x40000) == 40; } else if low == 0x80000 { assert Rem67(0x80000) == 13; } else
    if low == 0x100000 { assert Rem67(0x100000) == 26; } else if low == 0x200000 { assert Rem67(0x200000) == 52; } else
    if low == 0x400000 { assert Rem67(0x400000) == 37; } else if low == 0x800000 { assert Rem67(0x800000) == 7; } else
    if low == 0x1000000 { assert Rem67(0x1000000) == 14; }
      else if low == 0x2000000 { assert Rem67(0x2000000) == 28; } else
    if low == 0x4000000 { assert Rem67(0x4000000) == 56; }
      else if low == 0x8000000 { assert Rem67(0x8000000) == 45; } else
    if low == 0x10000000 { assert Rem67(0x10000000) == 23; }
      else if low == 0x20000000 { assert Rem67(0x20000000) == 46; } else
    if low == 0x40000000 { assert Rem67(0x40000000) == 25; }
      else if low == 0x80000000 { assert Rem67(0x80000000) == 50; }
  }

  lemma Part2Of64(low: bv64)
    requires Single64(low) && low & 0xffff00000000 == low && low != 0
    ensures Trailing64(low, Mod67(Rem67(low)))
  {
    if low == 0x100000000 { assert Rem67(0x100000000) == 33; }
      else if low == 0x200000000 { assert Rem67(0x200000000) == 66; } else
    if low == 0x400000000 { assert Rem67(0x400000000) == 65; }
      else if low == 0x800000000 { assert Rem67(0x800000000) == 63; } else
    if low == 0x1000000000 { assert Rem67(0x1000000000) == 59; }
      else if low == 0x2000000000 { assert Rem67(0x2000000000) == 51; } else
    if low == 0x4000000000 { assert Rem67(0x4000000000) == 35; }
      else if low == 0x8000000000 { assert Rem67(0x8000000000) == 3; } else
    if low == 0x10000000000 { assert Rem67(0x10000000000) == 6; }
      else if low == 0x20000000000 { assert Rem67(0x20000000000) == 12; } else
    if low == 0x40000000000 { assert Rem67(0x40000000000) == 24; }
      else if low == 0x80000000000 { assert Rem67(0x80000000000) == 48; } else
    if low == 0x100000000000 { assert Rem67(0x100000000000) == 29; }
      else if low == 0x200000000000 { assert Rem67(0x200000000000) == 58; } else
    if low == 0x400000000000 { assert Rem67(0x400000000000) == 49; }
      else if low == 0x800000000000 { assert Rem67(0x800000000000) == 31; }
  }

  lemma Part3Of64(low: bv64)
    requires Single64(low) && low & 0xffff000000000000 == low && low != 0
    ensures Trailing64(low, Mod67(Rem67(low)))
  {
    if low == 0x1000000000000 { assert Rem67(0x1000000000000) == 62; }
      else if low == 0x2000000000000 { assert Rem67(0x2000000000000) == 57; } else
    if low == 0x4000000000000 { assert Rem67(0x4000000000000) == 47; }
      else if low == 0x8000000000000 { assert Rem67(0x8000000000000) == 27; } else
    if low == 0x10000000000000 { assert Rem67(0x10000000000000) == 54; }
      else if low == 0x20000000000000 { assert Rem67(0x20000000000000) == 41; } else
    if low == 0x40000000000000 { assert Rem67(0x40000000000000) == 15; }
      else if low == 0x80000000000000 { assert Rem67(0x80000000000000) == 30; } else
    if low == 0x100000000000000 { assert Rem67(0x100000000000000) == 60; }
      else if low == 0x200000000000000 { assert Rem67(0x200000000000000) == 53; } else
    if low == 0x400000000000000 { assert Rem67(0x400000000000000) == 39; }
      else if low == 0x800000000000000 { assert Rem67(0x800000000000000) == 11; } else
    if low == 0x1000000000000000 { assert Rem67(0x1000000000000000) == 22; }
      else if low == 0x2000000000000000 { assert Rem67(0x2000000000000000) == 44; } else
    if low == 0x4000000000000000 { assert Rem67(0x4000000000000000) == 21; }
      else if low == 0x8000000000000000 { assert Rem67(0x8000000000000000) == 42; }
  }

  lemma TableOf64(low: bv64)
    requires Single64(low)
    ensures Trailing64(low, Mod67(Rem67(low)))
  {
    hide Mod67, Rem67, Trailing64;
    if low == 0 {
      TableOfNone64();
    } else if low & 0xffff == low {
      Part0Of64(low);
    } else if low & 0xffff0000 == low {
      Part1Of64(low);
    } else if low & 0xffff00000000 == low {
      Part2Of64(low);
    } else if low & 0xffff000000000000 == low {
      Part3Of64(low);
    }
  }

  lemma TableOfNone64()
    ensures Trailing64(0, Mod67(Rem67(0)))
  {
  }

  lemma LowestTells64(value: bv64, count: bv64)
    requires Trailing64((1 + !value) & value, count)
    ensures Trailing64(value, count)
  {
  }

  lemma LowestIsSingle64(value: bv64)
    ensures Single64((1 + !value) & value)
  {
  }

  function CountTrailingZeros64(value: bv64): (count: bv64)
    ensures Trailing64(value, count)
  {
    hide Mod67, Rem67, Trailing64, Single64;
    LowestIsSingle64(value);
    TableOf64((1 + !value) & value);
    LowestTells64(value, Mod67(Rem67((1 + !value) & value)));
    Mod67(Rem67((1 + !value) & value))
  }
}
