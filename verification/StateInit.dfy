/**
  The set-up of the state-machine benchmark's block (software/coremark_app/cmark.c, core_init_state).
*/
module StateInit {
  import opened StateScanner
  import opened StateBench

  function IntPattern(k: bv16): (t: seq<bv8>)
    ensures |t| == 4
  {
    if k == 0 then [0x35, 0x30, 0x31, 0x32]  // 5012
    else if k == 1 then [0x31, 0x32, 0x33, 0x34]  // 1234
    else if k == 2 then [0x2D, 0x38, 0x37, 0x34]  // -874
    else [0x2B, 0x31, 0x32, 0x32]  // +122
  }

  function FloatPattern(k: bv16): (t: seq<bv8>)
    ensures |t| == 8
  {
    if k == 0 then [0x33, 0x35, 0x2E, 0x35, 0x34, 0x34, 0x30, 0x30]  // 35.54400
    else if k == 1 then [0x2E, 0x31, 0x32, 0x33, 0x34, 0x35, 0x30, 0x30]  // .1234500
    else if k == 2 then [0x2D, 0x31, 0x31, 0x30, 0x2E, 0x37, 0x30, 0x30]  // -110.700
    else [0x2B, 0x30, 0x2E, 0x36, 0x34, 0x34, 0x30, 0x30]  // +0.64400
  }

  function SciPattern(k: bv16): (t: seq<bv8>)
    ensures |t| == 8
  {
    if k == 0 then [0x35, 0x2E, 0x35, 0x30, 0x30, 0x65, 0x2B, 0x33]  // 5.500e+3
    else if k == 1 then [0x2D, 0x2E, 0x31, 0x32, 0x33, 0x65, 0x2D, 0x32]  // -.123e-2
    else if k == 2 then [0x2D, 0x38, 0x37, 0x65, 0x2B, 0x38, 0x33, 0x32]  // -87e+832
    else [0x2B, 0x30, 0x2E, 0x36, 0x65, 0x2D, 0x31, 0x32]  // +0.6e-12
  }

  function ErrPattern(k: bv16): (t: seq<bv8>)
    ensures |t| == 8
  {
    if k == 0 then [0x54, 0x30, 0x2E, 0x33, 0x65, 0x2D, 0x31, 0x46]  // T0.3e-1F
    else if k == 1 then [0x2D, 0x54, 0x2E, 0x54, 0x2B, 0x2B, 0x54, 0x71]  // -T.T++Tq
    else if k == 2 then [0x31, 0x54, 0x33, 0x2E, 0x34, 0x65, 0x34, 0x7A]  // 1T3.4e4z
    else [0x33, 0x34, 0x2E, 0x30, 0x65, 0x2D, 0x54, 0x5E]  // 34.0e-T^
  }

  // The pattern chosen by a value of the running seed.
  function Pattern(seed: bv16): (t: seq<bv8>)
    ensures 4 <= |t| <= 8
  {
    var kind, k := seed & 7, (seed >> 3) & 3;
    if kind <= 2 then IntPattern(k)
    else if kind <= 4 then FloatPattern(k)
    else if kind <= 6 then SciPattern(k)
    else ErrPattern(k)
  }

  // Bytes that are this text in ASCII.
  predicate Spells(t: seq<bv8>, s: string) { |t| == |s| && forall i | 0 <= i < |s| :: t[i] as int == s[i] as int }

  lemma IntPatternIs()
    ensures Spells(IntPattern(0), "5012")
    ensures Spells(IntPattern(1), "1234")
    ensures Spells(IntPattern(2), "-874")
    ensures Spells(IntPattern(3), "+122")
  {
  }

  lemma FloatPatternIs()
    ensures Spells(FloatPattern(0), "35.54400")
    ensures Spells(FloatPattern(1), ".1234500")
    ensures Spells(FloatPattern(2), "-110.700")
    ensures Spells(FloatPattern(3), "+0.64400")
  {
  }

  lemma SciPatternIs()
    ensures Spells(SciPattern(0), "5.500e+3")
    ensures Spells(SciPattern(1), "-.123e-2")
    ensures Spells(SciPattern(2), "-87e+832")
    ensures Spells(SciPattern(3), "+0.6e-12")
  {
  }

  lemma ErrPatternIs()
    ensures Spells(ErrPattern(0), "T0.3e-1F")
    ensures Spells(ErrPattern(1), "-T.T++Tq")
    ensures Spells(ErrPattern(2), "1T3.4e4z")
    ensures Spells(ErrPattern(3), "34.0e-T^")
  {
  }

  // Of eight seeds three choose a whole number, two a float, two a scientific number and one an error; the next two
  // bits choose one of four.
  lemma PatternIs(seed: bv16)
    ensures seed % 8 <= 2 && seed / 8 % 4 == 0 ==> Spells(Pattern(seed), "5012")
    ensures seed % 8 <= 2 && seed / 8 % 4 == 1 ==> Spells(Pattern(seed), "1234")
    ensures seed % 8 <= 2 && seed / 8 % 4 == 2 ==> Spells(Pattern(seed), "-874")
    ensures seed % 8 <= 2 && seed / 8 % 4 == 3 ==> Spells(Pattern(seed), "+122")
    ensures 3 <= seed % 8 <= 4 && seed / 8 % 4 == 0 ==> Spells(Pattern(seed), "35.54400")
    ensures 3 <= seed % 8 <= 4 && seed / 8 % 4 == 1 ==> Spells(Pattern(seed), ".1234500")
    ensures 3 <= seed % 8 <= 4 && seed / 8 % 4 == 2 ==> Spells(Pattern(seed), "-110.700")
    ensures 3 <= seed % 8 <= 4 && seed / 8 % 4 == 3 ==> Spells(Pattern(seed), "+0.64400")
    ensures 5 <= seed % 8 <= 6 && seed / 8 % 4 == 0 ==> Spells(Pattern(seed), "5.500e+3")
    ensures 5 <= seed % 8 <= 6 && seed / 8 % 4 == 1 ==> Spells(Pattern(seed), "-.123e-2")
    ensures 5 <= seed % 8 <= 6 && seed / 8 % 4 == 2 ==> Spells(Pattern(seed), "-87e+832")
    ensures 5 <= seed % 8 <= 6 && seed / 8 % 4 == 3 ==> Spells(Pattern(seed), "+0.6e-12")
    ensures seed % 8 == 7 && seed / 8 % 4 == 0 ==> Spells(Pattern(seed), "T0.3e-1F")
    ensures seed % 8 == 7 && seed / 8 % 4 == 1 ==> Spells(Pattern(seed), "-T.T++Tq")
    ensures seed % 8 == 7 && seed / 8 % 4 == 2 ==> Spells(Pattern(seed), "1T3.4e4z")
    ensures seed % 8 == 7 && seed / 8 % 4 == 3 ==> Spells(Pattern(seed), "34.0e-T^")
  {
    hide Spells, IntPattern, FloatPattern, SciPattern, ErrPattern;
    IntPatternIs();
    FloatPatternIs();
    SciPatternIs();
    ErrPatternIs();
  }

  // The patterns that fit, each with its comma, one seed after the other.
  function Text(seed: bv16, room: int): (t: seq<bv8>)
    decreases room
  {
    var p := Pattern(seed + 1);
    if |p| + 1 < room then p + [COMMA] + Text(seed + 1, room - |p| - 1) else []
  }

  lemma {:induction false} TextFits(seed: bv16, room: int)
    ensures Text(seed, room) == [] || |Text(seed, room)| < room
    decreases room
  {
    hide Pattern;
    var p := Pattern(seed + 1);
    if |p| + 1 < room {
      TextFits(seed + 1, room - |p| - 1);
    }
  }

  function Block(size: nat, seed: bv16): (m: seq<bv8>)
    requires 1 <= size
    ensures |m| == size
  {
    TextFits(seed, size - 1);
    Text(seed, size - 1) + seq(size - |Text(seed, size - 1)|, _ => 0)
  }

  // What is still to be written after total bytes, with pattern buf chosen by the current seed (if any).
  function Pending(seed: bv16, buf: seq<bv8>, room: int): seq<bv8> {
    if buf == [] then Text(seed, room)
    else if |buf| + 1 < room then buf + [COMMA] + Text(seed, room - |buf| - 1)
    else []
  }

  lemma NextPattern(seed: bv16, room: int)
    requires 1 < room
    ensures Pending(seed, [], room) == Pending(seed + 1, Pattern(seed + 1), room)
  {
    hide Pattern;
  }

  lemma WriteOne(m: seq<bv8>, total: nat, buf: seq<bv8>, seed: bv16, size: int)
    requires buf != [] && total + |buf| + 1 < size && total + |buf| < |m|
    requires m[total..total + |buf|] == buf && m[total + |buf|] == COMMA
    ensures m[..total] + Pending(seed, buf, size - total) ==
            m[..total + |buf| + 1] + Pending(seed, [], size - (total + |buf| + 1))
  {
    hide Text;
    assert m[..total + |buf| + 1] == m[..total] + buf + [COMMA];
  }

  // No object of the 32-bit target reaches 2^31 bytes, so total + next + 1 does not wrap.
  method CoreInitState(size0: nat, seed0: bv16, p: array<bv8>)
    requires 1 <= size0 == p.Length < 0x8000_0000
    modifies p
    ensures p[..] == Block(size0, seed0)
  {
    hide Text, Pattern, Pending;
    var total, next, seed := 0, 0, seed0;
    ghost var text := Text(seed0, size0 - 1);
    NothingWritten(p[..], seed0, size0 - 1);
    var buf: seq<bv8> := [];
    var size := size0 - 1;
    while total + next + 1 < size
      invariant next == |buf| && 0 <= total && (total == 0 || total < size)
      invariant Writing(p[..], total, Pending(seed, buf, size - total), text)
      invariant buf == [] ==> total == 0
      decreases size - total, next == 0
    {
      if next > 0 {
        total := WriteItem(p, total, buf, seed, size, text);
      } else {
        assert buf == [];
      }
      if 1 < size - total {
        NextPattern(seed, size - total);
      } else {
        NothingPends(seed, [], size - total);
        NothingPends(seed + 1, Pattern(seed + 1), size - total);
      }
      seed := seed + 1;
      buf := Pattern(seed);
      next := |buf|;
    }
    NothingPends(seed, buf, size - total);
    TextFits(seed0, size);
    AllWritten(p[..], total, text);
    FillZeros(p, total);
    assert p[..] == p[..total] + p[total..];
  }

  // The first total bytes are written, pending is still to come.
  ghost predicate Writing(m: seq<bv8>, total: nat, pending: seq<bv8>, text: seq<bv8>) {
    total <= |m| && m[..total] + pending == text
  }

  lemma NothingWritten(m: seq<bv8>, seed: bv16, room: int)
    ensures Writing(m, 0, Pending(seed, [], room), Text(seed, room))
  {
  }

  lemma NothingPends(seed: bv16, buf: seq<bv8>, room: int)
    requires |buf| + 1 >= room
    ensures Pending(seed, buf, room) == []
  {
    if buf == [] { TextStops(seed, room); }
  }

  lemma AllWritten(m: seq<bv8>, total: nat, text: seq<bv8>)
    requires Writing(m, total, [], text)
    ensures m[..total] == text && total == |text|
  {
  }

  // Writes the pattern and its comma behind the first total0 bytes.
  method WriteItem(p: array<bv8>, total0: nat, buf: seq<bv8>, ghost seed: bv16, ghost size: int, ghost text: seq<bv8>)
    returns (total: nat)
    requires buf != [] && total0 + |buf| + 1 < size && total0 + |buf| < p.Length
    requires Writing(p[..], total0, Pending(seed, buf, size - total0), text)
    modifies p
    ensures total == total0 + |buf| + 1 && Writing(p[..], total, Pending(seed, [], size - total), text)
  {
    hide Text, Pending;
    CopyPattern(p, total0, buf);
    WriteOne(p[..], total0, buf, seed, size);
    assert p[..][..total0] == p[..total0];
    total := total0 + |buf| + 1;
  }

  // The tail of the block.
  method FillZeros(p: array<bv8>, total0: nat)
    requires total0 <= p.Length
    modifies p
    ensures p[..total0] == old(p[..total0]) && p[total0..] == seq(p.Length - total0, _ => 0)
  {
    var total := total0;
    while total < p.Length
      invariant total0 <= total <= p.Length && p[..total0] == old(p[..total0])
      invariant forall i | total0 <= i < total :: p[i] == 0
    {
      p[total] := 0;
      total := total + 1;
    }
  }

  // Copies the pattern and its comma behind what is there.
  method CopyPattern(p: array<bv8>, total: nat, buf: seq<bv8>)
    requires total + |buf| < p.Length
    modifies p
    ensures p[..total] == old(p[..total]) && p[total..total + |buf|] == buf && p[total + |buf|] == COMMA
  {
    for i := 0 to |buf|
      invariant p[..total] == old(p[..total]) && forall j | 0 <= j < i :: p[total + j] == buf[j]
    {
      p[total + i] := buf[i];
    }
    p[total + |buf|] := COMMA;
  }

  lemma TextStops(seed: bv16, room: int)
    requires room <= 1
    ensures Text(seed, room) == [] && Pending(seed + 1, Pattern(seed + 1), room) == []
  {
    hide Pattern;
  }

  // ---------- what the block is good for ----------

  // A block of two bytes or more ends in two zeros, so the benchmark cannot leave it (ScansStayInside).
  lemma BlockEndsInZeros(size: nat, seed: bv16)
    requires 2 <= size
    ensures EndsInZeros(Block(size, seed))
  {
    hide Text;
    TextFits(seed, size - 1);
  }

  // The bytes of the patterns.
  predicate InAlphabet(b: bv8) {
    IsSign(b) || b == DOT || (0x30 <= b && b <= 0x38) || b == 0x46 || b == 0x54 || b == 0x5E || b == 0x65 ||
      b == 0x71 || b == 0x7A
  }

  predicate Plain(t: seq<bv8>) { forall i | 0 <= i < |t| :: InAlphabet(t[i]) }

  lemma IntPlain(k: bv16)
    ensures Plain(IntPattern(k))
  {
    if k == 0 {} else if k == 1 {} else if k == 2 {}
  }

  lemma FloatPlain(k: bv16)
    ensures Plain(FloatPattern(k))
  {
    if k == 0 {} else if k == 1 {} else if k == 2 {}
  }

  lemma SciPlain(k: bv16)
    ensures Plain(SciPattern(k))
  {
    if k == 0 {} else if k == 1 {} else if k == 2 {}
  }

  lemma ErrPlain(k: bv16)
    ensures Plain(ErrPattern(k))
  {
    if k == 0 {} else if k == 1 {} else if k == 2 {}
  }

  lemma PatternIsPlain(seed: bv16)
    ensures Plain(Pattern(seed))
  {
    hide Plain, IntPattern, FloatPattern, SciPattern, ErrPattern;
    var k := (seed >> 3) & 3;
    IntPlain(k);
    FloatPlain(k);
    SciPlain(k);
    ErrPlain(k);
  }

  lemma {:induction false} TextIsPlain(seed: bv16, room: int)
    ensures forall i | 0 <= i < |Text(seed, room)| :: Text(seed, room)[i] == COMMA || InAlphabet(Text(seed, room)[i])
    decreases room
  {
    hide Pattern, InAlphabet;
    var p := Pattern(seed + 1);
    if |p| + 1 < room {
      PatternIsPlain(seed + 1);
      TextIsPlain(seed + 1, room - |p| - 1);
    }
  }

  // On a fresh block the two passes cancel for every seed whose low byte turns no byte of the block into a comma.
  lemma FreshBlockRestored(size: nat, seed: bv16, low: bv8, step: int)
    requires 1 <= size && 0 < step && low != COMMA && !InAlphabet(COMMA ^ low)
    ensures Corrupted(Corrupted(Block(size, seed), low, step), low, step) == Block(size, seed)
  {
    hide Text, InAlphabet, Corrupted;
    var m := Block(size, seed);
    TextIsPlain(seed, size - 1);
    forall i | 0 <= i < |m| && Touched(m, i, step) ensures m[i] ^ low != COMMA {
      if m[i] ^ low == COMMA { XorBack(m[i], low); }
    }
    UndoneIff(m, low, low, step);
  }

  lemma XorBack(b: bv8, low: bv8)
    requires b ^ low == COMMA
    ensures b == COMMA ^ low && (b == 0 ==> low == COMMA)
  {
  }

  // The seeds the application is built with are such seeds.
  lemma ApplicationSeedsRestore(seed: bv16)
    requires seed == 0x3415 || seed == 0 || seed == 8
    ensures Low(seed) != COMMA && !InAlphabet(COMMA ^ Low(seed))
  {
  }

  // ---------- how the scanner classifies the patterns ----------

  lemma ScanPrefix(t: seq<bv8>, i: nat)
    requires i < |t|
    ensures Scan(START, t[..i + 1]) == Next(Scan(START, t[..i]), t[i])
  {
    assert t[..i + 1][..i] == t[..i];
  }

  lemma ScanEight(t: seq<bv8>)
    requires 4 <= |t| <= 8
    ensures var s := Next(Next(Next(Next(START, t[0]), t[1]), t[2]), t[3]);
            Scan(START, t) == if |t| == 4 then s else if |t| == 8
              then Next(Next(Next(Next(s, t[4]), t[5]), t[6]), t[7]) else Scan(START, t)
  {
    hide Next, Scan;
    ScanNothing();
    assert t[..0] == [] && t[..|t|] == t;
    ScanPrefix(t, 0); ScanPrefix(t, 1); ScanPrefix(t, 2); ScanPrefix(t, 3);
    if |t| == 8 { ScanPrefix(t, 4); ScanPrefix(t, 5); ScanPrefix(t, 6); ScanPrefix(t, 7); }
  }

  lemma ScanNothing()
    ensures Scan(START, []) == START
  {
  }

  // The scanner finds what each pattern is named for, except that it rejects -87e+832: it wants a point before an
  // exponent.
  lemma PatternVerdicts(k: bv16)
    requires k < 4
    ensures Scan(START, IntPattern(k)) == INT && Scan(START, FloatPattern(k)) == FLOAT &&
            Scan(START, ErrPattern(k)) == INVALID
    ensures Scan(START, SciPattern(k)) == if k == 2 then INVALID else SCIENTIFIC
  {
    hide Scan;
    ScanEight(IntPattern(k));
    ScanEight(FloatPattern(k));
    ScanEight(ErrPattern(k));
    ScanEight(SciPattern(k));
  }
}
