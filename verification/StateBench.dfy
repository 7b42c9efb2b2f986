/**
  The state-machine benchmark (software/coremark_app/cmark.c:1598-1654, 1739-1832): core_state_transition scans one
  token of a NUL-terminated block; core_bench_state scans the block, corrupts it, scans it again and undoes the
  corruption.
*/
module StateBench {
  import opened Crc16
  import opened StateScanner

  const NUM_CORE_STATES := 8

  function Index(s: CoreState): (i: nat)
    ensures i < NUM_CORE_STATES
  {
    match s
    case START => 0 case INVALID => 1 case S1 => 2 case S2 => 3 case INT => 4 case FLOAT => 5 case EXPONENT => 6
      case SCIENTIFIC => 7
  }

  type u32 = x: int | 0 <= x < 0x1_0000_0000

  function Add(c: u32, n: nat): u32 { (c + n) % 0x1_0000_0000 }

  // ---------- one token ----------

  ghost predicate Terminated(m: seq<bv8>, p: nat) { exists i :: p <= i < |m| && m[i] == 0 }

  // Where the scan of the token at p stops: at NUL, at a comma, or just past the byte that made it INVALID.
  ghost predicate StopsAt(m: seq<bv8>, p: nat, e: nat) {
    p <= e < |m| && (forall i | p <= i < e :: m[i] != 0 && m[i] != COMMA && Scan(START, m[p..i]) != INVALID) &&
    (m[e] == 0 || m[e] == COMMA || Scan(START, m[p..e]) == INVALID)
  }

  ghost function TokenEndFrom(m: seq<bv8>, p: nat, k: nat): (e: nat)
    requires p <= k && Terminated(m, k)
    requires forall i | p <= i < k :: m[i] != 0 && m[i] != COMMA && Scan(START, m[p..i]) != INVALID
    ensures StopsAt(m, p, e)
    decreases |m| - k
  {
    if m[k] == 0 || m[k] == COMMA || Scan(START, m[p..k]) == INVALID then k else TokenEndFrom(m, p, k + 1)
  }

  ghost function TokenEnd(m: seq<bv8>, p: nat): (e: nat)
    requires Terminated(m, p)
    ensures StopsAt(m, p, e)
  {
    TokenEndFrom(m, p, p)
  }

  ghost function Token(m: seq<bv8>, p: nat): seq<bv8>
    requires Terminated(m, p)
  {
    m[p..TokenEnd(m, p)]
  }

  // A comma is skipped with its token, unless the scan gave up before it.
  ghost function AfterToken(m: seq<bv8>, p: nat): nat
    requires Terminated(m, p)
  {
    var e := TokenEnd(m, p);
    if Scan(START, m[p..e]) != INVALID && m[e] == COMMA then e + 1 else e
  }

  lemma OneEnd(m: seq<bv8>, p: nat, e: nat, e': nat)
    requires StopsAt(m, p, e) && StopsAt(m, p, e')
    ensures e == e'
  {
  }

  // Does reading c in state s count a transition of x?
  predicate Hit(x: CoreState, s: CoreState, c: bv8) {
    match x
    case INT => s == INT && Next(s, c) != INT
    case FLOAT => s == FLOAT && Next(s, c) != FLOAT
    case INVALID => (s == START || s == SCIENTIFIC) && Next(s, c) == INVALID
    case SCIENTIFIC => false
    case _ => s == x
  }

  function Times(x: CoreState, t: seq<bv8>): nat {
    if t == [] then 0 else Times(x, t[..|t| - 1]) + (if Hit(x, Scan(START, t[..|t| - 1]), t[|t| - 1]) then 1 else 0)
  }

  ghost predicate Counted(counts: seq<u32>, before: seq<u32>, t: seq<bv8>) {
    |counts| == |before| == NUM_CORE_STATES && forall x: CoreState ::
      counts[Index(x)] == Add(before[Index(x)], Times(x, t))
  }

  // Which slot counts which state, in the order of the enumeration.
  lemma SlotsCounted(counts: seq<u32>, before: seq<u32>, t: seq<bv8>)
    requires |counts| == |before| == 8
    ensures Counted(counts, before, t) <==>
            counts[0] == (before[0] + Times(START, t)) % 0x1_0000_0000 &&
            counts[1] == (before[1] + Times(INVALID, t)) % 0x1_0000_0000 &&
            counts[2] == (before[2] + Times(S1, t)) % 0x1_0000_0000 &&
            counts[3] == (before[3] + Times(S2, t)) % 0x1_0000_0000 &&
            counts[4] == (before[4] + Times(INT, t)) % 0x1_0000_0000 &&
            counts[5] == (before[5] + Times(FLOAT, t)) % 0x1_0000_0000 &&
            counts[6] == (before[6] + Times(EXPONENT, t)) % 0x1_0000_0000 &&
            counts[7] == (before[7] + Times(SCIENTIFIC, t)) % 0x1_0000_0000
  {
    hide Times;
    if Counted(counts, before, t) {
      assert forall x: CoreState :: counts[Index(x)] == Add(before[Index(x)], Times(x, t));
    }
  }

  method Bump(counts: array<u32>, s: CoreState)
    requires counts.Length == NUM_CORE_STATES
    modifies counts
    ensures forall x: CoreState :: counts[Index(x)] == if x == s then Add(old(counts[Index(x)]), 1)
            else old(counts[Index(x)])
  {
    var i := Index(s);
    counts[i] := Add(counts[i], 1);
    assert forall x: CoreState :: Index(x) == i <==> x == s;
  }

  // The switch of the scanner: the next state, and the transition counted.
  method Transition(state0: CoreState, symbol: bv8, counts: array<u32>) returns (state: CoreState)
    requires counts.Length == NUM_CORE_STATES
    modifies counts
    ensures state == Next(state0, symbol)
    ensures forall x: CoreState ::
            counts[Index(x)] == Add(old(counts[Index(x)]), if Hit(x, state0, symbol) then 1 else 0)
  {
    hide IsDigit, IsSign, IsE, DOT;
    state := state0;
    match state {
      case START =>
        if IsDigit(symbol) {
          state := INT;
        } else if IsSign(symbol) {
          state := S1;
        } else if symbol == DOT {
          state := FLOAT;
        } else {
          state := INVALID;
          Bump(counts, INVALID);
        }
        Bump(counts, START);
      case S1 =>
        if IsDigit(symbol) {
          state := INT;
        } else if symbol == DOT {
          state := FLOAT;
        } else {
          state := INVALID;
        }
        Bump(counts, S1);
      case INT =>
        if symbol == DOT {
          state := FLOAT;
          Bump(counts, INT);
        } else if !IsDigit(symbol) {
          state := INVALID;
          Bump(counts, INT);
        }
      case FLOAT =>
        if IsE(symbol) {
          state := S2;
          Bump(counts, FLOAT);
        } else if !IsDigit(symbol) {
          state := INVALID;
          Bump(counts, FLOAT);
        }
      case S2 =>
        state := if IsSign(symbol) then EXPONENT else INVALID;
        Bump(counts, S2);
      case EXPONENT =>
        state := if IsDigit(symbol) then SCIENTIFIC else INVALID;
        Bump(counts, EXPONENT);
      case SCIENTIFIC =>
        if !IsDigit(symbol) {
          state := INVALID;
          Bump(counts, INVALID);
        }
      case INVALID =>
    }
  }

  lemma TokenGrows(m: seq<bv8>, p: nat, k: nat, x: CoreState)
    requires p <= k < |m|
    ensures Scan(START, m[p..k + 1]) == Next(Scan(START, m[p..k]), m[k])
    ensures Times(x, m[p..k + 1]) == Times(x, m[p..k]) + if Hit(x, Scan(START, m[p..k]), m[k]) then 1 else 0
  {
    assert m[p..k + 1][..k - p] == m[p..k];
  }

  method CoreStateTransition(mem: array<bv8>, instr: nat, counts: array<u32>) returns (str: nat, state: CoreState)
    requires counts.Length == NUM_CORE_STATES
    requires mem as object != counts && Terminated(mem[..], instr)
    modifies counts
    ensures state == Scan(START, Token(mem[..], instr)) && str == AfterToken(mem[..], instr)
    ensures Counted(counts[..], old(counts[..]), Token(mem[..], instr))
  {
    hide Next, Hit, Scan, Times, Add;
    ghost var m := mem[..];
    str, state := instr, START;
    ghost var e: nat;
    NothingRead(m, instr, counts[..]);
    while true
      invariant instr <= str && Terminated(m, str) && state == Scan(START, m[instr..str])
      invariant forall i | instr <= i < str :: m[i] != 0 && m[i] != COMMA && Scan(START, m[instr..i]) != INVALID
      invariant Counted(counts[..], old(counts[..]), m[instr..str])
      decreases |m| - str
    {
      e := str;
      if !(mem[str] != 0 && state != INVALID) { break; }
      var symbol := mem[str];
      if symbol == COMMA {
        str := str + 1;
        break;
      }
      ghost var s, before := state, counts[..];
      state := Transition(state, symbol, counts);
      TokenGrows(m, instr, str, START);
      forall x: CoreState ensures counts[Index(x)] == Add(old(counts[Index(x)]), Times(x, m[instr..str + 1])) {
        TokenGrows(m, instr, str, x);
        assert before[Index(x)] == Add(old(counts[Index(x)]), Times(x, m[instr..str]));
        AddTwice(old(counts[Index(x)]), Times(x, m[instr..str]), if Hit(x, s, symbol) then 1 else 0);
      }
      str := str + 1;
    }
    OneEnd(m, instr, e, TokenEnd(m, instr));
  }

  lemma AddTwice(c: u32, a: nat, b: nat)
    ensures Add(Add(c, a), b) == Add(c, a + b)
  {
  }

  lemma NothingRead(m: seq<bv8>, p: nat, counts: seq<u32>)
    requires p <= |m| && |counts| == NUM_CORE_STATES
    ensures Scan(START, m[p..p]) == START && Counted(counts, counts, m[p..p])
  {
  }

  // ---------- what the transition counts mean ----------

  // A run never returns to a state it has left.
  function Rank(s: CoreState): nat {
    match s
    case START => 0 case S1 => 1 case INT => 2 case FLOAT => 3 case S2 => 4 case EXPONENT => 5 case SCIENTIFIC => 6
      case INVALID => 7
  }

  lemma HitLeaves(x: CoreState, s: CoreState, c: bv8)
    ensures Rank(s) <= Rank(Next(s, c))
    ensures Hit(x, s, c) ==> if x == INVALID then s != INVALID && Next(s, c) == INVALID
            else Rank(x) == Rank(s) < Rank(Next(s, c))
  {
  }

  // The run on t moves out of x at byte k; an entry into INVALID counts only from START and SCIENTIFIC.
  ghost predicate Leaves(x: CoreState, t: seq<bv8>, k: nat) {
    k < |t| && var s, s' := Scan(START, t[..k]), Scan(START, t[..k + 1]);
    if x == INVALID then (s == START || s == SCIENTIFIC) && s' == INVALID
    else x != SCIENTIFIC && s == x && s' != x
  }

  lemma HitIsLeaving(x: CoreState, s: CoreState, c: bv8)
    ensures Hit(x, s, c) <==>
            if x == INVALID then (s == START || s == SCIENTIFIC) && Next(s, c) == INVALID
            else x != SCIENTIFIC && s == x && Next(s, c) != x
  {
  }

  // Each count grows by at most one per token, and it does so exactly if the run leaves that state;
  // giving up in the middle of an exponent's digits is booked under INVALID, and SCIENTIFIC never is.
  lemma {:induction false} TimesIsLeaving(x: CoreState, t: seq<bv8>)
    ensures Times(x, t) <= 1
    ensures Times(x, t) == 1 <==> exists k: nat :: Leaves(x, t, k)
    ensures Times(x, t) == 1 ==> if x == INVALID then Scan(START, t) == INVALID else Rank(Scan(START, t)) > Rank(x)
    decreases |t|
  {
    hide Hit, Next, Rank;
    if t != [] {
      var u, s, c := t[..|t| - 1], Scan(START, t[..|t| - 1]), t[|t| - 1];
      TimesIsLeaving(x, u);
      HitLeaves(x, s, c);
      HitIsLeaving(x, s, c);
      InvalidStays(s, c);
      assert t[..|t|] == t;
      if Times(x, u) == 1 {
        var k: nat :| Leaves(x, u, k);
        assert u[..k] == t[..k] && u[..k + 1] == t[..k + 1];
        assert Leaves(x, t, k);
      }
      if Hit(x, s, c) { assert Leaves(x, t, |u|); }
      if k: nat :| Leaves(x, t, k) && k < |u| {
        assert u[..k] == t[..k] && u[..k + 1] == t[..k + 1];
        assert Leaves(x, u, k);
      }
    }
  }

  // ---------- a whole block ----------

  lemma AfterTokenAdvances(m: seq<bv8>, p: nat)
    requires Terminated(m, p) && m[p] != 0
    ensures p < AfterToken(m, p) < |m| && Terminated(m, AfterToken(m, p))
    ensures forall i | p <= i < AfterToken(m, p) :: m[i] != 0
  {
    var e := TokenEnd(m, p);
    assert Scan(START, m[p..p]) == START;
    var i :| p <= i < |m| && m[i] == 0;
    assert i >= e;
  }

  ghost function Verdicts(m: seq<bv8>, p: nat): seq<CoreState>
    requires Terminated(m, p)
    decreases |m| - p
  {
    if m[p] == 0 then []
    else
      AfterTokenAdvances(m, p);
      [Scan(START, Token(m, p))] + Verdicts(m, AfterToken(m, p))
  }

  ghost function TotalTimes(x: CoreState, m: seq<bv8>, p: nat): nat
    requires Terminated(m, p)
    decreases |m| - p
  {
    if m[p] == 0 then 0
    else
      AfterTokenAdvances(m, p);
      Times(x, Token(m, p)) + TotalTimes(x, m, AfterToken(m, p))
  }

  ghost function FinalCount(x: CoreState, m: seq<bv8>, p: nat): nat
    requires Terminated(m, p)
  {
    multiset(Verdicts(m, p))[x]
  }

  ghost predicate Tallied(finals: seq<u32>, finals0: seq<u32>, tracks: seq<u32>, tracks0: seq<u32>, m: seq<bv8>, p: nat)
    requires Terminated(m, p)
  {
    |finals| == |finals0| == |tracks| == |tracks0| == NUM_CORE_STATES &&
    forall x: CoreState :: finals[Index(x)] == Add(finals0[Index(x)], FinalCount(x, m, p)) &&
                           tracks[Index(x)] == Add(tracks0[Index(x)], TotalTimes(x, m, p))
  }

  lemma TallyNone(finals: seq<u32>, tracks: seq<u32>, m: seq<bv8>, p: nat)
    requires Terminated(m, p) && m[p] == 0 && |finals| == |tracks| == NUM_CORE_STATES
    ensures Tallied(finals, finals, tracks, tracks, m, p)
  {
    assert Verdicts(m, p) == [];
    forall x: CoreState ensures FinalCount(x, m, p) == 0 {
    }
  }

  lemma CountsOfFirst(x: CoreState, m: seq<bv8>, p: nat)
    requires Terminated(m, p) && m[p] != 0 && Terminated(m, AfterToken(m, p))
    ensures FinalCount(x, m, p) == (if x == Scan(START, Token(m, p)) then 1 else 0) + FinalCount(x, m, AfterToken(m, p))
    ensures TotalTimes(x, m, p) == Times(x, Token(m, p)) + TotalTimes(x, m, AfterToken(m, p))
  {
    hide Scan, Times, AfterToken, Token;
    AfterTokenAdvances(m, p);
    assert multiset(Verdicts(m, p)) == multiset{Scan(START, Token(m, p))} + multiset(Verdicts(m, AfterToken(m, p)));
  }

  lemma TallyOne(f: seq<u32>, f1: seq<u32>, f2: seq<u32>, t: seq<u32>, t1: seq<u32>, t2: seq<u32>, m: seq<bv8>, p: nat)
    requires Terminated(m, p) && m[p] != 0 && |f1| == |f| == NUM_CORE_STATES
    requires Counted(t1, t, Token(m, p))
    requires forall x: CoreState :: f1[Index(x)] == if x == Scan(START, Token(m, p)) then Add(f[Index(x)], 1)
             else f[Index(x)]
    requires Terminated(m, AfterToken(m, p)) && Tallied(f2, f1, t2, t1, m, AfterToken(m, p))
    ensures Tallied(f2, f, t2, t, m, p)
  {
    hide Scan, Times, Add, AfterToken, Token, FinalCount, TotalTimes, Terminated;
    var q := AfterToken(m, p);
    forall x: CoreState
      ensures f2[Index(x)] == Add(f[Index(x)], FinalCount(x, m, p)) &&
              t2[Index(x)] == Add(t[Index(x)], TotalTimes(x, m, p))
    {
      CountsOfFirst(x, m, p);
      AddTwice(t[Index(x)], Times(x, Token(m, p)), TotalTimes(x, m, q));
      AddTwice(f[Index(x)], 1, FinalCount(x, m, q));
    }
  }

  method ScanBlock(mem: array<bv8>, finals: array<u32>, tracks: array<u32>)
    requires finals.Length == tracks.Length == NUM_CORE_STATES && finals != tracks
    requires mem as object != finals && mem as object != tracks && Terminated(mem[..], 0)
    modifies finals, tracks
    ensures Tallied(finals[..], old(finals[..]), tracks[..], old(tracks[..]), mem[..], 0)
  {
    hide Scan, Times, Add, AfterToken, Verdicts, TotalTimes, FinalCount;
    ghost var m := mem[..];
    var p := 0;
    while mem[p] != 0
      invariant Terminated(m, p)
      invariant |finals[..]| == |tracks[..]| == NUM_CORE_STATES
      invariant forall f, t :: Terminated(m, p) && Tallied(f, finals[..], t, tracks[..], m, p) ==>
                          Tallied(f, old(finals[..]), t, old(tracks[..]), m, 0)
      decreases |m| - p
    {
      ghost var f, t, p0 := finals[..], tracks[..], p;
      var fstate;
      AfterTokenAdvances(m, p);
      p, fstate := CoreStateTransition(mem, p, tracks);
      Bump(finals, fstate);
      forall f2, t2 | Tallied(f2, finals[..], t2, tracks[..], m, p)
        ensures Tallied(f2, old(finals[..]), t2, old(tracks[..]), m, 0)
      {
        TallyOne(f, finals[..], f2, t, tracks[..], t2, m, p0);
      }
    }
    TallyNone(finals[..], tracks[..], m, p);
  }

  // ---------- corruption ----------

  predicate Multiple(i: int, step: int)
    requires 0 < step
    decreases i
  {
    i == 0 || (i >= step && Multiple(i - step, step))
  }

  lemma {:induction false} BetweenMultiples(p: int, i: int, step: int)
    requires 0 < step && Multiple(p, step) && p < i < p + step
    ensures !Multiple(i, step)
    decreases p
  {
    if p != 0 {
      BetweenMultiples(p - step, i - step, step);
    }
  }

  // Every byte at a multiple of step, unless it is a comma.
  predicate Touched(m: seq<bv8>, i: int, step: int)
    requires 0 < step && 0 <= i < |m|
  {
    Multiple(i, step) && m[i] != COMMA
  }

  function Corrupted(m: seq<bv8>, seed: bv8, step: int): (r: seq<bv8>)
    requires 0 < step
    ensures |r| == |m| && forall i | 0 <= i < |m| :: r[i] == if Touched(m, i, step) then Flip(m[i], seed) else m[i]
  {
    seq(|m|, i requires 0 <= i < |m| => if Touched(m, i, step) then Flip(m[i], seed) else m[i])
  }

  function Flip(b: bv8, seed: bv8): bv8 { b ^ seed }

  method Corrupt(mem: array<bv8>, seed: bv8, step: int)
    requires 0 < step
    modifies mem
    ensures mem[..] == Corrupted(old(mem[..]), seed, step)
  {
    ghost var m := mem[..];
    var p := 0;
    while p < mem.Length
      invariant 0 <= p && Multiple(p, step)
      invariant forall i | 0 <= i < mem.Length :: mem[i] == if i < p then Corrupted(m, seed, step)[i] else m[i]
    {
      if mem[p] != COMMA {
        mem[p] := mem[p] ^ seed;
      }
      forall i | p < i < p + step ensures !Multiple(i, step) {
        BetweenMultiples(p, i, step);
      }
      p := p + step;
    }
  }

  // The two passes of the benchmark give the block back exactly if the seeds agree in their low byte and
  // no byte is turned into a comma in between - unless there was nothing to corrupt.
  lemma UndoneIff(m: seq<bv8>, seed1: bv8, seed2: bv8, step: int)
    requires 0 < step
    ensures Corrupted(Corrupted(m, seed1, step), seed2, step) == m <==>
            forall i | 0 <= i < |m| && Touched(m, i, step) :: seed1 == seed2 && m[i] ^ seed1 != COMMA
  {
    hide Touched, Corrupted;
    var r := Corrupted(Corrupted(m, seed1, step), seed2, step);
    forall i: nat | i < |m| ensures r[i] == m[i] <==> Kept(m, i, seed1, seed2, step) {
      UndoneAt(m, i, seed1, seed2, step);
    }
    if forall i: nat | i < |m| :: Kept(m, i, seed1, seed2, step) {
      assert r == m;
    }
    KeptIff(m, seed1, seed2, step);
  }

  // Byte i comes back: it was not touched, or touched twice with the same seed.
  predicate Kept(m: seq<bv8>, i: nat, seed1: bv8, seed2: bv8, step: int)
    requires 0 < step && i < |m|
  {
    Touched(m, i, step) ==> Clean(m[i], seed1, seed2)
  }

  predicate Clean(b: bv8, seed1: bv8, seed2: bv8) { seed1 == seed2 && b ^ seed1 != COMMA }

  lemma FlippedTwice(b: bv8, seed1: bv8, seed2: bv8)
    requires b != COMMA
    ensures (if Flip(b, seed1) != COMMA then Flip(Flip(b, seed1), seed2) else Flip(b, seed1)) == b <==>
            Clean(b, seed1, seed2)
  {
    UndoneByte(b, seed1, seed2);
  }

  lemma KeptIff(m: seq<bv8>, seed1: bv8, seed2: bv8, step: int)
    requires 0 < step
    ensures (forall i: nat | i < |m| :: Kept(m, i, seed1, seed2, step)) <==>
            forall i | 0 <= i < |m| && Touched(m, i, step) :: seed1 == seed2 && m[i] ^ seed1 != COMMA
  {
    hide Multiple;
    if forall i | 0 <= i < |m| && Touched(m, i, step) :: seed1 == seed2 && m[i] ^ seed1 != COMMA {
      forall i: nat | i < |m| ensures Kept(m, i, seed1, seed2, step) {
        assert Touched(m, i, step) ==> seed1 == seed2 && m[i] ^ seed1 != COMMA;
      }
    }
    if forall i: nat | i < |m| :: Kept(m, i, seed1, seed2, step) {
      forall i | 0 <= i < |m| && Touched(m, i, step) ensures seed1 == seed2 && m[i] ^ seed1 != COMMA {
        assert Kept(m, i, seed1, seed2, step);
      }
    }
  }

  lemma UndoneAt(m: seq<bv8>, i: nat, seed1: bv8, seed2: bv8, step: int)
    requires 0 < step && i < |m|
    ensures Corrupted(Corrupted(m, seed1, step), seed2, step)[i] == m[i] <==> Kept(m, i, seed1, seed2, step)
  {
    hide Multiple, Corrupted, Flip, Clean;
    if Touched(m, i, step) {
      FlippedTwice(m[i], seed1, seed2);
    }
  }

  lemma UndoneByte(b: bv8, s: bv8, t: bv8)
    requires b != COMMA
    ensures (if b ^ s != COMMA then b ^ s ^ t else b ^ s) == b <==> s == t && b ^ s != COMMA
  {
  }

  // ---------- the benchmark ----------

  function Low(seed: bv16): bv8 { (seed & 0xff) as bv8 }

  function StateAt(i: nat): (s: CoreState)
    requires i < NUM_CORE_STATES
    ensures Index(s) == i
  {
    if i == 0 then START else if i == 1 then INVALID else if i == 2 then S1 else if i == 3 then S2
    else if i == 4 then INT else if i == 5 then FLOAT else if i == 6 then EXPONENT else SCIENTIFIC
  }

  // What the benchmark has counted after both scans.
  ghost function Finals(m: seq<bv8>, m': seq<bv8>): (f: seq<u32>)
    requires Terminated(m, 0) && Terminated(m', 0)
    ensures |f| == NUM_CORE_STATES
  {
    seq(NUM_CORE_STATES, i requires 0 <= i < NUM_CORE_STATES => Add(FinalCount(StateAt(i), m, 0) % 0x1_0000_0000,
      FinalCount(StateAt(i), m', 0)))
  }

  ghost function Tracks(m: seq<bv8>, m': seq<bv8>): (t: seq<u32>)
    requires Terminated(m, 0) && Terminated(m', 0)
    ensures |t| == NUM_CORE_STATES
  {
    seq(NUM_CORE_STATES, i requires 0 <= i < NUM_CORE_STATES => Add(TotalTimes(StateAt(i), m, 0) % 0x1_0000_0000,
      TotalTimes(StateAt(i), m', 0)))
  }

  function CountBytes(finals: seq<u32>, tracks: seq<u32>): seq<bv8>
    requires |finals| == |tracks|
  {
    if finals == [] then []
    else CountBytes(finals[..|finals| - 1], tracks[..|tracks| - 1]) +
         LittleEndian32(finals[|finals| - 1] as bv32) + LittleEndian32(tracks[|tracks| - 1] as bv32)
  }

  ghost function BenchValue(m: seq<bv8>, seed1: bv8, step: int, crc: bv16): bv16
    requires 0 < step && Terminated(m, 0) && Terminated(Corrupted(m, seed1, step), 0)
  {
    var m' := Corrupted(m, seed1, step);
    Fold(CountBytes(Finals(m, m'), Tracks(m, m')), crc)
  }

  lemma TallyTwice(m: seq<bv8>, m': seq<bv8>, f: seq<u32>, f': seq<u32>, t: seq<u32>, t': seq<u32>)
    requires Terminated(m, 0) && Terminated(m', 0)
    requires Tallied(f, seq(NUM_CORE_STATES, _ => 0), t, seq(NUM_CORE_STATES, _ => 0), m, 0) &&
             Tallied(f', f, t', t, m', 0)
    ensures f' == Finals(m, m') && t' == Tracks(m, m')
  {
    hide Add, FinalCount, TotalTimes, Terminated;
    forall i | 0 <= i < NUM_CORE_STATES ensures f'[i] == Finals(m, m')[i] && t'[i] == Tracks(m, m')[i] {
      var x := StateAt(i);
      AddToZero(FinalCount(x, m, 0));
      AddToZero(TotalTimes(x, m, 0));
      assert f'[Index(x)] == Add(f[Index(x)], FinalCount(x, m', 0)) &&
        t'[Index(x)] == Add(t[Index(x)], TotalTimes(x, m', 0));
    }
  }

  lemma AddToZero(n: nat)
    ensures Add(0, n) == n % 0x1_0000_0000
  {
  }

  method CrcCounts(finals: array<u32>, tracks: array<u32>, crc0: bv16) returns (crc: bv16)
    requires finals.Length == tracks.Length == NUM_CORE_STATES
    ensures crc == Fold(CountBytes(finals[..], tracks[..]), crc0)
  {
    hide Bits, LittleEndian32, Fold, CountBytes;
    crc := crc0;
    NoCounts(crc);
    assert finals[..0] == [] && tracks[..0] == [];
    for i := 0 to NUM_CORE_STATES
      invariant crc == Fold(CountBytes(finals[..i], tracks[..i]), crc0)
    {
      var f, t := finals[i] as bv32, tracks[i] as bv32;
      assert finals[..i + 1] == finals[..i] + [finals[i]] && tracks[..i + 1] == tracks[..i] + [tracks[i]];
      OneMoreCount(finals[..i], tracks[..i], finals[i], tracks[i], crc0);
      crc := Crcu32(f, crc);
      crc := Crcu32(t, crc);
    }
    assert finals[..NUM_CORE_STATES] == finals[..] && tracks[..NUM_CORE_STATES] == tracks[..];
  }

  lemma OneMoreCount(finals: seq<u32>, tracks: seq<u32>, f: u32, t: u32, crc: bv16)
    requires |finals| == |tracks|
    ensures Fold(CountBytes(finals + [f], tracks + [t]), crc) ==
            Fold(LittleEndian32(t as bv32), Fold(LittleEndian32(f as bv32), Fold(CountBytes(finals, tracks), crc)))
  {
    hide Bits, LittleEndian32, Fold;
    assert (finals + [f])[..|finals|] == finals && (tracks + [t])[..|tracks|] == tracks;
    FoldConcat(CountBytes(finals, tracks), LittleEndian32(f as bv32), crc);
    FoldConcat(CountBytes(finals, tracks) + LittleEndian32(f as bv32), LittleEndian32(t as bv32), crc);
  }

  lemma NoCounts(crc: bv16)
    ensures Fold(CountBytes([], []), crc) == crc
  {
  }

  // ---------- the counts, slot by slot ----------

  // How many tokens of both scans end in x, and how many transitions out of x they make.
  ghost function Ends(x: CoreState, m: seq<bv8>, m': seq<bv8>): nat
    requires Terminated(m, 0) && Terminated(m', 0)
  {
    multiset(Verdicts(m, 0))[x] + multiset(Verdicts(m', 0))[x]
  }

  ghost function Leavings(x: CoreState, m: seq<bv8>, m': seq<bv8>): nat
    requires Terminated(m, 0) && Terminated(m', 0)
  {
    TotalTimes(x, m, 0) + TotalTimes(x, m', 0)
  }

  // The CRC takes the final and the transition count of each state in the order of the enumeration, as 32-bit words.
  lemma BenchValueIs(m: seq<bv8>, seed1: bv8, step: int, crc: bv16)
    requires 0 < step && Terminated(m, 0) && Terminated(Corrupted(m, seed1, step), 0)
    ensures var m' := Corrupted(m, seed1, step);
            BenchValue(m, seed1, step, crc) ==
            Fold(WordBytes([Ends(START, m, m'), Leavings(START, m, m'), Ends(INVALID, m, m'), Leavings(INVALID, m, m'),
                            Ends(S1, m, m'), Leavings(S1, m, m'), Ends(S2, m, m'), Leavings(S2, m, m'),
                            Ends(INT, m, m'), Leavings(INT, m, m'), Ends(FLOAT, m, m'), Leavings(FLOAT, m, m'),
                            Ends(EXPONENT, m, m'), Leavings(EXPONENT, m, m'),
                            Ends(SCIENTIFIC, m, m'), Leavings(SCIENTIFIC, m, m')]), crc)
  {
    var m' := Corrupted(m, seed1, step);
    var f, t := Finals(m, m'), Tracks(m, m');
    SlotsOf(m, m');
    hide Finals, Tracks, Ends, Leavings, Fold, Corrupted, Terminated;
    PairsOfWords(f, t, Ends(START, m, m'), Leavings(START, m, m'), Ends(INVALID, m, m'), Leavings(INVALID, m, m'),
                 Ends(S1, m, m'), Leavings(S1, m, m'), Ends(S2, m, m'), Leavings(S2, m, m'),
                 Ends(INT, m, m'), Leavings(INT, m, m'), Ends(FLOAT, m, m'), Leavings(FLOAT, m, m'),
                 Ends(EXPONENT, m, m'), Leavings(EXPONENT, m, m'), Ends(SCIENTIFIC, m, m'),
                 Leavings(SCIENTIFIC, m, m'));
  }

  lemma SlotsOf(m: seq<bv8>, m': seq<bv8>)
    requires Terminated(m, 0) && Terminated(m', 0)
    ensures var f, t := Finals(m, m'), Tracks(m, m');
            f[0] == Word(Ends(START, m, m')) && t[0] == Word(Leavings(START, m, m')) &&
            f[1] == Word(Ends(INVALID, m, m')) && t[1] == Word(Leavings(INVALID, m, m')) &&
            f[2] == Word(Ends(S1, m, m')) && t[2] == Word(Leavings(S1, m, m')) &&
            f[3] == Word(Ends(S2, m, m')) && t[3] == Word(Leavings(S2, m, m')) &&
            f[4] == Word(Ends(INT, m, m')) && t[4] == Word(Leavings(INT, m, m')) &&
            f[5] == Word(Ends(FLOAT, m, m')) && t[5] == Word(Leavings(FLOAT, m, m')) &&
            f[6] == Word(Ends(EXPONENT, m, m')) && t[6] == Word(Leavings(EXPONENT, m, m')) &&
            f[7] == Word(Ends(SCIENTIFIC, m, m')) && t[7] == Word(Leavings(SCIENTIFIC, m, m'))
  {
    hide Verdicts, TotalTimes, Terminated, Word;
    forall i | 0 <= i < 8
      ensures Finals(m, m')[i] == Word(Ends(StateAt(i), m, m')) && Tracks(m, m')[i] == Word(Leavings(StateAt(i), m, m'))
    {
      WordOfSum(FinalCount(StateAt(i), m, 0), FinalCount(StateAt(i), m', 0));
      WordOfSum(TotalTimes(StateAt(i), m, 0), TotalTimes(StateAt(i), m', 0));
      hide Add;
    }
    assert StateAt(0) == START && StateAt(1) == INVALID && StateAt(2) == S1 && StateAt(3) == S2 && StateAt(4) == INT &&
      StateAt(5) == FLOAT && StateAt(6) == EXPONENT && StateAt(7) == SCIENTIFIC;
  }

  function Word(n: nat): u32 { n % 0x1_0000_0000 }

  lemma WordOfSum(a: nat, b: nat)
    ensures Add(a % 0x1_0000_0000, b) == Word(a + b)
  {
  }

  // Counts as 32-bit words, lowest byte first.
  function WordBytes(s: seq<nat>): seq<bv8> {
    if s == [] then [] else WordBytes(s[..|s| - 1]) + LittleEndian32(Word(s[|s| - 1]) as bv32)
  }

  lemma TwoMoreWords(s: seq<nat>, a: nat, b: nat)
    ensures WordBytes(s + [a, b]) == WordBytes(s) + LittleEndian32(Word(a) as bv32) + LittleEndian32(Word(b) as bv32)
  {
    hide *;
    assert s + [a, b] == (s + [a]) + [b];
    OneMoreWord(s, a);
    OneMoreWord(s + [a], b);
  }

  lemma OneMoreWord(s: seq<nat>, a: nat)
    ensures WordBytes(s + [a]) == WordBytes(s) + LittleEndian32(Word(a) as bv32)
  {
    hide LittleEndian32, Word;
    assert (s + [a])[..|s|] == s;
  }

  lemma OneMorePair(f: seq<u32>, t: seq<u32>, s: seq<nat>, a: nat, b: nat)
    requires |f| == |t| > 0 && CountBytes(f[..|f| - 1], t[..|f| - 1]) == WordBytes(s)
    requires f[|f| - 1] == Word(a) && t[|f| - 1] == Word(b)
    ensures CountBytes(f, t) == WordBytes(s + [a, b])
  {
    hide *;
    LastCount(f, t);
    TwoMoreWords(s, a, b);
  }

  lemma LastCount(f: seq<u32>, t: seq<u32>)
    requires |f| == |t| > 0
    ensures CountBytes(f, t) == CountBytes(f[..|f| - 1], t[..|t| - 1]) + LittleEndian32(f[|f| - 1] as bv32) +
                                LittleEndian32(t[|t| - 1] as bv32)
  {
    hide LittleEndian32;
  }

  lemma PairsOfWords(f: seq<u32>, t: seq<u32>, a0: nat, b0: nat, a1: nat, b1: nat, a2: nat, b2: nat, a3: nat, b3: nat,
                     a4: nat, b4: nat, a5: nat, b5: nat, a6: nat, b6: nat, a7: nat, b7: nat)
    requires |f| == |t| == 8
    requires f[0] == Word(a0) && t[0] == Word(b0) && f[1] == Word(a1) && t[1] == Word(b1)
    requires f[2] == Word(a2) && t[2] == Word(b2) && f[3] == Word(a3) && t[3] == Word(b3)
    requires f[4] == Word(a4) && t[4] == Word(b4) && f[5] == Word(a5) && t[5] == Word(b5)
    requires f[6] == Word(a6) && t[6] == Word(b6) && f[7] == Word(a7) && t[7] == Word(b7)
    ensures CountBytes(f, t) == WordBytes([a0, b0, a1, b1, a2, b2, a3, b3, a4, b4, a5, b5, a6, b6, a7, b7])
  {
    var words := [a0, b0, a1, b1, a2, b2, a3, b3, a4, b4, a5, b5, a6, b6, a7, b7];
    NoWords(f, t, words);
    hide CountBytes, WordBytes, Word;
    for k := 0 to 8
      invariant CountBytes(f[..k], t[..k]) == WordBytes(words[..2 * k])
    {
      assert f[..k + 1][..k] == f[..k] && t[..k + 1][..k] == t[..k];
      assert words[..2 * (k + 1)] == words[..2 * k] + [words[2 * k], words[2 * k + 1]];
      OneMorePair(f[..k + 1], t[..k + 1], words[..2 * k], words[2 * k], words[2 * k + 1]);
    }
    assert f[..8] == f && t[..8] == t && words[..16] == words;
  }

  lemma NoWords(f: seq<u32>, t: seq<u32>, s: seq<nat>)
    ensures f[..0] == [] && t[..0] == [] && s[..0] == [] && CountBytes([], []) == WordBytes([])
  {
  }

  method CoreBenchState(memblock: array<bv8>, seed1: bv16, seed2: bv16, step: int, crc0: bv16) returns (crc: bv16)
    requires 0 < step && Terminated(memblock[..], 0) && Terminated(Corrupted(memblock[..], Low(seed1), step), 0)
    modifies memblock
    ensures memblock[..] == Corrupted(Corrupted(old(memblock[..]), Low(seed1), step), Low(seed2), step)
    ensures crc == BenchValue(old(memblock[..]), Low(seed1), step, crc0)
  {
    hide Tallied, Terminated, Corrupted, Finals, Tracks, CountBytes, Fold;
    var finalCounts := new u32[NUM_CORE_STATES](_ => 0);
    var trackCounts := new u32[NUM_CORE_STATES](_ => 0);
    ghost var m, zeros := memblock[..], finalCounts[..];
    assert finalCounts[..] == trackCounts[..] == seq(NUM_CORE_STATES, _ => 0);
    ScanBlock(memblock, finalCounts, trackCounts);
    ghost var f, t := finalCounts[..], trackCounts[..];
    Corrupt(memblock, (seed1 & 0xff) as bv8, step);
    ScanBlock(memblock, finalCounts, trackCounts);
    TallyTwice(m, memblock[..], f, finalCounts[..], t, trackCounts[..]);
    Corrupt(memblock, (seed2 & 0xff) as bv8, step);
    crc := CrcCounts(finalCounts, trackCounts, crc0);
  }

  // ---------- safety ----------

  predicate EndsInZeros(m: seq<bv8>) { |m| >= 2 && m[|m| - 1] == 0 && m[|m| - 2] == 0 }

  // With a stride of at least two, one of two adjacent zeros survives the corruption, so neither scan leaves the block.
  lemma ScansStayInside(m: seq<bv8>, seed: bv8, step: int)
    requires EndsInZeros(m) && 2 <= step
    ensures Terminated(m, 0) && Terminated(Corrupted(m, seed, step), 0)
  {
    var n := |m|;
    assert m[n - 1] == 0;
    if Multiple(n - 2, step) {
      BetweenMultiples(n - 2, n - 1, step);
      assert Corrupted(m, seed, step)[n - 1] == 0;
    } else {
      assert Corrupted(m, seed, step)[n - 2] == 0;
    }
  }

  // A stride of one would wipe out every terminator. calc_func never passes one: it raises the stride to 0x22 at least
  // (software/coremark_app/cmark.c:438-441).
  lemma StrideOneEscapes()
    ensures EndsInZeros([0, 0]) && !Terminated(Corrupted([0, 0], 1, 1), 0)
  {
    var c := Corrupted([0, 0], 1, 1);
    assert Multiple(1, 1);
    assert c[0] == 1 && c[1] == 1;
  }

  // Two zeros at the end survive a benchmark exactly if the seeds agree in their low byte and it is no comma, or if the
  // stride misses both.
  lemma ZerosKeptIff(m: seq<bv8>, seed1: bv8, seed2: bv8, step: int)
    requires EndsInZeros(m) && 0 < step
    ensures EndsInZeros(Corrupted(Corrupted(m, seed1, step), seed2, step)) <==>
            seed1 == seed2 != COMMA || (!Multiple(|m| - 1, step) && !Multiple(|m| - 2, step))
  {
    UndoneAt(m, |m| - 1, seed1, seed2, step);
    UndoneAt(m, |m| - 2, seed1, seed2, step);
    XorZero(seed1);
    hide Multiple, Corrupted;
  }

  lemma XorZero(seed: bv8)
    ensures 0 ^ seed == seed
  {
  }

  // So they survive any number of benchmarks of any stride if the seeds are such seeds.
  lemma ZerosSurvive(m: seq<bv8>, seed: bv8, step: int)
    requires EndsInZeros(m) && 0 < step && seed != COMMA
    ensures EndsInZeros(Corrupted(Corrupted(m, seed, step), seed, step))
  {
    ZerosKeptIff(m, seed, seed, step);
  }
}
