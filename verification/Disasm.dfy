/**
  cs_disasm and cs_disasm_iter (model/components/capstone/cs.c:823-1163): disassembling a whole buffer into
  a result array that grows by 8/5, and stepping through the same buffer one instruction at a time.
*/
module Disasm {

  const BYTES := 24
  const INSN_CACHE_SIZE := 32
  const ADDRESSES := 0x1_0000_0000_0000_0000

  // What the architecture's decoder and printer make of the bytes in front of them.
  datatype Decoded = Broken | Decoded(size: nat, id: nat, mnemonic: string, opStr: string)

  datatype Callback = NoCallback | Callback(skip: (seq<bv8>, nat) -> nat)

  datatype Handle = Handle(disasm: (seq<bv8>, nat) -> Decoded, skipdata: bool, skipdataSize: nat, callback: Callback,
                           skipMnemonic: string, dataText: seq<bv8> -> string)

  // The contract of the parts of the engine that are not modelled: a decoded instruction has at least one
  // byte and no more than there are, and data is skipped in pieces of at least one byte that fit an instruction.
  ghost predicate Sound(h: Handle) {
    (forall code: seq<bv8>, address: nat :: h.disasm(code, address).Decoded? ==>
      1 <= h.disasm(code, address).size <= |code|) &&
    1 <= h.skipdataSize <= BYTES &&
    (h.callback.Callback? ==> forall code: seq<bv8>, offset: nat :: h.callback.skip(code, offset) <= BYTES)
  }

  datatype Insn = Insn(id: nat, address: nat, size: nat, bytes: seq<bv8>, mnemonic: string, opStr: string)

  datatype Step = Stop | Step(insn: Insn, advance: nat)

  function Min(a: nat, b: nat): nat { if a <= b then a else b }

  // fill_insn keeps the last 24 bytes of an instruction that is longer.
  function Filled(d: Decoded, code: seq<bv8>, address: nat): Insn
    requires d.Decoded? && d.size <= |code|
  {
    var copy := Min(BYTES, d.size);
    Insn(d.id, address, copy, code[d.size - copy..d.size], d.mnemonic, d.opStr)
  }

  function SkipBytes(h: Handle, org: seq<bv8>, pos: nat): nat {
    match h.callback
    case NoCallback => h.skipdataSize
    case Callback(skip) => skip(org, pos)
  }

  // One instruction at org[pos..]; a callback gets to see the whole of org.
  function StepAt(h: Handle, org: seq<bv8>, pos: nat, address: nat): (s: Step)
    requires Sound(h) && pos <= |org|
    ensures s.Step? ==> 1 <= s.advance <= |org| - pos
  {
    var code := org[pos..];
    var d := h.disasm(code, address);
    if d.Decoded? then Step(Filled(d, code, address), d.size)
    else
      var n := SkipBytes(h, org, pos);
      if !h.skipdata || h.skipdataSize > |code| || n > |code| || n == 0 then Stop
      else Step(Insn(0, address, n, code[..n], h.skipMnemonic, h.dataText(code[..n])), n)
  }

  function Moved(address: nat, n: nat): nat { (address + n) % ADDRESSES }

  // ---------- the whole buffer ----------

  // What is still to come at pos when c instructions are there; a count of zero asks for all.
  function All(h: Handle, org: seq<bv8>, pos: nat, address: nat, count: nat, c: nat): (s: seq<Insn>)
    requires Sound(h) && pos <= |org|
    ensures count > c ==> |s| <= count - c
    decreases |org| - pos
  {
    if pos == |org| then []
    else match StepAt(h, org, pos, address)
      case Stop => []
      case Step(insn, n) =>
        [insn] + if count > 0 && c + 1 == count then [] else All(h, org, pos + n, Moved(address, n), count, c + 1)
  }

  lemma AllStep(h: Handle, org: seq<bv8>, pos: nat, address: nat, count: nat, c: nat)
    requires Sound(h) && pos < |org|
    ensures var s, r := StepAt(h, org, pos, address), All(h, org, pos, address, count, c);
            if s.Stop? then r == []
            else r != [] && r[0] == s.insn && pos + s.advance <= |org| &&
                 r[1..] == if count > 0 && c + 1 == count then []
                   else All(h, org, pos + s.advance, Moved(address, s.advance), count, c + 1)
  {
  }

  datatype Error = OK | MEM

  // A larger or smaller block with the same first n slots.
  method Realloc(total: array<Insn>, slots: nat, n: nat) returns (tmp: array<Insn>)
    requires n <= total.Length && n <= slots
    ensures fresh(tmp) && tmp.Length == slots && tmp[..n] == total[..n]
  {
    tmp := new Insn[slots];
    for i := 0 to n
      invariant tmp[..i] == total[..i]
    {
      tmp[i] := total[i];
    }
  }

  // ---------- the memory asked for ----------

  // The cache after k expansions, and all slots there are then.
  function CacheSize(k: nat): (n: nat)
    ensures n > 0
  {
    if k == 0 then INSN_CACHE_SIZE else CacheSize(k - 1) * 8 / 5
  }

  function Slots(k: nat): nat { if k == 0 then INSN_CACHE_SIZE else Slots(k - 1) + CacheSize(k) }

  // With this many slots full, the product of the next expansion leaves 32 bits for the first time.
  const WRAPPING_SLOTS := 1_861_635_745

  lemma GrowthTable()
    ensures Slots(36) == WRAPPING_SLOTS && CacheSize(36) * 8 >= 0x1_0000_0000 > CacheSize(35) * 8
  {
    FirstSlots();
    hide CacheSize, Slots;
    Thrice(0, 32, 32, 51, 81, 129);
    Thrice(3, 129, 293, 206, 329, 526);
    Thrice(6, 526, 1354, 841, 1345, 2152);
    Thrice(9, 2152, 5692, 3443, 5508, 8812);
    Thrice(12, 8812, 23455, 14099, 22558, 36092);
    Thrice(15, 36092, 96204, 57747, 92395, 147832);
    Thrice(18, 147832, 394178, 236531, 378449, 605518);
    Thrice(21, 605518, 1614676, 968828, 1550124, 2480198);
    Thrice(24, 2480198, 6613826, 3968316, 6349305, 10158888);
    Thrice(27, 10158888, 27090335, 16254220, 26006752, 41610803);
    Thrice(30, 41610803, 110962110, 66577284, 106523654, 170437846);
    Thrice(33, 170437846, 454500894, 272700553, 436320884, 698113414);
  }

  lemma FirstSlots()
    ensures CacheSize(0) == 32 == Slots(0)
  {
  }

  // Three expansions from a cache of a and b slots in all.
  lemma Thrice(k: nat, a: nat, b: nat, a1: nat, a2: nat, a3: nat)
    requires CacheSize(k) == a && Slots(k) == b
    requires 0 <= 8 * a - 5 * a1 < 5 && 0 <= 8 * a1 - 5 * a2 < 5 && 0 <= 8 * a2 - 5 * a3 < 5
    ensures CacheSize(k + 2) == a2 && CacheSize(k + 3) == a3 && Slots(k + 3) == b + a1 + a2 + a3
  {
    assert CacheSize(k + 1) == a1;
    assert Slots(k + 1) == b + a1;
    assert Slots(k + 2) == b + a1 + a2;
  }

  lemma {:induction false} Growing(k: nat, m: nat)
    requires k <= m
    ensures CacheSize(k) <= CacheSize(m) && Slots(k) <= Slots(m) && CacheSize(k) <= Slots(k)
    decreases m
  {
    if k < m {
      Growing(k, m - 1);
    } else if k > 0 {
      Growing(k - 1, k - 1);
    }
  }

  // Below that many slots no product wraps.
  lemma NoWrap(k: nat)
    requires Slots(k) < WRAPPING_SLOTS
    ensures CacheSize(k) * 8 < 0x1_0000_0000
  {
    hide *;
    GrowthTable();
    if k < 36 {
      Growing(k, 35);
    } else {
      Growing(36, k);
    }
  }

  function FirstCache(count: nat): (n: nat)
    ensures n > 0
  {
    if 0 < count <= INSN_CACHE_SIZE then count else INSN_CACHE_SIZE
  }

  // The allocator grants every request that a result of n instructions takes: the first block, an expansion each
  // time all slots are full and more is wanted, and the final cut down to n.
  ghost predicate Granted(mem: nat -> bool, n: nat, count: nat) {
    if 0 < count <= INSN_CACHE_SIZE then mem(count) && CutGranted(mem, n, count) else GrantedFrom(mem, 0, n, count)
  }

  ghost predicate CutGranted(mem: nat -> bool, n: nat, slots: nat) { n == 0 || n == slots || mem(n) }

  ghost predicate GrantedFrom(mem: nat -> bool, k: nat, n: nat, count: nat)
    decreases if Slots(k) <= n then n - Slots(k) + 1 else 0
  {
    mem(Slots(k)) &&
    if Slots(k) <= n && Slots(k) != count then GrantedFrom(mem, k + 1, n, count) else CutGranted(mem, n, Slots(k))
  }

  // Memory for about three times the instructions is enough.
  lemma EnoughMemory(mem: nat -> bool, n: nat, count: nat)
    requires forall m: nat | m <= 3 * n + INSN_CACHE_SIZE :: mem(m)
    ensures Granted(mem, n, count)
  {
    EnoughFrom(mem, 0, n, count);
  }

  lemma {:induction false} EnoughFrom(mem: nat -> bool, k: nat, n: nat, count: nat)
    requires (forall m: nat | m <= 3 * n + INSN_CACHE_SIZE :: mem(m)) && Slots(k) <= 3 * n + INSN_CACHE_SIZE
    ensures GrantedFrom(mem, k, n, count)
    decreases if Slots(k) <= n then n - Slots(k) + 1 else 0
  {
    Growing(k, k);
    if Slots(k) <= n && Slots(k) != count { EnoughFrom(mem, k + 1, n, count); }
  }

  // The slots there are: the first block for a small count, or k expansions.
  ghost predicate Grown(k: nat, count: nat, cacheSize: nat, slots: nat) {
    if 0 < count <= INSN_CACHE_SIZE then cacheSize == slots == count else cacheSize == CacheSize(k) && slots == Slots(k)
  }

  lemma GrownOnce(k: nat, count: nat, cacheSize: nat, slots: nat)
    requires Grown(k, count, cacheSize, slots) && slots != count && slots < WRAPPING_SLOTS
    ensures 0 < cacheSize * 8 / 5 && (cacheSize * 8) % 0x1_0000_0000 == cacheSize * 8
    ensures Grown(k + 1, count, cacheSize * 8 / 5, slots + cacheSize * 8 / 5)
  {
    NoWrap(k);
  }

  // What is still to be granted when the slots number those of k expansions.
  ghost predicate StillToGrant(mem: nat -> bool, k: nat, n: nat, count: nat) {
    if 0 < count <= INSN_CACHE_SIZE then CutGranted(mem, n, count) else GrantedFrom(mem, k, n, count)
  }

  lemma StartGrant(mem: nat -> bool, n: nat, count: nat)
    ensures Grown(0, count, FirstCache(count), FirstCache(count))
    ensures if mem(FirstCache(count)) then Granted(mem, n, count) <==> StillToGrant(mem, 0, n, count)
            else !Granted(mem, n, count)
  {
  }

  lemma GrantOne(mem: nat -> bool, k: nat, n: nat, count: nat, cacheSize: nat, slots: nat)
    requires Grown(k, count, cacheSize, slots) && slots <= n && slots != count && mem(slots)
    ensures StillToGrant(mem, k, n, count) <==> StillToGrant(mem, k + 1, n, count)
    ensures !mem(slots + cacheSize * 8 / 5) ==> !StillToGrant(mem, k, n, count)
  {
  }

  lemma GrantCut(mem: nat -> bool, k: nat, n: nat, count: nat, cacheSize: nat, slots: nat)
    requires Grown(k, count, cacheSize, slots) && n <= slots && (n == slots ==> n == count) && mem(slots)
    ensures StillToGrant(mem, k, n, count) <==> CutGranted(mem, n, slots)
  {
  }

  // The full array becomes c slots and a cache of 8/5 the size of the last one.
  method Expand(total: array<Insn>, cacheSize0: nat, c: nat, mem: nat -> bool, ghost k: nat, ghost count: nat)
    returns (tmp: array?<Insn>, cacheSize: nat)
    requires total.Length == c && Grown(k, count, cacheSize0, c) && c != count && c < WRAPPING_SLOTS
    ensures 0 < cacheSize == cacheSize0 * 8 / 5 && Grown(k + 1, count, cacheSize, c + cacheSize)
    ensures if mem(c + cacheSize) then tmp != null && fresh(tmp) && tmp.Length == c + cacheSize &&
            tmp[..c] == total[..c] else tmp == null
  {
    hide Grown;
    GrownOnce(k, count, cacheSize0, c);
    cacheSize := (cacheSize0 * 8) % 0x1_0000_0000 / 5;
    tmp := null;
    if mem(c + cacheSize) {
      tmp := Realloc(total, c + cacheSize, c);
    }
  }

  // The first c slots hold the first c instructions of the result; the rest of the result is still to come.
  ghost predicate Holding(slots: seq<Insn>, c: nat, r: seq<Insn>, rest: seq<Insn>) {
    c <= |slots| && r == slots[..c] + rest
  }

  lemma HoldNone(slots: seq<Insn>, r: seq<Insn>)
    ensures Holding(slots, 0, r, r)
  {
  }

  lemma HoldAll(h: Handle, org: seq<bv8>, pos: nat, address: nat, count: nat, c: nat, slots: seq<Insn>, r: seq<Insn>,
                rest: seq<Insn>, done: bool)
    requires Sound(h) && pos <= |org| && (done || pos == |org|)
    requires Holding(slots, c, r, rest) && rest == if done then [] else All(h, org, pos, address, count, c)
    ensures slots[..c] == r && c == |r|
  {
  }

  lemma HoldOne(slots: seq<Insn>, slots': seq<Insn>, c: nat, r: seq<Insn>, rest: seq<Insn>)
    requires c < |slots'| && Holding(slots, c, r, rest) && rest != []
    requires slots'[..c] == slots[..c] && slots'[c] == rest[0]
    ensures Holding(slots', c + 1, r, rest[1..])
  {
    assert slots'[..c + 1] == slots[..c] + [rest[0]];
  }

  lemma HoldLength(slots: seq<Insn>, c: nat, r: seq<Insn>, rest: seq<Insn>)
    requires Holding(slots, c, r, rest)
    ensures c + |rest| == |r|
  {
  }

  lemma HoldSame(slots: seq<Insn>, slots': seq<Insn>, c: nat, r: seq<Insn>, rest: seq<Insn>)
    requires c <= |slots'| && Holding(slots, c, r, rest) && slots'[..c] == slots[..c]
    ensures Holding(slots', c, r, rest)
  {
  }

  // mem tells which requests the allocator grants, counted in instructions.
  method CsDisasm(h: Handle, buffer: seq<bv8>, offset0: nat, count: nat, insn0: array?<Insn>, mem: nat -> bool)
    returns (c: nat, insn: array?<Insn>, errnum: Error)
    requires Sound(h) && forall n: nat :: mem(n) ==> n < WRAPPING_SLOTS
    ensures var r := All(h, buffer, 0, offset0, count, 0);
            (errnum == OK <==> Granted(mem, |r|, count)) &&
            (errnum == OK ==> c == |r| && if c == 0 then insn == null
              else insn != null && insn.Length == c && insn[..] == r)
    ensures errnum == MEM ==> c == 0 && insn == if mem(FirstCache(count)) then null else insn0
  {
    hide StepAt, Moved, Sound, All, Holding, Granted, StillToGrant, Grown, FirstCache;
    ghost var r := All(h, buffer, 0, offset0, count, 0);
    var cacheSize: nat := FirstCache(count);
    insn, errnum, c := insn0, OK, 0;
    StartGrant(mem, |r|, count);
    if !mem(cacheSize) { return 0, insn, MEM; }
    var total := new Insn[cacheSize];
    var f: nat, cache: nat, pos: nat, offset := 0, 0, 0, offset0;
    var done := false;
    ghost var rest, k: nat := r, 0;
    HoldNone(total[..], r);
    while pos < |buffer| && !done
      invariant pos <= |buffer| && total.Length == (c - f) + cacheSize && f <= c && f <= cacheSize && 0 < cacheSize
      invariant if !done then cache == c && f < cacheSize && (count == 0 || c < count) else f == cacheSize ==>
                c == count
      invariant fresh(total) && mem(total.Length) && Grown(k, count, cacheSize, total.Length)
      invariant Granted(mem, |r|, count) <==> StillToGrant(mem, k, |r|, count)
      invariant Holding(total[..], c, r, rest) && rest == if done then [] else All(h, buffer, pos, offset, count, c)
      decreases !done, |buffer| - pos
    {
      AllStep(h, buffer, pos, offset, count, c);
      match StepAt(h, buffer, pos, offset) {
        case Stop =>
          done := true;
          rest := [];
        case Step(i, nextOffset) =>
          ghost var slots := total[..];
          total[cache] := i;
          HoldOne(slots, total[..], c, r, rest);
          rest := rest[1..];
          f := f + 1;
          c := c + 1;
          if count > 0 && c == count {
            done := true;
          } else {
            if f == cacheSize {
              var tmp;
              HoldLength(total[..], c, r, rest);
              GrantOne(mem, k, |r|, count, cacheSize, c);
              tmp, cacheSize := Expand(total, cacheSize, c, mem, k, count);
              k := k + 1;
              if tmp == null { return 0, null, MEM; }
              HoldSame(total[..], tmp[..], c, r, rest);
              total := tmp;
              cache := c;
              f := 0;
            } else {
              cache := cache + 1;
            }
            pos := pos + nextOffset;
            offset := Moved(offset, nextOffset);
          }
      }
    }
    HoldAll(h, buffer, pos, offset, count, c, total[..], r, rest, done);
    GrantCut(mem, k, c, count, cacheSize, total.Length);
    if c == 0 {
      insn := null;
    } else {
      if f != cacheSize {
        if !mem(total.Length - (cacheSize - f)) { return 0, null, MEM; }
        total := Realloc(total, total.Length - (cacheSize - f), c);
      }
      insn := total;
    }
  }

  // ---------- one instruction at a time ----------

  // The caller's cursor: what is left of the code, and its address.
  class Cursor {
    var code: seq<bv8>
    var address: nat
    var insn: Insn

    constructor (code: seq<bv8>, address: nat, insn: Insn)
      ensures this.code == code && this.address == address && this.insn == insn
    {
      this.code, this.address, this.insn := code, address, insn;
    }
  }

  method CsDisasmIter(h: Handle, cur: Cursor) returns (ok: bool)
    requires Sound(h)
    modifies cur
    ensures match StepAt(h, old(cur.code), 0, old(cur.address))
            case Stop => !ok && cur.code == old(cur.code) && cur.address == old(cur.address)
            case Step(insn, n) =>
              ok && cur.insn == insn && cur.code == old(cur.code)[n..] &&
              cur.address == Moved(old(cur.address), n)
  {
    var d := h.disasm(cur.code, cur.address);
    assert cur.code[0..] == cur.code;
    if d.Decoded? {
      cur.insn := Filled(d, cur.code, cur.address);
      cur.code, cur.address := cur.code[d.size..], Moved(cur.address, d.size);
    } else {
      cur.insn := cur.insn.(address := cur.address);
      if !h.skipdata || h.skipdataSize > |cur.code| { return false; }
      var skipdataBytes;
      if h.callback.Callback? {
        skipdataBytes := h.callback.skip(cur.code, 0);
        if skipdataBytes > |cur.code| { return false; }
        if skipdataBytes == 0 { return false; }
      } else {
        skipdataBytes := h.skipdataSize;
      }
      var data := cur.code[..skipdataBytes];
      cur.insn := Insn(0, cur.address, skipdataBytes, data, h.skipMnemonic, h.dataText(data));
      cur.code, cur.address := cur.code[skipdataBytes..], Moved(cur.address, skipdataBytes);
    }
    ok := true;
  }

  // What stepping yields until it fails or count is reached.
  function Steps(h: Handle, code: seq<bv8>, address: nat, count: nat, c: nat): seq<Insn>
    requires Sound(h)
    decreases |code|
  {
    match StepAt(h, code, 0, address)
    case Stop => []
    case Step(insn, n) =>
      [insn] + if count > 0 && c + 1 == count then [] else Steps(h, code[n..], Moved(address, n), count, c + 1)
  }

  // The documented use: step until it fails, or until count instructions are there.
  method StepThrough(h: Handle, cur: Cursor, count: nat) returns (insns: seq<Insn>)
    requires Sound(h)
    modifies cur
    ensures insns == Steps(h, old(cur.code), old(cur.address), count, 0)
  {
    hide StepAt, Sound, Moved, Steps;
    insns := [];
    ghost var r := Steps(h, cur.code, cur.address, count, 0);
    ghost var done := false;
    while count == 0 || |insns| < count
      invariant count > 0 ==> |insns| <= count
      invariant |insns| <= |r| && insns == r[..|insns|]
      invariant r[|insns|..] == if count > 0 && |insns| == count then []
                else Steps(h, cur.code, cur.address, count, |insns|)
      decreases |cur.code|
    {
      StepsStep(h, cur.code, cur.address, count, |insns|);
      ghost var rest := r[|insns|..];
      var ok := CsDisasmIter(h, cur);
      if !ok { break; }
      insns := insns + [cur.insn];
      assert r[|insns|..] == rest[1..] && cur.insn == rest[0];
    }
  }

  lemma StepsStep(h: Handle, code: seq<bv8>, address: nat, count: nat, c: nat)
    requires Sound(h)
    ensures var s, r := StepAt(h, code, 0, address), Steps(h, code, address, count, c);
            if s.Stop? then r == []
            else r != [] && r[0] == s.insn && 1 <= s.advance <= |code| &&
                 r[1..] == if count > 0 && c + 1 == count then []
                   else Steps(h, code[s.advance..], Moved(address, s.advance), count, c + 1)
  {
  }

  // ---------- both give the same ----------

  // A skip that ends the disassembly when rest bytes are left.
  predicate Useless(skip: nat, rest: nat) { skip == 0 || skip > rest }

  // What the callback says with the whole buffer and an offset, and with the rest alone, has the same effect.
  predicate SameSkip(skip: (seq<bv8>, nat) -> nat, code: seq<bv8>, offset: nat)
    requires offset <= |code|
  {
    var whole, rest := skip(code, offset), skip(code[offset..], 0);
    whole == rest || (Useless(whole, |code| - offset) && Useless(rest, |code| - offset))
  }

  ghost predicate SameSkips(cb: Callback) {
    cb.Callback? ==> forall code: seq<bv8>, offset: nat | offset <= |code| :: SameSkip(cb.skip, code, offset)
  }

  lemma {:induction false} WholeIsSteps(h: Handle, org: seq<bv8>, pos: nat, address: nat, count: nat, c: nat)
    requires Sound(h) && (h.skipdata ==> SameSkips(h.callback)) && pos <= |org|
    ensures All(h, org, pos, address, count, c) == Steps(h, org[pos..], address, count, c)
    decreases |org| - pos
  {
    hide *;
    var code := org[pos..];
    SameStep(h, org, pos, address);
    StepsStep(h, code, address, count, c);
    if StepAt(h, code, 0, address).Stop? {
      AllEmpty(h, org, pos, address, count, c);
    } else {
      var n := StepAt(h, code, 0, address).advance;
      AllStep(h, org, pos, address, count, c);
      DropDrop(org, pos, n);
      WholeIsSteps(h, org, pos + n, Moved(address, n), count, c + 1);
      SameEnds(All(h, org, pos, address, count, c), Steps(h, code, address, count, c));
    }
  }

  lemma DropDrop(org: seq<bv8>, pos: nat, n: nat)
    requires pos + n <= |org|
    ensures org[pos..][n..] == org[pos + n..]
  {
  }

  lemma SameEnds(r: seq<Insn>, s: seq<Insn>)
    requires r != [] && s != [] && r[0] == s[0] && r[1..] == s[1..]
    ensures r == s
  {
    assert r == [r[0]] + r[1..] && s == [s[0]] + s[1..];
  }

  lemma SameStep(h: Handle, org: seq<bv8>, pos: nat, address: nat)
    requires Sound(h) && (h.skipdata ==> SameSkips(h.callback)) && pos <= |org|
    ensures StepAt(h, org[pos..], 0, address) == if pos == |org| then Stop else StepAt(h, org, pos, address)
  {
    assert org[pos..][0..] == org[pos..];
    if h.skipdata && h.callback.Callback? {
      assert SameSkip(h.callback.skip, org, pos);
    }
  }

  // cs_disasm gives exactly what stepping with cs_disasm_iter gives.
  lemma BatchIsStepping(h: Handle, code: seq<bv8>, address: nat, count: nat)
    requires Sound(h) && (h.skipdata ==> SameSkips(h.callback))
    ensures All(h, code, 0, address, count, 0) == Steps(h, code, address, count, 0)
  {
    assert code[0..] == code;
    WholeIsSteps(h, code, 0, address, count, 0);
  }

  // cs_disasm shows its callback the whole buffer and an offset, cs_disasm_iter the rest and offset 0. Both give
  // the same with a callback, whatever the decoder and the options, exactly if the difference has no effect on it.
  ghost predicate AlwaysStepping(cb: Callback) {
    forall h: Handle, code: seq<bv8>, address: nat, count: nat | Sound(h) && h.callback == cb ::
      All(h, code, 0, address, count, 0) == Steps(h, code, address, count, 0)
  }

  lemma SteppingIff(cb: Callback)
    requires cb.Callback? ==> forall code: seq<bv8>, offset: nat :: cb.skip(code, offset) <= BYTES
    ensures AlwaysStepping(cb) <==> SameSkips(cb)
  {
    if SameSkips(cb) {
      forall h: Handle, code: seq<bv8>, address: nat, count: nat | Sound(h) && h.callback == cb
        ensures All(h, code, 0, address, count, 0) == Steps(h, code, address, count, 0)
      {
        BatchIsStepping(h, code, address, count);
      }
    }
    if AlwaysStepping(cb) && cb.Callback? {
      forall code: seq<bv8>, offset: nat | offset <= |code| ensures SameSkip(cb.skip, code, offset) {
        assert code[0..] == code;
        if 0 < offset < |code| {
          var h := Revealing(code, offset, cb);
          assert All(h, code, 0, 0, 2, 0) == Steps(h, code, 0, 2, 0);
          SkipsCompared(code, offset, cb);
        }
      }
    }
  }

  // Decodes code in front of offset as one instruction and nothing else.
  function Revealing(code: seq<bv8>, offset: nat, cb: Callback): (h: Handle)
    requires 0 < offset < |code| && (cb.Callback? ==> forall s: seq<bv8>, o: nat :: cb.skip(s, o) <= BYTES)
    ensures Sound(h) && h.callback == cb
  {
    Handle((s, _) => if s == code then Decoded(offset, 1, "", "") else Broken, true, 1, cb, ".byte", _ => "")
  }

  lemma SkipsCompared(code: seq<bv8>, offset: nat, cb: Callback)
    requires 0 < offset < |code| && cb.Callback? && forall s: seq<bv8>, o: nat :: cb.skip(s, o) <= BYTES
    requires var h := Revealing(code, offset, cb); All(h, code, 0, 0, 2, 0) == Steps(h, code, 0, 2, 0)
    ensures SameSkip(cb.skip, code, offset)
  {
    var h := Revealing(code, offset, cb);
    var rest, address := code[offset..], Moved(0, offset);
    assert code[0..] == code && rest[0..] == rest;
    RevealedSteps(code, offset, cb, address);
    AllStep(h, code, 0, 0, 2, 0);
    StepsStep(h, code, 0, 2, 0);
    AllStep(h, code, offset, address, 2, 1);
    StepsStep(h, rest, address, 2, 1);
    assert All(h, code, offset, address, 2, 1) == Steps(h, rest, address, 2, 1);
  }

  lemma RevealedSteps(code: seq<bv8>, offset: nat, cb: Callback, address: nat)
    requires 0 < offset < |code| && cb.Callback? && forall s: seq<bv8>, o: nat :: cb.skip(s, o) <= BYTES
    ensures var h, n := Revealing(code, offset, cb), |code| - offset;
            StepAt(h, code, 0, 0).Step? && StepAt(h, code, 0, 0).advance == offset &&
            SkipStep(StepAt(h, code, offset, address), cb.skip(code, offset), n) &&
            SkipStep(StepAt(h, code[offset..], 0, address), cb.skip(code[offset..], 0), n)
  {
    assert code[0..] == code && code[offset..][0..] == code[offset..] && |code[offset..]| < |code|;
  }

  // The step that skips so many bytes of rest, if it can.
  predicate SkipStep(s: Step, skip: nat, rest: nat) {
    if Useless(skip, rest) then s.Stop? else s.Step? && s.advance == s.insn.size == skip
  }

  // With a callback that minds the difference the two do differ.
  function GrowingSkips(): Callback {
    Callback((_, offset) => Min(BYTES, offset + 1))
  }

  lemma CallbackSeesMore()
    ensures !AlwaysStepping(GrowingSkips())
  {
    var code: seq<bv8> := [1, 2, 3];
    assert !SameSkip(GrowingSkips().skip, code, 1);
    SteppingIff(GrowingSkips());
  }

  // ---------- what the result says about the buffer ----------

  // No instruction is longer than the bytes field.
  ghost predicate Short(h: Handle) {
    forall code: seq<bv8>, address: nat :: h.disasm(code, address).Decoded? ==> h.disasm(code, address).size <= BYTES
  }

  function Bytes(s: seq<Insn>): seq<bv8> {
    if s == [] then [] else s[0].bytes + Bytes(s[1..])
  }

  // Each instruction starts where the one before it ended.
  ghost predicate Contiguous(s: seq<Insn>, address: nat) {
    s == [] || (s[0].address == address && s[0].size == |s[0].bytes| > 0 &&
      Contiguous(s[1..], Moved(address, s[0].size)))
  }

  lemma MovedTwice(address: nat, n: nat, m: nat)
    ensures Moved(Moved(address, n), m) == Moved(address, n + m) && Moved(address, n) < ADDRESSES
  {
  }

  // All at pos, one step on.
  lemma AllFrom(h: Handle, org: seq<bv8>, pos: nat, address: nat, count: nat, c: nat)
    requires Sound(h) && Short(h) && pos < |org| && StepAt(h, org, pos, address).Step?
    ensures var n, rest := StepAt(h, org, pos, address).advance, Next(h, org, pos, address, count, c);
            1 <= n <= |org| - pos && All(h, org, pos, address, count, c) == [StepAt(h, org, pos, address).insn] +
              rest &&
            rest == (if count > 0 && c + 1 == count then []
              else All(h, org, pos + n, Moved(address, n), count, c + 1)) &&
            (rest == [] ==> Bytes(rest) == []) &&
            Bytes(All(h, org, pos, address, count, c)) == org[pos..pos + n] + Bytes(rest)
  {
    var s, i := All(h, org, pos, address, count, c), StepAt(h, org, pos, address).insn;
    StepBytes(h, org, pos, address);
    assert s[0] == i && s[1..] == Next(h, org, pos, address, count, c);
  }

  lemma AllEmpty(h: Handle, org: seq<bv8>, pos: nat, address: nat, count: nat, c: nat)
    requires Sound(h) && pos <= |org| && (pos == |org| || StepAt(h, org, pos, address).Stop?)
    ensures All(h, org, pos, address, count, c) == [] && Bytes([]) == []
  {
  }

  // What follows the first instruction.
  function Next(h: Handle, org: seq<bv8>, pos: nat, address: nat, count: nat, c: nat): seq<Insn>
    requires Sound(h) && pos < |org| && StepAt(h, org, pos, address).Step?
  {
    var n := StepAt(h, org, pos, address).advance;
    if count > 0 && c + 1 == count then [] else All(h, org, pos + n, Moved(address, n), count, c + 1)
  }

  lemma {:induction false} ResultContiguous(h: Handle, org: seq<bv8>, pos: nat, address: nat, count: nat, c: nat)
    requires Sound(h) && Short(h) && pos <= |org|
    ensures Contiguous(All(h, org, pos, address, count, c), address)
    decreases |org| - pos
  {
    hide *;
    ContiguousEmpty(address);
    if pos == |org| || StepAt(h, org, pos, address).Stop? {
      AllEmpty(h, org, pos, address, count, c);
    } else {
      var s, rest := StepAt(h, org, pos, address), Next(h, org, pos, address, count, c);
      StepBytes(h, org, pos, address);
      AllFrom(h, org, pos, address, count, c);
      ContiguousEmpty(Moved(address, s.advance));
      if count == 0 || c + 1 != count {
        ResultContiguous(h, org, pos + s.advance, Moved(address, s.advance), count, c + 1);
      }
      ContiguousCons(s.insn, rest, address);
    }
  }

  lemma ContiguousEmpty(address: nat)
    ensures Contiguous([], address)
  {
  }

  lemma ContiguousCons(insn: Insn, rest: seq<Insn>, address: nat)
    requires insn.address == address && insn.size == |insn.bytes| > 0 && Contiguous(rest, Moved(address, insn.size))
    ensures Contiguous([insn] + rest, address)
  {
    assert ([insn] + rest)[1..] == rest;
  }

  // The instructions consist of a prefix of the bytes ...
  lemma {:induction false} ResultCoversPrefix(h: Handle, org: seq<bv8>, pos: nat, address: nat, count: nat, c: nat)
    requires Sound(h) && Short(h) && pos <= |org|
    ensures Bytes(All(h, org, pos, address, count, c)) <= org[pos..]
    decreases |org| - pos
  {
    hide StepAt, All, Moved, Sound, Short, Bytes, Next;
    if pos == |org| || StepAt(h, org, pos, address).Stop? {
      AllEmpty(h, org, pos, address, count, c);
    } else {
      var n := StepAt(h, org, pos, address).advance;
      AllFrom(h, org, pos, address, count, c);
      if count == 0 || c + 1 != count { ResultCoversPrefix(h, org, pos + n, Moved(address, n), count, c + 1); }
      PrefixStep(org, pos, pos + n, Bytes(Next(h, org, pos, address, count, c)));
    }
  }

  ghost predicate EndsWell(h: Handle, org: seq<bv8>, end: nat, address: nat)
    requires Sound(h)
  {
    end <= |org| && (end == |org| || StepAt(h, org, end, address).Stop?)
  }

  lemma EndsHere(h: Handle, org: seq<bv8>, end: nat, address: nat)
    requires Sound(h) && end <= |org| && address < ADDRESSES && (end == |org| || StepAt(h, org, end, address).Stop?)
    ensures Moved(address, 0) == address && EndsWell(h, org, end, address)
  {
  }

  // ... and end early only where no step is possible.
  lemma {:induction false} ResultEndsWell(h: Handle, org: seq<bv8>, pos: nat, address: nat, count: nat, c: nat)
    requires Sound(h) && Short(h) && pos <= |org| && address < ADDRESSES
    ensures var s := All(h, org, pos, address, count, c);
            |s| + c == count || EndsWell(h, org, pos + |Bytes(s)|, Moved(address, |Bytes(s)|))
    decreases |org| - pos
  {
    hide StepAt, All, Moved, Sound, Short, Bytes, Next, EndsWell;
    if pos == |org| || StepAt(h, org, pos, address).Stop? {
      AllEmpty(h, org, pos, address, count, c);
      EndsHere(h, org, pos, address);
    } else {
      var n := StepAt(h, org, pos, address).advance;
      AllFrom(h, org, pos, address, count, c);
      if count == 0 || c + 1 != count {
        MovedTwice(address, n, 0);
        ResultEndsWell(h, org, pos + n, Moved(address, n), count, c + 1);
        MovedTwice(address, n, |Bytes(Next(h, org, pos, address, count, c))|);
      }
    }
  }

  lemma PrefixStep(org: seq<bv8>, pos: nat, end: nat, rest: seq<bv8>)
    requires pos <= end <= |org| && rest <= org[end..]
    ensures org[pos..end] + rest <= org[pos..]
  {
    assert org[pos..] == org[pos..end] + org[end..];
  }

  lemma StepBytes(h: Handle, org: seq<bv8>, pos: nat, address: nat)
    requires Sound(h) && Short(h) && pos < |org|
    ensures match StepAt(h, org, pos, address)
            case Stop => true
            case Step(insn, n) =>
              insn.address == address && insn.size == n == |insn.bytes| > 0 &&
              insn.bytes == org[pos..pos + n]
  {
    var s := StepAt(h, org, pos, address);
    if s.Step? { assert org[pos..][..s.advance] == org[pos..pos + s.advance]; }
  }

  // ---------- what each instruction of the result holds ----------

  // How many bytes the decoder, or else the skipping, takes at org[pos..].
  function Taken(h: Handle, org: seq<bv8>, pos: nat, address: nat): nat
    requires pos <= |org|
  {
    match h.disasm(org[pos..], address)
    case Decoded(size, _, _, _) => size
    case Broken =>
      match h.callback
      case NoCallback => h.skipdataSize
      case Callback(skip) => skip(org, pos)
  }

  // Where the i-th instruction from pos on starts, as an offset into org.
  function OffsetOf(h: Handle, org: seq<bv8>, pos: nat, address: nat, i: nat): nat
    decreases i
  {
    if i == 0 || pos > |org| then pos
    else
      var n := Taken(h, org, pos, address);
      OffsetOf(h, org, pos + n, (address + n) % 0x1_0000_0000_0000_0000, i - 1)
  }

  // The address field of the i-th instruction, in 64 bits.
  function AddressOf(h: Handle, org: seq<bv8>, pos: nat, address: nat, i: nat): nat
    decreases i
  {
    if i == 0 || pos > |org| then address
    else
      var n := Taken(h, org, pos, address);
      AddressOf(h, org, pos + n, (address + n) % 0x1_0000_0000_0000_0000, i - 1)
  }

  // An instruction that was decoded has the fields the decoder gave it, and the last 24 of its bytes at most; one that
  // was skipped has the fields set for data, and all the bytes skipped.
  predicate FieldsAre(h: Handle, org: seq<bv8>, pos: nat, address: nat, r: Insn)
    requires pos <= |org|
  {
    r.address == address &&
    match h.disasm(org[pos..], address)
    case Decoded(size, id, mnemonic, opStr) =>
      r.id == id && r.mnemonic == mnemonic && r.opStr == opStr && 0 < size <= |org| - pos &&
      (if size <= 24 then r.size == size && r.bytes == org[pos..pos + size]
       else r.size == 24 && r.bytes == org[pos + size - 24..pos + size])
    case Broken =>
      h.skipdata && r.id == 0 && r.mnemonic == h.skipMnemonic && r.opStr == h.dataText(r.bytes) &&
      r.size == Taken(h, org, pos, address) && 0 < r.size <= |org| - pos && h.skipdataSize <= |org| - pos &&
      r.bytes == org[pos..pos + r.size]
  }

  lemma StepFields(h: Handle, org: seq<bv8>, pos: nat, address: nat)
    requires Sound(h) && pos < |org|
    ensures var s := StepAt(h, org, pos, address);
            s.Step? ==> FieldsAre(h, org, pos, address, s.insn) && s.advance == Taken(h, org, pos, address)
  {
    var code, d := org[pos..], h.disasm(org[pos..], address);
    if d.Decoded? {
      var copy := Min(BYTES, d.size);
      SliceOfRest(org, pos, d.size - copy, d.size);
    } else {
      var n := SkipBytes(h, org, pos);
      if n <= |code| { SliceOfRest(org, pos, 0, n); }
    }
  }

  lemma SliceOfRest(org: seq<bv8>, pos: nat, lo: nat, hi: nat)
    requires pos <= |org| && lo <= hi <= |org| - pos
    ensures org[pos..][lo..hi] == org[pos + lo..pos + hi]
  {
  }

  lemma {:induction false} ResultFields(h: Handle, org: seq<bv8>, pos: nat, address: nat, count: nat, c: nat, i: nat)
    requires Sound(h) && pos <= |org| && i < |All(h, org, pos, address, count, c)|
    ensures OffsetOf(h, org, pos, address, i) < |org| &&
            FieldsAre(h, org, OffsetOf(h, org, pos, address, i), AddressOf(h, org, pos, address, i),
                      All(h, org, pos, address, count, c)[i])
    decreases i
  {
    hide *;
    NotAtEnd(h, org, pos, address, count, c);
    StepFields(h, org, pos, address);
    AllStep(h, org, pos, address, count, c);
    OffsetStep(h, org, pos, address, i);
    if i > 0 {
      var n := Taken(h, org, pos, address);
      MovedIs(address, n);
      RestAt(All(h, org, pos, address, count, c), i);
      ResultFields(h, org, pos + n, Moved(address, n), count, c + 1, i - 1);
    }
  }

  lemma RestAt(r: seq<Insn>, i: nat)
    requires 0 < i < |r|
    ensures |r[1..]| == |r| - 1 && r[1..][i - 1] == r[i]
  {
  }

  lemma NotAtEnd(h: Handle, org: seq<bv8>, pos: nat, address: nat, count: nat, c: nat)
    requires Sound(h) && pos <= |org| && All(h, org, pos, address, count, c) != []
    ensures pos < |org| && StepAt(h, org, pos, address).Step?
  {
  }

  lemma MovedIs(address: nat, n: nat)
    ensures Moved(address, n) == (address + n) % 0x1_0000_0000_0000_0000
  {
  }

  lemma OffsetStep(h: Handle, org: seq<bv8>, pos: nat, address: nat, i: nat)
    requires pos <= |org|
    ensures var n := Taken(h, org, pos, address);
            if i == 0 then OffsetOf(h, org, pos, address, i) == pos && AddressOf(h, org, pos, address, i) == address
            else OffsetOf(h, org, pos, address, i) ==
                 OffsetOf(h, org, pos + n, (address + n) % 0x1_0000_0000_0000_0000, i - 1) &&
                 AddressOf(h, org, pos, address, i) ==
                 AddressOf(h, org, pos + n, (address + n) % 0x1_0000_0000_0000_0000, i - 1)
  {
  }
}
