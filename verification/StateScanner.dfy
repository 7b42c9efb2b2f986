/**
  The number scanner of the state-machine benchmark (software/coremark_app/cmark.c), core_state_transition,
  as a finite automaton, and the regular language that each of its verdicts stands for.
*/
module StateScanner {
  datatype CoreState = START | INVALID | S1 | S2 | INT | FLOAT | EXPONENT | SCIENTIFIC

  predicate IsDigit(c: bv8) { 0x30 <= c && c <= 0x39 }
  predicate IsSign(c: bv8) { c == 0x2B || c == 0x2D }
  predicate IsE(c: bv8) { c == 0x45 || c == 0x65 }
  const DOT: bv8 := 0x2E
  const COMMA: bv8 := 0x2C

  // In characters.
  lemma CharsAre(c: bv8)
    ensures IsDigit(c) <==> '0' as int <= c as int <= '9' as int
    ensures IsSign(c) <==> c as int == '+' as int || c as int == '-' as int
    ensures IsE(c) <==> c as int == 'e' as int || c as int == 'E' as int
    ensures c == DOT <==> c as int == '.' as int
    ensures c == COMMA <==> c as int == ',' as int
  {
  }

  function Next(s: CoreState, c: bv8): CoreState {
    match s
    case START => if IsDigit(c) then INT else if IsSign(c) then S1 else if c == DOT then FLOAT else INVALID
    case S1 => if IsDigit(c) then INT else if c == DOT then FLOAT else INVALID
    case INT => if c == DOT then FLOAT else if IsDigit(c) then INT else INVALID
    case FLOAT => if IsE(c) then S2 else if IsDigit(c) then FLOAT else INVALID
    case S2 => if IsSign(c) then EXPONENT else INVALID
    case EXPONENT => if IsDigit(c) then SCIENTIFIC else INVALID
    case SCIENTIFIC => if IsDigit(c) then SCIENTIFIC else INVALID
    case INVALID => INVALID
  }

  function Scan(s: CoreState, t: seq<bv8>): CoreState {
    if t == [] then s else Next(Scan(s, t[..|t| - 1]), t[|t| - 1])
  }

  // ---------- the language ----------

  predicate Digits(t: seq<bv8>) { forall i | 0 <= i < |t| :: IsDigit(t[i]) }

  predicate OptSign(s: seq<bv8>) { s == [] || (|s| == 1 && IsSign(s[0])) }

  ghost predicate IntParts(t: seq<bv8>, s: seq<bv8>, d: seq<bv8>) {
    t == s + d && OptSign(s) && d != [] && Digits(d)
  }

  // [+-]?d+
  ghost predicate IsInt(t: seq<bv8>) { exists s, d :: IntParts(t, s, d) }

  ghost predicate FloatParts(t: seq<bv8>, s: seq<bv8>, d: seq<bv8>, f: seq<bv8>) {
    t == s + d + [DOT] + f && OptSign(s) && Digits(d) && Digits(f)
  }

  // [+-]?d*.d*
  ghost predicate IsFloat(t: seq<bv8>) { exists s, d, f :: FloatParts(t, s, d, f) }

  ghost predicate ExponentParts(t: seq<bv8>, m: seq<bv8>, e: bv8, g: bv8, x: seq<bv8>) {
    t == m + [e, g] + x && IsFloat(m) && IsE(e) && IsSign(g) && Digits(x)
  }

  // [+-]?d*.d*[eE][+-]d+
  ghost predicate IsScientific(t: seq<bv8>) { exists m, e, g, x :: ExponentParts(t, m, e, g, x) && x != [] }

  ghost predicate IsNumber(t: seq<bv8>) { IsInt(t) || IsFloat(t) || IsScientific(t) }

  // What a state says about the text read so far.
  ghost predicate Reads(s: CoreState, t: seq<bv8>) {
    match s
    case START => t == []
    case S1 => |t| == 1 && IsSign(t[0])
    case INT => IsInt(t)
    case FLOAT => IsFloat(t)
    case S2 => t != [] && IsFloat(t[..|t| - 1]) && IsE(t[|t| - 1])
    case EXPONENT => exists m, e, g :: ExponentParts(t, m, e, g, [])
    case SCIENTIFIC => IsScientific(t)
    case INVALID => false
  }

  // Splitting the last byte off a token of each kind.

  lemma IntInit(t: seq<bv8>) returns (s0: CoreState)
    requires IsInt(t)
    ensures t != [] && Reads(s0, t[..|t| - 1]) && Next(s0, t[|t| - 1]) == INT
  {
    var u := t[..|t| - 1];
    var s, d :| IntParts(t, s, d);
    if |d| > 1 {
      assert IntParts(u, s, d[..|d| - 1]);
      s0 := INT;
    } else {
      assert u == s;
      s0 := if s == [] then START else S1;
    }
  }

  lemma FloatInit(t: seq<bv8>) returns (s0: CoreState)
    requires IsFloat(t)
    ensures t != [] && Reads(s0, t[..|t| - 1]) && Next(s0, t[|t| - 1]) == FLOAT
  {
    hide IsSign, IsDigit, DOT;
    var u := t[..|t| - 1];
    var s, d, f :| FloatParts(t, s, d, f);
    DotIsNoOther();
    if f != [] {
      assert FloatParts(u, s, d, f[..|f| - 1]);
      s0 := FLOAT;
    } else if d != [] {
      assert IntParts(u, s, d);
      s0 := INT;
    } else {
      assert u == s;
      s0 := if s == [] then START else S1;
    }
  }

  lemma DotIsNoOther()
    ensures !IsDigit(DOT) && !IsSign(DOT) && !IsE(DOT) &&
            forall c :: !(IsDigit(c) && IsSign(c)) && !(IsDigit(c) && IsE(c))
  {
  }

  lemma ScientificInit(t: seq<bv8>) returns (s0: CoreState)
    requires IsScientific(t)
    ensures t != [] && Reads(s0, t[..|t| - 1]) && Next(s0, t[|t| - 1]) == SCIENTIFIC
  {
    hide IsSign, IsDigit, IsE, IsFloat;
    var u := t[..|t| - 1];
    var m, e, g, x :| ExponentParts(t, m, e, g, x) && x != [];
    assert ExponentParts(u, m, e, g, x[..|x| - 1]);
    if |x| > 1 {
      s0 := SCIENTIFIC;
    } else {
      assert x[..|x| - 1] == [];
      s0 := EXPONENT;
    }
  }

  lemma StepComplete(s: CoreState, t: seq<bv8>) returns (s0: CoreState)
    requires Reads(s, t) && t != []
    ensures Reads(s0, t[..|t| - 1]) && Next(s0, t[|t| - 1]) == s
  {
    match s
    case S1 => s0 := START;
      DotIsNoOther();
    case INT => s0 := IntInit(t);
    case FLOAT => s0 := FloatInit(t);
    case S2 => s0 := FLOAT;
    case EXPONENT =>
      var m, e, g :| ExponentParts(t, m, e, g, []);
      assert t[..|t| - 1] == m + [e] && (m + [e])[..|m|] == m;
      s0 := S2;
    case SCIENTIFIC => s0 := ScientificInit(t);
    case START => assert false;
    case INVALID => assert false;
  }

  lemma {:induction false} ScanComplete(s: CoreState, t: seq<bv8>)
    requires Reads(s, t)
    ensures Scan(START, t) == s
    decreases |t|
  {
    if t != [] {
      var s0 := StepComplete(s, t);
      ScanComplete(s0, t[..|t| - 1]);
    } else {
      EmptyReads(s, t);
    }
  }

  lemma EmptyReads(s: CoreState, t: seq<bv8>)
    requires Reads(s, t) && t == []
    ensures s == START
  {
  }

  lemma FirstSound(s: CoreState, t: seq<bv8>, c: bv8)
    requires (s == START || s == S1) && Reads(s, t) && Next(s, c) != INVALID
    ensures Reads(Next(s, c), t + [c])
  {
    hide IsDigit, IsSign, IsE, DOT;
    var e: seq<bv8> := [];
    if IsDigit(c) {
      assert IntParts(t + [c], t, [c]);
    } else if c == DOT {
      assert FloatParts(t + [c], t, e, e);
    }
  }

  lemma MantissaSound(s: CoreState, t: seq<bv8>, c: bv8)
    requires (s == INT || s == FLOAT) && Reads(s, t) && Next(s, c) != INVALID
    ensures Reads(Next(s, c), t + [c])
  {
    hide IsDigit, IsSign, IsE, DOT;
    var e: seq<bv8> := [];
    if s == INT {
      var g, d :| IntParts(t, g, d);
      if c == DOT { assert FloatParts(t + [c], g, d, e); } else { assert IntParts(t + [c], g, d + [c]); }
    } else {
      var g, d, f :| FloatParts(t, g, d, f);
      if IsE(c) { assert (t + [c])[..|t|] == t; } else { assert FloatParts(t + [c], g, d, f + [c]); }
    }
  }

  lemma ExponentSound(s: CoreState, t: seq<bv8>, c: bv8)
    requires (s == S2 || s == EXPONENT || s == SCIENTIFIC) && Reads(s, t) && Next(s, c) != INVALID
    ensures Reads(Next(s, c), t + [c])
  {
    hide IsDigit, IsSign, IsE, DOT, IsFloat;
    var e: seq<bv8> := [];
    match s
    case S2 =>
      assert ExponentParts(t + [c], t[..|t| - 1], t[|t| - 1], c, e);
    case EXPONENT =>
      var m, x, g :| ExponentParts(t, m, x, g, e);
      assert ExponentParts(t + [c], m, x, g, [c]);
    case SCIENTIFIC =>
      var m, x, g, d :| ExponentParts(t, m, x, g, d) && d != [];
      assert ExponentParts(t + [c], m, x, g, d + [c]);
  }

  lemma StepSound(s: CoreState, t: seq<bv8>, c: bv8)
    requires Reads(s, t) && Next(s, c) != INVALID
    ensures Reads(Next(s, c), t + [c])
  {
    hide Next;
    if s == START || s == S1 { FirstSound(s, t, c); }
    else if s == INT || s == FLOAT { MantissaSound(s, t, c); }
    else { ExponentSound(s, t, c); }
  }

  lemma {:induction false} ScanSound(t: seq<bv8>)
    requires Scan(START, t) != INVALID
    ensures Reads(Scan(START, t), t)
    decreases |t|
  {
    hide Reads, Next;
    if t == [] {
      assert Reads(START, t) by { StartReads(t); }
    } else {
      var u := t[..|t| - 1];
      assert t == u + [t[|t| - 1]];
      InvalidStays(Scan(START, u), t[|t| - 1]);
      ScanSound(u);
      StepSound(Scan(START, u), u, t[|t| - 1]);
    }
  }

  lemma StartReads(t: seq<bv8>)
    requires t == []
    ensures Reads(START, t)
  {
  }

  lemma InvalidStays(s: CoreState, c: bv8)
    ensures s == INVALID ==> Next(s, c) == INVALID
  {
  }

  // The scanner's verdict on a text is exactly the class the text belongs to.
  lemma ScanDecides(t: seq<bv8>)
    ensures Scan(START, t) == INT <==> IsInt(t)
    ensures Scan(START, t) == FLOAT <==> IsFloat(t)
    ensures Scan(START, t) == SCIENTIFIC <==> IsScientific(t)
  {
    hide Scan, IsInt, IsFloat, IsScientific;
    if Scan(START, t) != INVALID { ScanSound(t); }
    if IsInt(t) { ScanComplete(INT, t); }
    if IsFloat(t) { ScanComplete(FLOAT, t); }
    if IsScientific(t) { ScanComplete(SCIENTIFIC, t); }
  }

  lemma {:induction false} InvalidForever(s: CoreState, t: seq<bv8>, w: seq<bv8>)
    requires Scan(s, t) == INVALID
    ensures Scan(s, t + w) == INVALID
    decreases |w|
  {
    hide Next;
    if w == [] {
      assert t + w == t;
    } else {
      assert (t + w)[..|t + w| - 1] == t + w[..|w| - 1];
      InvalidForever(s, t, w[..|w| - 1]);
      InvalidStays(Scan(s, t + w[..|w| - 1]), w[|w| - 1]);
    }
  }

  // A shortest text that turns a valid state into a number.
  function Completion(s: CoreState): seq<bv8> {
    match s
    case START => [0x30]
    case S1 => [0x30]
    case S2 => [0x2B, 0x30]
    case EXPONENT => [0x30]
    case _ => []
  }

  lemma ScanMore(s: CoreState, t: seq<bv8>, c: bv8)
    ensures Scan(s, t + [c]) == Next(Scan(s, t), c)
  {
    assert (t + [c])[..|t|] == t;
  }

  // ... and it says INVALID exactly when nothing that may still follow makes the text a number.
  lemma InvalidIffHopeless(t: seq<bv8>)
    ensures Scan(START, t) == INVALID <==> forall w :: !IsNumber(t + w)
  {
    hide IsInt, IsFloat, IsScientific, Scan;
    if Scan(START, t) == INVALID {
      forall w ensures !IsNumber(t + w) {
        InvalidForever(START, t, w);
        ScanDecides(t + w);
      }
    } else {
      var s := Scan(START, t);
      var w := Completion(s);
      if |w| == 1 {
        ScanMore(START, t, w[0]);
        assert t + w == t + [w[0]];
      } else if |w| == 2 {
        ScanMore(START, t, w[0]);
        ScanMore(START, t + [w[0]], w[1]);
        assert t + w == t + [w[0]] + [w[1]];
      } else {
        assert t + w == t;
      }
      ScanDecides(t + w);
      assert IsNumber(t + w);
    }
  }
}
