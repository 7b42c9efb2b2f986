/**
  What a format string means: %[flags][width][.precision][length]specifier, read off the directive as it is written,
  against what the interpreter makes of it (software/coremark_app/printf.c:604-884).
*/
module PrintfFormats {
  import opened Division
  import opened PrintfText
  import opened PrintfNumbers
  import Printf

  // ---------- directives as they are written ----------

  datatype Directive = Directive(flags: string, width: string, precision: string, length: string, specifier: char)

  datatype Piece = Plain(text: string) | Conversion(d: Directive)

  predicate Proper(d: Directive) {
    && (forall i | 0 <= i < |d.flags| :: d.flags[i] in "0-+ #")
    && (d.width == "*" || (AllDigits(d.width) && (d.width != "" ==> d.width[0] != '0')))
    && (d.precision == "" || d.precision == ".*" || (d.precision[0] == '.' && AllDigits(d.precision[1..])))
    && d.length in ["", "h", "hh", "l", "ll", "j", "t", "z"]
    && d.specifier !in "0123456789-+ #*.hljtz"
  }

  predicate Sound(p: Piece) {
    match p
    case Plain(text) => '%' !in text
    case Conversion(d) => Proper(d)
  }

  predicate AllSound(ps: seq<Piece>) { forall i | 0 <= i < |ps| :: Sound(ps[i]) }

  function Written(d: Directive): string { "%" + (d.flags + (d.width + (d.precision + (d.length + [d.specifier])))) }

  function Format(ps: seq<Piece>): string {
    if ps == [] then ""
    else (match ps[0] case Plain(text) => text case Conversion(d) => Written(d)) + Format(ps[1..])
  }

  // ---------- what they mean ----------

  // The whole number a word of the given size stands for.
  function Reading(raw: nat, size: nat, signed: bool): (v: int)
    requires size > 0 && size % 2 == 0
    ensures exists k: int :: raw == size * k + v
    ensures if signed then -(size / 2) <= v < size / 2 else 0 <= v < size
  {
    assert raw == size * (raw / size) + raw % size;
    if signed && raw % size >= size / 2 then
      assert raw == size * (raw / size + 1) + (raw % size - size);
      raw % size - size
    else raw % size
  }

  function WordIn(a: Arg): nat { if a.Word? then a.bits else 0 }

  function WideIn(a: Arg): nat { if a.LongLong? then a.wide else 0 }

  function TextIn(a: Arg): string { if a.Str? then a.text else "" }

  function Stars(d: Directive): nat { (if d.width == "*" then 1 else 0) + if d.precision == ".*" then 1 else 0 }

  function Takes(d: Directive): nat { Stars(d) + if d.specifier in "diuxXobcsp" then 1 else 0 }

  // A width or precision taken from the arguments.
  function Star(a: Arg): int { Reading(WordIn(a), 0x1_0000_0000, true) }

  function FieldWidth(d: Directive, va: seq<Arg>): nat
    requires Stars(d) <= |va|
  {
    if d.width != "*" then Horner(d.width) else if Star(va[0]) < 0 then -Star(va[0]) else Star(va[0])
  }

  function Places(d: Directive, va: seq<Arg>): nat
    requires Stars(d) <= |va|
  {
    if d.precision == "" then 0
    else if d.precision != ".*" then Horner(d.precision[1..])
    else
      var p := Star(va[Stars(d) - 1]);
      if p < 0 then 0 else p
  }

  // On the left side of the field: asked for by '-' or by a negative width among the arguments.
  predicate OnLeft(d: Directive, va: seq<Arg>)
    requires Stars(d) <= |va|
  {
    '-' in d.flags || (d.width == "*" && Star(va[0]) < 0)
  }

  function Asked(d: Directive, va: seq<Arg>): Flags
    requires Stars(d) <= |va|
  {
    Flags('0' in d.flags, OnLeft(d, va), '+' in d.flags, ' ' in d.flags, '#' in d.flags, false, d.length == "hh",
          d.length in ["h", "hh"], d.length in ["l", "ll", "t", "z"], d.length in ["ll", "j"], d.precision != "")
  }

  function Radix(c: char): (b: nat)
    ensures 2 <= b <= 16
  {
    match c
    case 'x' => 16
    case 'X' => 16
    case 'o' => 8
    case 'b' => 2
    case _ => 10
  }

  // An integer argument: hh leaves 8 bits, h 16, ll and j take all 64; d and i read them as signed, but for hh, as
  // char is unsigned here.
  function Integer(d: Directive, a: Arg): int {
    var signed := d.specifier in "di";
    match d.length
    case "hh" => Reading(WordIn(a), 0x100, false)
    case "h" => Reading(WordIn(a), 0x1_0000, signed)
    case "ll" => Reading(WideIn(a), 0x1_0000_0000_0000_0000, signed)
    case "j" => Reading(WideIn(a), 0x1_0000_0000_0000_0000, signed)
    case _ => Reading(WordIn(a), 0x1_0000_0000, signed)
  }

  // '#' is for bases other than ten, '+' and ' ' for signed numbers, '0' for numbers without a precision.
  function IntegerAsked(d: Directive, va: seq<Arg>): Flags
    requires Stars(d) <= |va|
  {
    var signed := d.specifier in "di";
    Asked(d, va).(zeropad := '0' in d.flags && d.precision == "", plus := '+' in d.flags && signed,
                  space := ' ' in d.flags && signed, hash := '#' in d.flags && d.specifier in "xXob",
                  upper := d.specifier == 'X')
  }

  function Blanks(n: int): string { if n > 0 then seq(n, _ => ' ') else "" }

  function Meaning(d: Directive, va: seq<Arg>): string
    requires Takes(d) <= |va|
  {
    var c, width, places := d.specifier, FieldWidth(d, va), Places(d, va);
    if c in "diuxXob" then
      var v := Integer(d, va[Stars(d)]);
      NumberText(if v < 0 then -v else v, v < 0, Radix(c), places, width, IntegerAsked(d, va))
    else if c == 'p' then
      NumberText(WordIn(va[Stars(d)]) % 0x1_0000_0000, false, 16, places, 8,
                 Asked(d, va).(zeropad := true, upper := true))
    else if c in "cs" then
      var all := if c == 'c' then [(WordIn(va[Stars(d)]) % 0x100) as char] else TextIn(va[Stars(d)]);
      var text := if c == 's' && d.precision != "" && places < |all| then all[..places] else all;
      if OnLeft(d, va) then text + Blanks(width - |text|) else Blanks(width - |text|) + text
    else [c]
  }

  function ArgsTaken(ps: seq<Piece>): nat {
    if ps == [] then 0 else (if ps[0].Conversion? then Takes(ps[0].d) else 0) + ArgsTaken(ps[1..])
  }

  function Output(ps: seq<Piece>, va: seq<Arg>): string
    requires ArgsTaken(ps) <= |va|
    decreases |ps|
  {
    if ps == [] then ""
    else
      match ps[0]
      case Plain(text) => text + Output(ps[1..], va)
      case Conversion(d) => Meaning(d, va) + Output(ps[1..], va[Takes(d)..])
  }

  // ---------- the stages of reading a directive ----------

  predicate Here(format: string, pos: nat, text: string) {
    pos + |text| <= |format| && format[pos..pos + |text|] == text
  }

  lemma HereSplits(format: string, pos: nat, a: string, b: string)
    requires Here(format, pos, a + b)
    ensures Here(format, pos, a) && Here(format, pos + |a|, b)
  {
    assert (a + b)[..|a|] == a && (a + b)[|a|..] == b;
    assert format[pos..pos + |a + b|][..|a|] == format[pos..pos + |a|];
    assert format[pos..pos + |a + b|][|a|..] == format[pos + |a|..pos + |a| + |b|];
  }

  lemma HereAt(format: string, pos: nat, text: string, i: nat)
    requires Here(format, pos, text) && i < |text|
    ensures pos + i < |format| && format[pos + i] == text[i] && At(format, pos + i) == text[i]
  {
    assert format[pos..pos + |text|][i] == format[pos + i];
  }

  function WithBits(f: Flags, zeropad: bool, left: bool, plus: bool, space: bool, hash: bool): Flags {
    f.(zeropad := f.zeropad || zeropad, left := f.left || left, plus := f.plus || plus, space := f.space || space,
       hash := f.hash || hash)
  }

  function WithFlags(f: Flags, cs: string): Flags {
    WithBits(f, '0' in cs, '-' in cs, '+' in cs, ' ' in cs, '#' in cs)
  }

  // Flags are read up to the first character that is none, in any order and any number of times.
  lemma {:induction false} FlagsRead(format: string, s: State, cs: string)
    requires forall i | 0 <= i < |cs| :: cs[i] in "0-+ #"
    requires Here(format, s.pos, cs) && !IsFlag(At(format, s.pos + |cs|))
    ensures FlagsFrom(format, s) == s.(f := WithFlags(s.f, cs), pos := s.pos + |cs|)
    decreases |cs|
  {
    if cs == "" {
      assert WithFlags(s.f, cs) == s.f;
    } else {
      HereAt(format, s.pos, cs, 0);
      assert cs == [cs[0]] + cs[1..];
      HereSplits(format, s.pos, [cs[0]], cs[1..]);
      var t := s.(f := FlagOf(cs[0], s.f), pos := s.pos + 1);
      FlagChars(cs[0]);
      FlagsRead(format, t, cs[1..]);
      FlagAdded(s.f, cs);
    }
  }

  lemma FlagChars(c: char)
    ensures c in "0-+ #" <==> IsFlag(c)
  {
  }

  lemma BitAdded(f: Flags, c: char, zeropad: bool, left: bool, plus: bool, space: bool, hash: bool)
    requires IsFlag(c)
    ensures WithBits(FlagOf(c, f), zeropad, left, plus, space, hash) ==
            WithBits(f, c == '0' || zeropad, c == '-' || left, c == '+' || plus, c == ' ' || space, c == '#' || hash)
  {
  }

  lemma FlagAdded(f: Flags, cs: string)
    requires cs != "" && IsFlag(cs[0])
    ensures WithFlags(FlagOf(cs[0], f), cs[1..]) == WithFlags(f, cs)
  {
    hide WithBits, FlagOf;
    var t := cs[1..];
    BitAdded(f, cs[0], '0' in t, '-' in t, '+' in t, ' ' in t, '#' in t);
    InHeadOrRest('0', cs);
    InHeadOrRest('-', cs);
    InHeadOrRest('+', cs);
    InHeadOrRest(' ', cs);
    InHeadOrRest('#', cs);
  }

  lemma InHeadOrRest(c: char, cs: string)
    requires cs != ""
    ensures c in cs <==> c == cs[0] || c in cs[1..]
  {
    assert cs == [cs[0]] + cs[1..];
  }

  lemma {:induction false} DigitsRead(format: string, pos: nat, ds: string, k: nat)
    requires AllDigits(ds) && k <= |ds| && Here(format, pos, ds) && !IsDigit(At(format, pos + |ds|))
    ensures NumberFrom(format, pos + k, Horner(ds[..k])) == (Horner(ds), pos + |ds|)
    decreases |ds| - k
  {
    if k < |ds| {
      HereAt(format, pos, ds, k);
      assert ds[..k + 1][..k] == ds[..k];
      DigitsRead(format, pos, ds, k + 1);
    } else {
      assert ds[..k] == ds;
    }
  }

  lemma NumberRead(format: string, pos: nat, ds: string)
    requires AllDigits(ds) && Here(format, pos, ds) && !IsDigit(At(format, pos + |ds|))
    ensures NumberFrom(format, pos, 0) == (Horner(ds), pos + |ds|)
  {
    DigitsRead(format, pos, ds, 0);
    assert ds[..0] == "" && Horner("") == 0;
  }

  // What a star reads.
  lemma StarRead(va: seq<Arg>)
    requires va != []
    ensures Signed(AsWord(va), U32) == Star(va[0]) && Rest(va) == va[1..]
  {
    ReadingOf(WordIn(va[0]), U32, true);
  }

  lemma ReadingOf(raw: nat, size: nat, signed: bool)
    requires size > 0 && size % 2 == 0
    ensures Reading(raw % size, size, signed) == Reading(raw, size, signed)
    ensures Reading(raw, size, false) == raw % size && Reading(raw, size, true) == Signed(raw, size)
  {
    QuotientIs(raw % size, size, 0, raw % size);
  }

  lemma WidthRead(format: string, s: State, d: Directive)
    requires Proper(d) && Here(format, s.pos, d.width)
    requires !IsDigit(At(format, s.pos + |d.width|)) && At(format, s.pos + |d.width|) != '*'
    requires s.width == 0 && Stars(d) <= |s.va|
    ensures var stars := if d.width == "*" then 1 else 0;
            WidthFrom(format, s) ==
            s.(f := s.f.(left := s.f.left || (d.width == "*" && Star(s.va[0]) < 0)), width := FieldWidth(d, s.va),
               pos := s.pos + |d.width|, va := s.va[stars..])
  {
    hide NumberFrom, AsWord, Signed, Star, Rest, Horner;
    if d.width == "" {
      NoNumber();
      assert s.va[0..] == s.va;
    } else {
      HereAt(format, s.pos, d.width, 0);
      if d.width == "*" {
        StarRead(s.va);
      } else {
        NumberRead(format, s.pos, d.width);
        assert s.va[0..] == s.va;
      }
    }
  }

  lemma NoNumber()
    ensures Horner("") == 0
  {
  }

  lemma PrecisionRead(format: string, s: State, d: Directive, va: seq<Arg>)
    requires Proper(d) && Here(format, s.pos, d.precision)
    requires !IsDigit(At(format, s.pos + |d.precision|)) && At(format, s.pos + |d.precision|) !in "*."
    requires s.precision == 0 && !s.f.precision && Stars(d) <= |va| && s.va == va[if d.width == "*" then 1 else 0..]
    ensures PrecisionFrom(format, s) ==
            s.(f := s.f.(precision := d.precision != ""), precision := Places(d, va), pos := s.pos + |d.precision|,
               va := va[Stars(d)..])
  {
    hide NumberFrom, AsWord, Signed, Star, Rest, Horner;
    if d.precision != "" {
      var ds := d.precision[1..];
      assert d.precision == "." + ds;
      HereAt(format, s.pos, d.precision, 0);
      HereSplits(format, s.pos, ".", ds);
      if ds == "*" {
        HereAt(format, s.pos, d.precision, 1);
        StarRead(s.va);
        assert s.va[1..] == va[Stars(d)..];
      } else if ds == "" {
        NoNumber();
      } else {
        HereAt(format, s.pos, d.precision, 1);
        NumberRead(format, s.pos + 1, ds);
      }
    }
  }

  lemma LengthRead(format: string, s: State, d: Directive)
    requires Proper(d) && Here(format, s.pos, d.length) && At(format, s.pos + |d.length|) !in "hljtz"
    requires !s.f.char_ && !s.f.short && !s.f.long && !s.f.longLong
    ensures LengthFrom(format, s) ==
            s.(f := s.f.(char_ := d.length == "hh", short := d.length in ["h", "hh"],
               long := d.length in ["l", "ll", "t", "z"], longLong := d.length in ["ll", "j"]),
               pos := s.pos + |d.length|)
  {
    if d.length != "" {
      HereAt(format, s.pos, d.length, 0);
      if |d.length| == 2 { HereAt(format, s.pos, d.length, 1); }
    }
  }

  function Tail4(d: Directive): string { d.length + [d.specifier] }

  function Tail3(d: Directive): string { d.precision + Tail4(d) }

  function Tail2(d: Directive): string { d.width + Tail3(d) }

  // Each part ends where the next begins, as no part starts like the one in front of it goes on.
  lemma SpecifierIs(d: Directive)
    requires Proper(d)
    ensures !IsFlag(d.specifier) && !IsDigit(d.specifier) && d.specifier !in "*." && d.specifier !in "hljtz"
  {
    var c := d.specifier;
    assert IsFlag(c) || IsDigit(c) || c in "*." || c in "hljtz" ==> c in "0123456789-+ #*.hljtz";
  }

  lemma LengthStarts(d: Directive)
    requires d.length in ["", "h", "hh", "l", "ll", "j", "t", "z"]
    requires !IsFlag(d.specifier) && !IsDigit(d.specifier) && d.specifier !in "*."
    ensures !IsFlag(Tail4(d)[0]) && !IsDigit(Tail4(d)[0]) && Tail4(d)[0] !in "*."
  {
    if d.length == "" { assert Tail4(d)[0] == d.specifier; } else { assert Tail4(d)[0] == d.length[0]; }
  }

  lemma TailStarts(d: Directive)
    requires Proper(d)
    ensures !IsFlag(Tail2(d)[0]) && !IsDigit(Tail3(d)[0]) && Tail3(d)[0] != '*'
    ensures !IsDigit(Tail4(d)[0]) && Tail4(d)[0] !in "*." && d.specifier !in "hljtz"
  {
    SpecifierIs(d);
    LengthStarts(d);
    hide Tail4;
    if d.precision == "" { assert Tail3(d) == Tail4(d); } else { assert Tail3(d)[0] == '.'; }
    if d.width == "" { assert Tail2(d) == Tail3(d); } else { assert Tail2(d)[0] == d.width[0]; }
  }

  lemma PartsSplit(format: string, pos: nat, d: Directive)
    requires Here(format, pos, Written(d))
    ensures var p2 := pos + 1 + |d.flags|;
            var p3 := p2 + |d.width|;
            var p4 := p3 + |d.precision|;
            && Here(format, pos + 1, d.flags) && Here(format, p2, Tail2(d))
            && Here(format, p2, d.width) && Here(format, p3, Tail3(d))
            && Here(format, p3, d.precision) && Here(format, p4, Tail4(d))
            && Here(format, p4, d.length) && Here(format, p4 + |d.length|, [d.specifier])
            && p4 + |d.length| == pos + |Written(d)| - 1
  {
    hide *;
    WrittenIs(d);
    HereSplits(format, pos, "%", d.flags + Tail2(d));
    HereSplits(format, pos + 1, d.flags, Tail2(d));
    var p2 := pos + 1 + |d.flags|;
    HereSplits(format, p2, d.width, Tail3(d));
    HereSplits(format, p2 + |d.width|, d.precision, Tail4(d));
    HereSplits(format, p2 + |d.width| + |d.precision|, d.length, [d.specifier]);
  }

  lemma PartsHere(format: string, pos: nat, d: Directive)
    requires Proper(d) && Here(format, pos, Written(d))
    ensures var p2 := pos + 1 + |d.flags|;
            var p3 := p2 + |d.width|;
            var p4 := p3 + |d.precision|;
            var p5 := p4 + |d.length|;
            && Here(format, pos + 1, d.flags) && !IsFlag(At(format, p2))
            && Here(format, p2, d.width) && !IsDigit(At(format, p3)) && At(format, p3) != '*'
            && Here(format, p3, d.precision) && !IsDigit(At(format, p4)) && At(format, p4) !in "*."
            && Here(format, p4, d.length) && At(format, p5) !in "hljtz"
            && p5 == pos + |Written(d)| - 1 < |format| && format[p5] == d.specifier
  {
    hide *;
    var p2 := pos + 1 + |d.flags|;
    var p3 := p2 + |d.width|;
    var p4 := p3 + |d.precision|;
    PartsSplit(format, pos, d);
    WrittenIs(d);
    HereAt(format, p2, Tail2(d), 0);
    HereAt(format, p3, Tail3(d), 0);
    HereAt(format, p4, Tail4(d), 0);
    HereAt(format, p4 + |d.length|, [d.specifier], 0);
    TailStarts(d);
  }

  lemma WrittenIs(d: Directive)
    ensures Written(d) == "%" + (d.flags + Tail2(d)) && |Written(d)| == 1 + |d.flags| + |Tail2(d)|
    ensures Tail2(d) == d.width + Tail3(d) && Tail3(d) == d.precision + Tail4(d) &&
            Tail4(d) == d.length + [d.specifier]
  {
  }

  // The interpreter reads a directive as it is written.
  lemma ParsedIs(format: string, pos: nat, va: seq<Arg>, d: Directive)
    requires Proper(d) && Here(format, pos, Written(d)) && Stars(d) <= |va|
    ensures var end := pos + |Written(d)| - 1;
            end < |format| && format[end] == d.specifier &&
            Parsed(format, pos + 1, va) ==
            State(Asked(d, va), FieldWidth(d, va), Places(d, va), end, va[Stars(d)..])
  {
    var p1 := pos + 1;
    var p2 := p1 + |d.flags|;
    var p3 := p2 + |d.width|;
    var p4 := p3 + |d.precision|;
    var p5 := p4 + |d.length|;
    hide *;
    PartsHere(format, pos, d);
    var k := if d.width == "*" then 1 else 0;
    var f := WithFlags(NO_FLAGS, d.flags);
    var s1, s2 := State(NO_FLAGS, 0, 0, p1, va), State(f, 0, 0, p2, va);
    StarsCounted(d);
    FlagsProper(d);
    NothingElse(d.flags);
    FlagsRead(format, s1, d.flags);
    var s3 := WidthFrom(format, s2);
    WidthRead(format, s2, d);
    var s4 := PrecisionFrom(format, s3);
    PrecisionRead(format, s3, d, va);
    var s5 := LengthFrom(format, s4);
    LengthRead(format, s4, d);
    ParsedStages(format, p1, va);
    AskedIs(d, va, s3.f, s4.f, s5.f);
  }

  lemma NothingElse(cs: string)
    ensures var f := WithFlags(NO_FLAGS, cs);
            !f.precision && !f.char_ && !f.short && !f.long && !f.longLong
  {
  }

  lemma AskedIs(d: Directive, va: seq<Arg>, f3: Flags, f4: Flags, f5: Flags)
    requires Stars(d) <= |va|
    requires var f := WithFlags(NO_FLAGS, d.flags);
             f3 == f.(left := f.left || (d.width == "*" && Star(va[0]) < 0))
    requires f4 == f3.(precision := d.precision != "")
    requires f5 == f4.(char_ := d.length == "hh", short := d.length in ["h", "hh"],
                       long := d.length in ["l", "ll", "t", "z"], longLong := d.length in ["ll", "j"])
    ensures f5 == Asked(d, va)
  {
    hide Star;
  }

  lemma StarsCounted(d: Directive)
    ensures Stars(d) >= if d.width == "*" then 1 else 0
  {
  }

  lemma FlagsProper(d: Directive)
    requires Proper(d)
    ensures forall i | 0 <= i < |d.flags| :: d.flags[i] in "0-+ #"
  {
  }

  lemma ParsedStages(format: string, pos: nat, va: seq<Arg>)
    ensures Parsed(format, pos, va) ==
            LengthFrom(format,
                       PrecisionFrom(format, WidthFrom(format, FlagsFrom(format, State(NO_FLAGS, 0, 0, pos, va)))))
  {
  }

  // ---------- the specifiers ----------

  lemma IntegerIs(d: Directive, s: State, a: Arg)
    requires Proper(d) && s.va != [] && s.va[0] == a
    requires s.f.char_ == (d.length == "hh") && s.f.short == (d.length in ["h", "hh"])
    requires s.f.long == (d.length in ["l", "ll", "t", "z"]) && s.f.longLong == (d.length in ["ll", "j"])
    ensures IntegerValue(d.specifier, s.f, s.va) == Integer(d, a)
  {
    var signed := d.specifier in "di";
    assert IsSigned(d.specifier) == signed;
    WordReads(s.va, signed);
    hide Reading, AsWord, AsLongLong, Signed, IsSigned, WordIn, WideIn;
  }

  lemma RemainderOfRemainder(raw: nat, size: nat, k: nat)
    requires 0 < size && 0 < size * k
    ensures raw % (size * k) % size == raw % size
  {
    var q, r := raw / (size * k), raw % (size * k);
    assert raw == size * k * q + r && r == size * (r / size) + r % size;
    assert raw == size * (k * q + r / size) + r % size by {
      assert size * (k * q + r / size) == size * k * q + size * (r / size);
    }
    QuotientIs(raw, size, k * q + r / size, r % size);
  }

  // Reading the low part of a word, which is what is passed on, is reading the word.
  lemma LowPartReads(raw: nat, size: nat, k: nat, signed: bool)
    requires 0 < size && size % 2 == 0 && 0 < size * k
    ensures var low := raw % (size * k);
            Reading(raw, size, signed) == if signed then Signed(low, size) else low % size
  {
    RemainderOfRemainder(raw, size, k);
    hide Signed, Reading;
    ReadingOf(raw % (size * k), size, signed);
    ReadingOf(raw, size, signed);
    ReadingOf(raw % (size * k) % size, size, signed);
  }

  lemma WordReads(va: seq<Arg>, signed: bool)
    requires va != []
    ensures if signed then Signed(AsWord(va), U32) == Reading(WordIn(va[0]), U32, true)
            else AsWord(va) == Reading(WordIn(va[0]), U32, false)
    ensures if signed then Signed(AsLongLong(va), U64) == Reading(WideIn(va[0]), U64, true)
            else AsLongLong(va) == Reading(WideIn(va[0]), U64, false)
    ensures if signed then Signed(AsWord(va), 0x1_0000) == Reading(WordIn(va[0]), 0x1_0000, true)
            else AsWord(va) % 0x1_0000 == Reading(WordIn(va[0]), 0x1_0000, false)
    ensures AsWord(va) % 0x100 == Reading(WordIn(va[0]), 0x100, false)
  {
    WordAt(va);
    hide *;
    LowPartReads(WordIn(va[0]), U32, 1, signed);
    LowPartReads(WideIn(va[0]), U64, 1, signed);
    LowPartReads(WordIn(va[0]), 0x1_0000, 0x1_0000, signed);
    LowPartReads(WordIn(va[0]), 0x100, 0x100_0000, false);
  }

  lemma WordAt(va: seq<Arg>)
    requires va != []
    ensures AsWord(va) == WordIn(va[0]) % U32 && AsLongLong(va) == WideIn(va[0]) % U64
    ensures AsWord(va) % U32 == AsWord(va) && AsLongLong(va) % U64 == AsLongLong(va)
  {
  }

  lemma IntegerAskedIs(d: Directive, va: seq<Arg>)
    requires Proper(d) && Stars(d) <= |va| && d.specifier in "diuxXob"
    ensures IntegerFlags(d.specifier, Asked(d, va)) == IntegerAsked(d, va) && BaseOf(d.specifier) == Radix(d.specifier)
  {
    var c := d.specifier;
    assert c == 'd' || c == 'i' || c == 'u' || c == 'x' || c == 'X' || c == 'o' || c == 'b';
    hide OnLeft;
  }

  lemma Specifiers(c: char)
    ensures IsInteger(c) <==> c in "diuxXob"
    ensures TakesArg(c) <==> c in "diuxXobcsp"
    ensures c in "cs" <==> c == 'c' || c == 's'
    ensures c in "diuxXob" ==> c in "diuxXobcsp"
    ensures c in "diuxXob" ==> c != 'c' && c != 's' && c != 'p'
  {
  }

  lemma FieldIs(text: string, width: nat, left: bool)
    ensures InField(text, width, left) ==
            if left then text + Blanks(width - |text|) else Blanks(width - |text|) + text
  {
    assert Repeat(' ', width - |text|) == Blanks(width - |text|);
    assert "" + text == text;
    assert text + "" == text;
  }

  predicate ReadAs(d: Directive, va: seq<Arg>, s: State)
    requires Stars(d) <= |va|
  {
    s.f == Asked(d, va) && s.width == FieldWidth(d, va) && s.precision == Places(d, va) && s.va == va[Stars(d)..]
  }

  lemma NumberIs(d: Directive, s: State, va: seq<Arg>)
    requires Proper(d) && Takes(d) <= |va| && ReadAs(d, va, s) && d.specifier in "diuxXob"
    ensures DirectiveText(d.specifier, s) == Meaning(d, va)
  {
    Specifiers(d.specifier);
    hide FieldWidth, Places, OnLeft, NumberText, Integer, IntegerValue, IntegerFlags, IntegerAsked, BaseOf, Radix,
         IsInteger;
    assert s.va[0] == va[Stars(d)];
    IntegerIs(d, s, s.va[0]);
    IntegerAskedIs(d, va);
  }

  lemma CharacterIs(d: Directive, s: State, va: seq<Arg>)
    requires Takes(d) <= |va| && ReadAs(d, va, s) && d.specifier == 'c'
    ensures DirectiveText(d.specifier, s) == Meaning(d, va)
  {
    hide FieldWidth, Places, OnLeft, NumberText, InField, Blanks;
    assert s.va[0] == va[Stars(d)];
    FieldIs([CharOf(AsWord(s.va))], s.width, s.f.left);
    CharacterOf(s.va);
  }

  lemma CharacterOf(va: seq<Arg>)
    requires va != []
    ensures CharOf(AsWord(va)) == (WordIn(va[0]) % 0x100) as char
  {
    RemainderOfRemainder(WordIn(va[0]), 0x100, 0x100_0000);
  }

  lemma StringIs(d: Directive, s: State, va: seq<Arg>)
    requires Takes(d) <= |va| && ReadAs(d, va, s) && d.specifier == 's'
    ensures DirectiveText(d.specifier, s) == Meaning(d, va)
  {
    hide FieldWidth, Places, OnLeft, NumberText, InField, Blanks;
    assert s.va[0] == va[Stars(d)];
    var all := AsString(s.va);
    FieldIs(Shown(all, s), s.width, s.f.left);
    assert Shown(all, s) == if d.precision != "" && s.precision < |all| then all[..s.precision] else all;
  }

  lemma PointerIs(d: Directive, s: State, va: seq<Arg>)
    requires Takes(d) <= |va| && ReadAs(d, va, s) && d.specifier == 'p'
    ensures DirectiveText(d.specifier, s) == Meaning(d, va)
  {
    hide FieldWidth, Places, OnLeft, NumberText;
    assert s.va[0] == va[Stars(d)];
    WordAt(s.va);
  }

  lemma OtherIs(d: Directive, s: State, va: seq<Arg>)
    requires Takes(d) <= |va| && ReadAs(d, va, s) && d.specifier !in "diuxXobcsp"
    ensures DirectiveText(d.specifier, s) == Meaning(d, va)
  {
    Specifiers(d.specifier);
    hide NumberText;
  }

  lemma ArgsAfter(d: Directive, s: State, va: seq<Arg>)
    requires Takes(d) <= |va| && s.va == va[Stars(d)..]
    ensures AfterDirective(d.specifier, s) == va[Takes(d)..]
  {
    Specifiers(d.specifier);
    hide TakesArg;
    if d.specifier in "diuxXobcsp" { assert s.va[1..] == va[Takes(d)..]; }
  }

  // A directive prints what it means.
  lemma DirectiveIs(d: Directive, s: State, va: seq<Arg>)
    requires Proper(d) && Takes(d) <= |va| && ReadAs(d, va, s)
    ensures DirectiveText(d.specifier, s) == Meaning(d, va)
  {
    Specifiers(d.specifier);
    hide *;
    if d.specifier in "diuxXob" {
      NumberIs(d, s, va);
    } else if d.specifier == 'c' {
      CharacterIs(d, s, va);
    } else if d.specifier == 's' {
      StringIs(d, s, va);
    } else if d.specifier == 'p' {
      PointerIs(d, s, va);
    } else {
      Unlisted(d.specifier);
      OtherIs(d, s, va);
    }
  }

  lemma Unlisted(c: char)
    requires c !in "diuxXob" && c != 'c' && c != 's' && c != 'p'
    ensures c !in "diuxXobcsp"
  {
  }

  // ---------- whole formats ----------

  lemma RenderStep(format: string, pos: nat, va: seq<Arg>)
    requires pos < |format| && format[pos] == '%'
    ensures var s := Parsed(format, pos + 1, va);
            && (s.pos < |format| ==>
                  Render(format, pos, va) ==
                  DirectiveText(format[s.pos], s) + Render(format, s.pos + 1, AfterDirective(format[s.pos], s)))
            && (Complete(format, pos) <==> s.pos < |format| && Complete(format, s.pos + 1))
  {
    hide Parsed, DirectiveText, AfterDirective;
    Printf.ParsedFacts(format, pos + 1, va);
  }

  lemma IsReadAs(d: Directive, va: seq<Arg>, s: State)
    requires Stars(d) <= |va| && s.f == Asked(d, va) && s.width == FieldWidth(d, va)
    requires s.precision == Places(d, va) && s.va == va[Stars(d)..]
    ensures ReadAs(d, va, s)
  {
  }

  lemma RenderDirective(format: string, pos: nat, va: seq<Arg>, d: Directive)
    requires Proper(d) && Takes(d) <= |va| && Here(format, pos, Written(d))
    ensures Render(format, pos, va) == Meaning(d, va) + Render(format, pos + |Written(d)|, va[Takes(d)..])
    ensures Complete(format, pos) <==> Complete(format, pos + |Written(d)|)
  {
    hide *;
    StarsTaken(d);
    ParsedIs(format, pos, va, d);
    HereAt(format, pos, Written(d), 0);
    var s := Parsed(format, pos + 1, va);
    IsReadAs(d, va, s);
    DirectiveIs(d, s, va);
    ArgsAfter(d, s, va);
    RenderStep(format, pos, va);
  }

  lemma StarsTaken(d: Directive)
    ensures Stars(d) <= Takes(d) && |Written(d)| > 0 && Written(d)[0] == '%'
  {
  }

  // Text without a percent sign stands for itself.
  lemma {:induction false} RenderPlain(format: string, pos: nat, va: seq<Arg>, text: string)
    requires '%' !in text && Here(format, pos, text)
    ensures Render(format, pos, va) == text + Render(format, pos + |text|, va)
    ensures Complete(format, pos) <==> Complete(format, pos + |text|)
    decreases |text|
  {
    hide *;
    if text != "" {
      var c, t := text[0], text[1..];
      assert text == [c] + t;
      InHeadOrRest('%', text);
      HereAt(format, pos, text, 0);
      HereSplits(format, pos, [c], t);
      RenderChar(format, pos, va);
      RenderPlain(format, pos + 1, va, t);
      Regrouped(c, t, Render(format, pos + |text|, va));
    }
  }

  lemma RenderChar(format: string, pos: nat, va: seq<Arg>)
    requires pos < |format| && format[pos] != '%'
    ensures Render(format, pos, va) == [format[pos]] + Render(format, pos + 1, va)
    ensures Complete(format, pos) <==> Complete(format, pos + 1)
  {
  }

  lemma Regrouped(c: char, t: string, rest: string)
    ensures [c] + (t + rest) == ([c] + t) + rest
  {
  }

  lemma PlainFirst(ps: seq<Piece>, va: seq<Arg>)
    requires ps != [] && ps[0].Plain? && Sound(ps[0]) && ArgsTaken(ps) <= |va|
    ensures '%' !in ps[0].text && ArgsTaken(ps[1..]) <= |va|
    ensures Format(ps) == ps[0].text + Format(ps[1..]) && Output(ps, va) == ps[0].text + Output(ps[1..], va)
  {
  }

  lemma DirectiveFirst(ps: seq<Piece>, va: seq<Arg>)
    requires ps != [] && ps[0].Conversion? && Sound(ps[0]) && ArgsTaken(ps) <= |va|
    ensures var d := ps[0].d;
            && Proper(d) && Takes(d) <= |va| && ArgsTaken(ps[1..]) <= |va| - Takes(d)
            && Format(ps) == Written(d) + Format(ps[1..])
            && Output(ps, va) == Meaning(d, va) + Output(ps[1..], va[Takes(d)..])
  {
    hide Proper, Takes, Meaning, Written;
  }

  lemma RestSound(ps: seq<Piece>)
    requires ps != [] && AllSound(ps)
    ensures Sound(ps[0]) && AllSound(ps[1..])
  {
  }

  lemma NothingLeft(format: string, pos: nat, va: seq<Arg>)
    ensures Format([]) == "" && Output([], va) == ""
    ensures pos >= |format| ==> Complete(format, pos) && Render(format, pos, va) == ""
  {
  }

  lemma {:induction false} PiecesRendered(format: string, pos: nat, ps: seq<Piece>, va: seq<Arg>)
    requires AllSound(ps) && Here(format, pos, Format(ps)) && pos + |Format(ps)| == |format| && ArgsTaken(ps) <= |va|
    ensures Complete(format, pos) && Render(format, pos, va) == Output(ps, va)
    decreases |ps|
  {
    hide *;
    if ps != [] {
      var rest := ps[1..];
      RestSound(ps);
      match ps[0]
      case Plain(text) =>
        PlainFirst(ps, va);
        HereSplits(format, pos, text, Format(rest));
        RenderPlain(format, pos, va, text);
        PiecesRendered(format, pos + |text|, rest, va);
      case Conversion(d) =>
        DirectiveFirst(ps, va);
        HereSplits(format, pos, Written(d), Format(rest));
        RenderDirective(format, pos, va, d);
        PiecesRendered(format, pos + |Written(d)|, rest, va[Takes(d)..]);
    } else {
      NothingLeft(format, pos, va);
    }
  }

  // A format of any number of directives and texts prints what they mean, one behind the other, each directive with
  // the arguments that those in front of it left.
  lemma FormatRendered(ps: seq<Piece>, va: seq<Arg>)
    requires AllSound(ps) && ArgsTaken(ps) <= |va|
    ensures Complete(Format(ps), 0) && Render(Format(ps), 0, va) == Output(ps, va)
  {
    hide Complete, Render, Output, ArgsTaken, Format;
    PiecesRendered(Format(ps), 0, ps, va);
  }

  // ---------- some directives ----------

  lemma Single(d: Directive, va: seq<Arg>)
    requires Proper(d) && Takes(d) <= |va|
    ensures Complete(Written(d), 0) && Render(Written(d), 0, va) == Meaning(d, va)
  {
    hide Complete, Render, Proper, Meaning, Takes, Written;
    var ps := [Conversion(d)];
    assert ps[1..] == [];
    assert Format(ps) == Written(d) && ArgsTaken(ps) == Takes(d) && Output(ps, va) == Meaning(d, va);
    FormatRendered(ps, va);
  }

  predicate Among(t: string, digits: string) { forall i | 0 <= i < |t| :: t[i] in digits }

  // The one way to write a number: no zeros in front, and only these digits.
  predicate IsNumeral(t: string, value: nat, base: nat, digits: string) {
    && t != "" && Among(t, digits)
    && ReadDigits(Reverse(t), base) == value && (|t| > 1 ==> t[0] != '0')
  }

  lemma DigitAmong(d: nat, upper: bool)
    requires d < 16
    ensures Digit(d, upper) in if upper then "0123456789ABCDEF" else "0123456789abcdef"
    ensures Digit(d, upper) == '0' <==> d == 0
    ensures d < 10 ==> Digit(d, upper) in "0123456789"
  {
  }

  lemma BelowBase(value: nat, base: nat)
    requires 0 < base
    ensures value % base < base
  {
  }

  lemma {:induction false} DigitsAmong(value: nat, base: nat, upper: bool, room: nat, i: nat)
    requires 2 <= base <= 16 && 0 < room && i < |Digits(value, base, upper, room)|
    ensures Digits(value, base, upper, room)[i] in if upper then "0123456789ABCDEF" else "0123456789abcdef"
    ensures base <= 10 ==> Digits(value, base, upper, room)[i] in "0123456789"
    decreases room
  {
    hide *;
    var d, q := value % base, value / base;
    BelowBase(value, base);
    DigitsCons(value, base, upper, room);
    DigitAmong(d, upper);
    if i > 0 { DigitsAmong(q, base, upper, room - 1, i - 1); }
  }

  lemma {:induction false} NoZeroLast(value: nat, base: nat, upper: bool, room: nat)
    requires 2 <= base <= 16 && 0 < room && 0 < value < Power(base, room)
    ensures LastNotZero(Digits(value, base, upper, room))
    decreases room
  {
    hide *;
    var d, q := value % base, value / base;
    DigitsCons(value, base, upper, room);
    if q != 0 && room > 1 {
      BelowNext(value, base, room);
      NoZeroLast(q, base, upper, room - 1);
      LastOfCons(Digit(d, upper), Digits(q, base, upper, room - 1));
    } else {
      LastDigit(value, base, room);
      DigitAmong(d, upper);
      LastOfCons(Digit(d, upper), "");
    }
  }

  predicate LastNotZero(s: string) { s != "" && s[|s| - 1] != '0' }

  lemma LastOfCons(d: char, t: string)
    requires if t == "" then d != '0' else LastNotZero(t)
    ensures LastNotZero([d] + t)
  {
    if t != "" { assert ([d] + t)[|[d] + t| - 1] == t[|t| - 1]; }
  }

  lemma LastDigit(value: nat, base: nat, room: nat)
    requires 0 < base && 0 < room && 0 < value < Power(base, room) && (value / base == 0 || room <= 1)
    ensures value % base != 0
  {
    if room == 1 {
      NoDigits(base);
      assert Power(base, 1) == base * Power(base, 0);
    }
  }

  lemma BelowNext(value: nat, base: nat, room: nat)
    requires 0 < base && 0 < room && value < Power(base, room)
    ensures value / base < Power(base, room - 1)
  {
    QuotientBelow(value, base, Power(base, room - 1));
  }

  lemma ReverseTwice(s: string)
    ensures Reverse(Reverse(s)) == s
  {
  }

  lemma DigitsReversed(w: nat, base: nat, upper: bool)
    requires 2 <= base <= 16
    ensures var t := Reverse(Digits(w, base, upper, NTOA_BUFFER_SIZE));
            && Among(t, if upper then "0123456789ABCDEF" else "0123456789abcdef")
            && (base <= 10 ==> Among(t, "0123456789"))
  {
    hide Digits;
    var s := Digits(w, base, upper, NTOA_BUFFER_SIZE);
    forall i | 0 <= i < |s|
      ensures Reverse(s)[i] in if upper then "0123456789ABCDEF" else "0123456789abcdef"
      ensures base <= 10 ==> Reverse(s)[i] in "0123456789"
    {
      DigitsAmong(w, base, upper, NTOA_BUFFER_SIZE, |s| - 1 - i);
    }
  }

  lemma FirstNotZero(w: nat, base: nat, upper: bool)
    requires 2 <= base <= 16 && w < Power(base, NTOA_BUFFER_SIZE)
    ensures var t := Reverse(Digits(w, base, upper, NTOA_BUFFER_SIZE)); |t| > 1 ==> t[0] != '0'
  {
    hide Digits, Power;
    if w == 0 { ZeroDigit(base, upper); } else { NoZeroLast(w, base, upper, NTOA_BUFFER_SIZE); }
  }

  lemma NumeralIs(w: nat, base: nat, upper: bool)
    requires 2 <= base <= 16 && w < Power(base, NTOA_BUFFER_SIZE)
    ensures var t := Reverse(Digits(w, base, upper, NTOA_BUFFER_SIZE));
            && IsNumeral(t, w, base, if upper then "0123456789ABCDEF" else "0123456789abcdef")
            && (base <= 10 ==> IsNumeral(t, w, base, "0123456789"))
  {
    hide Digits, Among, ReadDigits, Power;
    DigitsExactIff(w, base, upper, NTOA_BUFFER_SIZE);
    DigitsReversed(w, base, upper);
    FirstNotZero(w, base, upper);
    ReverseTwice(Digits(w, base, upper, NTOA_BUFFER_SIZE));
  }

  // With no width, precision or flag, a word is printed as its digits.
  lemma BareNumber(w: nat, negative: bool, base: nat, f: Flags)
    requires 2 <= base <= 16 && !f.precision && !f.hash && !f.left && !f.plus && !f.space && !f.zeropad
    requires negative ==> |Digits(w, base, f.upper, NTOA_BUFFER_SIZE)| < NTOA_BUFFER_SIZE
    ensures var t := Reverse(Digits(w, base, f.upper, NTOA_BUFFER_SIZE));
            NumberText(w, negative, base, 0, 0, f) == if negative then "-" + t else t
  {
    var s := Digits(w, base, f.upper, NTOA_BUFFER_SIZE);
    hide Digits, FormatText;
    FormatBare(s, negative, base, f);
  }

  lemma FormatBare(s: string, negative: bool, base: nat, f: Flags)
    requires !f.hash && !f.left && !f.plus && !f.space && !f.zeropad && |s| <= NTOA_BUFFER_SIZE
    requires negative ==> |s| < NTOA_BUFFER_SIZE
    ensures FormatText(s, negative, base, 0, 0, f) == if negative then "-" + Reverse(s) else Reverse(s)
  {
    ReverseConcat(s, "-");
    ShortIsOwnReverse("-");
    hide Reverse;
    var t := WithSign(s, negative, f);
    assert Zeroed(s, 0, 0, f) == s by { assert s + "" == s; }
    assert RevText(t, 0, f) == Reverse(t) by { assert "" + Reverse(t) + "" == Reverse(t); }
  }

  lemma ZeroDigit(base: nat, upper: bool)
    requires 2 <= base <= 16
    ensures Digits(0, base, upper, NTOA_BUFFER_SIZE) == "0"
  {
  }

  lemma {:induction false} FewDigits(value: nat, base: nat, upper: bool, room: nat, k: nat)
    requires 2 <= base <= 16 && 0 < room && 0 < k && value < Power(base, k)
    ensures |Digits(value, base, upper, room)| <= k
    decreases room
  {
    hide *;
    DigitsCons(value, base, upper, room);
    if value / base != 0 && room > 1 {
      if k == 1 {
        OneDigitOnly(value, base);
      } else {
        BelowNext(value, base, k);
        FewDigits(value / base, base, upper, room - 1, k - 1);
      }
    }
  }

  lemma OneDigitOnly(value: nat, base: nat)
    requires 0 < base && value < Power(base, 1)
    ensures value / base == 0
  {
    assert Power(base, 1) == base * Power(base, 0);
  }

  lemma DecimalShort(value: nat)
    requires value < U32
    ensures |Digits(value, 10, false, NTOA_BUFFER_SIZE)| <= 10
  {
    assert Power(10, 4) == 10_000;
    assert Power(10, 7) == 10_000_000;
    assert Power(10, 10) == 10_000_000_000;
    FewDigits(value, 10, false, NTOA_BUFFER_SIZE, 10);
  }

  function Numeral(v: int, base: nat, upper: bool): string
    requires 2 <= base <= 16
  {
    (if v < 0 then "-" else "") + Reverse(Digits(if v < 0 then -v else v, base, upper, NTOA_BUFFER_SIZE))
  }

  lemma BareMeaning(d: Directive, a: Arg)
    requires d == Directive("", "", "", d.length, d.specifier) && d.specifier in "diuxXob"
    ensures var v, f := Integer(d, a), IntegerAsked(d, [a]);
            && Meaning(d, [a]) == NumberText(if v < 0 then -v else v, v < 0, Radix(d.specifier), 0, 0, f)
            && !f.precision && !f.hash && !f.left && !f.plus && !f.space && !f.zeropad
            && f.upper == (d.specifier == 'X')
  {
    hide Integer, NumberText, Star;
    NoNumber();
  }

  // An integer directive without flags, width and precision.
  lemma BareInteger(length: string, c: char, a: Arg)
    requires length in ["", "h", "hh", "l", "ll", "j", "t", "z"] && c in "diuxXob"
    requires var v := Integer(Directive("", "", "", length, c), a);
             v < 0 ==> |Digits(-v, Radix(c), c == 'X', NTOA_BUFFER_SIZE)| < NTOA_BUFFER_SIZE
    ensures Render("%" + length + [c], 0, [a]) ==
            Numeral(Integer(Directive("", "", "", length, c), a), Radix(c), c == 'X')
  {
    hide *;
    var d := Directive("", "", "", length, c);
    BareProper(length, c);
    Single(d, [a]);
    BareWritten(d);
    var v := Integer(d, a);
    BareMeaning(d, a);
    BareNumber(if v < 0 then -v else v, v < 0, Radix(c), IntegerAsked(d, [a]));
    NumeralOf(v, Radix(c), c == 'X');
  }

  lemma BareWritten(d: Directive)
    requires d == Directive("", "", "", d.length, d.specifier)
    ensures Written(d) == "%" + d.length + [d.specifier] && Stars(d) == 0
  {
  }

  lemma NumeralOf(v: int, base: nat, upper: bool)
    requires 2 <= base <= 16
    ensures var t := Reverse(Digits(if v < 0 then -v else v, base, upper, NTOA_BUFFER_SIZE));
            Numeral(v, base, upper) == if v < 0 then "-" + t else t
  {
    hide Digits, Reverse;
    assert "" + Reverse(Digits(if v < 0 then -v else v, base, upper, NTOA_BUFFER_SIZE)) ==
           Reverse(Digits(if v < 0 then -v else v, base, upper, NTOA_BUFFER_SIZE));
  }

  lemma BareProper(length: string, c: char)
    requires length in ["", "h", "hh", "l", "ll", "j", "t", "z"] && c in "diuxXob"
    ensures Proper(Directive("", "", "", length, c)) && Takes(Directive("", "", "", length, c)) == 1
  {
    Specifiers(c);
    assert c == 'd' || c == 'i' || c == 'u' || c == 'x' || c == 'X' || c == 'o' || c == 'b';
  }

  // A word printed in every base reads back as the word, and is printed in one way only.
  lemma WordPrinted(w: nat)
    requires w < 0x1_0000_0000
    ensures IsNumeral(Render("%u", 0, [Word(w)]), w, 10, "0123456789")
    ensures IsNumeral(Render("%x", 0, [Word(w)]), w, 16, "0123456789abcdef")
    ensures IsNumeral(Render("%X", 0, [Word(w)]), w, 16, "0123456789ABCDEF")
    ensures IsNumeral(Render("%o", 0, [Word(w)]), w, 8, "0123456789")
    ensures IsNumeral(Render("%b", 0, [Word(w)]), w, 2, "0123456789")
  {
    hide Render, IsNumeral, Digits, Power;
    PowersOfTwo();
    PowerGrows(10, 32);
    PowerGrows(16, 32);
    PowerGrows(8, 32);
    WordUnsigned('u', w);
    WordUnsigned('x', w);
    WordUnsigned('X', w);
    WordUnsigned('o', w);
    WordUnsigned('b', w);
    assert "%" + "" + ['u'] == "%u" && "%" + "" + ['x'] == "%x" && "%" + "" + ['X'] == "%X";
    assert "%" + "" + ['o'] == "%o" && "%" + "" + ['b'] == "%b";
    NumeralIs(w, 10, false);
    NumeralIs(w, 16, false);
    NumeralIs(w, 16, true);
    NumeralIs(w, 8, false);
    NumeralIs(w, 2, false);
  }

  lemma WordUnsigned(c: char, w: nat)
    requires w < 0x1_0000_0000 && c in "uxXob"
    ensures Render("%" + "" + [c], 0, [Word(w)]) == Reverse(Digits(w, Radix(c), c == 'X', NTOA_BUFFER_SIZE))
  {
    hide Render, Digits, Reverse, Radix;
    assert c == 'u' || c == 'x' || c == 'X' || c == 'o' || c == 'b';
    assert c in "diuxXob" && c !in "di";
    assert Integer(Directive("", "", "", "", c), Word(w)) == w;
    BareInteger("", c, Word(w));
  }

  // d and i print the word of 32 bits as a signed number.
  lemma SignedPrinted(w: nat)
    requires w < 0x1_0000_0000
    ensures Render("%d", 0, [Word(w)]) == Render("%i", 0, [Word(w)])
    ensures w < 0x8000_0000 ==> Render("%d", 0, [Word(w)]) == Render("%u", 0, [Word(w)])
    ensures w >= 0x8000_0000 ==>
              Render("%d", 0, [Word(w)]) == "-" + Render("%u", 0, [Word(0x1_0000_0000 - w)])
  {
    hide Render, Digits, Reverse;
    SignedWord("", 'd', w, if w < 0x8000_0000 then w else w - U32);
    SignedWord("", 'i', w, if w < 0x8000_0000 then w else w - U32);
    assert "%" + "" + ['u'] == "%u" && "%" + "" + ['d'] == "%d" && "%" + "" + ['i'] == "%i";
    WordUnsigned('u', if w < 0x8000_0000 then w else U32 - w);
  }

  lemma SignedWord(length: string, c: char, w: nat, v: int)
    requires length in ["", "h", "hh", "l", "t", "z"] && c in "di"
    requires Integer(Directive("", "", "", length, c), Word(w)) == v && -U32 < v < U32
    ensures Render("%" + length + [c], 0, [Word(w)]) == Numeral(v, 10, false)
  {
    hide Render, Digits, Reverse, Integer, Numeral;
    assert c == 'd' || c == 'i';
    assert c in "diuxXob";
    DecimalShort(if v < 0 then -v else v);
    BareInteger(length, c, Word(w));
  }

  // hh and h print the low 8 and 16 bits, signed but for hh; the others the word of 32 bits.
  lemma ShortPrinted(w: nat)
    requires w < 0x1_0000_0000
    ensures Render("%hhu", 0, [Word(w)]) == Render("%u", 0, [Word(w % 0x100)])
    ensures Render("%hu", 0, [Word(w)]) == Render("%u", 0, [Word(w % 0x1_0000)])
    ensures Render("%hhd", 0, [Word(w)]) == Render("%u", 0, [Word(w % 0x100)])
    ensures w % 0x1_0000 < 0x8000 ==> Render("%hd", 0, [Word(w)]) == Render("%u", 0, [Word(w % 0x1_0000)])
    ensures w % 0x1_0000 >= 0x8000 ==>
              Render("%hd", 0, [Word(w)]) == "-" + Render("%u", 0, [Word(0x1_0000 - w % 0x1_0000)])
  {
    hide Render, Digits, Reverse;
    var h := w % 0x1_0000;
    var low := if h < 0x8000 then h else h - 0x1_0000;
    SignedWord("hh", 'd', w, w % 0x100);
    SignedWord("h", 'd', w, low);
    assert Integer(Directive("", "", "", "hh", 'u'), Word(w)) == w % 0x100;
    assert Integer(Directive("", "", "", "h", 'u'), Word(w)) == h;
    BareInteger("hh", 'u', Word(w));
    BareInteger("h", 'u', Word(w));
    assert "%" + "hh" + ['u'] == "%hhu" && "%" + "h" + ['u'] == "%hu" && "%" + "hh" + ['d'] == "%hhd";
    assert "%" + "h" + ['d'] == "%hd" && "%" + "" + ['u'] == "%u";
    WordUnsigned('u', w % 0x100);
    WordUnsigned('u', h);
    WordUnsigned('u', if low < 0 then -low else low);
  }

  // C99 reads hhd as a signed char (section 7.19.6.1); the code casts to char, which is unsigned here.
  lemma SignedCharIff(w: nat)
    requires w < 0x1_0000_0000
    ensures var low := w % 0x100;
            var meant := if low < 0x80 then Render("%u", 0, [Word(low)])
                         else "-" + Render("%u", 0, [Word(0x100 - low)]);
            Render("%hhd", 0, [Word(w)]) == meant <==> low < 0x80
  {
    hide Render, ReadDigits;
    ShortPrinted(w);
    WordPrinted(w % 0x100);
    DashIsNone();
  }

  lemma DashIsNone()
    ensures '-' !in "0123456789"
  {
  }

  // l, z and t print the word of 32 bits.
  lemma LongPrinted(w: nat)
    requires w < 0x1_0000_0000
    ensures Render("%lu", 0, [Word(w)]) == Render("%u", 0, [Word(w)])
    ensures Render("%zu", 0, [Word(w)]) == Render("%u", 0, [Word(w)])
    ensures Render("%tu", 0, [Word(w)]) == Render("%u", 0, [Word(w)])
    ensures Render("%ld", 0, [Word(w)]) == Render("%d", 0, [Word(w)])
  {
    hide Render, Digits, Reverse;
    SignedWord("", 'd', w, if w < 0x8000_0000 then w else w - U32);
    SignedWord("l", 'd', w, if w < 0x8000_0000 then w else w - U32);
    BareInteger("l", 'u', Word(w));
    BareInteger("z", 'u', Word(w));
    BareInteger("t", 'u', Word(w));
    BareInteger("", 'u', Word(w));
    assert "%" + "l" + ['u'] == "%lu" && "%" + "z" + ['u'] == "%zu" && "%" + "t" + ['u'] == "%tu";
    assert "%" + "l" + ['d'] == "%ld" && "%" + "" + ['u'] == "%u" && "%" + "" + ['d'] == "%d";
  }

  lemma WideFits(w: nat)
    requires w < U64
    ensures w < Power(10, 32) && w < Power(16, 32) && |Digits(w, 10, false, NTOA_BUFFER_SIZE)| <= 20
  {
    assert Power(10, 5) == 100_000;
    assert Power(10, 10) == 10_000_000_000;
    assert Power(10, 15) == 1_000_000_000_000_000;
    assert Power(10, 20) == 100_000_000_000_000_000_000;
    assert Power(16, 4) == 0x1_0000;
    assert Power(16, 8) == 0x1_0000_0000;
    assert Power(16, 12) == 0x1_0000_0000_0000;
    assert Power(16, 16) == U64;
    PowerRises(10, 20, 32);
    PowerRises(16, 16, 32);
    FewDigits(w, 10, false, NTOA_BUFFER_SIZE, 20);
  }

  lemma WideUnsigned(length: string, c: char, w: nat)
    requires w < U64 && length in ["ll", "j"] && c in "ux"
    ensures Render("%" + length + [c], 0, [LongLong(w)]) == Numeral(w, Radix(c), false)
  {
    hide Render, Digits, Reverse, Radix, Numeral;
    assert c == 'u' || c == 'x';
    assert c in "diuxXob" && c !in "di";
    assert Integer(Directive("", "", "", length, c), LongLong(w)) == w;
    BareInteger(length, c, LongLong(w));
  }

  // ll and j print all 64 bits.
  lemma LongLongPrinted(w: nat)
    requires w < 0x1_0000_0000_0000_0000
    ensures IsNumeral(Render("%llu", 0, [LongLong(w)]), w, 10, "0123456789")
    ensures IsNumeral(Render("%llx", 0, [LongLong(w)]), w, 16, "0123456789abcdef")
    ensures Render("%ju", 0, [LongLong(w)]) == Render("%llu", 0, [LongLong(w)])
  {
    hide Render, Digits, Reverse, IsNumeral, Power;
    WideFits(w);
    NumeralIs(w, 10, false);
    NumeralIs(w, 16, false);
    WideUnsigned("ll", 'u', w);
    WideUnsigned("ll", 'x', w);
    WideUnsigned("j", 'u', w);
    NumeralOf(w, 10, false);
    NumeralOf(w, 16, false);
    assert "%" + "ll" + ['u'] == "%llu" && "%" + "ll" + ['x'] == "%llx" && "%" + "j" + ['u'] == "%ju";
  }

  lemma LongLongSigned(w: nat)
    requires w < 0x1_0000_0000_0000_0000
    ensures w < 0x8000_0000_0000_0000 ==> Render("%lld", 0, [LongLong(w)]) == Render("%llu", 0, [LongLong(w)])
    ensures w >= 0x8000_0000_0000_0000 ==>
              Render("%lld", 0, [LongLong(w)]) ==
              "-" + Render("%llu", 0, [LongLong(0x1_0000_0000_0000_0000 - w)])
  {
    hide Render, Digits, Reverse, Power;
    var m := if w < 0x8000_0000_0000_0000 then w else U64 - w;
    WideFits(m);
    WideUnsigned("ll", 'u', m);
    assert Integer(Directive("", "", "", "ll", 'd'), LongLong(w)) == if w < 0x8000_0000_0000_0000 then w else -m;
    BareInteger("ll", 'd', LongLong(w));
    assert "%" + "ll" + ['u'] == "%llu" && "%" + "ll" + ['d'] == "%lld";
  }

  lemma TextMeaning(t: CString, n: nat)
    requires n < 0x1_0000_0000
    ensures Proper(Directive("", "", "", "", 's')) && Proper(Directive("", "", ".*", "", 's'))
    ensures Meaning(Directive("", "", "", "", 's'), [Str(t)]) == t
    ensures Meaning(Directive("", "", ".*", "", 's'), [Word(n), Str(t)]) ==
            if n >= 0x8000_0000 then "" else if n < |t| then t[..n] else t
  {
    hide NumberText;
    NoNumber();
    assert [Word(n), Str(t)][1..] == [Str(t)];
    var text := if n >= 0x8000_0000 then "" else if n < |t| then t[..n] else t;
    assert Places(Directive("", "", ".*", "", 's'), [Word(n), Str(t)]) == if n < 0x8000_0000 then n else 0;
    assert Blanks(0 - |t|) == "" && Blanks(0 - |text|) == "";
    assert "" + t == t && "" + text == text;
  }

  // A precision cuts a string, which is printed as it is otherwise.
  lemma TextPrinted(t: CString, n: nat)
    requires n < 0x8000_0000
    ensures Render("%s", 0, [Str(t)]) == t
    ensures Render("%.*s", 0, [Word(n), Str(t)]) == if n < |t| then t[..n] else t
  {
    hide *;
    TextMeaning(t, n);
    TextWritten();
    Single(Directive("", "", "", "", 's'), [Str(t)]);
    Single(Directive("", "", ".*", "", 's'), [Word(n), Str(t)]);
  }

  lemma TextWritten()
    ensures Written(Directive("", "", "", "", 's')) == "%s" && Written(Directive("", "", ".*", "", 's')) == "%.*s"
    ensures Takes(Directive("", "", "", "", 's')) == 1 && Takes(Directive("", "", ".*", "", 's')) == 2
    ensures Written(Directive("", "", "", "", 'c')) == "%c" && Written(Directive("", "", "", "", '%')) == "%%"
    ensures Takes(Directive("", "", "", "", 'c')) == 1 && Takes(Directive("", "", "", "", '%')) == 0
  {
  }

  // C99 takes a negative precision as none (section 7.19.6.1); the code takes it as 0, so a string is lost.
  lemma NegativePrecisionIff(t: CString, n: nat)
    requires n < 0x1_0000_0000
    ensures Render("%.*s", 0, [Word(n), Str(t)]) == (if n < 0x8000_0000 && n < |t| then t[..n] else t) <==>
            n < 0x8000_0000 || t == ""
  {
    hide *;
    TextMeaning(t, n);
    TextWritten();
    Single(Directive("", "", ".*", "", 's'), [Word(n), Str(t)]);
  }

  lemma CharMeaning(w: nat)
    ensures Proper(Directive("", "", "", "", 'c'))
    ensures Meaning(Directive("", "", "", "", 'c'), [Word(w)]) == [(w % 0x100) as char]
  {
    hide NumberText;
    NoNumber();
    assert "" + [(w % 0x100) as char] == [(w % 0x100) as char];
  }

  lemma PercentMeaning()
    ensures Proper(Directive("", "", "", "", '%')) && Meaning(Directive("", "", "", "", '%'), []) == "%"
  {
    hide NumberText;
    NoNumber();
  }

  lemma CharPrinted(w: nat)
    ensures Render("%c", 0, [Word(w)]) == [(w % 0x100) as char]
    ensures Render("%%", 0, []) == "%"
  {
    hide *;
    CharMeaning(w);
    PercentMeaning();
    TextWritten();
    Single(Directive("", "", "", "", 'c'), [Word(w)]);
    Single(Directive("", "", "", "", '%'), []);
  }

  // The CRC as the benchmark prints it: hexadecimal, filled up with zeros to four digits. A pointer has eight.
  lemma PaddedHexPrinted(w: nat)
    requires w < 0x1_0000_0000
    ensures var t := Render("%x", 0, [Word(w)]); Render("%04x", 0, [Word(w)]) == Repeat('0', 4 - |t|) + t
    ensures var t := Render("%X", 0, [Word(w)]); Render("%p", 0, [Word(w)]) == Repeat('0', 8 - |t|) + t
  {
    hide *;
    PaddedMeaning(w);
    PointerMeaning(w);
    Single(Directive("0", "4", "", "", 'x'), [Word(w)]);
    Single(Directive("", "", "", "", 'p'), [Word(w)]);
    HexDigits(w);
    PaddedIs(w, false, 4);
    PaddedIs(w, true, 8);
  }

  lemma HexDigits(w: nat)
    requires w < 0x1_0000_0000
    ensures Render("%x", 0, [Word(w)]) == Reverse(Digits(w, 16, false, NTOA_BUFFER_SIZE))
    ensures Render("%X", 0, [Word(w)]) == Reverse(Digits(w, 16, true, NTOA_BUFFER_SIZE))
  {
    hide Render, Digits, Reverse;
    WordUnsigned('x', w);
    WordUnsigned('X', w);
    assert "%" + "" + ['x'] == "%x" && "%" + "" + ['X'] == "%X";
  }

  lemma PaddedMeaning(w: nat)
    requires w < 0x1_0000_0000
    ensures var d := Directive("0", "4", "", "", 'x');
            && Proper(d) && Written(d) == "%04x" && Takes(d) == 1
            && Meaning(d, [Word(w)]) == NumberText(w, false, 16, 0, 4, NO_FLAGS.(zeropad := true, upper := false))
  {
    hide NumberText;
    NoNumber();
    assert "4"[..0] == "" && Horner("4") == 4;
  }

  lemma PointerMeaning(w: nat)
    requires w < 0x1_0000_0000
    ensures var d := Directive("", "", "", "", 'p');
            && Proper(d) && Written(d) == "%p" && Takes(d) == 1
            && Meaning(d, [Word(w)]) == NumberText(w, false, 16, 0, 8, NO_FLAGS.(zeropad := true, upper := true))
  {
    hide NumberText;
    NoNumber();
  }

  lemma PaddedIs(w: nat, upper: bool, width: nat)
    requires w < 0x1_0000_0000 && width <= 8
    ensures var t := Reverse(Digits(w, 16, upper, NTOA_BUFFER_SIZE));
            NumberText(w, false, 16, 0, width, NO_FLAGS.(zeropad := true, upper := upper)) ==
            Repeat('0', width - |t|) + t
  {
    var s := Digits(w, 16, upper, NTOA_BUFFER_SIZE);
    HexShort(w, upper);
    hide Digits;
    var f := NO_FLAGS.(zeropad := true, upper := upper);
    assert f.(hash := false) == f;
    PaddedText(s, width, f);
  }

  lemma HexShort(w: nat, upper: bool)
    requires w < 0x1_0000_0000
    ensures |Digits(w, 16, upper, NTOA_BUFFER_SIZE)| <= 8
  {
    assert Power(16, 4) == 0x1_0000;
    assert Power(16, 8) == 0x1_0000_0000;
    FewDigits(w, 16, upper, NTOA_BUFFER_SIZE, 8);
  }

  lemma PaddedText(s: string, width: nat, f: Flags)
    requires |s| <= 8 && width <= 8 && f.zeropad && !f.left && !f.hash && !f.plus && !f.space
    ensures FormatText(s, false, 16, 0, width, f) == Repeat('0', width - |s|) + Reverse(s)
  {
    hide FormatText, Reverse, Repeat;
    FormatIsLayout(s, false, 16, 0, width, f);
    assert Repeat(' ', width - 0 - Inner(s, "", 0, width, f)) == "";
    assert "" + "" + Repeat('0', width - |s|) + Reverse(s) == Repeat('0', width - |s|) + Reverse(s);
    assert Repeat('0', Max(|s|, width) - |s|) == Repeat('0', width - |s|);
  }
}
