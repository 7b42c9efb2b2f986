/**
  The format interpreter (software/coremark_app/printf.c:155-330, 603-884) writing through its output
  function, against the text it prints.
*/
module Printf {
  import opened PrintfText

  // ---------- output functions ----------

  // _out_buffer, _out_null and _out_char
  datatype Kind = ToBuffer | ToNull | ToChar

  class Sink {
    const kind: Kind
    const buffer: array<char>
    const maxlen: nat
    var sent: string

    constructor (kind: Kind, buffer: array<char>, maxlen: nat)
      ensures this.kind == kind && this.buffer == buffer && this.maxlen == maxlen && sent == ""
    {
      this.kind, this.buffer, this.maxlen, sent := kind, buffer, maxlen, "";
    }

    ghost function Snap(): Shot
      reads this, buffer
    {
      Shot(buffer[..], sent)
    }

    // There is memory for n more characters from idx on, as far as maxlen lets them through.
    ghost predicate Room(idx: nat, n: nat) { kind == ToBuffer ==> maxlen <= buffer.Length || idx + n <= buffer.Length }

    method Out(character: char, idx: nat)
      requires Room(idx, 1)
      modifies this`sent, buffer
      ensures Snap() == Put(kind, maxlen, old(Snap()), idx, character)
    {
      match kind
      case ToBuffer =>
        if idx < maxlen { buffer[idx] := character; }
      case ToNull =>
      case ToChar =>
        if character != '\0' { sent := sent + [character]; }
    }
  }

  // The memory behind a sink, and what it has passed on.
  datatype Shot = Shot(buffer: string, sent: string)

  function Put(kind: Kind, maxlen: nat, s: Shot, idx: nat, c: char): (t: Shot)
    ensures |t.buffer| == |s.buffer|
  {
    match kind
    case ToBuffer => if idx < maxlen && idx < |s.buffer| then s.(buffer := s.buffer[idx := c]) else s
    case ToNull => s
    case ToChar => if c != '\0' then s.(sent := s.sent + [c]) else s
  }

  function PutAll(kind: Kind, maxlen: nat, s: Shot, idx: nat, text: string): (t: Shot)
    ensures |t.buffer| == |s.buffer|
  {
    if text == "" then s
    else Put(kind, maxlen, PutAll(kind, maxlen, s, idx, text[..|text| - 1]), idx + |text| - 1, text[|text| - 1])
  }

  lemma PutNone(kind: Kind, maxlen: nat, s: Shot, idx: nat)
    ensures PutAll(kind, maxlen, s, idx, "") == s
  {
  }

  lemma PutOne(kind: Kind, maxlen: nat, s: Shot, idx: nat, text: string, c: char)
    ensures Put(kind, maxlen, PutAll(kind, maxlen, s, idx, text), idx + |text|, c) ==
            PutAll(kind, maxlen, s, idx, text + [c])
  {
    assert (text + [c])[..|text|] == text;
  }

  lemma {:induction false} PutConcat(kind: Kind, maxlen: nat, s: Shot, idx: nat, a: string, b: string)
    ensures PutAll(kind, maxlen, PutAll(kind, maxlen, s, idx, a), idx + |a|, b) == PutAll(kind, maxlen, s, idx, a + b)
  {
    hide *;
    var s1 := PutAll(kind, maxlen, s, idx, a);
    if b == "" {
      PutNone(kind, maxlen, s1, idx + |a|);
      assert a + b == a;
    } else {
      var b1, c := b[..|b| - 1], b[|b| - 1];
      PutConcat(kind, maxlen, s, idx, a, b1);
      PutOne(kind, maxlen, s1, idx + |a|, b1, c);
      PutOne(kind, maxlen, s, idx, a + b1, c);
      assert b1 + [c] == b && (a + b1) + [c] == a + b;
    }
  }

  // What a buffer holds after a text was put into it.
  lemma {:induction false} BufferAfter(maxlen: nat, s: Shot, text: string)
    ensures var t := PutAll(ToBuffer, maxlen, s, 0, text);
            t.sent == s.sent && forall k | 0 <= k < |s.buffer| :: t.buffer[k] == if k < Min(|text|, maxlen)
              then text[k] else s.buffer[k]
  {
    if text != "" {
      BufferAfter(maxlen, s, text[..|text| - 1]);
    }
  }

  function Visible(text: string): string {
    if text == "" then "" else if text[0] == '\0' then Visible(text[1..]) else [text[0]] + Visible(text[1..])
  }

  lemma {:induction false} VisibleSnoc(text: string, c: char)
    ensures Visible(text + [c]) == Visible(text) + if c == '\0' then "" else [c]
  {
    if text != "" {
      assert (text + [c])[1..] == text[1..] + [c];
      VisibleSnoc(text[1..], c);
    } else {
      assert (text + [c])[1..] == "";
    }
  }

  // What reaches _putchar: every character but NUL, in order.
  lemma {:induction false} CharsAfter(maxlen: nat, s: Shot, idx: nat, text: string)
    ensures PutAll(ToChar, maxlen, s, idx, text).sent == s.sent + Visible(text)
  {
    if text != "" {
      var t := text[..|text| - 1];
      CharsAfter(maxlen, s, idx, t);
      VisibleSnoc(t, text[|text| - 1]);
      assert t + [text[|text| - 1]] == text;
    }
  }

  // out(character, buffer, idx++, maxlen), after text has gone out from idx0 on.
  method Emit(sink: Sink, c: char, idx: nat, ghost s0: Shot, ghost idx0: nat, ghost text: string) returns (idx': nat)
    requires sink.Room(idx, 1) && idx == idx0 + |text| && sink.Snap() == PutAll(sink.kind, sink.maxlen, s0, idx0, text)
    modifies sink`sent, sink.buffer
    ensures idx' == idx + 1 && sink.Snap() == PutAll(sink.kind, sink.maxlen, s0, idx0, text + [c])
  {
    PutOne(sink.kind, sink.maxlen, s0, idx0, text, c);
    sink.Out(c, idx);
    idx' := idx + 1;
  }

  // ---------- numbers ----------

  // while (l++ < width) out(' ')
  method PadField(sink: Sink, l0: nat, width: nat, idx0: nat) returns (idx: nat)
    requires sink.Room(idx0, |Repeat(' ', width - l0)|)
    modifies sink`sent, sink.buffer
    ensures idx == idx0 + |Repeat(' ', width - l0)|
    ensures sink.Snap() == PutAll(sink.kind, sink.maxlen, old(sink.Snap()), idx0, Repeat(' ', width - l0))
  {
    hide PutAll;
    var l := l0;
    idx := idx0;
    ghost var s0, all, text := sink.Snap(), Repeat(' ', width - l0), "";
    PutNone(sink.kind, sink.maxlen, s0, idx0);
    while l < width
      invariant l0 <= l && (l <= width || l == l0) && text == all[..l - l0] && idx == idx0 + |text|
      invariant sink.Snap() == PutAll(sink.kind, sink.maxlen, s0, idx0, text)
    {
      l := l + 1;
      idx := Emit(sink, ' ', idx, s0, idx0, text);
      text := text + [' '];
    }
    assert text == all;
  }

  // while (len) out(buf[--len])
  method OutBack(sink: Sink, idx0: nat, buf: array<char>, len0: nat) returns (idx: nat)
    requires buf != sink.buffer && len0 <= buf.Length && sink.Room(idx0, len0)
    modifies sink`sent, sink.buffer
    ensures idx == idx0 + len0
    ensures sink.Snap() == PutAll(sink.kind, sink.maxlen, old(sink.Snap()), idx0, Reverse(buf[..len0]))
  {
    hide PutAll;
    ghost var s0, all, text := sink.Snap(), Reverse(buf[..len0]), "";
    idx := idx0;
    PutNone(sink.kind, sink.maxlen, s0, idx0);
    var len := len0;
    while len > 0
      invariant 0 <= len <= len0 && idx == idx0 + |text| && |text| == len0 - len && text <= all
      invariant sink.Snap() == PutAll(sink.kind, sink.maxlen, s0, idx0, text)
    {
      len := len - 1;
      PrefixGrows(text, all);
      idx := Emit(sink, buf[len], idx, s0, idx0, text);
      text := text + [buf[len]];
    }
    assert text == all;
  }

  lemma PrefixGrows(a: string, b: string)
    requires a <= b && |a| < |b|
    ensures a + [b[|a|]] <= b
  {
  }

  // _out_rev
  method OutRev(sink: Sink, idx0: nat, buf: array<char>, len: nat, width: nat, flags: Flags) returns (idx: nat)
    requires buf != sink.buffer && len <= buf.Length && sink.Room(idx0, |RevText(buf[..len], width, flags)|)
    modifies sink`sent, sink.buffer
    ensures idx == idx0 + |RevText(buf[..len], width, flags)|
    ensures sink.Snap() == PutAll(sink.kind, sink.maxlen, old(sink.Snap()), idx0, RevText(buf[..len], width, flags))
  {
    hide PutAll, Reverse, Repeat;
    RevParts(sink.kind, sink.maxlen, sink.Snap(), idx0, buf[..len], width, flags);
    idx := idx0;
    if !flags.left && !flags.zeropad {
      idx := PadField(sink, len, width, idx);
    }
    idx := OutBack(sink, idx, buf, len);
    if flags.left {
      idx := PadField(sink, idx - idx0, width, idx);
    }
  }

  // The parts of a reversed number, one behind the other.
  lemma RevParts(kind: Kind, maxlen: nat, s: Shot, idx: nat, buf: string, width: nat, f: Flags)
    ensures var blanks := Repeat(' ', width - |buf|);
            PutAll(kind, maxlen, s, idx, RevText(buf, width, f)) ==
            if f.left then PutAll(kind, maxlen, PutAll(kind, maxlen, s, idx, Reverse(buf)), idx + |buf|, blanks)
            else if f.zeropad then PutAll(kind, maxlen, s, idx, Reverse(buf))
            else PutAll(kind, maxlen, PutAll(kind, maxlen, s, idx, blanks), idx + |blanks|, Reverse(buf))
  {
    hide PutAll, Reverse, Repeat;
    var blanks := Repeat(' ', width - |buf|);
    if f.left {
      PutConcat(kind, maxlen, s, idx, Reverse(buf), blanks);
      assert RevText(buf, width, f) == Reverse(buf) + blanks;
    } else if f.zeropad {
      assert RevText(buf, width, f) == Reverse(buf);
    } else {
      PutConcat(kind, maxlen, s, idx, blanks, Reverse(buf));
      assert RevText(buf, width, f) == blanks + Reverse(buf);
    }
  }

  // buf[len++] = '0' while there is need and room.
  method FillZeros(buf: array<char>, len0: nat, upTo: nat) returns (len: nat)
    requires buf.Length == NTOA_BUFFER_SIZE && len0 <= NTOA_BUFFER_SIZE
    modifies buf
    ensures len0 <= len <= NTOA_BUFFER_SIZE && buf[..len] == UpTo(old(buf[..len0]), upTo)
  {
    len := len0;
    while len < upTo && len < NTOA_BUFFER_SIZE
      invariant len0 <= len <= NTOA_BUFFER_SIZE && (len <= upTo || len == len0) && buf[..len0] == old(buf[..len0])
      invariant forall k | len0 <= k < len :: buf[k] == '0'
    {
      buf[len] := '0';
      len := len + 1;
    }
  }

  method AppendTo(buf: array<char>, len0: nat, c: char) returns (len: nat)
    requires buf.Length == NTOA_BUFFER_SIZE && len0 <= NTOA_BUFFER_SIZE
    modifies buf
    ensures len <= NTOA_BUFFER_SIZE && buf[..len] == Append(old(buf[..len0]), c)
  {
    len := len0;
    if len < NTOA_BUFFER_SIZE {
      buf[len] := c;
      len := len + 1;
    }
  }

  // The base prefix; without a precision it takes the place of digits that already fill the field.
  method PutPrefix(buf: array<char>, len0: nat, base: nat, prec: nat, width: nat, flags: Flags) returns (len: nat)
    requires buf.Length == NTOA_BUFFER_SIZE && len0 <= NTOA_BUFFER_SIZE
    modifies buf
    ensures len <= NTOA_BUFFER_SIZE && buf[..len] == Prefixed(old(buf[..len0]), base, prec, width, flags)
  {
    len := len0;
    if flags.hash {
      if !flags.precision && len > 0 && (len == prec || len == width) {
        len := len - 1;
        if len > 0 && base == 16 {
          len := len - 1;
        }
      }
      if base == 16 && !flags.upper {
        len := AppendTo(buf, len, 'x');
      } else if base == 16 && flags.upper {
        len := AppendTo(buf, len, 'X');
      } else if base == 2 {
        len := AppendTo(buf, len, 'b');
      }
      len := AppendTo(buf, len, '0');
    }
  }

  method PutSign(buf: array<char>, len0: nat, negative: bool, flags: Flags) returns (len: nat)
    requires buf.Length == NTOA_BUFFER_SIZE && len0 <= NTOA_BUFFER_SIZE
    modifies buf
    ensures len <= NTOA_BUFFER_SIZE && buf[..len] == WithSign(old(buf[..len0]), negative, flags)
  {
    len := len0;
    if negative {
      len := AppendTo(buf, len, '-');
    } else if flags.plus {
      len := AppendTo(buf, len, '+');
    } else if flags.space {
      len := AppendTo(buf, len, ' ');
    }
  }

  // _ntoa_format
  method NtoaFormat(sink: Sink, idx0: nat, buf: array<char>, len0: nat, negative: bool, base: nat, prec: nat,
                    width0: nat, flags: Flags)
    returns (idx: nat)
    requires buf != sink.buffer && buf.Length == NTOA_BUFFER_SIZE && len0 <= NTOA_BUFFER_SIZE
    requires sink.Room(idx0, |FormatText(buf[..len0], negative, base, prec, width0, flags)|)
    modifies buf, sink`sent, sink.buffer
    ensures var text := FormatText(old(buf[..len0]), negative, base, prec, width0, flags);
            idx == idx0 + |text| && sink.Snap() == PutAll(sink.kind, sink.maxlen, old(sink.Snap()), idx0, text)
  {
    hide PutAll, RevText, UpTo, Prefixed, WithSign;
    ghost var s0 := sink.Snap();
    var len, width := len0, width0;
    if !flags.left {
      if width > 0 && flags.zeropad && (negative || flags.plus || flags.space) {
        width := width - 1;
      }
      len := FillZeros(buf, len, prec);
      if flags.zeropad {
        len := FillZeros(buf, len, width);
      }
    }
    len := PutPrefix(buf, len, base, prec, width, flags);
    len := PutSign(buf, len, negative, flags);
    assert sink.Snap() == s0;
    idx := OutRev(sink, idx0, buf, len, width, flags);
  }

  lemma DigitsHead(value: nat, base: nat, upper: bool, room: nat)
    requires 2 <= base <= 16 && 0 < room
    ensures var s := Digits(value, base, upper, room);
            s[0] == Digit(value % base, upper) &&
            s[1..] == if value / base != 0 && room > 1 then Digits(value / base, base, upper, room - 1) else ""
  {
  }

  lemma DigitIs(d: nat, upper: bool)
    requires d < 16
    ensures Digit(d, upper) == if d < 10 then '0' + d as char else (if upper then 'A' else 'a') + (d - 10) as char
  {
  }

  // The digits of a number, least first, until the buffer is full.
  method MakeDigits(buf: array<char>, value0: nat, base: nat, upper: bool) returns (len: nat)
    requires 2 <= base <= 16 && buf.Length == NTOA_BUFFER_SIZE
    modifies buf
    ensures len <= NTOA_BUFFER_SIZE && buf[..len] == Digits(value0, base, upper, NTOA_BUFFER_SIZE)
  {
    hide Digit, Digits;
    var value: nat, more := value0, true;
    len := 0;
    ghost var all := Digits(value0, base, upper, NTOA_BUFFER_SIZE);
    while more
      invariant 0 <= len <= NTOA_BUFFER_SIZE && (more ==> len < NTOA_BUFFER_SIZE)
      invariant len <= |all| && buf[..len] == all[..len]
      invariant all[len..] == if more then Digits(value, base, upper, NTOA_BUFFER_SIZE - len) else ""
      decreases NTOA_BUFFER_SIZE - len, more
    {
      ghost var done, rest := buf[..len], all[len..];
      DigitsHead(value, base, upper, NTOA_BUFFER_SIZE - len);
      DigitIs(value % base, upper);
      var d := value % base;
      var digit := if d < 10 then '0' + d as char else (if upper then 'A' else 'a') + (d - 10) as char;
      buf[len] := digit;
      len := len + 1;
      assert buf[..len] == done + [digit] && all[..len] == done + [rest[0]] && all[len..] == rest[1..];
      value := value / base;
      more := value != 0 && len < NTOA_BUFFER_SIZE;
    }
    assert buf[..len] == all;
  }

  // _ntoa_long and _ntoa_long_long
  method Ntoa(sink: Sink, idx0: nat, value: nat, negative: bool, base: nat, prec: nat, width: nat, flags0: Flags)
    returns (idx: nat)
    requires 2 <= base <= 16 && sink.Room(idx0, |NumberText(value, negative, base, prec, width, flags0)|)
    modifies sink`sent, sink.buffer
    ensures var text := NumberText(value, negative, base, prec, width, flags0);
            idx == idx0 + |text| && sink.Snap() == PutAll(sink.kind, sink.maxlen, old(sink.Snap()), idx0, text)
  {
    hide PutAll, FormatText, Digits;
    ghost var s0 := sink.Snap();
    var buf := new char[NTOA_BUFFER_SIZE];
    var len, flags := 0, flags0;
    if value == 0 {
      flags := flags.(hash := false);
    }
    assert buf[..0] == "";
    if !flags.precision || value != 0 {
      len := MakeDigits(buf, value, base, flags.upper);
    }
    assert sink.Snap() == s0;
    idx := NtoaFormat(sink, idx0, buf, len, negative, base, prec, width, flags);
  }

  // ---------- characters and strings ----------

  // The rest of str, or as much of it as precision allows.
  method OutString(sink: Sink, str: string, precise: bool, precision0: nat, idx0: nat) returns (idx: nat)
    requires sink.Room(idx0, |Cut(str, precise, precision0)|)
    modifies sink`sent, sink.buffer
    ensures idx == idx0 + |Cut(str, precise, precision0)|
    ensures sink.Snap() == PutAll(sink.kind, sink.maxlen, old(sink.Snap()), idx0, Cut(str, precise, precision0))
  {
    hide PutAll;
    var p: nat, precision := 0, precision0;
    idx := idx0;
    ghost var s0, all, text := sink.Snap(), Cut(str, precise, precision0), "";
    PutNone(sink.kind, sink.maxlen, s0, idx0);
    while p < |str| && (!precise || precision > 0)
      invariant p <= |all| && text == all[..p] && idx == idx0 + |text| && (precise ==> precision == precision0 - p)
      invariant sink.Snap() == PutAll(sink.kind, sink.maxlen, s0, idx0, text)
      decreases |str| - p
    {
      if precise { precision := precision - 1; }
      idx := Emit(sink, str[p], idx, s0, idx0, text);
      text := text + [str[p]];
      p := p + 1;
    }
    assert text == all;
  }

  function Cut(text: string, precise: bool, precision: nat): string {
    if precise then text[..Min(|text|, precision)] else text
  }

  // _strnlen_s
  method StrnlenS(str: string, maxsize0: nat) returns (l: nat)
    ensures l == Min(|str|, maxsize0)
  {
    var maxsize := maxsize0;
    l := 0;
    while l < |str| && maxsize > 0
      invariant l <= |str| && maxsize == maxsize0 - l
    {
      maxsize := maxsize - 1;
      l := l + 1;
    }
  }

  // Three parts of a field, one behind the other.
  lemma FieldParts(kind: Kind, maxlen: nat, s: Shot, idx: nat, text: string, width: nat, left: bool)
    ensures var blanks := Repeat(' ', width - |text|);
            PutAll(kind, maxlen, s, idx, InField(text, width, left)) ==
            if left then PutAll(kind, maxlen, PutAll(kind, maxlen, s, idx, text), idx + |text|, blanks)
            else PutAll(kind, maxlen, PutAll(kind, maxlen, s, idx, blanks), idx + |blanks|, text)
  {
    hide PutAll;
    var blanks := Repeat(' ', width - |text|);
    if left {
      PutConcat(kind, maxlen, s, idx, text, blanks);
      assert InField(text, width, left) == text + blanks;
    } else {
      PutConcat(kind, maxlen, s, idx, blanks, text);
      assert InField(text, width, left) == blanks + text;
    }
  }

  method OutCharField(sink: Sink, c: char, width: nat, left: bool, idx0: nat) returns (idx: nat)
    requires sink.Room(idx0, |InField([c], width, left)|)
    modifies sink`sent, sink.buffer
    ensures idx == idx0 + |InField([c], width, left)|
    ensures sink.Snap() == PutAll(sink.kind, sink.maxlen, old(sink.Snap()), idx0, InField([c], width, left))
  {
    hide PutAll;
    FieldParts(sink.kind, sink.maxlen, sink.Snap(), idx0, [c], width, left);
    idx := idx0;
    if !left {
      idx := PadField(sink, 1, width, idx);
    }
    PutNone(sink.kind, sink.maxlen, sink.Snap(), idx);
    assert "" + [c] == [c];
    idx := Emit(sink, c, idx, sink.Snap(), idx, "");
    if left {
      idx := PadField(sink, 1, width, idx);
    }
  }

  method OutStringField(sink: Sink, str: string, s: State, idx0: nat) returns (idx: nat)
    requires s.precision > 0 ==> s.f.precision
    requires |InField(Shown(str, s), s.width, s.f.left)| < U32 &&
             sink.Room(idx0, |InField(Shown(str, s), s.width, s.f.left)|)
    modifies sink`sent, sink.buffer
    ensures idx == idx0 + |InField(Shown(str, s), s.width, s.f.left)|
    ensures sink.Snap() ==
            PutAll(sink.kind, sink.maxlen, old(sink.Snap()), idx0, InField(Shown(str, s), s.width, s.f.left))
  {
    hide PutAll;
    FieldParts(sink.kind, sink.maxlen, sink.Snap(), idx0, Shown(str, s), s.width, s.f.left);
    var l := StrnlenS(str, if s.precision != 0 then s.precision else U32 - 1);
    if s.f.precision {
      l := if l < s.precision then l else s.precision;
    }
    assert l == |Shown(str, s)| && Cut(str, s.f.precision, s.precision) == Shown(str, s);
    idx := idx0;
    if !s.f.left {
      idx := PadField(sink, l, s.width, idx);
    }
    idx := OutString(sink, str, s.f.precision, s.precision, idx);
    if s.f.left {
      idx := PadField(sink, l, s.width, idx);
    }
  }

  // ---------- reading the format ----------

  method ParseFlags(format: string, pos0: nat) returns (f: Flags, pos: nat)
    ensures forall width, precision, va ::
              FlagsFrom(format, State(NO_FLAGS, width, precision, pos0, va)) == State(f, width, precision, pos, va)
  {
    f, pos := NO_FLAGS, pos0;
    var n := true;
    while n
      invariant forall width, precision, va :: FlagsFrom(format, State(NO_FLAGS, width, precision, pos0, va)) ==
                  if n then FlagsFrom(format, State(f, width, precision, pos, va))
                    else State(f, width, precision, pos, va)
      decreases |format| - pos, n
    {
      n := true;
      match At(format, pos)
      case '0' => f, pos := f.(zeropad := true), pos + 1;
      case '-' => f, pos := f.(left := true), pos + 1;
      case '+' => f, pos := f.(plus := true), pos + 1;
      case ' ' => f, pos := f.(space := true), pos + 1;
      case '#' => f, pos := f.(hash := true), pos + 1;
      case _ => n := false;
    }
  }

  // _atoi
  method Atoi(format: string, pos0: nat) returns (i: nat, pos: nat)
    ensures (i, pos) == NumberFrom(format, pos0, 0)
  {
    i, pos := 0, pos0;
    while IsDigit(At(format, pos))
      invariant NumberFrom(format, pos, i) == NumberFrom(format, pos0, 0)
      decreases |format| - pos
    {
      i := (i * 10 + (format[pos] - '0') as nat) % U32;
      pos := pos + 1;
    }
  }

  method Parse(format: string, pos0: nat, va0: seq<Arg>) returns (s: State)
    ensures s == Parsed(format, pos0, va0)
  {
    hide FlagsFrom, NumberFrom;
    var flags, pos := ParseFlags(format, pos0);
    s := State(flags, 0, 0, pos, va0);
    // width
    var c := At(format, s.pos);
    if IsDigit(c) {
      var width, end := Atoi(format, s.pos);
      s := s.(width := width, pos := end);
    } else if c == '*' {
      var w := Signed(AsWord(s.va), U32);
      if w < 0 {
        s := s.(f := s.f.(left := true), width := -w);
      } else {
        s := s.(width := w);
      }
      s := s.(pos := s.pos + 1, va := Rest(s.va));
    }
    assert s == WidthFrom(format, FlagsFrom(format, State(NO_FLAGS, 0, 0, pos0, va0)));
    ghost var s1 := s;
    // precision
    if At(format, s.pos) == '.' {
      s := s.(f := s.f.(precision := true), pos := s.pos + 1);
      c := At(format, s.pos);
      if IsDigit(c) {
        var precision, end := Atoi(format, s.pos);
        s := s.(precision := precision, pos := end);
      } else if c == '*' {
        var prec := Signed(AsWord(s.va), U32);
        s := s.(precision := if prec > 0 then prec else 0, pos := s.pos + 1, va := Rest(s.va));
      }
    }
    assert s == PrecisionFrom(format, s1);
    s := ParseLength(format, s);
  }

  method ParseLength(format: string, s0: State) returns (s: State)
    ensures s == LengthFrom(format, s0)
  {
    s := s0;
    var c := At(format, s.pos);
    if c == 'l' {
      s := s.(f := s.f.(long := true), pos := s.pos + 1);
      if At(format, s.pos) == 'l' {
        s := s.(f := s.f.(longLong := true), pos := s.pos + 1);
      }
    } else if c == 'h' {
      s := s.(f := s.f.(short := true), pos := s.pos + 1);
      if At(format, s.pos) == 'h' {
        s := s.(f := s.f.(char_ := true), pos := s.pos + 1);
      }
    } else if c == 't' || c == 'z' {
      s := s.(f := s.f.(long := true), pos := s.pos + 1);
    } else if c == 'j' {
      s := s.(f := s.f.(longLong := true), pos := s.pos + 1);
    }
  }

  // ---------- the interpreter ----------

  // Where reading goes on does not depend on the arguments.
  lemma StagesAlike(format: string, s: State, t: State)
    requires s.pos == t.pos
    ensures WidthFrom(format, s).pos == WidthFrom(format, t).pos
    ensures PrecisionFrom(format, s).pos == PrecisionFrom(format, t).pos
    ensures LengthFrom(format, s).pos == LengthFrom(format, t).pos
  {
    hide NumberFrom;
  }

  lemma LengthKeepsPrecision(format: string, s: State)
    ensures LengthFrom(format, s).precision == s.precision && LengthFrom(format, s).f.precision == s.f.precision
  {
    hide LengthEnd, LengthFlags;
  }

  lemma WidthKeepsPrecision(format: string, s: State)
    ensures WidthFrom(format, s).precision == s.precision && WidthFrom(format, s).f.precision == s.f.precision
  {
    hide NumberFrom;
  }

  lemma PrecisionSetsFlag(format: string, s: State)
    requires s.precision > 0 ==> s.f.precision
    ensures PrecisionFrom(format, s).precision > 0 ==> PrecisionFrom(format, s).f.precision
  {
    hide NumberFrom;
  }

  lemma ParsedFacts(format: string, pos: nat, va: seq<Arg>)
    ensures var s := Parsed(format, pos, va);
            (s.precision > 0 ==> s.f.precision) && s.pos == Parsed(format, pos, []).pos
  {
    hide FlagsFrom, WidthFrom, PrecisionFrom, LengthFrom;
    FlagsApart(format, State(NO_FLAGS, 0, 0, pos, va), []);
    var s0, t0 := FlagsFrom(format, State(NO_FLAGS, 0, 0, pos, va)), FlagsFrom(format, State(NO_FLAGS, 0, 0, pos, []));
    var s1, t1 := WidthFrom(format, s0), WidthFrom(format, t0);
    var s2, t2 := PrecisionFrom(format, s1), PrecisionFrom(format, t1);
    StagesAlike(format, s0, t0);
    StagesAlike(format, s1, t1);
    StagesAlike(format, s2, t2);
    WidthKeepsPrecision(format, s0);
    PrecisionSetsFlag(format, s1);
    LengthKeepsPrecision(format, s2);
  }

  lemma {:induction false} FlagsApart(format: string, s: State, va: seq<Arg>)
    ensures FlagsFrom(format, s.(va := va)) == FlagsFrom(format, s).(va := va)
    decreases |format| - s.pos
  {
    if s.pos < |format| && IsFlag(format[s.pos]) {
      FlagsApart(format, s.(f := FlagOf(format[s.pos], s.f), pos := s.pos + 1), va);
    }
  }

  // va_arg, narrowed as the length modifier asks
  method IntegerArg(c: char, flags: Flags, va: seq<Arg>) returns (value: int)
    ensures value == IntegerValue(c, flags, va)
  {
    hide Signed, AsWord, AsLongLong;
    if c == 'i' || c == 'd' {
      if flags.longLong {
        value := Signed(AsLongLong(va), U64);
      } else if flags.long {
        value := Signed(AsWord(va), U32);
      } else if flags.char_ {
        value := AsWord(va) % 0x100;
      } else if flags.short {
        value := Signed(AsWord(va), 0x1_0000);
      } else {
        value := Signed(AsWord(va), U32);
      }
    } else if flags.longLong {
      value := AsLongLong(va);
    } else if flags.long {
      value := AsWord(va);
    } else if flags.char_ {
      value := AsWord(va) % 0x100;
    } else if flags.short {
      value := AsWord(va) % 0x1_0000;
    } else {
      value := AsWord(va);
    }
  }

  method IntegerBase(c: char) returns (base: nat)
    ensures base == BaseOf(c)
  {
    if c == 'x' || c == 'X' {
      base := 16;
    } else if c == 'o' {
      base := 8;
    } else if c == 'b' {
      base := 2;
    } else {
      base := 10;
    }
  }

  // The flags that count for the conversion: no '#' in base ten, no '+' and ' ' for unsigned numbers, no '0' with a
  // precision.
  method IntegerForm(c: char, base: nat, f: Flags) returns (flags: Flags)
    requires base == BaseOf(c)
    ensures flags == IntegerFlags(c, f)
  {
    hide BaseOf;
    flags := f;
    if base == 10 { flags := flags.(hash := false); }
    if c == 'X' { flags := flags.(upper := true); }
    if c != 'i' && c != 'd' { flags := flags.(plus := false, space := false); }
    if flags.precision { flags := flags.(zeropad := false); }
  }

  // d, i, u, x, X, o and b
  method OutInteger(sink: Sink, c: char, s: State, idx0: nat) returns (idx: nat)
    requires sink.Room(idx0, |IntegerText(c, s)|)
    modifies sink`sent, sink.buffer
    ensures idx == idx0 + |IntegerText(c, s)|
    ensures sink.Snap() == PutAll(sink.kind, sink.maxlen, old(sink.Snap()), idx0, IntegerText(c, s))
  {
    hide PutAll, NumberText, IntegerValue, IntegerFlags, BaseOf;
    var base := IntegerBase(c);
    var flags := IntegerForm(c, base, s.f);
    var value := IntegerArg(c, s.f, s.va);
    idx := Ntoa(sink, idx0, if value > 0 then value else -value, value < 0, base, s.precision, s.width, flags);
  }

  // One specifier.
  method Convert(sink: Sink, c: char, s: State, idx0: nat) returns (idx: nat, va: seq<Arg>)
    requires s.precision > 0 ==> s.f.precision
    requires |DirectiveText(c, s)| < U32 && sink.Room(idx0, |DirectiveText(c, s)|)
    modifies sink`sent, sink.buffer
    ensures idx == idx0 + |DirectiveText(c, s)| && va == AfterDirective(c, s)
    ensures sink.Snap() == PutAll(sink.kind, sink.maxlen, old(sink.Snap()), idx0, DirectiveText(c, s))
  {
    hide PutAll, NumberText, InField, IntegerText, Shown, CharOf, AsWord, AsString, Rest;
    va := s.va;
    if IsInteger(c) {
      idx := OutInteger(sink, c, s, idx0);
      va := Rest(va);
    } else if c == 'c' {
      idx := OutCharField(sink, CharOf(AsWord(va)), s.width, s.f.left, idx0);
      va := Rest(va);
    } else if c == 's' {
      idx := OutStringField(sink, AsString(va), s, idx0);
      va := Rest(va);
    } else if c == 'p' {
      idx := Ntoa(sink, idx0, AsWord(va), false, 16, s.precision, 8, s.f.(zeropad := true, upper := true));
      va := Rest(va);
    } else {
      PutNone(sink.kind, sink.maxlen, sink.Snap(), idx0);
      assert "" + [c] == [c];
      idx := Emit(sink, c, idx0, sink.Snap(), idx0, "");
    }
  }

  lemma RenderChar(format: string, pos: nat, va: seq<Arg>)
    requires pos < |format| && format[pos] != '%' && Complete(format, pos)
    ensures Render(format, pos, va) == [format[pos]] + Render(format, pos + 1, va) && Complete(format, pos + 1)
  {
  }

  lemma RenderDirective(format: string, pos: nat, va: seq<Arg>)
    requires pos < |format| && format[pos] == '%' && Complete(format, pos)
    ensures var s := Parsed(format, pos + 1, va);
            s.pos < |format| && (s.precision > 0 ==> s.f.precision) && Complete(format, s.pos + 1) &&
            Render(format, pos, va) == DirectiveText(format[s.pos], s) +
              Render(format, s.pos + 1, AfterDirective(format[s.pos], s))
  {
    hide Parsed, DirectiveText, AfterDirective;
    ParsedFacts(format, pos + 1, va);
  }

  lemma RenderEnd(format: string, pos: nat, va: seq<Arg>)
    requires pos >= |format|
    ensures Render(format, pos, va) == ""
  {
  }

  lemma Shorter(all: string, text: string, piece: string, rest: string)
    requires all == text + (piece + rest)
    ensures all == (text + piece) + rest && |all| >= |text| + |piece|
  {
  }

  // Where the terminating NUL goes.
  function EndIndex(maxlen: nat, idx: nat): nat { if idx < maxlen then idx else (maxlen - 1) % U32 }

  method Vsnprintf(sink: Sink, format0: CString, va0: seq<Arg>) returns (ret: nat)
    requires Complete(format0, 0) && |Render(format0, 0, va0)| < U32 && sink.maxlen < U32
    requires sink.Room(0, |Render(format0, 0, va0)| + 1)
    modifies sink`sent, sink.buffer
    ensures ret == |Render(format0, 0, va0)|
    ensures sink.Snap() ==
            Put(sink.kind, sink.maxlen, PutAll(sink.kind, sink.maxlen, old(sink.Snap()), 0, Render(format0, 0, va0)),
                               EndIndex(sink.maxlen, ret), '\0')
  {
    hide PutAll, DirectiveText, AfterDirective, Parsed, Render, Complete;
    var idx, format, va := 0, 0, va0;
    ghost var s0, all, text := sink.Snap(), Render(format0, 0, va0), "";
    PutNone(sink.kind, sink.maxlen, s0, 0);
    while format < |format0|
      invariant idx == |text| && all == text + Render(format0, format, va) && Complete(format0, format)
      invariant sink.Snap() == PutAll(sink.kind, sink.maxlen, s0, 0, text)
      decreases |format0| - format
    {
      ghost var piece;
      if format0[format] != '%' {
        piece := [format0[format]];
        RenderChar(format0, format, va);
        Shorter(all, text, piece, Render(format0, format + 1, va));
        idx := Emit(sink, format0[format], idx, s0, 0, text);
        format := format + 1;
      } else {
        RenderDirective(format0, format, va);
        var s := Parse(format0, format + 1, va);
        piece := DirectiveText(format0[s.pos], s);
        Shorter(all, text, piece, Render(format0, s.pos + 1, AfterDirective(format0[s.pos], s)));
        PutConcat(sink.kind, sink.maxlen, s0, 0, text, piece);
        idx, va := Convert(sink, format0[s.pos], s, idx);
        format := s.pos + 1;
      }
      text := text + piece;
    }
    RenderEnd(format0, format, va);
    assert text == all;
    sink.Out('\0', EndIndex(sink.maxlen, idx));
    ret := idx;
  }

  // snprintf_ and, with the largest count, sprintf_. A bounded run is the unbounded one cut short: the return value is
  // the full length, the buffer holds the first count - 1 characters at most, then NUL, and nothing behind that is
  // touched.
  method Snprintf(buffer: array?<char>, count: nat, format: CString, va: seq<Arg>) returns (ret: nat)
    requires Complete(format, 0) && |Render(format, 0, va)| < U32 && count < U32
    requires buffer != null ==> count <= buffer.Length || |Render(format, 0, va)| < buffer.Length
    modifies if buffer == null then {} else {buffer}
    ensures ret == |Render(format, 0, va)|
    ensures buffer != null && count > 0 ==> Printed(buffer[..], old(buffer[..]), Render(format, 0, va), count)
    ensures buffer != null && count == 0 ==> buffer[..] == old(buffer[..])
  {
    hide Render, Complete, PutAll;
    if buffer == null {
      var none := new char[0];
      var sink := new Sink(ToNull, none, count);
      ret := Vsnprintf(sink, format, va);
    } else {
      var sink := new Sink(ToBuffer, buffer, count);
      ghost var s0, all := sink.Snap(), Render(format, 0, va);
      ret := Vsnprintf(sink, format, va);
      BufferAfter(count, s0, all);
    }
  }

  ghost predicate Printed(after: string, before: string, text: string, count: nat) {
    0 < count && var n := Min(|text|, count - 1);
    n < |after| == |before| && after[..n] == text[..n] && after[n] == '\0' && after[n + 1..] == before[n + 1..]
  }

  // printf_: every character but NUL goes to the port; the terminating NUL does not.
  method PrintfToPort(format: CString, va: seq<Arg>) returns (ret: nat, sent: string)
    requires Complete(format, 0) && |Render(format, 0, va)| < U32
    ensures ret == |Render(format, 0, va)| && sent == Visible(Render(format, 0, va))
  {
    hide Render, Complete, Visible;
    var buffer := new char[1];
    var sink := new Sink(ToChar, buffer, U32 - 1);
    ghost var s0, all := sink.Snap(), Render(format, 0, va);
    ret := Vsnprintf(sink, format, va);
    CharsAfter(U32 - 1, s0, 0, all);
    sent := sink.sent;
  }

  // A longer buffer shows the same characters and more.
  lemma LongerShowsMore(a: string, a0: string, b: string, b0: string, text: string, m: nat, n: nat)
    requires Printed(a, a0, text, m) && Printed(b, b0, text, n) && m <= n
    ensures a[..Min(|text|, m - 1)] <= b[..Min(|text|, n - 1)]
  {
    assert text[..Min(|text|, m - 1)] <= text[..Min(|text|, n - 1)];
  }
}
