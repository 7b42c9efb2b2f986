/**
  What the embedded printf (software/coremark_app/printf.c) prints: the text of a format string and its
  arguments, without regard to where it goes. On this target int, long and pointers have 32 bits, long
  long has 64, and char is unsigned.
*/
module PrintfText {

  const NTOA_BUFFER_SIZE := 32
  const U32 := 0x1_0000_0000
  const U64 := 0x1_0000_0000_0000_0000

  datatype Flags = Flags(zeropad: bool, left: bool, plus: bool, space: bool, hash: bool, upper: bool,
                         char_: bool, short: bool, long: bool, longLong: bool, precision: bool)

  const NO_FLAGS := Flags(false, false, false, false, false, false, false, false, false, false, false)

  predicate NulFree(s: string) { forall i | 0 <= i < |s| :: s[i] != '\0' }

  // What C reads of a string: the characters in front of its NUL.
  type CString = s: string | NulFree(s)

  // The variable arguments, one by one. Reading one of the wrong kind, or past the last, is undefined in C; here it
  // gives zero or the empty string.
  datatype Arg = Word(bits: nat) | LongLong(wide: nat) | Str(text: CString)

  function Rest(va: seq<Arg>): seq<Arg> { if va == [] then [] else va[1..] }
  function AsWord(va: seq<Arg>): (w: nat)
    ensures w < U32
  {
    if va != [] && va[0].Word? then va[0].bits % U32 else 0
  }
  function AsLongLong(va: seq<Arg>): (w: nat)
    ensures w < U64
  {
    if va != [] && va[0].LongLong? then va[0].wide % U64 else 0
  }
  function AsString(va: seq<Arg>): CString { if va != [] && va[0].Str? then va[0].text else "" }

  // The signed reading of a word of the given size.
  function Signed(w: nat, size: nat): int
    requires 0 < size
  {
    if w % size < size / 2 then w % size else w % size - size
  }

  function Magnitude(x: int): nat { if x > 0 then x else -x }

  function Min(a: nat, b: nat): nat { if a <= b then a else b }

  // ---------- padding and digits ----------

  function Repeat(c: char, n: int): (s: string)
    ensures |s| == (if n > 0 then n else 0) && forall i | 0 <= i < |s| :: s[i] == c
  {
    if n <= 0 then "" else seq(n, _ => c)
  }

  function Reverse(s: string): (r: string)
    ensures |r| == |s| && forall i | 0 <= i < |s| :: r[i] == s[|s| - 1 - i]
  {
    seq(|s|, i requires 0 <= i < |s| => s[|s| - 1 - i])
  }

  function Digit(d: nat, upper: bool): char
    requires d < 16
  {
    if d < 10 then '0' + d as char else (if upper then 'A' else 'a') + (d - 10) as char
  }

  // Least digit first, as they are produced; at most room of them.
  function Digits(value: nat, base: nat, upper: bool, room: nat): (s: string)
    requires 2 <= base <= 16 && 0 < room
    ensures 1 <= |s| <= room
    decreases room
  {
    [Digit(value % base, upper)] + if value / base != 0 && room > 1 then Digits(value / base, base, upper, room - 1)
      else ""
  }

  // _out_rev: spaces in front unless zeros were asked for, the digits, spaces behind.
  function RevText(buf: string, width: nat, f: Flags): string {
    (if !f.left && !f.zeropad then Repeat(' ', width - |buf|) else "") + Reverse(buf) +
      (if f.left then Repeat(' ', width - |buf|) else "")
  }

  // _ntoa_format, step by step: zeros, the base prefix, the sign.
  function Signs(negative: bool, f: Flags): bool { negative || f.plus || f.space }

  function InnerWidth(negative: bool, width: nat, f: Flags): nat {
    if !f.left && width > 0 && f.zeropad && Signs(negative, f) then width - 1 else width
  }

  function UpTo(buf: string, len: nat): (s: string)
    ensures |buf| <= NTOA_BUFFER_SIZE ==> |s| <= NTOA_BUFFER_SIZE
  {
    buf + Repeat('0', Min(len, NTOA_BUFFER_SIZE) - |buf|)
  }

  function Zeroed(buf: string, prec: nat, width: nat, f: Flags): (s: string)
    ensures |buf| <= NTOA_BUFFER_SIZE ==> |s| <= NTOA_BUFFER_SIZE
  {
    if f.left then buf else if f.zeropad then UpTo(UpTo(buf, prec), width) else UpTo(buf, prec)
  }

  function Append(buf: string, c: char): (s: string)
    ensures |buf| <= NTOA_BUFFER_SIZE ==> |s| <= NTOA_BUFFER_SIZE
  {
    if |buf| < NTOA_BUFFER_SIZE then buf + [c] else buf
  }

  function Prefixed(buf: string, base: nat, prec: nat, width: nat, f: Flags): (s: string)
    ensures |buf| <= NTOA_BUFFER_SIZE ==> |s| <= NTOA_BUFFER_SIZE
  {
    if !f.hash then buf
    else
      var cut := !f.precision && |buf| > 0 && (|buf| == prec || |buf| == width);
      var b1 := if cut then buf[..|buf| - 1] else buf;
      var b2 := if cut && |b1| > 0 && base == 16 then b1[..|b1| - 1] else b1;
      var b3 := if base == 16 then Append(b2, if f.upper then 'X' else 'x') else if base == 2 then Append(b2, 'b')
        else b2;
      Append(b3, '0')
  }

  function WithSign(buf: string, negative: bool, f: Flags): (s: string)
    ensures |buf| <= NTOA_BUFFER_SIZE ==> |s| <= NTOA_BUFFER_SIZE
  {
    if negative then Append(buf, '-') else if f.plus then Append(buf, '+') else if f.space then Append(buf, ' ')
      else buf
  }

  function FormatText(buf: string, negative: bool, base: nat, prec: nat, width0: nat, f: Flags): string {
    var width := InnerWidth(negative, width0, f);
    RevText(WithSign(Prefixed(Zeroed(buf, prec, width, f), base, prec, width, f), negative, f), width, f)
  }

  // _ntoa_long and _ntoa_long_long
  function NumberText(value: nat, negative: bool, base: nat, prec: nat, width: nat, f0: Flags): string
    requires 2 <= base <= 16
  {
    var f := if value == 0 then f0.(hash := false) else f0;
    var buf := if !f.precision || value != 0 then Digits(value, base, f.upper, NTOA_BUFFER_SIZE) else "";
    FormatText(buf, negative, base, prec, width, f)
  }

  // ---------- the format string ----------

  function At(s: string, pos: nat): char { if pos < |s| then s[pos] else '\0' }

  predicate IsDigit(c: char) { '0' <= c <= '9' }

  function FlagOf(c: char, f: Flags): Flags {
    if c == '0' then f.(zeropad := true) else if c == '-' then f.(left := true) else if c == '+' then f.(plus := true)
    else if c == ' ' then f.(space := true) else f.(hash := true)
  }

  predicate IsFlag(c: char) { c == '0' || c == '-' || c == '+' || c == ' ' || c == '#' }

  // The directive under way: what has been read of it, and where reading goes on.
  datatype State = State(f: Flags, width: nat, precision: nat, pos: nat, va: seq<Arg>)

  function FlagsFrom(format: string, s: State): (t: State)
    ensures s.pos <= t.pos && t == s.(f := t.f, pos := t.pos)
    decreases |format| - s.pos
  {
    if s.pos < |format| &&
      IsFlag(format[s.pos]) then FlagsFrom(format, s.(f := FlagOf(format[s.pos], s.f), pos := s.pos + 1)) else s
  }

  // _atoi: unsigned 32-bit, and where the digits end.
  function NumberFrom(format: string, pos: nat, i: nat): (r: (nat, nat))
    ensures pos <= r.1
    decreases |format| - pos
  {
    if pos < |format| && IsDigit(format[pos])
      then NumberFrom(format, pos + 1, (i * 10 + (format[pos] - '0') as nat) % U32) else (i, pos)
  }

  function WidthFrom(format: string, s: State): (t: State)
    ensures s.pos <= t.pos
  {
    var c := At(format, s.pos);
    if IsDigit(c) then var n := NumberFrom(format, s.pos, 0); s.(width := n.0, pos := n.1)
    else if c == '*' then
      var w := Signed(AsWord(s.va), U32);
      s.(f := if w < 0 then s.f.(left := true) else s.f, width := Magnitude(w), pos := s.pos + 1, va := Rest(s.va))
    else s
  }

  function PrecisionFrom(format: string, s: State): (t: State)
    ensures s.pos <= t.pos
  {
    if At(format, s.pos) != '.' then s
    else
      var t := s.(f := s.f.(precision := true), pos := s.pos + 1);
      var c := At(format, t.pos);
      if IsDigit(c) then var n := NumberFrom(format, t.pos, 0); t.(precision := n.0, pos := n.1)
      else if c == '*' then
        var p := Signed(AsWord(t.va), U32);
        t.(precision := if p > 0 then p else 0, pos := t.pos + 1, va := Rest(t.va))
      else t
  }

  function LengthFrom(format: string, s: State): (t: State)
    ensures s.pos <= t.pos
  {
    var n := LengthEnd(format, s.pos);
    s.(f := LengthFlags(n - s.pos, At(format, s.pos), s.f), pos := n)
  }

  function LengthEnd(format: string, pos: nat): (n: nat)
    ensures pos <= n <= pos + 2
  {
    var c := At(format, pos);
    if c == 'l' || c == 'h' then if At(format, pos + 1) == c then pos + 2 else pos + 1
    else if c == 't' || c == 'z' || c == 'j' then pos + 1
    else pos
  }

  // The flags of a length modifier of n characters, the first of which is c.
  function LengthFlags(n: nat, c: char, f: Flags): (g: Flags)
    ensures g.precision == f.precision
  {
    if n == 0 then f
    else if c == 'l' then f.(long := true, longLong := if n == 2 then true else f.longLong)
    else if c == 'h' then f.(short := true, char_ := if n == 2 then true else f.char_)
    else if c == 'j' then f.(longLong := true)
    else f.(long := true)
  }

  // Everything between the percent sign and the specifier.
  function Parsed(format: string, pos: nat, va: seq<Arg>): (t: State)
    ensures pos <= t.pos
  {
    LengthFrom(format, PrecisionFrom(format, WidthFrom(format, FlagsFrom(format, State(NO_FLAGS, 0, 0, pos, va)))))
  }

  // ---------- the specifiers ----------

  predicate IsInteger(c: char) { c == 'd' || c == 'i' || c == 'u' || c == 'x' || c == 'X' || c == 'o' || c == 'b' }

  function BaseOf(c: char): (b: nat)
    ensures 2 <= b <= 16
  {
    if c == 'x' || c == 'X' then 16 else if c == 'o' then 8 else if c == 'b' then 2 else 10
  }

  predicate IsSigned(c: char) { c == 'd' || c == 'i' }

  function IntegerFlags(c: char, f: Flags): Flags {
    var f1 := if BaseOf(c) == 10 then f.(hash := false) else f;
    var f2 := if c == 'X' then f1.(upper := true) else f1;
    var f3 := if !IsSigned(c) then f2.(plus := false, space := false) else f2;
    if f3.precision then f3.(zeropad := false) else f3
  }

  // The value of an integer argument, as its conversion reads it.
  function IntegerValue(c: char, f: Flags, va: seq<Arg>): int {
    if f.longLong then if IsSigned(c) then Signed(AsLongLong(va), U64) else AsLongLong(va)
    else if f.long then if IsSigned(c) then Signed(AsWord(va), U32) else AsWord(va)
    else if f.char_ then AsWord(va) % 0x100
    else if f.short then if IsSigned(c) then Signed(AsWord(va), 0x1_0000) else AsWord(va) % 0x1_0000
    else if IsSigned(c) then Signed(AsWord(va), U32)
    else AsWord(va)
  }

  function IntegerText(c: char, s: State): string {
    var x := IntegerValue(c, s.f, s.va);
    NumberText(Magnitude(x), x < 0, BaseOf(c), s.precision, s.width, IntegerFlags(c, s.f))
  }

  // A text of n characters in a field: blanks in front, or behind with '-'.
  function InField(text: string, width: nat, left: bool): string {
    (if left then "" else Repeat(' ', width - |text|)) + text + (if left then Repeat(' ', width - |text|) else "")
  }

  function CharOf(w: nat): char { (w % 0x100) as char }

  function Shown(text: string, s: State): string {
    if s.f.precision then text[..Min(|text|, s.precision)] else text
  }

  function DirectiveText(c: char, s: State): string {
    if IsInteger(c) then IntegerText(c, s)
    else if c == 'c' then InField([CharOf(AsWord(s.va))], s.width, s.f.left)
    else if c == 's' then InField(Shown(AsString(s.va), s), s.width, s.f.left)
    else if c == 'p' then NumberText(AsWord(s.va), false, 16, s.precision, 8, s.f.(zeropad := true, upper := true))
    else [c]
  }

  predicate TakesArg(c: char) { IsInteger(c) || c == 'c' || c == 's' || c == 'p' }

  function AfterDirective(c: char, s: State): seq<Arg> { if TakesArg(c) then Rest(s.va) else s.va }

  // No directive runs into the end of the format.
  predicate Complete(format: string, pos: nat)
    decreases |format| - pos
  {
    if pos >= |format| then true
    else if format[pos] != '%' then Complete(format, pos + 1)
    else
      var p := Parsed(format, pos + 1, []).pos;
      p < |format| && Complete(format, p + 1)
  }

  function Render(format: string, pos: nat, va: seq<Arg>): string
    decreases |format| - pos
  {
    if pos >= |format| then ""
    else if format[pos] != '%' then [format[pos]] + Render(format, pos + 1, va)
    else
      var s := Parsed(format, pos + 1, va);
      if s.pos >= |format| then "" // excluded by Complete
      else DirectiveText(format[s.pos], s) + Render(format, s.pos + 1, AfterDirective(format[s.pos], s))
  }
}
