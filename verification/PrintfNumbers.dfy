/** What the printed numbers mean: they read back as the value, in a field laid out as the flags ask. */
module PrintfNumbers {
  import opened Division
  import opened PrintfText

  // ---------- reading digits ----------

  function DigitValue(c: char): nat {
    if '0' <= c <= '9' then (c - '0') as nat else if 'a' <= c <= 'f' then (c - 'a') as nat + 10
    else if 'A' <= c <= 'F' then (c - 'A') as nat + 10 else 0
  }

  // The value of digits, least first.
  function ReadDigits(s: string, base: nat): nat {
    if s == "" then 0 else DigitValue(s[0]) + base * ReadDigits(s[1..], base)
  }

  function Power(base: nat, n: nat): nat { if n == 0 then 1 else base * Power(base, n - 1) }

  lemma DigitReads(d: nat, upper: bool)
    requires d < 16
    ensures DigitValue(Digit(d, upper)) == d
  {
  }

  lemma {:induction false} PowerPositive(base: nat, n: nat)
    requires 0 < base
    ensures Power(base, n) >= 1
  {
    if n > 0 { PowerPositive(base, n - 1); }
  }

  // What remains of a value when room runs out: its low digits.
  lemma {:induction false} DigitsReadBack(value: nat, base: nat, upper: bool, room: nat)
    requires 2 <= base <= 16 && 0 < room
    ensures Power(base, room) > 0 && ReadDigits(Digits(value, base, upper, room), base) == value % Power(base, room)
    decreases room
  {
    var q, p := value / base, Power(base, room - 1);
    PowerPositive(base, room - 1);
    PowerPositive(base, room);
    assert Power(base, room) == base * p;
    assert room == 1 ==> p == 1;
    hide *;
    var rest := if q != 0 && room > 1 then ReadDigits(Digits(q, base, upper, room - 1), base) else 0;
    if q != 0 && room > 1 {
      DigitsReadBack(q, base, upper, room - 1);
    }
    RestIs(q, p, room, rest);
    FirstDigit(value, base, upper, room, rest);
    LowDigits(value, base, p, rest);
  }

  lemma RestIs(q: nat, p: nat, room: nat, rest: nat)
    requires 0 < p && (room == 1 ==> p == 1) && rest == if q != 0 && room > 1 then q % p else 0
    ensures 0 < room ==> rest == q % p
  {
  }

  lemma FirstDigit(value: nat, base: nat, upper: bool, room: nat, rest: nat)
    requires 2 <= base <= 16 && 0 < room
    requires rest == if value / base != 0 &&
             room > 1 then ReadDigits(Digits(value / base, base, upper, room - 1), base) else 0
    ensures ReadDigits(Digits(value, base, upper, room), base) == value % base + base * rest
  {
    hide *;
    DigitReads(value % base, upper);
    DigitsCons(value, base, upper, room);
    ReadCons(Digit(value % base, upper), if value / base != 0 &&
      room > 1 then Digits(value / base, base, upper, room - 1) else "", base);
    ReadNone(base);
  }

  lemma DigitsCons(value: nat, base: nat, upper: bool, room: nat)
    requires 2 <= base <= 16 && 0 < room
    ensures value % base < 16
    ensures Digits(value, base, upper, room) ==
            [Digit(value % base, upper)] + if value / base != 0 &&
              room > 1 then Digits(value / base, base, upper, room - 1) else ""
  {
  }

  lemma ReadNone(base: nat)
    ensures ReadDigits("", base) == 0
  {
  }

  lemma ReadCons(d: char, t: string, base: nat)
    ensures ReadDigits([d] + t, base) == DigitValue(d) + base * ReadDigits(t, base)
  {
    assert ([d] + t)[1..] == t;
  }

  lemma LowDigits(value: nat, base: nat, p: nat, rest: nat)
    requires 0 < base && 0 < p && rest == (value / base) % p
    ensures 0 < base * p && value % base + base * rest == value % (base * p)
  {
    var q := value / base;
    LowDigitsOf(value, base, p, q, value % base, q / p, rest);
  }

  lemma LowDigitsOf(value: nat, base: nat, p: nat, q: nat, d: nat, k: nat, rest: nat)
    requires value == base * q + d && d < base && q == p * k + rest && rest < p
    ensures 0 < base * p && value % (base * p) == d + base * rest
  {
    Regroup(base, p, k, rest);
    StepUp(base, rest, p);
    ScaleUp(base, 1, p);
    QuotientIs(value, base * p, k, d + base * rest);
  }

  lemma Regroup(base: nat, p: nat, k: nat, rest: nat)
    ensures base * (p * k + rest) == (base * p) * k + base * rest
  {
  }

  // So the digits are the whole value exactly if they had room.
  lemma DigitsExactIff(value: nat, base: nat, upper: bool, room: nat)
    requires 2 <= base <= 16 && 0 < room
    ensures ReadDigits(Digits(value, base, upper, room), base) == value <==> value < Power(base, room)
  {
    hide Power, Digits, ReadDigits;
    DigitsReadBack(value, base, upper, room);
    SmallIff(value, Power(base, room));
  }

  lemma SmallIff(x: nat, p: nat)
    requires 0 < p
    ensures x % p == x <==> x < p
  {
  }

  lemma {:induction false} PowerGrows(base: nat, n: nat)
    requires 2 <= base
    ensures Power(base, n) >= Power(2, n)
  {
    if n > 0 {
      PowerGrows(base, n - 1);
      assert base * Power(base, n - 1) >= 2 * Power(base, n - 1);
    }
  }

  lemma PowersOfTwo()
    ensures Power(2, 32) == U32
  {
    assert Power(2, 8) == 0x100;
    assert Power(2, 16) == 0x1_0000;
    assert Power(2, 24) == 0x100_0000;
  }

  // Every 32-bit number fits the buffer in every base; a 64-bit one need not in base two.
  lemma WordsFit(value: nat, base: nat, upper: bool)
    requires 2 <= base <= 16 && value < U32
    ensures ReadDigits(Digits(value, base, upper, NTOA_BUFFER_SIZE), base) == value
  {
    PowersOfTwo();
    PowerGrows(base, 32);
    DigitsExactIff(value, base, upper, 32);
  }

  lemma LongLongBinaryTruncated()
    ensures ReadDigits(Digits(U32, 2, false, NTOA_BUFFER_SIZE), 2) == 0
  {
    PowersOfTwo();
    DigitsReadBack(U32, 2, false, 32);
  }

  // ---------- the field ----------

  function SignText(negative: bool, f: Flags): (s: string)
    ensures |s| <= 1
  {
    if negative then "-" else if f.plus then "+" else if f.space then " " else ""
  }

  function Max(a: int, b: int): int { if a < b then b else a }

  // The layout of section 7.19.6.1 of C99: blanks, sign, zeros, digits.
  function Layout(digits: string, negative: bool, prec: nat, width: nat, f: Flags): string {
    var sign := SignText(negative, f);
    var inner := Inner(digits, sign, prec, width, f);
    Repeat(' ', width - |sign| - inner) + sign + Repeat('0', inner - |digits|) + Reverse(digits)
  }

  lemma LayoutLength(digits: string, negative: bool, prec: nat, width: nat, f: Flags)
    ensures |Layout(digits, negative, prec, width, f)| == Max(width, Max(|digits|, prec) + |SignText(negative, f)|)
  {
  }

  lemma ReverseConcat(a: string, b: string)
    ensures Reverse(a + b) == Reverse(b) + Reverse(a)
  {
  }

  lemma ReverseRepeat(c: char, n: int)
    ensures Reverse(Repeat(c, n)) == Repeat(c, n)
  {
  }

  lemma UpToTwice(buf: string, a: nat, b: nat)
    ensures UpTo(UpTo(buf, a), b) == buf + Repeat('0', Min(Max(a, b), NTOA_BUFFER_SIZE) - |buf|)
  {
  }

  // Without '#' and '-', and with room for zeros, digits and sign in the buffer, a number is laid out as the standard
  // says.
  lemma FormatIsLayout(buf: string, negative: bool, base: nat, prec: nat, width: nat, f: Flags)
    requires !f.hash && !f.left && Needed(buf, negative, prec, width, f) <= NTOA_BUFFER_SIZE
    ensures FormatText(buf, negative, base, prec, width, f) == Layout(buf, negative, prec, width, f)
  {
    hide RevText, Reverse, Repeat, Zeroed, Append;
    var sign := SignText(negative, f);
    var w, inner := InnerWidth(negative, width, f), Inner(buf, sign, prec, width, f);
    var zeros := Repeat('0', inner - |buf|);
    ZeroedIs(buf, negative, prec, width, f);
    WithSignIs(buf + zeros, negative, f);
    RevTextIs(buf, zeros, sign, w, width, inner, f);
  }

  function Inner(digits: string, sign: string, prec: nat, width: nat, f: Flags): int {
    Max(|digits|, if f.zeropad then Max(prec, width - |sign|) else prec)
  }

  // The places that zeros, digits and sign take.
  function Needed(digits: string, negative: bool, prec: nat, width: nat, f: Flags): int {
    Inner(digits, SignText(negative, f), prec, width, f) + |SignText(negative, f)|
  }

  lemma ZeroedIs(buf: string, negative: bool, prec: nat, width: nat, f: Flags)
    requires !f.left && |buf| <= NTOA_BUFFER_SIZE
    ensures var inner := Inner(buf, SignText(negative, f), prec, width, f);
            inner >= |buf| &&
            Zeroed(buf, prec, InnerWidth(negative, width, f), f) ==
            buf + Repeat('0', (if inner <= NTOA_BUFFER_SIZE then inner else NTOA_BUFFER_SIZE) - |buf|)
  {
    UpToTwice(buf, prec, InnerWidth(negative, width, f));
  }

  lemma WithSignIs(buf: string, negative: bool, f: Flags)
    requires |buf| + |SignText(negative, f)| <= NTOA_BUFFER_SIZE
    ensures WithSign(buf, negative, f) == buf + SignText(negative, f)
  {
    assert buf + "" == buf;
  }

  lemma RevTextIs(buf: string, zeros: string, sign: string, w: nat, width: nat, inner: int, f: Flags)
    requires !f.left && |sign| <= 1 && zeros == Repeat('0', inner - |buf|) && inner >= |buf|
    requires if f.zeropad then true else w == width
    requires f.zeropad ==> width - |sign| <= inner
    ensures RevText(buf + zeros + sign, w, f) == Repeat(' ', width - |sign| - inner) + sign + zeros + Reverse(buf)
  {
    ReverseConcat(buf + zeros, sign);
    ReverseConcat(buf, zeros);
    ReverseRepeat('0', inner - |buf|);
    assert Reverse(sign) == sign;
    hide Reverse;
    var blanks := Repeat(' ', width - |sign| - inner);
    assert blanks + (sign + (zeros + Reverse(buf))) + "" == blanks + sign + zeros + Reverse(buf);
  }

  function DigitsFor(value: nat, base: nat, f: Flags): string
    requires 2 <= base <= 16
  {
    if f.precision && value == 0 then "" else Digits(value, base, f.upper, NTOA_BUFFER_SIZE)
  }

  // It is so laid out exactly if they have room, or if what is lost is a blank sign that the width pads with a blank.
  lemma LayoutIff(buf: string, negative: bool, base: nat, prec: nat, width: nat, f: Flags)
    requires !f.hash && !f.left && |buf| <= NTOA_BUFFER_SIZE
    ensures FormatText(buf, negative, base, prec, width, f) == Layout(buf, negative, prec, width, f) <==>
            Needed(buf, negative, prec, width, f) <= NTOA_BUFFER_SIZE || BlankSignLost(buf, negative, prec, width, f)
  {
    if Needed(buf, negative, prec, width, f) <= NTOA_BUFFER_SIZE {
      FormatIsLayout(buf, negative, base, prec, width, f);
    } else {
      FullTextIs(buf, negative, base, prec, width, f);
      FullIsLayoutIff(buf, negative, prec, width, f);
    }
  }

  predicate BlankSignLost(buf: string, negative: bool, prec: nat, width: nat, f: Flags) {
    SignText(negative, f) == " " && Inner(buf, " ", prec, width, f) == NTOA_BUFFER_SIZE < width && !f.zeropad
  }

  // What is printed when the buffer is full: the sign and the zeros that found no room are missing.
  function FullText(buf: string, width: nat, f: Flags): string {
    (if f.zeropad then "" else Repeat(' ', width - NTOA_BUFFER_SIZE)) +
    (Repeat('0', NTOA_BUFFER_SIZE - |buf|) + Reverse(buf))
  }

  lemma FullTextIs(buf: string, negative: bool, base: nat, prec: nat, width: nat, f: Flags)
    requires !f.hash && !f.left && |buf| <= NTOA_BUFFER_SIZE < Needed(buf, negative, prec, width, f)
    ensures FormatText(buf, negative, base, prec, width, f) == FullText(buf, width, f)
  {
    hide Reverse, Repeat, Zeroed;
    var zeros := Repeat('0', NTOA_BUFFER_SIZE - |buf|);
    ZeroedIs(buf, negative, prec, width, f);
    assert |buf + zeros| == NTOA_BUFFER_SIZE;
    ReverseConcat(buf, zeros);
    ReverseRepeat('0', NTOA_BUFFER_SIZE - |buf|);
    assert zeros + Reverse(buf) + "" == zeros + Reverse(buf);
  }

  lemma FullIsLayoutIff(buf: string, negative: bool, prec: nat, width: nat, f: Flags)
    requires !f.left && |buf| <= NTOA_BUFFER_SIZE < Needed(buf, negative, prec, width, f)
    ensures FullText(buf, width, f) == Layout(buf, negative, prec, width, f) <==>
            BlankSignLost(buf, negative, prec, width, f)
  {
    var sign := SignText(negative, f);
    var inner := Inner(buf, sign, prec, width, f);
    var t, u := FullText(buf, width, f), Layout(buf, negative, prec, width, f);
    if |t| == |u| {
      if inner > NTOA_BUFFER_SIZE {
        assert t[width - inner] == ' ' && u[width - inner] == '0';
      } else if sign == " " {
        assert t == u;
      } else {
        assert t[width - inner - 1] == ' ' && u[width - inner - 1] == sign[0];
      }
    }
  }

  // The number as a whole, if it has room: its layout, its length, and that its digits read back as the value.
  lemma NumberPrinted(value: nat, negative: bool, base: nat, prec: nat, width: nat, f: Flags)
    requires 2 <= base <= 16 && value < Power(base, NTOA_BUFFER_SIZE) && !f.hash && !f.left
    requires Needed(DigitsFor(value, base, f), negative, prec, width, f) <= NTOA_BUFFER_SIZE
    ensures NumberText(value, negative, base, prec, width, f) ==
            Layout(DigitsFor(value, base, f), negative, prec, width, f)
    ensures |NumberText(value, negative, base, prec, width, f)| ==
            Max(width, Max(|DigitsFor(value, base, f)|, prec) + |SignText(negative, f)|)
    ensures ReadDigits(DigitsFor(value, base, f), base) == value
  {
    hide Digits, FormatText, Layout, Power, Needed;
    var buf := DigitsFor(value, base, f);
    FormatIsLayout(buf, negative, base, prec, width, f);
    LayoutLength(buf, negative, prec, width, f);
    DigitsExactIff(value, base, f.upper, NTOA_BUFFER_SIZE);
    assert f.(hash := false) == f;
  }

  // The layout of the standard with '-': sign, zeros up to the precision, digits, blanks. The 0 flag has no effect.
  function LeftLayout(digits: string, negative: bool, prec: nat, width: nat, f: Flags): string {
    var sign := SignText(negative, f);
    sign + Repeat('0', prec - |digits|) + Reverse(digits) + Repeat(' ', width - |sign| - Max(|digits|, prec))
  }

  predicate Solid(s: string) { forall i | 0 <= i < |s| :: s[i] != ' ' }

  // With '-' a number is laid out as the standard says exactly if its digits are no fewer than the precision: the
  // code forgets the zeros.
  lemma LeftIff(buf: string, negative: bool, base: nat, prec: nat, width: nat, f: Flags)
    requires f.left && !f.hash && Solid(buf) && |buf| + |SignText(negative, f)| <= NTOA_BUFFER_SIZE
    ensures FormatText(buf, negative, base, prec, width, f) == LeftLayout(buf, negative, prec, width, f) <==>
            prec <= |buf|
  {
    var sign := SignText(negative, f);
    LeftTextIs(buf, negative, base, prec, width, f);
    ZerosMissing(buf, sign, prec, width);
  }

  lemma LeftTextIs(buf: string, negative: bool, base: nat, prec: nat, width: nat, f: Flags)
    requires f.left && !f.hash && |buf| + |SignText(negative, f)| <= NTOA_BUFFER_SIZE
    ensures FormatText(buf, negative, base, prec, width, f) ==
            SignText(negative, f) + Reverse(buf) + Repeat(' ', width - |SignText(negative, f)| - |buf|)
  {
    hide Reverse, Repeat;
    var sign := SignText(negative, f);
    WithSignIs(buf, negative, f);
    ReverseConcat(buf, sign);
    ShortIsOwnReverse(sign);
  }

  lemma ShortIsOwnReverse(s: string)
    requires |s| <= 1
    ensures Reverse(s) == s
  {
  }

  lemma ZerosMissing(buf: string, sign: string, prec: nat, width: nat)
    requires Solid(buf)
    ensures var t := sign + Reverse(buf) + Repeat(' ', width - |sign| - |buf|);
            var u := sign + Repeat('0', prec - |buf|) + Reverse(buf) + Repeat(' ', width - |sign| - Max(|buf|, prec));
            t == u <==> prec <= |buf|
  {
    var t := sign + Reverse(buf) + Repeat(' ', width - |sign| - |buf|);
    var u := sign + Repeat('0', prec - |buf|) + Reverse(buf) + Repeat(' ', width - |sign| - Max(|buf|, prec));
    if prec <= |buf| {
      assert t == u;
    } else {
      var i := |sign| + |buf|;
      if width <= i {
        assert |t| != |u|;
      } else {
        assert t[i] == ' ';
        assert u[i] == if |buf| < prec - |buf| then '0' else Reverse(buf)[|buf| - (prec - |buf|)];
      }
    }
  }

  lemma {:induction false} DigitsSolid(value: nat, base: nat, upper: bool, room: nat)
    requires 2 <= base <= 16 && 0 < room
    ensures Solid(Digits(value, base, upper, room))
    decreases room
  {
    assert Digit(value % base, upper) != ' ';
    if value / base != 0 && room > 1 { DigitsSolid(value / base, base, upper, room - 1); }
  }

  lemma LeftNumberIff(value: nat, negative: bool, base: nat, prec: nat, width: nat, f: Flags)
    requires 2 <= base <= 16 && f.left && !f.hash && |DigitsFor(value, base, f)| +
             |SignText(negative, f)| <= NTOA_BUFFER_SIZE
    ensures NumberText(value, negative, base, prec, width, f) ==
            LeftLayout(DigitsFor(value, base, f), negative, prec, width, f) <==>
            prec <= |DigitsFor(value, base, f)|
  {
    hide Digits, FormatText, LeftLayout, Solid;
    SolidFor(value, base, f);
    LeftIff(DigitsFor(value, base, f), negative, base, prec, width, f);
    assert f.(hash := false) == f;
  }

  lemma SolidFor(value: nat, base: nat, f: Flags)
    requires 2 <= base <= 16
    ensures Solid(DigitsFor(value, base, f))
  {
    DigitsSolid(value, base, f.upper, NTOA_BUFFER_SIZE);
  }

  // For instance with three digits asked for.
  lemma LeftForgetsPrecision()
    ensures NumberText(5, false, 10, 3, 0, NO_FLAGS.(left := true, precision := true)) == "5"
    ensures LeftLayout("5", false, 3, 0, NO_FLAGS.(left := true, precision := true)) == "005"
  {
    assert Digits(5, 10, false, 32) == "5";
  }

  // ---------- the base prefix ----------

  // How many of n digits '#' leaves: if they just fill the precision or the width, and no precision was given, the
  // prefix takes the place of the highest ones.
  function Kept(n: nat, base: nat, prec: nat, width: nat, f: Flags): (m: nat)
    ensures m <= n
  {
    if f.precision || n == 0 || (n != prec && n != width) then n else if base == 16 && n > 1 then n - 2 else n - 1
  }

  function Prefix(base: nat, upper: bool): string {
    if base == 16 then if upper then "X0" else "x0" else if base == 2 then "b0" else "0"
  }

  // As much of the prefix as there is room for.
  function PrefixIn(base: nat, upper: bool, room: nat): string {
    var p := Prefix(base, upper);
    p[..Min(|p|, room)]
  }

  lemma {:induction false} DigitsPrefix(value: nat, base: nat, upper: bool, room: nat, m: nat)
    requires 2 <= base <= 16 && 0 < m <= room && m <= |Digits(value, base, upper, room)|
    ensures Digits(value, base, upper, room)[..m] == Digits(value, base, upper, m)
    decreases m
  {
    hide *;
    DigitsCons(value, base, upper, room);
    DigitsCons(value, base, upper, m);
    if value / base != 0 && m > 1 {
      DigitsPrefix(value / base, base, upper, room - 1, m - 1);
      TakeCons(Digit(value % base, upper), Digits(value / base, base, upper, room - 1), m);
    } else {
      assert |Digits(value, base, upper, room)| == 1 || m == 1;
    }
  }

  lemma TakeCons(d: char, t: string, m: nat)
    requires 0 < m <= |t| + 1
    ensures ([d] + t)[..m] == [d] + t[..m - 1]
  {
  }

  lemma {:induction false} ReadZeros(s: string, z: string, base: nat)
    requires forall i | 0 <= i < |z| :: z[i] == '0'
    ensures ReadDigits(s + z, base) == ReadDigits(s, base)
    decreases |s| + |z|
  {
    if s != "" {
      assert s == [s[0]] + s[1..] && s + z == [s[0]] + (s[1..] + z);
      ReadZeros(s[1..], z, base);
    } else if z != "" {
      assert s + z == [z[0]] + z[1..] && z[1..] == s + z[1..];
      ReadZeros(s, z[1..], base);
    }
  }

  lemma {:induction false} PowerRises(base: nat, m: nat, n: nat)
    requires 0 < base && m <= n
    ensures Power(base, m) <= Power(base, n)
  {
    if m < n {
      PowerRises(base, m, n - 1);
      PowerPositive(base, n - 1);
      ScaleUp(Power(base, n - 1), 1, base);
    }
  }

  // The first m of a word's digits and the zeros behind them read back as the word exactly if it has no more digits.
  lemma FirstDigitsIff(value: nat, base: nat, upper: bool, zeros: string, m: nat)
    requires 2 <= base <= 16 && value < Power(base, NTOA_BUFFER_SIZE) && forall i | 0 <= i < |zeros| :: zeros[i] == '0'
    requires m <= |Digits(value, base, upper, NTOA_BUFFER_SIZE) + zeros|
    ensures ReadDigits((Digits(value, base, upper, NTOA_BUFFER_SIZE) + zeros)[..m], base) == value <==>
            value < Power(base, m)
  {
    var s := Digits(value, base, upper, NTOA_BUFFER_SIZE);
    DigitsExactIff(value, base, upper, NTOA_BUFFER_SIZE);
    if m == 0 {
      ReadNone(base);
      NoDigits(base);
      assert (s + zeros)[..0] == "";
    } else if m <= |s| {
      assert (s + zeros)[..m] == s[..m];
      DigitsPrefix(value, base, upper, NTOA_BUFFER_SIZE, m);
      DigitsExactIff(value, base, upper, m);
    } else {
      assert (s + zeros)[..m] == s + zeros[..m - |s|];
      ReadZeros(s, zeros[..m - |s|], base);
      DigitsPrefix(value, base, upper, NTOA_BUFFER_SIZE, |s|);
      assert s[..|s|] == s;
      DigitsExactIff(value, base, upper, |s|);
      PowerRises(base, |s|, m);
    }
  }

  lemma NoDigits(base: nat)
    ensures Power(base, 0) == 1
  {
  }

  // Under '#' a number is its digits, less those that gave way, and as much of the prefix as has room; the digits read
  // back as its value exactly if those left have room for it.
  lemma HashReadsBackIff(value: nat, base: nat, prec: nat, width: nat, f: Flags)
    requires 2 <= base <= 16 && value < Power(base, NTOA_BUFFER_SIZE) && f.hash
    ensures var buf := Zeroed(Digits(value, base, f.upper, NTOA_BUFFER_SIZE), prec, width, f);
            var m := Kept(|buf|, base, prec, width, f);
            Prefixed(buf, base, prec, width, f) == buf[..m] + PrefixIn(base, f.upper, NTOA_BUFFER_SIZE - m) &&
            (ReadDigits(buf[..m], base) == value <==> value < Power(base, m))
  {
    var s := Digits(value, base, f.upper, NTOA_BUFFER_SIZE);
    hide Digits, ReadDigits, Power;
    var buf := Zeroed(s, prec, width, f);
    assert s <= buf && forall i | |s| <= i < |buf| :: buf[i] == '0';
    assert buf == s + buf[|s|..];
    var m := Kept(|buf|, base, prec, width, f);
    FirstDigitsIff(value, base, f.upper, buf[|s|..], m);
    PrefixedIs(buf, base, prec, width, f);
  }

  lemma PrefixedIs(buf: string, base: nat, prec: nat, width: nat, f: Flags)
    requires f.hash && |buf| <= NTOA_BUFFER_SIZE
    ensures var m := Kept(|buf|, base, prec, width, f);
            Prefixed(buf, base, prec, width, f) == buf[..m] + PrefixIn(base, f.upper, NTOA_BUFFER_SIZE - m)
  {
  }

  // A width of eight makes %#8x of eight digits lose two of them.
  lemma HashLosesDigits()
    ensures Kept(8, 16, 0, 8, NO_FLAGS.(hash := true)) == 6
    ensures Prefixed("87654321", 16, 0, 8, NO_FLAGS.(hash := true)) == "876543x0"
    ensures ReadDigits("876543", 16) == 0x345678
  {
    assert ReadDigits("543", 16) == 0x345;
  }

  // ---------- printing and reading decimals ----------

  predicate AllDigits(s: string) { forall i | 0 <= i < |s| :: IsDigit(s[i]) }

  function Horner(s: string): nat { if s == "" then 0 else (Horner(s[..|s| - 1]) * 10 + DigitValue(s[|s| - 1])) % U32 }

  lemma {:induction false} NumberFromIsHorner(s: string, pos: nat)
    requires AllDigits(s) && pos <= |s|
    ensures NumberFrom(s, pos, Horner(s[..pos])) == (Horner(s), |s|)
    decreases |s| - pos
  {
    if pos < |s| {
      assert s[..pos + 1][..pos] == s[..pos];
      NumberFromIsHorner(s, pos + 1);
    } else {
      assert s[..pos] == s;
    }
  }

  lemma {:induction false} DecimalHorner(value: nat, room: nat)
    requires value < U32 && 0 < room && value < Power(10, room)
    ensures var t := Reverse(Digits(value, 10, false, room)); AllDigits(t) && Horner(t) == value
    decreases room
  {
    hide *;
    var rest := if value / 10 != 0 && room > 1 then Digits(value / 10, 10, false, room - 1) else "";
    DigitsCons(value, 10, false, room);
    ReverseCons(Digit(value % 10, false), rest);
    HornerSnoc(Reverse(rest), value % 10);
    if value / 10 != 0 && room > 1 {
      PowerBelow(value, room);
      TenParts(value);
      DecimalHorner(value / 10, room - 1);
    } else {
      OneDigit(value, room);
    }
  }

  lemma ReverseCons(c: char, t: string)
    ensures Reverse([c] + t) == Reverse(t) + [c]
  {
    ReverseConcat([c], t);
  }

  lemma HornerSnoc(t: string, d: nat)
    requires d < 10
    ensures AllDigits(t) ==> AllDigits(t + [Digit(d, false)])
    ensures Horner(t + [Digit(d, false)]) == (Horner(t) * 10 + d) % U32
  {
    DigitReads(d, false);
    assert (t + [Digit(d, false)])[..|t|] == t;
  }

  lemma TenParts(value: nat)
    requires value < U32
    ensures value / 10 < U32 && (value / 10 * 10 + value % 10) % U32 == value
  {
  }

  lemma PowerBelow(value: nat, room: nat)
    requires 0 < room && value < Power(10, room)
    ensures value / 10 < Power(10, room - 1)
  {
  }

  lemma OneDigit(value: nat, room: nat)
    requires value < U32 && 0 < room && value < Power(10, room) && (value / 10 == 0 || room <= 1)
    ensures (value % 10) % U32 == value && AllDigits(Reverse("")) && Horner(Reverse("")) == 0
  {
    if room == 1 { assert Power(10, 1) == 10 * Power(10, 0); }
  }

  // _atoi reads what %u prints.
  lemma DecimalRoundTrip(value: nat)
    requires value < U32
    ensures var t := NumberText(value, false, 10, 0, 0, NO_FLAGS); NumberFrom(t, 0, 0) == (value, |t|)
  {
    hide Digits;
    PowersOfTwo();
    PowerGrows(10, 32);
    var t := NumberText(value, false, 10, 0, 0, NO_FLAGS);
    FormatIsLayout(Digits(value, 10, false, 32), false, 10, 0, 0, NO_FLAGS);
    assert t == Reverse(Digits(value, 10, false, 32));
    DecimalHorner(value, 32);
    NumberFromIsHorner(t, 0);
  }
}
