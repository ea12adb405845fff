/** What a format means, stated on its text: the flags, the width, the precision and the length as they are
    written, and the characters that come out. */
module PrintfText {
  import opened Arith
  import opened Printf

  /** A width or a precision: left out, written in digits, or taken from an argument. */
  datatype Count = Absent | Written(digits: string) | Star

  /** A conversion specification as it is written. */
  datatype Directive = Directive(flags: string, width: Count, dot: bool, prec: Count, length: string, spec: char)

  function CountText(n: Count): string {
    match n
    case Absent => ""
    case Written(digits) => digits
    case Star => "*"
  }

  function Spelling(d: Directive): string {
    "%" + d.flags + (CountText(d.width) + (if d.dot then "." + CountText(d.prec) else "") + d.length + [d.spec])
  }

  predicate Decimal(s: string) {
    s != "" && forall k :: 0 <= k < |s| ==> '0' <= s[k] <= '9'
  }

  predicate FlagChar(c: char) {
    c == '0' || c == '-' || c == '+' || c == ' ' || c == '#'
  }

  predicate WellFormed(d: Directive) {
    && (forall k :: 0 <= k < |d.flags| ==> FlagChar(d.flags[k]))
    && (d.width.Written? ==> Decimal(d.width.digits) && d.width.digits[0] != '0')
    && (d.prec.Written? ==> Decimal(d.prec.digits))
    && (!d.dot ==> d.prec.Absent?)
    && d.length in ["", "h", "hh", "l", "ll", "j", "z"]
    && d.spec in "diuxXobcsp%"
  }

  /** The number that decimal digits stand for. */
  function Dec(s: string): nat
    requires s == "" || Decimal(s)
  {
    if s == "" then 0 else (s[0] as int - '0' as int) * Pow(10, |s| - 1) + Dec(s[1..])
  }

  // What a width or a precision comes to; the argument is an int, numbers are unsigned int.
  function CountValue(n: Count, args: seq<Arg>): int
    requires n.Written? ==> Decimal(n.digits)
  {
    match n
    case Absent => 0
    case Written(digits) => Dec(digits) % UINT
    case Star => Signed(NumOf(args), 0x8000_0000)
  }

  function ArgsPast(n: Count, args: seq<Arg>): seq<Arg> {
    if n.Star? then Rest(args) else args
  }

  function Width(d: Directive, args: seq<Arg>): nat
    requires WellFormed(d)
  {
    var w := CountValue(d.width, args);
    if w < 0 then -w else w
  }

  /** A negative width from an argument asks for the left side too. */
  predicate LeftSide(d: Directive, args: seq<Arg>)
    requires WellFormed(d)
  {
    '-' in d.flags || CountValue(d.width, args) < 0
  }

  function Precision(d: Directive, args: seq<Arg>): nat
    requires WellFormed(d)
  {
    var p := CountValue(d.prec, ArgsPast(d.width, args));
    if p < 0 then 0 else p
  }

  /** The arguments from the one to be converted. */
  function Operands(d: Directive, args: seq<Arg>): seq<Arg> {
    ArgsPast(d.prec, ArgsPast(d.width, args))
  }

  /** How the text of a specification is read, whatever follows it. */
  lemma DirectiveRead(d: Directive, t: string, args: seq<Arg>)
    requires WellFormed(d)
    ensures Spelling(d) + t == "%" + (Spelling(d)[1..] + t)
    ensures var c := Header(Spelling(d)[1..] + t, args);
            && c.f.zeropad == ('0' in d.flags) && c.f.left == LeftSide(d, args) && c.f.plus == ('+' in d.flags)
            && c.f.space == (' ' in d.flags) && c.f.hash == ('#' in d.flags) && !c.f.upper && c.f.precision == d.dot
            && c.f.chr == (d.length == "hh") && c.f.short == (d.length == "h" || d.length == "hh")
            && c.f.long == (d.length in ["l", "ll", "j", "z"]) && c.f.longlong == (d.length == "ll")
            && c.width == Width(d, args) && c.prec == Precision(d, args)
            && c.rest == [d.spec] + t && c.args == Operands(d, args)
  {
    PartsRead(d, t, args);
    NoDigit(d, t);
    hide FlagsOf, Decimal, WidthOf, PrecOf, LengthOf, Precision, FlagChar, IsFlag, IsDigit, CountValue, CountText, Spelling, Header, Operands;
    AllFlags(d.flags, After(d, t));
  }

  // What follows the flags, the width and the precision.
  function After(d: Directive, t: string): string {
    CountText(d.width) + Middle(d, t)
  }

  function Middle(d: Directive, t: string): string {
    (if d.dot then "." + CountText(d.prec) else "") + End(d, t)
  }

  function End(d: Directive, t: string): string {
    d.length + ([d.spec] + t)
  }

  lemma PartsRead(d: Directive, t: string, args: seq<Arg>)
    requires WellFormed(d)
    ensures Spelling(d) + t == "%" + (Spelling(d)[1..] + t)
    ensures var f := FlagsOf(d.flags + After(d, t), NONE).0;
            Header(Spelling(d)[1..] + t, args)
            == Conv(f.(left := f.left || CountValue(d.width, args) < 0, precision := d.dot, chr := d.length == "hh",
                       short := d.length == "h" || d.length == "hh", long := d.length in ["l", "ll", "j", "z"],
                       longlong := d.length == "ll"),
                    Width(d, args), Precision(d, args), [d.spec] + t, Operands(d, args))
  {
    Parts(d, t);
    NoDigit(d, t);
    hide FlagsOf, Decimal, Signed, NumOf, Dec, WidthOf, PrecOf, LengthOf, Precision, FlagChar, IsFlag, IsDigit, CountValue, CountText,
         Spelling, After, Middle, End, Operands;
    AllFlags(d.flags, After(d, t));
    var b := Conv(FlagsOf(d.flags + After(d, t), NONE).0, 0, 0, After(d, t), args);
    WidthRead(d, b, Middle(d, t));
    PrecRead(d, WidthOf(b), End(d, t), args);
    LengthRead(d.length, PrecOf(WidthOf(b)), [d.spec] + t);
  }

  lemma Parts(d: Directive, t: string)
    ensures Spelling(d)[1..] + t == d.flags + After(d, t) && Spelling(d) + t == "%" + (Spelling(d)[1..] + t)
    ensures After(d, t) == CountText(d.width) + Middle(d, t) && End(d, t) == d.length + ([d.spec] + t)
    ensures Middle(d, t) == (if d.dot then "." + CountText(d.prec) else "") + End(d, t)
  {
  }

  // No part of a specification runs on into the next one.
  lemma NoDigit(d: Directive, t: string)
    requires WellFormed(d)
    ensures var end := End(d, t);
            && !IsDigit(Cur(end)) && Cur(end) != '.' && Cur(end) != '*' && !IsDigit(Cur(Middle(d, t))) && Cur(Middle(d, t)) != '*'
            && !IsFlag(Cur(After(d, t)))
            && Cur([d.spec] + t) != 'l' && Cur([d.spec] + t) != 'h' && Cur([d.spec] + t) != 'j' && Cur([d.spec] + t) != 'z'
  {
    EndStarts(d, t);
    hide End;
    var end, middle := End(d, t), Middle(d, t);
    assert !d.dot ==> middle == end;
    assert d.dot ==> middle[0] == '.';
    assert d.width.Absent? ==> After(d, t) == middle;
  }

  lemma EndStarts(d: Directive, t: string)
    requires WellFormed(d)
    ensures var c := Cur(End(d, t)); !IsDigit(c) && c != '.' && c != '*' && !IsFlag(c)
    ensures var c := Cur([d.spec] + t); c == d.spec && c != 'l' && c != 'h' && c != 'j' && c != 'z'
  {
    var last := [d.spec] + t;
    assert d.length == "" ==> End(d, t) == last;
    assert d.length != "" ==> End(d, t)[0] == d.length[0];
  }

  function Has(f: Flags, x: char): bool {
    if x == '0' then f.zeropad else if x == '-' then f.left else if x == '+' then f.plus
    else if x == ' ' then f.space else f.hash
  }

  // The flags that only other parts of a specification raise.
  function Others(f: Flags): (bool, bool, bool, bool, bool) {
    (f.upper, f.chr, f.short, f.long, f.longlong)
  }

  lemma {:induction false} FlagsRead(flags: string, t: string, f: Flags, x: char)
    requires forall k :: 0 <= k < |flags| ==> FlagChar(flags[k])
    requires !IsFlag(Cur(t)) && (x == '0' || x == '-' || x == '+' || x == ' ' || x == '#')
    ensures var (g, rest) := FlagsOf(flags + t, f);
            (Has(g, x) <==> Has(f, x) || x in flags) && Others(g) == Others(f) && rest == t
  {
    if flags == "" {
      assert flags + t == t;
    } else {
      var c, more := flags[0], flags[1..];
      hide SetFlag, Has, FlagChar, Others, Cur;
      assert (flags + t)[1..] == more + t;
      FlagsRead(more, t, SetFlag(c, f), x);
      FlagRaised(c, f, x);
      assert flags == [c] + more;
    }
  }

  lemma FlagRaised(c: char, f: Flags, x: char)
    requires (c == '0' || c == '-' || c == '+' || c == ' ' || c == '#') && (x == '0' || x == '-' || x == '+' || x == ' ' || x == '#')
    ensures IsFlag(c) && (Has(SetFlag(c, f), x) <==> x == c || Has(f, x)) && Others(SetFlag(c, f)) == Others(f)
  {
  }

  lemma AllFlags(flags: string, t: string)
    requires forall k :: 0 <= k < |flags| ==> FlagChar(flags[k])
    requires !IsFlag(Cur(t))
    ensures FlagsOf(flags + t, NONE).1 == t
    ensures var f := FlagsOf(flags + t, NONE).0;
            && f.zeropad == ('0' in flags) && f.left == ('-' in flags) && f.plus == ('+' in flags)
            && f.space == (' ' in flags) && f.hash == ('#' in flags)
            && !f.upper && !f.chr && !f.short && !f.long && !f.longlong && !f.precision
  {
    hide FlagsOf, IsFlag, Cur;
    FlagsRead(flags, t, NONE, '0');
    FlagsRead(flags, t, NONE, '-');
    FlagsRead(flags, t, NONE, '+');
    FlagsRead(flags, t, NONE, ' ');
    FlagsRead(flags, t, NONE, '#');
  }

  // Digits are read as the number they stand for, in the width of an unsigned int.
  lemma {:induction false} NumberRead(digits: string, t: string, i: nat)
    requires digits == "" || Decimal(digits)
    requires !IsDigit(Cur(t)) && i < UINT
    ensures NumberOf(digits + t, i) == ((i * Pow(10, |digits|) + Dec(digits)) % UINT, t)
  {
    if digits == "" {
      assert digits + t == t;
      SmallMod(i, UINT);
    } else {
      var x, p := digits[0] as int - '0' as int, Pow(10, |digits| - 1);
      assert (digits + t)[1..] == digits[1..] + t;
      NumberRead(digits[1..], t, (i * 10 + x) % UINT);
      ModInside(i * 10 + x, UINT, p, Dec(digits[1..]));
      Distributed(i, 10, x, p);
    }
  }

  lemma Distributed(i: int, a: int, x: int, p: int)
    ensures (i * a + x) * p == i * (a * p) + x * p
  {
  }

  lemma ModInside(a: nat, m: nat, p: nat, b: nat)
    requires m > 0
    ensures (a % m * p + b) % m == (a * p + b) % m
  {
    var q, r := a / m, a % m;
    assert a == m * q + r;
    Distributed(m, q, r, p);
    assert a * p + b == m * (q * p) + (r * p + b);
    ModPlus(q * p, m, r * p + b);
  }

  lemma ModPlus(k: nat, m: nat, x: nat)
    requires m > 0
    ensures (m * k + x) % m == x % m
  {
    var q, r := x / m, x % m;
    assert m * k + x == m * (k + q) + r by { Distributed(k, 1, q, m); }
    DivUnique(m * k + x, m, k + q, r);
  }

  lemma WidthRead(d: Directive, c: Conv, middle: string)
    requires WellFormed(d) && c.rest == CountText(d.width) + middle && c.width == 0
    requires !IsDigit(Cur(middle)) && Cur(middle) != '*'
    ensures var w := CountValue(d.width, c.args);
            WidthOf(c) == c.(f := if w < 0 then c.f.(left := true) else c.f, width := if w < 0 then -w else w,
                             rest := middle, args := ArgsPast(d.width, c.args))
  {
    hide Dec, NumberOf, Signed, NumOf, Rest;
    match d.width
    case Absent => assert c.rest == middle;
    case Written(digits) =>
      NumberRead(digits, middle, 0);
      assert 0 * Pow(10, |digits|) == 0;
    case Star => assert c.rest[1..] == middle;
  }

  lemma PrecRead(d: Directive, c: Conv, end: string, args: seq<Arg>)
    requires WellFormed(d) && c.rest == (if d.dot then "." + CountText(d.prec) else "") + end && c.prec == 0
    requires c.args == ArgsPast(d.width, args)
    requires !IsDigit(Cur(end)) && Cur(end) != '.' && Cur(end) != '*' && !c.f.precision
    ensures PrecOf(c) == c.(f := c.f.(precision := d.dot), prec := Precision(d, args), rest := end, args := Operands(d, args))
  {
    hide Dec, NumberOf, Signed, NumOf, Rest;
    if d.dot {
      var e := CountText(d.prec) + end;
      assert c.rest == ['.'] + e && c.rest[1..] == e;
      match d.prec
      case Absent => assert e == end;
      case Written(digits) =>
        NumberRead(digits, end, 0);
        assert 0 * Pow(10, |digits|) == 0;
      case Star => assert e[1..] == end;
    } else {
      assert c.rest == end;
    }
  }

  lemma LengthRead(length: string, c: Conv, last: string)
    requires length in ["", "h", "hh", "l", "ll", "j", "z"] && c.rest == length + last
    requires Cur(last) != 'l' && Cur(last) != 'h' && Cur(last) != 'j' && Cur(last) != 'z'
    requires !c.f.chr && !c.f.short && !c.f.long && !c.f.longlong
    ensures LengthOf(c) == c.(f := c.f.(chr := length == "hh", short := length == "h" || length == "hh",
                                        long := length in ["l", "ll", "j", "z"], longlong := length == "ll"), rest := last)
  {
    if length == "" {
      assert c.rest == last;
    } else {
      assert c.rest[0] == length[0] && c.rest[1..] == length[1..] + last;
      assert |length| == 1 ==> length[1..] + last == last;
      assert |length| == 2 ==> (length[1..] + last)[1..] == last;
    }
  }

  /** The text of a format is that of its parts. */
  lemma DirectiveFormatted(d: Directive, t: string, args: seq<Arg>)
    requires WellFormed(d)
    ensures var c := Header(Spelling(d)[1..] + t, args);
            var more := ArgsAfter(d.spec, c);
            && (Complete(Spelling(d) + t, args) <==> Complete(t, more))
            && (Complete(t, more) ==> Formatted(Spelling(d) + t, args) == Shown(d.spec, c) + Formatted(t, more))
  {
    hide Header, Shown, ArgsAfter, Complete, Formatted, Spelling, WellFormed;
    DirectiveRead(d, t, args);
    var u := Spelling(d)[1..] + t;
    var c := Header(u, args);
    assert ("%" + u)[1..] == u && c.rest[0] == d.spec && c.rest[1..] == t;
    CompleteAt(Spelling(d) + t, args);
  }

  /** Everything but percent signs stands for itself. */
  lemma {:induction false} PlainFormatted(p: string, t: string, args: seq<Arg>)
    requires '%' !in p
    ensures Complete(p + t, args) <==> Complete(t, args)
    ensures Complete(t, args) ==> Formatted(p + t, args) == p + Formatted(t, args)
  {
    if p == "" {
      assert p + t == t;
      assert Complete(t, args) ==> "" + Formatted(t, args) == Formatted(t, args);
    } else {
      assert (p + t)[1..] == p[1..] + t;
      PlainFormatted(p[1..], t, args);
      assert Complete(t, args) ==> [p[0]] + (p[1..] + Formatted(t, args)) == p + Formatted(t, args);
    }
  }

  /** The digits of a number, the highest first. */
  function Numeral(v: nat, digits: string): (s: string)
    requires |digits| >= 2
    ensures s != ""
  {
    (if v < |digits| then "" else Numeral(v / |digits|, digits)) + [digits[v % |digits|]]
  }

  function Alphabet(spec: char): (s: string)
    ensures |s| >= 2
  {
    if spec == 'x' then "0123456789abcdef" else if spec == 'X' || spec == 'p' then "0123456789ABCDEF"
    else if spec == 'o' then "01234567" else if spec == 'b' then "01" else "0123456789"
  }

  // The lowest n digits.
  function Low(s: string, n: nat): string {
    if |s| > n then s[|s| - n..] else s
  }

  /** The digits to be printed: none for zero with a precision. */
  function Digits(d: Directive, v: int): string {
    if v == 0 && d.dot then "" else Low(Numeral(Magnitude(v), Alphabet(d.spec)), 32)
  }

  /** The sign to be printed. */
  function Sign(d: Directive, v: int): string {
    if v < 0 then "-" else if d.spec != 'd' && d.spec != 'i' && d.spec != 'p' then ""
    else if '+' in d.flags then "+" else if ' ' in d.flags then " " else ""
  }

  function AtMost(n: int, limit: int): int {
    if n < limit then n else limit
  }

  // With a sign if it still fits.
  function WithRoom(sign: string, digits: string): string {
    if |digits| < 32 then sign + digits else digits
  }

  // The digits of a number as the buffer has them, the other way round.
  lemma {:induction false} DigitsReversed(v: nat, base: nat, upper: bool, room: nat, digits: string)
    requires 2 <= base <= 16 && room > 0 && |digits| == base
    requires forall k :: 0 <= k < base ==> digits[k] == DigitChar(k, upper)
    ensures Rev(DigitsOf(v, base, upper, room)) == Low(Numeral(v, digits), room)
    decreases room
  {
    hide DigitChar, Rev, Low;
    var c := DigitChar(LastDigit(v, base), upper);
    var high := if v < base then "" else Numeral(v / base, digits);
    assert Numeral(v, digits) == high + [c];
    Quotient(v, base);
    if v < base || room == 1 {
      assert DigitsOf(v, base, upper, room) == [c];
      RevEmpty();
      RevFront(c, "");
      LowPlus(high, c, room);
      NoneLow(high, room - 1);
      assert "" + [c] == [c];
    } else {
      var more := DigitsOf(v / base, base, upper, room - 1);
      RevFront(c, more);
      DigitsReversed(v / base, base, upper, room - 1, digits);
      LowPlus(high, c, room);
    }
  }

  lemma NoneLow(s: string, n: nat)
    requires s == "" || n == 0
    ensures Low(s, n) == ""
  {
  }

  lemma LowPlus(s: string, c: char, n: nat)
    requires n > 0
    ensures Low(s + [c], n) == Low(s, n - 1) + [c]
  {
  }

  lemma Quotient(v: nat, base: nat)
    requires base > 0
    ensures v / base == 0 <==> v < base
  {
  }

  lemma RevFront(c: char, s: string)
    ensures Rev([c] + s) == Rev(s) + [c]
  {
    assert ([c] + s)[1..] == s;
  }

  /** How a sign and digits stand in a field: zeros up to the precision, or with the flag '0' up to the
      width, and never more than 32 characters of digits and zeros; a sign in front of them, if they are
      fewer; spaces up to the width on one side, and with the flag '-' no zeros at all. */
  function Laid(sign: string, digits: string, prec: nat, width: nat, left: bool, zero: bool): string {
    if left then
      var core := WithRoom(sign, digits);
      core + Spaces(width - |core|)
    else if zero then
      WithRoom(sign, Zeros(AtMost(Larger(prec, width - |sign|), 32) - |digits|) + digits)
    else
      var core := WithRoom(sign, Zeros(AtMost(prec, 32) - |digits|) + digits);
      Spaces(width - |core|) + core
  }

  function Larger(a: int, b: int): int {
    if a > b then a else b
  }

  lemma NumberLaid(value: nat, negative: bool, base: nat, prec: nat, width: nat, f: Flags, sign: string, digits: string)
    requires 2 <= base <= 16 && !f.hash
    requires sign == if negative then "-" else if f.plus then "+" else if f.space then " " else ""
    requires digits == Rev(if !f.precision || value != 0 then DigitsOf(value, base, f.upper, NTOA) else "")
    ensures NumberText(value, negative, base, prec, width, f) == Laid(sign, digits, prec, width, f.left, f.zeropad)
  {
    hide NumberText, Field, Rev, ZeroFilled, WithSign, DigitsOf, Zeros, Spaces, WithRoom, AtMost, Larger, ShortWidth, Laid;
    var b := if !f.precision || value != 0 then DigitsOf(value, base, f.upper, NTOA) else "";
    var w := ShortWidth(negative, width, f);
    ShortWidthIs(negative, width, f, sign);
    NumberTextIs(value, negative, base, prec, width, f);
    ZerosLaid(b, prec, w, f);
    var z := ZeroFilled(b, prec, w, f);
    SignLaid(z, negative, f, sign);
    FieldLaid(WithSign(z, negative, f), w, f);
    AllLaid(sign, b, prec, width, f, w);
  }

  lemma ShortWidthIs(negative: bool, width: nat, f: Flags, sign: string)
    requires sign == if negative then "-" else if f.plus then "+" else if f.space then " " else ""
    ensures ShortWidth(negative, width, f)
            == if !f.left && width > 0 && f.zeropad then (if sign != "" then width - 1 else width) else width
  {
  }

  lemma AllLaid(sign: string, b: string, prec: nat, width: nat, f: Flags, w: nat)
    requires |sign| <= 1 && |b| <= NTOA
    requires w == if !f.left && width > 0 && f.zeropad then (if sign != "" then width - 1 else width) else width
    ensures var digits := Rev(b);
            var z := if f.left then digits
                     else Zeros(AtMost(if f.zeropad then Larger(prec, w) else prec, 32) - |b|) + digits;
            var core := WithRoom(sign, z);
            Laid(sign, digits, prec, width, f.left, f.zeropad)
            == if f.left then core + Spaces(w - |core|) else if f.zeropad then core else Spaces(w - |core|) + core
  {
    hide Rev, WithRoom, Spaces;
  }

  lemma FieldLaid(s: string, w: nat, f: Flags)
    ensures Field(s, w, f) == if f.left then Rev(s) + Spaces(w - |s|) else if f.zeropad then Rev(s) else Spaces(w - |s|) + Rev(s)
  {
    hide Rev, Spaces;
    assert "" + Rev(s) + "" == Rev(s) && "" + Rev(s) == Rev(s);
    assert Spaces(w - |s|) + Rev(s) + "" == Spaces(w - |s|) + Rev(s);
  }

  lemma SignLaid(z: string, negative: bool, f: Flags, sign: string)
    requires sign == if negative then "-" else if f.plus then "+" else if f.space then " " else ""
    ensures Rev(WithSign(z, negative, f)) == WithRoom(sign, Rev(z)) && |WithSign(z, negative, f)| == |WithRoom(sign, Rev(z))|
  {
    hide Rev;
    assert "" + Rev(z) == Rev(z);
    if sign != "" {
      RevPlus(z, sign[0]);
    }
  }

  lemma ZerosLaid(b: string, prec: nat, w: nat, f: Flags)
    requires |b| <= NTOA
    ensures Rev(ZeroFilled(b, prec, w, f))
            == if f.left then Rev(b) else Zeros(AtMost(if f.zeropad then Larger(prec, w) else prec, 32) - |b|) + Rev(b)
  {
    hide Rev, Zeros, Padded, AtMost, Larger;
    PaddedLaid(b, prec);
    TwicePadded(b, prec, w);
  }

  lemma TwicePadded(b: string, prec: nat, w: nat)
    requires |b| <= NTOA
    ensures Rev(Padded(Padded(b, prec), w)) == Zeros(AtMost(Larger(prec, w), 32) - |b|) + Rev(b)
  {
    hide *;
    var p := Padded(b, prec);
    PaddedLaid(b, prec);
    PaddedLaid(p, w);
    var m, n := AtMost(prec, 32) - |b|, AtMost(w, 32) - |p|;
    TwoLengths(|b|, prec, w);
    ZerosPlus(n, m, AtMost(Larger(prec, w), 32) - |b|, Rev(b));
  }

  lemma PaddedLaid(b: string, n: nat)
    requires |b| <= NTOA
    ensures Rev(Padded(b, n)) == Zeros(AtMost(n, 32) - |b|) + Rev(b)
    ensures |Padded(b, n)| == Larger(|b|, AtMost(n, 32)) && |Padded(b, n)| <= NTOA
  {
    RevZeros(b, AtMost(n, 32) - |b|);
  }

  lemma TwoLengths(l: nat, m: nat, n: nat)
    requires l <= NTOA
    ensures var p := Larger(l, AtMost(m, 32));
            Larger(AtMost(n, 32) - p, 0) + Larger(AtMost(m, 32) - l, 0) == Larger(AtMost(Larger(m, n), 32) - l, 0)
  {
  }

  lemma ZerosPlus(m: int, n: int, k: int, s: string)
    requires Larger(m, 0) + Larger(n, 0) == Larger(k, 0)
    ensures Zeros(m) + (Zeros(n) + s) == Zeros(k) + s
  {
    assert Zeros(m) + Zeros(n) == Zeros(k);
    Assoc(Zeros(m), Zeros(n), s);
  }

  lemma {:induction false} RevZeros(b: string, n: int)
    ensures Rev(b + Zeros(n)) == Zeros(n) + Rev(b)
  {
    hide Rev;
    if n <= 0 {
      assert b + Zeros(n) == b && Zeros(n) + Rev(b) == Rev(b);
    } else {
      RevZeros(b, n - 1);
      RevPlus(b + Zeros(n - 1), '0');
      assert b + Zeros(n) == b + Zeros(n - 1) + ['0'];
      assert ['0'] + (Zeros(n - 1) + Rev(b)) == Zeros(n) + Rev(b);
    }
  }

  /** How many values an argument of this length has. */
  function Range(length: string): (r: int)
    ensures r > 0
  {
    if length == "hh" then 0x100 else if length == "h" then 0x1_0000
    else if length == "" then 0x1_0000_0000 else 0x1_0000_0000_0000_0000
  }

  // Signed numbers are read by d and i, except of the length hh: char is unsigned on this machine.
  predicate IsSigned(d: Directive) {
    (d.spec == 'd' || d.spec == 'i') && d.length != "hh"
  }

  /** The number to be printed: what the low bits of the argument stand for. */
  function Value(d: Directive, args: seq<Arg>): int {
    var m := NumOf(Operands(d, args)) % Range(d.length);
    if IsSigned(d) && 2 * m >= Range(d.length) then m - Range(d.length) else m
  }

  /** A number that the length can hold is the number printed. */
  lemma ValueIs(d: Directive, args: seq<Arg>, v: int)
    requires Operands(d, args) != [] && Operands(d, args)[0] == Num(v % ULONG)
    requires if IsSigned(d) then -Range(d.length) <= 2 * v < Range(d.length) else 0 <= v < Range(d.length)
    ensures Value(d, args) == v
  {
    hide Operands;
    var r, n := Range(d.length), v % ULONG;
    assert NumOf(Operands(d, args)) == n by { SmallMod(n, ULONG); }
    assert 0 < r <= ULONG;
    if v >= 0 {
      SmallMod(v, ULONG);
      SmallMod(v, r);
    } else {
      DivUnique(v, ULONG, -1, v + ULONG);
      var k := ULONG / r;
      assert ULONG == r * k;
      assert v + ULONG == r * (k - 1) + (v + r) by { MulSucc(r, k - 1); }
      DivUnique(v + ULONG, r, k - 1, v + r);
    }
  }

  /** What an integer conversion prints, for every flag but '#' on octal, hexadecimal and binary, every width
      and precision, written or taken from arguments, every length but ll, and every argument. */
  lemma IntegerText(d: Directive, t: string, args: seq<Arg>)
    requires WellFormed(d) && d.spec in "diuxXob" && d.length != "ll" && ('#' in d.flags ==> d.spec in "diu")
    ensures var v, more := Value(d, args), Rest(Operands(d, args));
            && (Complete(Spelling(d) + t, args) <==> Complete(t, more))
            && (Complete(t, more) ==>
                  Formatted(Spelling(d) + t, args)
                  == Laid(Sign(d, v), Digits(d, v), Precision(d, args), Width(d, args), LeftSide(d, args), '0' in d.flags && !d.dot)
                     + Formatted(t, more))
  {
    var c := Header(Spelling(d)[1..] + t, args);
    hide Header, Shown, Formatted, Complete, Spelling, IntValue, IntFlags, NumberText, Value, Operands, Precision, Width, LeftSide,
         Laid, Sign, Digits, NumOf, BaseOf;
    DirectiveFormatted(d, t, args);
    DirectiveRead(d, t, args);
    IntSpec(d.spec);
    ShownIs(d.spec, c);
    ReadValue(d, c, args);
    IntFlagsAre(d.spec, c.f);
    var v := Value(d, args);
    DigitsAre(d, v);
    SignIs(d, v, IntFlags(d.spec, c.f));
    NumberLaid(Magnitude(v), v < 0, BaseOf(d.spec), c.prec, c.width, IntFlags(d.spec, c.f), Sign(d, v), Digits(d, v));
  }

  lemma IntSpec(s: char)
    requires s in "diuxXob"
    ensures IsIntSpec(s) && (s in "diu" <==> BaseOf(s) == 10)
  {
  }

  lemma ReadValue(d: Directive, c: Conv, args: seq<Arg>)
    requires d.length in ["", "h", "hh", "l", "j", "z"] && c.args == Operands(d, args)
    requires c.f.chr == (d.length == "hh") && c.f.short == (d.length == "h" || d.length == "hh")
    requires c.f.long == (d.length in ["l", "ll", "j", "z"])
    ensures IntValue(d.spec, c.f, NumOf(c.args)) == Value(d, args)
  {
    hide Operands, NumOf;
  }

  lemma IntFlagsAre(s: char, f: Flags)
    ensures var g := IntFlags(s, f);
            && g.hash == (f.hash && BaseOf(s) != 10) && g.upper == (f.upper || s == 'X') && g.left == f.left
            && g.plus == (f.plus && (s == 'i' || s == 'd')) && g.space == (f.space && (s == 'i' || s == 'd'))
            && g.zeropad == (f.zeropad && !f.precision) && g.precision == f.precision
  {
  }

  lemma SignIs(d: Directive, v: int, f: Flags)
    requires f.plus == ('+' in d.flags && (d.spec == 'i' || d.spec == 'd'))
    requires f.space == (' ' in d.flags && (d.spec == 'i' || d.spec == 'd'))
    requires d.spec != 'p'
    ensures Sign(d, v) == if v < 0 then "-" else if f.plus then "+" else if f.space then " " else ""
  {
  }

  lemma DigitsAre(d: Directive, v: int)
    requires IsIntSpec(d.spec)
    ensures 2 <= BaseOf(d.spec) <= 16
    ensures Digits(d, v) == Rev(if !d.dot || Magnitude(v) != 0 then DigitsOf(Magnitude(v), BaseOf(d.spec), d.spec == 'X', NTOA) else "")
  {
    AlphabetIs(d.spec);
    hide Alphabet, Rev, BaseOf, DigitChar, Low, DigitsOf, Numeral;
    DigitsReversed(Magnitude(v), BaseOf(d.spec), d.spec == 'X', NTOA, Alphabet(d.spec));
    RevEmpty();
  }

  lemma AlphabetIs(s: char)
    requires IsIntSpec(s)
    ensures 2 <= BaseOf(s) <= 16 && |Alphabet(s)| == BaseOf(s)
    ensures forall k :: 0 <= k < BaseOf(s) ==> Alphabet(s)[k] == DigitChar(k, s == 'X')
  {
  }

  // A text in a field of spaces.
  function InField(s: string, width: nat, left: bool): string {
    if left then s + Spaces(width - |s|) else Spaces(width - |s|) + s
  }

  /** A string, or as much of it as the precision allows. */
  lemma StringText(d: Directive, t: string, args: seq<Arg>, p: string, behind: string)
    requires WellFormed(d) && d.spec == 's' && NUL !in p
    requires Operands(d, args) != [] && (Operands(d, args)[0] == Str(p) || Operands(d, args)[0] == Str(p + [NUL] + behind))
    ensures var n, more := Precision(d, args), Rest(Operands(d, args));
            var s := if d.dot && n < |p| then p[..n] else p;
            && (Complete(Spelling(d) + t, args) <==> Complete(t, more))
            && (Complete(t, more) ==>
                  Formatted(Spelling(d) + t, args) == InField(s, Width(d, args), LeftSide(d, args)) + Formatted(t, more))
  {
    hide Header, Formatted, Complete, Spelling, Operands, Precision, Width, LeftSide, WellFormed, Spaces;
    DirectiveFormatted(d, t, args);
    DirectiveRead(d, t, args);
    CStringIs(p, behind);
  }

  lemma {:induction false} CStringIs(p: string, behind: string)
    requires NUL !in p
    ensures CString(p) == p && CString(p + [NUL] + behind) == p
  {
    if p != "" {
      CStringIs(p[1..], behind);
      assert (p + [NUL] + behind)[1..] == p[1..] + [NUL] + behind;
    }
  }

  /** A character. */
  lemma CharText(d: Directive, t: string, args: seq<Arg>)
    requires WellFormed(d) && d.spec == 'c'
    ensures var more := Rest(Operands(d, args));
            && (Complete(Spelling(d) + t, args) <==> Complete(t, more))
            && (Complete(t, more) ==>
                  Formatted(Spelling(d) + t, args)
                  == InField([(NumOf(Operands(d, args)) % 0x100) as char], Width(d, args), LeftSide(d, args)) + Formatted(t, more))
  {
    hide Header, Formatted, Complete, Spelling, Operands, Precision, Width, LeftSide, WellFormed, Spaces, NumOf;
    DirectiveFormatted(d, t, args);
    DirectiveRead(d, t, args);
  }

  /** A percent sign, whatever stands before it. */
  lemma PercentText(d: Directive, t: string, args: seq<Arg>)
    requires WellFormed(d) && d.spec == '%'
    ensures Complete(Spelling(d) + t, args) <==> Complete(t, Operands(d, args))
    ensures Complete(t, Operands(d, args)) ==> Formatted(Spelling(d) + t, args) == "%" + Formatted(t, Operands(d, args))
  {
    hide Header, Formatted, Complete, Spelling, Operands, Precision, Width, LeftSide, WellFormed, Spaces, NumOf;
    DirectiveFormatted(d, t, args);
    DirectiveRead(d, t, args);
  }

  /** A pointer: 16 upper-case digits. */
  lemma PointerText(d: Directive, t: string, args: seq<Arg>)
    requires WellFormed(d) && d.spec == 'p' && '#' !in d.flags
    ensures var v, more := NumOf(Operands(d, args)), Rest(Operands(d, args));
            && (Complete(Spelling(d) + t, args) <==> Complete(t, more))
            && (Complete(t, more) ==>
                  Formatted(Spelling(d) + t, args)
                  == Laid(Sign(d, v), Digits(d, v), Precision(d, args), 16, LeftSide(d, args), true) + Formatted(t, more))
  {
    var c := Header(Spelling(d)[1..] + t, args);
    hide Header, Formatted, Complete, Spelling, NumberText, Operands, Precision, Width, LeftSide, Laid, NumOf, Shown, Digits, Sign;
    DirectiveFormatted(d, t, args);
    DirectiveRead(d, t, args);
    PointerShown(c);
    PointerDigits(d, NumOf(c.args));
    PointerSign(d, NumOf(c.args), c.f);
    NumberLaid(NumOf(c.args), false, 16, c.prec, 16, c.f.(zeropad := true, upper := true), Sign(d, NumOf(c.args)), Digits(d, NumOf(c.args)));
  }

  lemma PointerShown(c: Conv)
    ensures Shown('p', c) == NumberText(NumOf(c.args), false, 16, c.prec, 16, c.f.(zeropad := true, upper := true))
    ensures ArgsAfter('p', c) == Rest(c.args)
  {
    hide NumberText, NumOf;
  }

  lemma PointerDigits(d: Directive, v: nat)
    requires d.spec == 'p'
    ensures Digits(d, v) == Rev(if !d.dot || v != 0 then DigitsOf(v, 16, true, NTOA) else "")
  {
    var digits := "0123456789ABCDEF";
    assert |digits| == 16 && forall k :: 0 <= k < 16 ==> digits[k] == DigitChar(k, true);
    hide Rev, DigitChar, Low, DigitsOf, Numeral;
    DigitsReversed(v, 16, true, NTOA, digits);
    RevEmpty();
  }

  lemma PointerSign(d: Directive, v: nat, f: Flags)
    requires d.spec == 'p' && f.plus == ('+' in d.flags) && f.space == (' ' in d.flags)
    ensures Sign(d, v) == if f.plus then "+" else if f.space then " " else ""
  {
  }

  lemma {:induction false} NumeralShort(v: nat, digits: string, n: nat)
    requires |digits| >= 2 && v < Pow(|digits|, n) && n > 0
    ensures |Numeral(v, digits)| <= n
  {
    hide Pow, Numeral;
    var base := |digits|;
    NumeralStep(v, digits);
    if v >= base {
      if n == 1 {
        FirstPower(base);
      } else {
        PowNext(base, n - 1);
        DivBelow(v, base, Pow(base, n - 1));
        NumeralShort(Higher(v, base), digits, n - 1);
      }
    }
  }

  lemma NumeralStep(v: nat, digits: string)
    requires |digits| >= 2
    ensures |Numeral(v, digits)| == 1 + if v < |digits| then 0 else |Numeral(Higher(v, |digits|), digits)|
  {
  }

  /** "%0Nx": zeros up to N characters, as far as 32. */
  lemma ZeroPaddedHex(n: string, v: nat, t: string, args: seq<Arg>)
    requires Decimal(n) && n[0] != '0' && v < UINT
    ensures var digits := Numeral(v, "0123456789abcdef");
            && (Complete("%0" + n + "x" + t, [Num(v)] + args) <==> Complete(t, args))
            && (Complete(t, args) ==>
                  Formatted("%0" + n + "x" + t, [Num(v)] + args)
                  == Zeros(AtMost(Dec(n) % UINT, 32) - |digits|) + digits + Formatted(t, args))
  {
    hide Complete, Formatted, Numeral, Zeros, AtMost, Dec, Pow;
    var d := Directive("0", Written(n), false, Absent, "", 'x');
    var digits := Numeral(v, "0123456789abcdef");
    assert Spelling(d) == "%0" + n + "x";
    ShortHex(v);
    assert Zeros(AtMost(Larger(0, Dec(n) % UINT), 32) - |digits|) == Zeros(AtMost(Dec(n) % UINT, 32) - |digits|);
    ValueIs(d, [Num(v)] + args, v) by { SmallMod(v, ULONG); }
    IntegerText(d, t, [Num(v)] + args);
    assert ([Num(v)] + args)[1..] == args;
    RoomForNothing(Zeros(AtMost(Dec(n) % UINT, 32) - |digits|) + digits);
  }

  lemma RoomForNothing(s: string)
    ensures WithRoom("", s) == s
  {
  }

  lemma ShortHex(v: nat)
    requires v < UINT
    ensures |Numeral(v, "0123456789abcdef")| <= 8
  {
    Powers16();
    NumeralShort(v, "0123456789abcdef", 8);
  }

  lemma Powers16()
    ensures Pow(16, 8) == UINT
  {
    assert Pow(16, 2) == 0x100;
    assert Pow(16, 4) == 0x1_0000;
    assert Pow(16, 6) == 0x100_0000;
  }

  /** "%Nd" and "%-Nd": the number on the right and on the left of N characters. */
  lemma Justified(n: string, v: int, t: string, args: seq<Arg>)
    requires Decimal(n) && n[0] != '0' && -0x8000_0000 <= v < 0x8000_0000
    ensures var s := (if v < 0 then "-" else "") + Numeral(Magnitude(v), "0123456789");
            var given := [Num(v % ULONG)] + args;
            && (Complete("%" + n + "d" + t, given) <==> Complete(t, args))
            && (Complete("%-" + n + "d" + t, given) <==> Complete(t, args))
            && (Complete(t, args) ==>
                  && Formatted("%" + n + "d" + t, given) == Spaces(Dec(n) % UINT - |s|) + s + Formatted(t, args)
                  && Formatted("%-" + n + "d" + t, given) == s + Spaces(Dec(n) % UINT - |s|) + Formatted(t, args))
  {
    hide Complete, Formatted, Spelling, Dec;
    JustifiedBy("", n, v, t, args);
    JustifiedBy("-", n, v, t, args);
    assert "%" + "" + n + "d" == "%" + n + "d" && "%" + "-" + n + "d" == "%-" + n + "d";
  }

  lemma JustifiedBy(flags: string, n: string, v: int, t: string, args: seq<Arg>)
    requires Decimal(n) && n[0] != '0' && -0x8000_0000 <= v < 0x8000_0000 && (flags == "" || flags == "-")
    ensures var s := (if v < 0 then "-" else "") + Numeral(Magnitude(v), "0123456789");
            var given := [Num(v % ULONG)] + args;
            var format := "%" + flags + n + "d" + t;
            && (Complete(format, given) <==> Complete(t, args))
            && (Complete(t, args) ==> Formatted(format, given) == InField(s, Dec(n) % UINT, flags == "-") + Formatted(t, args))
  {
    hide Complete, Formatted, Numeral, Spaces, Dec, Laid, InField, Sign, Digits, Value;
    var d := Directive(flags, Written(n), false, Absent, "", 'd');
    assert Spelling(d) == "%" + flags + n + "d";
    var given := [Num(v % ULONG)] + args;
    ValueIs(d, given, v);
    IntegerText(d, t, given);
    assert given[1..] == args;
    JustifiedLaid(d, v, Dec(n) % UINT);
  }

  lemma JustifiedLaid(d: Directive, v: int, w: nat)
    requires d.spec == 'd' && !d.dot && (d.flags == "" || d.flags == "-") && -0x8000_0000 <= v < 0x8000_0000
    ensures Laid(Sign(d, v), Digits(d, v), 0, w, d.flags == "-", false)
            == InField((if v < 0 then "-" else "") + Numeral(Magnitude(v), "0123456789"), w, d.flags == "-")
  {
    hide Numeral, Spaces, Zeros, InField, WithRoom, Low, AtMost;
    var digits := Numeral(Magnitude(v), "0123456789");
    ShortDecimal(Magnitude(v));
    ShortLow(digits);
    ShortRoom(Sign(d, v), digits);
  }

  lemma ShortLow(s: string)
    requires |s| <= 10
    ensures Low(s, 32) == s
  {
  }

  // Short digits with no zeros asked for.
  lemma ShortRoom(sign: string, s: string)
    requires |s| <= 10
    ensures WithRoom(sign, s) == sign + s && Zeros(AtMost(0, 32) - |s|) + s == s
    ensures forall w: nat :: InField(sign + s, w, true) == sign + s + Spaces(w - |sign + s|) && InField(sign + s, w, false) == Spaces(w - |sign + s|) + (sign + s)
  {
  }

  lemma ShortDecimal(v: nat)
    requires v <= 0x8000_0000
    ensures |Numeral(v, "0123456789")| <= 10
  {
    assert Pow(10, 2) == 100;
    assert Pow(10, 4) == 10000;
    assert Pow(10, 6) == 100_0000;
    assert Pow(10, 8) == 1_0000_0000;
    assert Pow(10, 10) == 100_0000_0000;
    NumeralShort(v, "0123456789", 10);
  }
}
