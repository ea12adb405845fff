/** The tiny printf of zone 2: formatting into a buffer of any size, and integers as text. */
module Printf {
  import opened Arith

  const NUL := '\0'
  const NTOA: nat := 32               // PRINTF_NTOA_BUFFER_SIZE
  const UINT := 0x1_0000_0000         // unsigned int
  const ULONG := 0x1_0000_0000_0000_0000

  datatype Flags = Flags(zeropad: bool, left: bool, plus: bool, space: bool, hash: bool, upper: bool,
                         chr: bool, short: bool, long: bool, longlong: bool, precision: bool)

  const NONE := Flags(false, false, false, false, false, false, false, false, false, false, false)

  /** A variable argument: the 64-bit register, or the string it points to. */
  datatype Arg = Num(n: nat) | Str(s: string)

  // va_arg; a missing argument or one of the other kind, undefined in C, reads as 0 or "".
  function NumOf(args: seq<Arg>): nat {
    if args != [] && args[0].Num? then args[0].n % ULONG else 0
  }

  function StrOf(args: seq<Arg>): string {
    if args != [] && args[0].Str? then CString(args[0].s) else ""
  }

  function CString(s: string): (r: string)
    ensures NUL !in r && |r| <= |s|
  {
    if s == "" || s[0] == NUL then "" else [s[0]] + CString(s[1..])
  }

  function Rest(args: seq<Arg>): seq<Arg> {
    if args == [] then [] else args[1..]
  }

  // The low bits as a signed number; half is 2 to the number of bits less one.
  function Signed(n: nat, half: nat): int
    requires half > 0
  {
    var m := n % (2 * half);
    if m < half then m else m - 2 * half
  }

  // The character a format pointer is at.
  function Cur(s: string): char {
    if s == "" then NUL else s[0]
  }

  predicate IsDigit(c: char) {
    '0' <= c <= '9'
  }

  function DigitAt(c: char): nat
    requires IsDigit(c)
  {
    c as int - '0' as int
  }

  /** The state of a conversion specification being read: what is left of the format and the arguments. */
  datatype Conv = Conv(f: Flags, width: nat, prec: nat, rest: string, args: seq<Arg>)

  predicate IsFlag(c: char) {
    c == '0' || c == '-' || c == '+' || c == ' ' || c == '#'
  }

  function SetFlag(c: char, f: Flags): (g: Flags)
    ensures g.precision == f.precision
  {
    match c
    case '0' => f.(zeropad := true)
    case '-' => f.(left := true)
    case '+' => f.(plus := true)
    case ' ' => f.(space := true)
    case _ => f.(hash := true)
  }

  function FlagsOf(s: string, f: Flags): (r: (Flags, string))
    ensures |r.1| <= |s| && r.0.precision == f.precision
  {
    if s != "" && IsFlag(s[0]) then FlagsOf(s[1..], SetFlag(s[0], f)) else (f, s)
  }

  function NumberOf(s: string, i: nat): (r: (nat, string))
    ensures |r.1| <= |s|
  {
    if s != "" && IsDigit(s[0]) then NumberOf(s[1..], (i * 10 + DigitAt(s[0])) % UINT) else (i, s)
  }

  function WidthOf(c: Conv): (r: Conv)
    ensures |r.rest| <= |c.rest|
  {
    if IsDigit(Cur(c.rest)) then
      var (w, s) := NumberOf(c.rest, 0);
      c.(width := w, rest := s)
    else if Cur(c.rest) == '*' then
      var w := Signed(NumOf(c.args), 0x8000_0000);
      c.(f := if w < 0 then c.f.(left := true) else c.f, width := if w < 0 then -w else w,
         rest := c.rest[1..], args := Rest(c.args))
    else c
  }

  function PrecOf(c: Conv): (r: Conv)
    ensures |r.rest| <= |c.rest|
  {
    if Cur(c.rest) == '.' then
      var d := c.(f := c.f.(precision := true), rest := c.rest[1..]);
      if IsDigit(Cur(d.rest)) then
        var (p, s) := NumberOf(d.rest, 0);
        d.(prec := p, rest := s)
      else if Cur(d.rest) == '*' then
        var p := Signed(NumOf(d.args), 0x8000_0000);
        d.(prec := if p > 0 then p else 0, rest := d.rest[1..], args := Rest(d.args))
      else d
    else c
  }

  function LengthOf(c: Conv): (r: Conv)
    ensures |r.rest| <= |c.rest|
  {
    if Cur(c.rest) == 'l' then
      var d := c.(f := c.f.(long := true), rest := c.rest[1..]);
      if Cur(d.rest) == 'l' then d.(f := d.f.(longlong := true), rest := d.rest[1..]) else d
    else if Cur(c.rest) == 'h' then
      var d := c.(f := c.f.(short := true), rest := c.rest[1..]);
      if Cur(d.rest) == 'h' then d.(f := d.f.(chr := true), rest := d.rest[1..]) else d
    else if Cur(c.rest) == 'j' || Cur(c.rest) == 'z' then
      c.(f := c.f.(long := true), rest := c.rest[1..])
    else c
  }

  /** What stands between the percent sign and the specifier. */
  function Header(s: string, args: seq<Arg>): (r: Conv)
    ensures |r.rest| <= |s|
  {
    var (f, t) := FlagsOf(s, NONE);
    LengthOf(PrecOf(WidthOf(Conv(f, 0, 0, t, args))))
  }

  function Spaces(n: int): (s: string)
    ensures |s| == if n > 0 then n else 0
  {
    seq(if n > 0 then n else 0, _ => ' ')
  }

  function Zeros(n: int): (s: string)
    ensures |s| == if n > 0 then n else 0
  {
    seq(if n > 0 then n else 0, _ => '0')
  }

  function Rev(s: string): (r: string)
    ensures |r| == |s|
  {
    if s == "" then "" else Rev(s[1..]) + [s[0]]
  }

  function DigitChar(d: nat, upper: bool): char
    requires d < 16
  {
    if d < 10 then ('0' as int + d) as char
    else if upper then ('A' as int + d - 10) as char else ('a' as int + d - 10) as char
  }

  function LastDigit(v: nat, base: nat): (d: nat)
    requires base > 0
    ensures d < base
  {
    v % base
  }

  function Higher(v: nat, base: nat): nat
    requires base > 0
  {
    v / base
  }

  // The digits of value, last first, as many as there is room for, at least one.
  function DigitsOf(value: nat, base: nat, upper: bool, room: nat): (s: string)
    requires 2 <= base <= 16 && room > 0
    ensures 1 <= |s| <= room
    decreases room
  {
    [DigitChar(LastDigit(value, base), upper)]
    + if Higher(value, base) == 0 || room == 1 then "" else DigitsOf(Higher(value, base), base, upper, room - 1)
  }

  // b with zeros up to n characters, as far as the digit buffer goes.
  function Padded(b: string, n: nat): string {
    b + Zeros((if n < NTOA then n else NTOA) - |b|)
  }

  function ShortWidth(negative: bool, width: nat, f: Flags): nat {
    if !f.left && width > 0 && f.zeropad && (negative || f.plus || f.space) then width - 1 else width
  }

  // The '#' flag: takes up to two characters off the number if it fills the width, and puts the prefix on.
  function Cut(b: string, base: nat, prec: nat, width: nat, f: Flags): string {
    if f.hash && !f.precision && b != "" && (|b| == prec || |b| == width)
    then b[..if |b| > 1 && base == 16 then |b| - 2 else |b| - 1] else b
  }

  function Appended(b: string, c: char): string {
    if |b| < NTOA then b + [c] else b
  }

  function Prefixed(b: string, base: nat, f: Flags): string {
    if !f.hash then b else
      Appended(if base == 16 then Appended(b, if f.upper then 'X' else 'x')
               else if base == 2 then Appended(b, 'b') else b, '0')
  }

  function WithSign(b: string, negative: bool, f: Flags): string {
    if negative then Appended(b, '-') else if f.plus then Appended(b, '+') else if f.space then Appended(b, ' ') else b
  }

  function ZeroFilled(b: string, prec: nat, width: nat, f: Flags): string {
    if f.left then b else
      var p := Padded(b, prec);
      if f.zeropad then Padded(p, width) else p
  }

  // The digit buffer when the number is complete.
  function Dressed(b: string, negative: bool, base: nat, prec: nat, width: nat, f: Flags): string {
    var w := ShortWidth(negative, width, f);
    WithSign(Prefixed(Cut(ZeroFilled(b, prec, w, f), base, prec, w, f), base, f), negative, f)
  }

  // _out_rev: the buffer in reverse, with spaces on one side.
  function Field(b: string, width: nat, f: Flags): string {
    (if !f.left && !f.zeropad then Spaces(width - |b|) else "") + Rev(b) + if f.left then Spaces(width - |b|) else ""
  }

  function NumberText(value: nat, negative: bool, base: nat, prec: nat, width: nat, f: Flags): string
    requires 2 <= base <= 16
  {
    var g := if value == 0 then f.(hash := false) else f;
    var b := if !g.precision || value != 0 then DigitsOf(value, base, g.upper, NTOA) else "";
    Field(Dressed(b, negative, base, prec, width, g), ShortWidth(negative, width, g), g)
  }

  predicate IsIntSpec(c: char) {
    c == 'd' || c == 'i' || c == 'u' || c == 'x' || c == 'X' || c == 'o' || c == 'b'
  }

  function BaseOf(c: char): nat {
    if c == 'x' || c == 'X' then 16 else if c == 'o' then 8 else if c == 'b' then 2 else 10
  }

  // The flags as an integer conversion uses them.
  function IntFlags(c: char, f: Flags): Flags {
    f.(hash := f.hash && BaseOf(c) != 10, upper := f.upper || c == 'X',
       plus := f.plus && (c == 'i' || c == 'd'), space := f.space && (c == 'i' || c == 'd'),
       zeropad := f.zeropad && !f.precision)
  }

  /** The number an integer conversion prints; char is unsigned on this machine. */
  function IntValue(c: char, f: Flags, n: nat): int {
    if c == 'i' || c == 'd' then
      if f.long then Signed(n, 0x8000_0000_0000_0000)
      else if f.chr then n % 0x100
      else if f.short then Signed(n, 0x8000)
      else Signed(n, 0x8000_0000)
    else if f.long then n % ULONG
    else if f.chr then n % 0x100
    else if f.short then n % 0x1_0000
    else n % UINT
  }

  function Magnitude(v: int): nat {
    if v < 0 then -v else v
  }

  /** The text of a conversion with the specifier s. */
  function Shown(s: char, c: Conv): string {
    var n := NumOf(c.args);
    if IsIntSpec(s) then
      if c.f.longlong then "" else
        var v := IntValue(s, c.f, n);
        NumberText(Magnitude(v), v < 0, BaseOf(s), c.prec, c.width, IntFlags(s, c.f))
    else if s == 'c' then
      var pad := Spaces(c.width - 1);
      if c.f.left then [(n % 0x100) as char] + pad else pad + [(n % 0x100) as char]
    else if s == 's' then
      var p := StrOf(c.args);
      var t := if c.f.precision && c.prec < |p| then p[..c.prec] else p;
      if c.f.left then t + Spaces(c.width - |t|) else Spaces(c.width - |t|) + t
    else if s == 'p' then
      NumberText(n, false, 16, c.prec, 16, c.f.(zeropad := true, upper := true))
    else [s]
  }

  function ArgsAfter(s: char, c: Conv): seq<Arg> {
    if (IsIntSpec(s) && !c.f.longlong) || s == 'c' || s == 's' || s == 'p' then Rest(c.args) else c.args
  }

  /** The format does not end inside a conversion. */
  predicate Complete(s: string, args: seq<Arg>)
    decreases |s|
  {
    if s == "" then true
    else if s[0] != '%' then Complete(s[1..], args)
    else
      var c := Header(s[1..], args);
      c.rest != "" && Complete(c.rest[1..], ArgsAfter(c.rest[0], c))
  }

  /** The whole text that a format stands for. */
  function Formatted(s: string, args: seq<Arg>): string
    requires Complete(s, args)
    decreases |s|
  {
    if s == "" then ""
    else if s[0] != '%' then [s[0]] + Formatted(s[1..], args)
    else
      var c := Header(s[1..], args);
      Shown(c.rest[0], c) + Formatted(c.rest[1..], ArgsAfter(c.rest[0], c))
  }

  /** Where the characters go: _out_buffer, or _out_null for a null buffer. */
  class Out {
    const buffer: array<char>
    const maxlen: nat
    const isNull: bool
    ghost const was: seq<char>
    ghost var text: string    // all characters so far

    ghost predicate Ok()
      reads this, buffer
    {
      && (isNull || maxlen <= buffer.Length) && |was| == buffer.Length
      && (forall k :: 0 <= k < buffer.Length ==>
            buffer[k] == if !isNull && k < maxlen && k < |text| then text[k] else was[k])
    }

    constructor (buffer: array<char>, maxlen: nat, isNull: bool)
      requires isNull || maxlen <= buffer.Length
      ensures Ok() && text == "" && this.buffer == buffer && this.maxlen == maxlen && this.isNull == isNull && was == buffer[..]
    {
      this.buffer, this.maxlen, this.isNull, was, text := buffer, maxlen, isNull, buffer[..], "";
    }

    lemma InBuffer()
      requires Ok()
      ensures |was| == buffer.Length
      ensures if isNull || maxlen == 0 then buffer[..] == was
              else maxlen <= buffer.Length
                   && forall k :: 0 <= k < buffer.Length ==> buffer[..][k] == if k < maxlen && k < |text| then text[k] else was[k]
    {
    }

    // out(character, buffer, idx, maxlen), always with the next index
    method Put(c: char, idx: nat)
      requires Ok() && idx == |text|
      modifies this, buffer
      ensures Ok() && text == old(text) + [c]
    {
      if !isNull && idx < maxlen {
        buffer[idx] := c;
      }
      text := text + [c];
    }

    // Put out spaces until the field is as wide as asked.
    method Pad(idx: nat, from: nat, width: nat) returns (end: nat)
      requires Ok() && idx == |text|
      modifies this, buffer
      ensures Ok() && text == old(text) + Spaces(width - from) && end == |text|
    {
      end := idx;
      var i := from;
      while i < width
        invariant Ok() && end == |text| && from <= i && (if from <= width then i <= width else i == from)
        invariant text == old(text) + Spaces(i - from)
      {
        Put(' ', end);
        end := end + 1;
        i := i + 1;
        assert Spaces(i - from) == Spaces(i - 1 - from) + " ";
      }
      assert Spaces(i - from) == Spaces(width - from);
    }
  }

  lemma {:induction false} RevPlus(a: string, c: char)
    ensures Rev(a + [c]) == [c] + Rev(a)
  {
    if a != "" {
      RevPlus(a[1..], c);
      assert (a + [c])[1..] == a[1..] + [c];
    } else {
      assert a + [c] == [c] && [c][1..] == "";
    }
  }

  lemma Assoc(a: string, b: string, c: string)
    ensures a + b + c == a + (b + c)
  {
  }

  // _out_rev
  method OutRev(o: Out, idx: nat, buf: array<char>, len: nat, width: nat, f: Flags) returns (end: nat)
    requires o.Ok() && idx == |o.text| && len <= buf.Length && buf != o.buffer
    modifies o, o.buffer
    ensures o.Ok() && o.text == old(o.text) + Field(buf[..len], width, f) && end == |o.text|
  {
    hide Out.Ok, Rev, Spaces;
    end := idx;
    ghost var b, before := buf[..len], o.text;
    ghost var left := if !f.left && !f.zeropad then Spaces(width - len) else "";
    if !f.left && !f.zeropad {
      end := o.Pad(end, len, width);
    }
    end := Reversed(o, end, buf, len);
    ghost var right := if f.left then Spaces(width - len) else "";
    if f.left {
      end := o.Pad(end, len, width);
    }
    assert o.text == before + left + Rev(b) + right;
    Assoc(before, left, Rev(b));
    Assoc(before, left + Rev(b), right);
  }

  method Reversed(o: Out, idx: nat, buf: array<char>, len: nat) returns (end: nat)
    requires o.Ok() && idx == |o.text| && len <= buf.Length && buf != o.buffer
    modifies o, o.buffer
    ensures o.Ok() && o.text == old(o.text) + Rev(buf[..len]) && end == |o.text|
  {
    hide Out.Ok, Rev;
    end := idx;
    ghost var b, before := buf[..len], o.text;
    var l := len;
    assert b[..l] == b;
    while l > 0
      invariant 0 <= l <= len && o.Ok() && end == |o.text|
      invariant o.text + Rev(b[..l]) == before + Rev(b)
    {
      l := l - 1;
      RevPlus(b[..l], b[l]);
      assert b[..l] + [b[l]] == b[..l + 1];
      Assoc(o.text, [b[l]], Rev(b[..l]));
      o.Put(buf[l], end);
      end := end + 1;
    }
    RevEmpty();
    assert b[..0] == "" && o.text + "" == o.text;
  }

  lemma RevEmpty()
    ensures Rev("") == ""
  {
  }

  // One loop that pads with zeros.
  method PadZeros(buf: array<char>, len: nat, n: nat) returns (l: nat)
    requires len <= buf.Length == NTOA
    modifies buf
    ensures l <= NTOA && buf[..l] == Padded(old(buf[..len]), n)
  {
    ghost var b := buf[..len];
    l := len;
    while l < n && l < NTOA
      invariant len <= l <= NTOA && (l > len ==> l <= n) && buf[..l] == b + Zeros(l - len)
    {
      buf[l] := '0';
      l := l + 1;
      assert Zeros(l - len) == Zeros(l - 1 - len) + "0";
    }
    assert Zeros(l - len) == Zeros((if n < NTOA then n else NTOA) - len);
  }

  method Append(buf: array<char>, len: nat, c: char) returns (l: nat)
    requires len <= buf.Length == NTOA
    modifies buf
    ensures l <= NTOA && buf[..l] == Appended(old(buf[..len]), c)
  {
    l := len;
    if l < NTOA {
      buf[l] := c;
      l := l + 1;
    }
  }

  // What the # flag does to the digit buffer.
  method Hash(buf: array<char>, len: nat, base: nat, prec: nat, width: nat, f: Flags) returns (l: nat)
    requires len <= buf.Length == NTOA
    modifies buf
    ensures l <= NTOA && buf[..l] == Prefixed(Cut(old(buf[..len]), base, prec, width, f), base, f)
  {
    hide Appended;
    l := len;
    if f.hash {
      if !f.precision && l > 0 && (l == prec || l == width) {
        l := l - 1;
        if l > 0 && base == 16 {
          l := l - 1;
        }
      }
      assert buf[..l] == Cut(old(buf[..len]), base, prec, width, f);
      if base == 16 && !f.upper {
        l := Append(buf, l, 'x');
      } else if base == 16 {
        l := Append(buf, l, 'X');
      } else if base == 2 {
        l := Append(buf, l, 'b');
      }
      l := Append(buf, l, '0');
    }
  }

  // _ntoa_format
  method NtoaFormat(o: Out, idx: nat, buf: array<char>, len: nat, negative: bool, base: nat, prec: nat, width: nat, f: Flags)
    returns (end: nat)
    requires o.Ok() && idx == |o.text| && len <= buf.Length == NTOA && buf != o.buffer
    modifies o, o.buffer, buf
    ensures o.Ok() && end == |o.text|
    ensures o.text == old(o.text) + Field(Dressed(old(buf[..len]), negative, base, prec, width, f), ShortWidth(negative, width, f), f)
  {
    hide Out.Ok, Field, Padded, Cut, Prefixed, Appended;
    var w, l := width, len;
    if !f.left {
      if w > 0 && f.zeropad && (negative || f.plus || f.space) {
        w := w - 1;
      }
      l := PadZeros(buf, l, prec);
      if f.zeropad {
        l := PadZeros(buf, l, w);
      }
    }
    l := Hash(buf, l, base, prec, w, f);
    if negative {
      l := Append(buf, l, '-');
    } else if f.plus {
      l := Append(buf, l, '+');
    } else if f.space {
      l := Append(buf, l, ' ');
    }
    end := OutRev(o, idx, buf, l, w, f);
  }

  lemma DigitsStep(before: string, value: nat, base: nat, upper: bool, room: nat)
    requires 2 <= base <= 16 && room > 0
    ensures var d := DigitChar(LastDigit(value, base), upper);
            var more := if Higher(value, base) == 0 || room == 1 then "" else DigitsOf(Higher(value, base), base, upper, room - 1);
            && DigitsOf(value, base, upper, room) == [d] + more
            && before + DigitsOf(value, base, upper, room) == before + [d] + more
  {
    hide LastDigit, Higher, DigitChar;
    Assoc(before, [DigitChar(LastDigit(value, base), upper)],
          if Higher(value, base) == 0 || room == 1 then "" else DigitsOf(Higher(value, base), base, upper, room - 1));
  }

  // The loop of _ntoa_long.
  method PutDigits(buf: array<char>, value: nat, base: nat, upper: bool) returns (len: nat)
    requires buf.Length == NTOA && 2 <= base <= 16
    modifies buf
    ensures len <= NTOA && buf[..len] == DigitsOf(value, base, upper, NTOA)
  {
    hide DigitChar, DigitsOf, LastDigit, Higher;
    len := 0;
    var v: nat := value;
    ghost var all := DigitsOf(value, base, upper, NTOA);
    assert buf[..0] + all == all;
    var more := true;
    while more
      invariant len <= NTOA && (more ==> len < NTOA)
      invariant all == buf[..len] + if more then DigitsOf(v, base, upper, NTOA - len) else ""
      decreases NTOA - len, more
    {
      DigitsStep(buf[..len], v, base, upper, NTOA - len);
      buf[len] := DigitChar(LastDigit(v, base), upper);
      len := len + 1;
      assert buf[..len] == buf[..len - 1] + [buf[len - 1]];
      v := Higher(v, base);
      more := v != 0 && len < NTOA;
    }
  }

  // _ntoa_long
  method NtoaLong(o: Out, idx: nat, value: nat, negative: bool, base: nat, prec: nat, width: nat, f: Flags) returns (end: nat)
    requires o.Ok() && idx == |o.text| && 2 <= base <= 16
    modifies o, o.buffer
    ensures o.Ok() && end == |o.text| && o.text == old(o.text) + NumberText(value, negative, base, prec, width, f)
  {
    hide Out.Ok, Field, Dressed, DigitChar, DigitsOf;
    var buf := new char[NTOA];
    var len := 0;
    var g := f;
    if value == 0 {
      g := g.(hash := false);
    }
    if !g.precision || value != 0 {
      len := PutDigits(buf, value, base, g.upper);
    } else {
      assert buf[..len] == "";
    }
    end := NtoaFormat(o, idx, buf, len, negative, base, prec, width, g);
  }

  // Read the flag characters.
  method EvalFlags(s: string) returns (f: Flags, rest: string)
    ensures (f, rest) == FlagsOf(s, NONE)
  {
    f, rest := NONE, s;
    while IsFlag(Cur(rest))
      invariant FlagsOf(s, NONE) == FlagsOf(rest, f)
      decreases |rest|
    {
      f := SetFlag(rest[0], f);
      rest := rest[1..];
    }
  }

  // _atoi
  method Atoi(s: string) returns (i: nat, rest: string)
    ensures (i, rest) == NumberOf(s, 0)
  {
    i, rest := 0, s;
    while IsDigit(Cur(rest))
      invariant NumberOf(s, 0) == NumberOf(rest, i)
      decreases |rest|
    {
      i := (i * 10 + DigitAt(rest[0])) % UINT;
      rest := rest[1..];
    }
  }

  // Read the width, from the format or from an argument.
  method EvalWidth(c: Conv) returns (d: Conv)
    ensures d == WidthOf(c)
  {
    d := c;
    if IsDigit(Cur(c.rest)) {
      var w, s := Atoi(c.rest);
      d := d.(width := w, rest := s);
    } else if Cur(c.rest) == '*' {
      var w := Signed(NumOf(c.args), 0x8000_0000);
      d := d.(args := Rest(c.args));
      if w < 0 {
        d := d.(f := d.f.(left := true), width := -w);
      } else {
        d := d.(width := w);
      }
      d := d.(rest := c.rest[1..]);
    }
  }

  // Read the precision, from the format or from an argument.
  method EvalPrec(c: Conv) returns (d: Conv)
    ensures d == PrecOf(c)
  {
    d := c;
    if Cur(c.rest) == '.' {
      d := d.(f := d.f.(precision := true), rest := d.rest[1..]);
      if IsDigit(Cur(d.rest)) {
        var p, s := Atoi(d.rest);
        d := d.(prec := p, rest := s);
      } else if Cur(d.rest) == '*' {
        var p := Signed(NumOf(d.args), 0x8000_0000);
        d := d.(prec := if p > 0 then p else 0, rest := d.rest[1..], args := Rest(d.args));
      }
    }
  }

  // _strnlen_s
  method Strnlen(p: string, maxsize: nat) returns (n: nat)
    requires NUL !in p
    ensures n == if |p| < maxsize then |p| else maxsize
  {
    n := 0;
    var m := maxsize;
    while n < |p| && m > 0
      invariant n <= |p| && m >= 0 && n + m == maxsize
    {
      n, m := n + 1, m - 1;
    }
  }

  // The base and the flags for a specifier.
  method EvalInt(s: char, c: Flags) returns (base: nat, f: Flags)
    requires IsIntSpec(s)
    ensures base == BaseOf(s) && f == IntFlags(s, c)
  {
    hide IsIntSpec;
    base := if s == 'x' || s == 'X' then 16 else if s == 'o' then 8 else if s == 'b' then 2 else 10;
    var hash, upper, plus, space, zeropad := c.hash, c.upper, c.plus, c.space, c.zeropad;
    if base == 10 {
      hash := false;
    }
    if s == 'X' {
      upper := true;
    }
    if s != 'i' && s != 'd' {
      plus, space := false, false;
    }
    if c.precision {
      zeropad := false;
    }
    f := Flags(zeropad, c.left, plus, space, hash, upper, c.chr, c.short, c.long, c.longlong, c.precision);
  }

  // %d %i %u %x %X %o %b
  method EmitInt(o: Out, idx: nat, s: char, c: Conv) returns (end: nat)
    requires o.Ok() && idx == |o.text| && IsIntSpec(s)
    modifies o, o.buffer
    ensures o.Ok() && end == |o.text| && o.text == old(o.text) + Shown(s, c)
  {
    hide Out.Ok, NumberText, IntValue, IntFlags, IsIntSpec, CString;
    end := idx;
    var base, f := EvalInt(s, c.f);
    if !c.f.longlong {
      var v := IntValue(s, c.f, NumOf(c.args));
      end := NtoaLong(o, idx, Magnitude(v), v < 0, base, c.prec, c.width, f);
    } else {
      assert o.text == o.text + "";
    }
  }

  // %c
  method EmitChar(o: Out, idx: nat, c: Conv) returns (end: nat)
    requires o.Ok() && idx == |o.text|
    modifies o, o.buffer
    ensures o.Ok() && end == |o.text| && o.text == old(o.text) + Shown('c', c)
  {
    hide Out.Ok, Spaces, NumberText;
    end := idx;
    var ch := (NumOf(c.args) % 0x100) as char;
    if !c.f.left {
      end := o.Pad(end, 1, c.width);
    }
    o.Put(ch, end);
    end := end + 1;
    if c.f.left {
      end := o.Pad(end, 1, c.width);
    }
  }

  // Put out the string up to its terminator, or as many characters of it as the precision allows.
  method PutString(o: Out, idx: nat, p: string, prec: nat, f: Flags) returns (end: nat)
    requires o.Ok() && idx == |o.text|
    modifies o, o.buffer
    ensures o.Ok() && end == |o.text|
    ensures o.text == old(o.text) + if f.precision && prec < |p| then p[..prec] else p
  {
    hide Out.Ok;
    end := idx;
    var i, left := 0, prec;
    while i < |p| && (!f.precision || left > 0)
      invariant o.Ok() && end == |o.text| && 0 <= i <= |p| && left >= 0
      invariant f.precision ==> i + left == prec
      invariant o.text == old(o.text) + p[..i]
    {
      assert p[..i + 1] == p[..i] + [p[i]];
      o.Put(p[i], end);
      end := end + 1;
      i := i + 1;
      left := if f.precision then left - 1 else left;
    }
    assert p[..|p|] == p;
  }

  // %s
  method EmitString(o: Out, idx: nat, c: Conv) returns (end: nat)
    requires o.Ok() && idx == |o.text| && Fits(c.args) && (c.f.precision || c.prec == 0)
    modifies o, o.buffer
    ensures o.Ok() && end == |o.text| && o.text == old(o.text) + Shown('s', c)
  {
    hide Out.Ok, Spaces, NumberText, CString;
    end := idx;
    var p := StrOf(c.args);
    ghost var t := if c.f.precision && c.prec < |p| then p[..c.prec] else p;
    var l := Strnlen(p, if c.prec > 0 then c.prec else ULONG - 1);
    if c.f.precision {
      l := if l < c.prec then l else c.prec;
    }
    assert l == |t|;
    ghost var before := o.text;
    if !c.f.left {
      end := o.Pad(end, l, c.width);
    }
    end := PutString(o, end, p, c.prec, c.f);
    if c.f.left {
      end := o.Pad(end, l, c.width);
      Assoc(before, t, Spaces(c.width - |t|));
    } else {
      Assoc(before, Spaces(c.width - |t|), t);
    }
  }

  /** No string is longer than an unsigned int can say. */
  ghost predicate Fits(args: seq<Arg>) {
    forall i :: 0 <= i < |args| && args[i].Str? ==> |args[i].s| < UINT
  }

  // One conversion, from the percent sign on.
  method Convert(o: Out, idx: nat, s: string, args: seq<Arg>) returns (end: nat, rest: string, left: seq<Arg>)
    requires o.Ok() && idx == |o.text| && Fits(args) && Header(s, args).rest != ""
    modifies o, o.buffer
    ensures var c := Header(s, args);
            && o.Ok() && end == |o.text| && o.text == old(o.text) + Shown(c.rest[0], c)
            && rest == c.rest[1..] && left == ArgsAfter(c.rest[0], c) && Fits(left)
  {
    hide Out.Ok, Spaces, NumberText, CString, PrecOf, WidthOf, LengthOf, Shown;
    var f, t := EvalFlags(s);
    var c := EvalWidth(Conv(f, 0, 0, t, args));
    c := EvalPrec(c);
    c := LengthOf(c);
    HeaderFits(s, args);
    assert c == Header(s, args);
    hide Header, Fits;
    var spec := c.rest[0];
    rest, left := c.rest[1..], ArgsAfter(spec, c);
    if IsIntSpec(spec) {
      end := EmitInt(o, idx, spec, c);
    } else if spec == 'c' {
      end := EmitChar(o, idx, c);
    } else if spec == 's' {
      end := EmitString(o, idx, c);
    } else {
      OtherShown(spec, c);
      if spec == 'p' {
        end := NtoaLong(o, idx, NumOf(c.args), false, 16, c.prec, 16, c.f.(zeropad := true, upper := true));
      } else {
        o.Put(spec, idx);
        end := idx + 1;
      }
    }
  }

  lemma OtherShown(s: char, c: Conv)
    requires !IsIntSpec(s) && s != 'c' && s != 's'
    ensures Shown(s, c) == if s == 'p' then NumberText(NumOf(c.args), false, 16, c.prec, 16, c.f.(zeropad := true, upper := true))
                           else [s]
  {
    hide NumberText;
  }

  lemma HeaderFits(s: string, args: seq<Arg>)
    requires Fits(args)
    ensures var c := Header(s, args);
            Fits(c.args) && (c.f.precision || c.prec == 0) && (c.rest != "" ==> Fits(ArgsAfter(c.rest[0], c)))
  {
    hide Fits, NumOf, FlagsOf, NumberOf;
    var (f, t) := FlagsOf(s, NONE);
    var a := Conv(f, 0, 0, t, args);
    RestFits(args);
    var b := WidthOf(a);
    assert Fits(b.args) && !b.f.precision && b.prec == 0;
    RestFits(b.args);
    HeaderTail(b);
  }

  lemma HeaderTail(b: Conv)
    requires Fits(b.args) && Fits(Rest(b.args)) && !b.f.precision && b.prec == 0
    ensures var c := LengthOf(PrecOf(b));
            Fits(c.args) && (c.f.precision || c.prec == 0) && (c.rest != "" ==> Fits(ArgsAfter(c.rest[0], c)))
  {
    hide Fits, PrecOf, LengthOf, IsIntSpec;
    PrecKeeps(b);
    LengthKeeps(PrecOf(b));
    RestFits(PrecOf(b).args);
  }

  lemma PrecKeeps(b: Conv)
    requires !b.f.precision && b.prec == 0
    ensures var d := PrecOf(b); (d.args == b.args || d.args == Rest(b.args)) && (d.f.precision || d.prec == 0)
  {
    hide NumOf, NumberOf, Signed, Rest;
  }

  lemma LengthKeeps(d: Conv)
    ensures var c := LengthOf(d); c.args == d.args && c.prec == d.prec && c.f.precision == d.f.precision
  {
  }

  lemma RestFits(args: seq<Arg>)
    requires Fits(args)
    ensures Fits(Rest(args))
  {
  }

  /** _vsnprintf up to the terminator: every path emits the text at consecutive indices. */
  method PrintAll(o: Out, format: string, args: seq<Arg>) returns (idx: nat)
    requires o.Ok() && o.text == "" && Fits(args) && Complete(format, args)
    modifies o, o.buffer
    ensures o.Ok() && idx == |o.text| && o.text == Formatted(format, args)
  {
    hide Out.Ok, Shown, Header, Fits;
    idx := 0;
    var s, a := format, args;
    while s != ""
      invariant o.Ok() && idx == |o.text| && Fits(a) && Complete(s, a)
      invariant o.text + Formatted(s, a) == Formatted(format, args)
      decreases |s|
    {
      if s[0] != '%' {
        Assoc(o.text, [s[0]], Formatted(s[1..], a));
        o.Put(s[0], idx);
        idx := idx + 1;
        s := s[1..];
      } else {
        ghost var c := Header(s[1..], a);
        Assoc(o.text, Shown(c.rest[0], c), Formatted(c.rest[1..], ArgsAfter(c.rest[0], c)));
        idx, s, a := Convert(o, idx, s[1..], a);
      }
    }
    assert o.text + "" == o.text;
  }

  /** snprintf_ with any size returns the length of the whole text, and leaves in the buffer as much of it
      as there is room for with a terminator, and nothing after it but what was there. */
  method Snprintf(buffer: array<char>, count: nat, isNull: bool, format: string, args: seq<Arg>) returns (n: nat)
    requires (isNull || count <= buffer.Length) && Fits(args) && Complete(format, args)
    modifies buffer
    ensures n == |Formatted(format, args)|
    ensures var k := if n < count then n else count - 1;
            buffer[..] == if isNull || count == 0 then old(buffer[..])
                          else Formatted(format, args)[..k] + [NUL] + old(buffer[..])[k + 1..]
  {
    hide Formatted, Complete, Fits, Out.Ok;
    var o := new Out(buffer, count, isNull);
    ghost var was := buffer[..];
    n := PrintAll(o, format, args);
    o.InBuffer();
    var last := if n < count then n else count - 1;
    if !isNull && 0 <= last < count {
      Terminated(buffer[..], was, o.text, count);
      buffer[last] := NUL;
    }
  }

  lemma Terminated(b: seq<char>, was: seq<char>, t: string, count: nat)
    requires 0 < count <= |b| == |was|
    requires forall k :: 0 <= k < |b| ==> b[k] == if k < count && k < |t| then t[k] else was[k]
    ensures var k := if |t| < count then |t| else count - 1; b[k := NUL] == t[..k] + [NUL] + was[k + 1..]
  {
  }

  function Pow(b: nat, n: nat): nat {
    if n == 0 then 1 else b * Pow(b, n - 1)
  }

  lemma {:induction false} PowPositive(b: nat, n: nat)
    requires b > 0
    ensures Pow(b, n) > 0
  {
    if n > 0 {
      PowPositive(b, n - 1);
    }
  }

  lemma {:induction false} PowMonotone(a: nat, b: nat, n: nat)
    requires a <= b
    ensures Pow(a, n) <= Pow(b, n)
  {
    if n > 0 {
      PowMonotone(a, b, n - 1);
      MulLe(b, Pow(a, n - 1), Pow(b, n - 1));
      MulLe(Pow(a, n - 1), a, b);
    }
  }

  function Times(a: nat, b: nat): nat {
    a * b
  }

  // acc with the digit d appended.
  function Shift(acc: nat, base: nat, d: nat): nat {
    acc * base + d
  }

  // What a digit stands for; more than any base for other characters.
  function DigitVal(c: char): nat {
    if '0' <= c <= '9' then c as int - '0' as int
    else if 'a' <= c <= 'f' then c as int - 'a' as int + 10
    else if 'A' <= c <= 'F' then c as int - 'A' as int + 10
    else 99
  }

  /** The number that digits, last first, stand for. */
  function RevValue(b: string, base: nat): nat {
    if b == "" then 0 else DigitVal(b[0]) + base * RevValue(b[1..], base)
  }

  predicate AllDigits(b: string, base: nat) {
    forall k :: 0 <= k < |b| ==> DigitVal(b[k]) < base
  }

  /** Reading digits from the left, as far as they go. */
  function ReadDigits(s: string, base: nat, acc: nat): nat {
    if s != "" && DigitVal(s[0]) < base then ReadDigits(s[1..], base, Shift(acc, base, DigitVal(s[0]))) else acc
  }

  function SkipSpaces(s: string): string {
    if s != "" && s[0] == ' ' then SkipSpaces(s[1..]) else s
  }

  /** Reading a number back: spaces, a sign, digits. */
  function Scan(s: string, base: nat): int {
    var t := SkipSpaces(s);
    if t != "" && t[0] == '-' then -(ReadDigits(t[1..], base, 0) as int)
    else if t != "" && t[0] == '+' then ReadDigits(t[1..], base, 0)
    else ReadDigits(t, base, 0)
  }

  lemma DigitCharVal(d: nat, upper: bool)
    requires d < 16
    ensures DigitVal(DigitChar(d, upper)) == d && DigitChar(d, upper) != ' '
  {
  }

  lemma PowerStep(v: nat, base: nat, p: nat)
    requires base > 0 && p > 0
    ensures base * p > 0 && LastDigit(v, base) + base * (Higher(v, base) % p) == v % (base * p)
  {
    var d, q := v % base, v / base;
    var m, r := q % p, q / p;
    assert q == p * r + m;
    assert v == base * q + d;
    assert base * q == base * p * r + base * m by {
      assert base * (p * r + m) == base * (p * r) + base * m;
      assert base * (p * r) == base * p * r;
    }
    assert base * m + d < base * p by {
      assert base * (m + 1) <= base * p;
      assert base * (m + 1) == base * m + base;
    }
    DivUnique(v, base * p, r, base * m + d);
  }

  /** The digits stand for the number, as far as the buffer has room. */
  lemma {:induction false} DigitsDenote(value: nat, base: nat, upper: bool, room: nat)
    requires 2 <= base <= 16 && room > 0
    ensures Pow(base, room) > 0 && AllDigits(DigitsOf(value, base, upper, room), base)
    ensures RevValue(DigitsOf(value, base, upper, room), base) == value % Pow(base, room)
    decreases room
  {
    hide DigitChar, DigitsOf, LastDigit, Higher, RevValue, DigitVal;
    PowPositive(base, room);
    PowPositive(base, room - 1);
    var v, h := LastDigit(value, base), Higher(value, base);
    DigitCharVal(v, upper);
    PowerStep(value, base, Pow(base, room - 1));
    DigitsStep("", value, base, upper, room);
    var more := if h == 0 || room == 1 then "" else DigitsOf(h, base, upper, room - 1);
    RevValueFirst(DigitChar(v, upper), more, base);
    if h == 0 {
      SmallMod(0, Pow(base, room - 1));
    } else if room == 1 {
      SmallestMod(h);
    } else {
      DigitsDenote(h, base, upper, room - 1);
    }
  }

  lemma RevValueFirst(c: char, more: string, base: nat)
    ensures RevValue([c] + more, base) == DigitVal(c) + base * RevValue(more, base)
    ensures RevValue("", base) == 0
    ensures AllDigits([c] + more, base) <==> DigitVal(c) < base && AllDigits(more, base)
  {
    hide DigitVal;
    var s := [c] + more;
    assert s[1..] == more && s[0] == c;
    assert forall k :: 0 <= k < |more| ==> more[k] == s[k + 1];
  }

  lemma SmallestMod(h: nat)
    ensures h % 1 == 0
  {
  }

  lemma Shifted(base: nat, x: nat, p: nat, d: nat)
    ensures base * (x + p * d) == base * x + base * p * d
  {
    MulAssoc(base, p, d);
  }

  lemma Combined(acc: nat, base: nat, d: nat, p: nat, r: nat)
    ensures Times(Shift(acc, base, d), p) + r == Times(acc, Times(base, p)) + (r + Times(p, d))
  {
    MulAssoc(acc, base, p);
  }

  lemma {:induction false} RevValuePlus(b: string, c: char, base: nat)
    ensures RevValue(b + [c], base) == RevValue(b, base) + Times(Pow(base, |b|), DigitVal(c))
  {
    hide DigitVal;
    if b == "" {
      assert b + [c] == [c] && [c][1..] == "";
    } else {
      RevValuePlus(b[1..], c, base);
      assert (b + [c])[1..] == b[1..] + [c];
      Shifted(base, RevValue(b[1..], base), Pow(base, |b| - 1), DigitVal(c));
      assert (b + [c])[0] == b[0];
    }
  }

  lemma {:induction false} ZerosDenote(b: string, n: nat, base: nat)
    requires AllDigits(b, base) && base > 0
    ensures RevValue(b + Zeros(n), base) == RevValue(b, base) && AllDigits(b + Zeros(n), base)
  {
    if n == 0 {
      assert b + Zeros(0) == b;
    } else {
      ZerosDenote(b, n - 1, base);
      assert b + Zeros(n) == b + Zeros(n - 1) + ['0'];
      RevValuePlus(b + Zeros(n - 1), '0', base);
    }
  }

  /** Reading what _out_rev puts out gives what the digits in the buffer stand for. */
  lemma {:induction false} ReadReversed(b: string, base: nat, tail: string, acc: nat)
    requires AllDigits(b, base) && base <= 16 && (tail == "" || DigitVal(tail[0]) >= base)
    ensures ReadDigits(Rev(b) + tail, base, acc) == Times(acc, Pow(base, |b|)) + RevValue(b, base)
    decreases |b|
  {
    if b == "" {
      RevEmpty();
      assert Rev(b) + tail == tail;
    } else {
      hide Rev, DigitVal, Pow, RevValue, ReadDigits, Times, Shift;
      var a, c := b[..|b| - 1], b[|b| - 1];
      assert b == a + [c] && AllDigits(a, base);
      hide AllDigits;
      ReadTop(a, c, base, tail, acc);
      RevValuePlus(a, c, base);
      ReadReversed(a, base, tail, Shift(acc, base, DigitVal(c)));
      PowNext(base, |a|);
      Combined(acc, base, DigitVal(c), Pow(base, |a|), RevValue(a, base));
    }
  }

  lemma PowNext(b: nat, n: nat)
    ensures Pow(b, n + 1) == Times(b, Pow(b, n))
  {
  }

  lemma ReadTop(a: string, c: char, base: nat, tail: string, acc: nat)
    requires DigitVal(c) < base
    ensures ReadDigits(Rev(a + [c]) + tail, base, acc) == ReadDigits(Rev(a) + tail, base, Shift(acc, base, DigitVal(c)))
  {
    hide Rev, DigitVal;
    RevPlus(a, c);
    var s := Rev(a + [c]) + tail;
    assert s[0] == c && s[1..] == Rev(a) + tail;
  }

  lemma {:induction false} SkipsSpaces(n: int, s: string)
    ensures SkipSpaces(Spaces(n) + s) == SkipSpaces(s)
    decreases if n > 0 then n else 0
  {
    if n > 0 {
      assert Spaces(n) + s == [' '] + (Spaces(n - 1) + s);
      SkipsSpaces(n - 1, s);
    } else {
      assert Spaces(n) + s == s;
    }
  }

  /** The digits of the number with their leading zeros, as they stand in the buffer. */
  function Body(value: nat, negative: bool, base: nat, prec: nat, width: nat, f: Flags): string
    requires 2 <= base <= 16
  {
    ZeroFilled(if !f.precision || value != 0 then DigitsOf(value, base, f.upper, NTOA) else "", prec, ShortWidth(negative, width, f), f)
  }

  lemma BodyDenotes(value: nat, negative: bool, base: nat, prec: nat, width: nat, f: Flags)
    requires 2 <= base <= 16
    ensures Pow(base, NTOA) > 0
    ensures var b := Body(value, negative, base, prec, width, f);
            |b| <= NTOA && AllDigits(b, base) && RevValue(b, base) == value % Pow(base, NTOA)
  {
    DigitsDenote(value, base, f.upper, NTOA);
    var d := if !f.precision || value != 0 then DigitsOf(value, base, f.upper, NTOA) else "";
    if value == 0 && d == "" {
      SmallMod(0, Pow(base, NTOA));
    }
    if !f.left {
      PaddedDenotes(d, prec, base);
      PaddedDenotes(Padded(d, prec), ShortWidth(negative, width, f), base);
    }
  }

  lemma PaddedDenotes(b: string, n: nat, base: nat)
    requires AllDigits(b, base) && base > 0 && |b| <= NTOA
    ensures var p := Padded(b, n); |p| <= NTOA && AllDigits(p, base) && RevValue(p, base) == RevValue(b, base)
    ensures |Padded(b, n)| == if |b| > n then |b| else if n < NTOA then n else NTOA
  {
    var k := (if n < NTOA then n else NTOA) - |b|;
    if k > 0 {
      ZerosDenote(b, k, base);
    } else {
      assert Padded(b, n) == b;
    }
  }

  /** The text of a number, without '#', reads back as the number, cut to 32 digits; a minus sign is lost
      exactly when 32 digits and zeros leave no room for it. */
  lemma NumberReadsBack(value: nat, negative: bool, base: nat, prec: nat, width: nat, f: Flags)
    requires 2 <= base <= 16 && !f.hash
    ensures Pow(base, NTOA) > 0
    ensures var v := value % Pow(base, NTOA);
            Scan(NumberText(value, negative, base, prec, width, f), base)
            == if negative && |Body(value, negative, base, prec, width, f)| < NTOA then -v else v
  {
    var b := Body(value, negative, base, prec, width, f);
    BodyDenotes(value, negative, base, prec, width, f);
    var w := ShortWidth(negative, width, f);
    hide Body, ZeroFilled, DigitsOf;
    assert NumberText(value, negative, base, prec, width, f) == Field(WithSign(b, negative, f), w, f) by { NumberTextIs(value, negative, base, prec, width, f); }
    FieldReadsBack(b, negative, base, w, f);
  }

  lemma NumberTextIs(value: nat, negative: bool, base: nat, prec: nat, width: nat, f: Flags)
    requires 2 <= base <= 16 && !f.hash
    ensures NumberText(value, negative, base, prec, width, f)
            == Field(WithSign(Body(value, negative, base, prec, width, f), negative, f), ShortWidth(negative, width, f), f)
  {
    hide Field, ZeroFilled, DigitsOf, WithSign;
    assert f.(hash := false) == f;
  }

  lemma FieldReadsBack(b: string, negative: bool, base: nat, w: nat, f: Flags)
    requires 2 <= base <= 16 && AllDigits(b, base) && |b| <= NTOA
    ensures Scan(Field(WithSign(b, negative, f), w, f), base)
            == if negative && |b| < NTOA then -(RevValue(b, base) as int) else RevValue(b, base)
  {
    hide AllDigits, Rev, DigitVal, SkipSpaces, ReadDigits, Spaces, RevValue;
    var s := WithSign(b, negative, f);
    var right := if f.left then Spaces(w - |s|) else "";
    var left := if !f.left && !f.zeropad then Spaces(w - |s|) else "";
    var core := Rev(s) + right;
    assert Field(s, w, f) == left + core by { Assoc(left, Rev(s), right); }
    assert SkipSpaces(left + core) == SkipSpaces(core) by {
      if left == "" { assert left + core == core; } else { SkipsSpaces(w - |s|, core); }
    }
    Blank(w - |s|);
    DigitsRead(b, base, right);
    if |s| > |b| {
      var c := s[|b|];
      RevPlus(b, c);
      assert s == b + [c];
      Assoc([c], Rev(b), right);
      SignSkipped(c, Rev(b) + right);
      assert core == [c] + (Rev(b) + right);
    }
  }

  lemma Blank(n: int)
    ensures forall k :: 0 <= k < |Spaces(n)| ==> Spaces(n)[k] == ' '
  {
  }

  lemma SignSkipped(c: char, s: string)
    requires c == '-' || c == '+' || c == ' '
    ensures SkipSpaces([c] + s) == if c == ' ' then SkipSpaces(s) else [c] + s
    ensures ([c] + s)[1..] == s
  {
    assert ([c] + s)[1..] == s;
  }

  lemma DigitsRead(b: string, base: nat, right: string)
    requires AllDigits(b, base) && 2 <= base <= 16 && forall k :: 0 <= k < |right| ==> right[k] == ' '
    ensures var s := Rev(b) + right;
            && ReadDigits(SkipSpaces(s), base, 0) == ReadDigits(s, base, 0) == RevValue(b, base)
            && (SkipSpaces(s) != "" ==> SkipSpaces(s)[0] != '-' && SkipSpaces(s)[0] != '+')
  {
    ReadReversed(b, base, right, 0);
    assert Times(0, Pow(base, |b|)) == 0;
    FirstOfDigits(b, base, right);
  }

  // What follows the sign: a digit, or nothing but spaces.
  lemma FirstOfDigits(b: string, base: nat, right: string)
    requires AllDigits(b, base) && 2 <= base <= 16 && forall k :: 0 <= k < |right| ==> right[k] == ' '
    ensures var s := Rev(b) + right;
            ReadDigits(SkipSpaces(s), base, 0) == ReadDigits(s, base, 0)
            && (SkipSpaces(s) != "" ==> SkipSpaces(s)[0] != '-' && SkipSpaces(s)[0] != '+')
  {
    var s := Rev(b) + right;
    if b != "" {
      var a, c := b[..|b| - 1], b[|b| - 1];
      assert b == a + [c];
      RevPlus(a, c);
      assert s[0] == c && DigitVal(c) < base;
    } else {
      assert s == right;
      if right != "" {
        assert right == Spaces(|right|) + "";
        SkipsSpaces(|right|, "");
      }
    }
  }

  lemma FirstPower(base: nat)
    ensures Pow(base, 1) == base * 1
  {
    assert Pow(base, 1) == base * Pow(base, 0);
  }

  lemma DivBelow(v: nat, base: nat, p: nat)
    requires base > 0 && v < base * p
    ensures Higher(v, base) < p
  {
    if v / base >= p {
      MulLe(base, p, v / base);
    }
  }

  lemma {:induction false} PowSum(b: nat, m: nat, n: nat)
    ensures Pow(b, m + n) == Pow(b, m) * Pow(b, n)
  {
    if m > 0 {
      PowSum(b, m - 1, n);
      MulAssoc(b, Pow(b, m - 1), Pow(b, n));
    }
  }

  lemma Powers()
    ensures Pow(8, 22) == 0x4_0000_0000_0000_0000 && Pow(8, 32) == 0x1_0000_0000_0000_0000_0000_0000
  {
    hide Pow;
    assert Pow(8, 2) == 64 by { Pow2(); }
    PowSum(8, 2, 2);
    PowSum(8, 4, 4);
    PowSum(8, 8, 8);
    PowSum(8, 4, 2);
    PowSum(8, 16, 6);
    PowSum(8, 16, 16);
  }

  lemma Pow2()
    ensures Pow(8, 2) == 64
  {
    FirstPower(8);
  }

  lemma {:induction false} DigitsCount(value: nat, base: nat, upper: bool, room: nat, n: nat)
    requires 2 <= base <= 16 && 1 <= n <= room && value < Pow(base, n)
    ensures |DigitsOf(value, base, upper, room)| <= n
    decreases n
  {
    hide DigitChar, DigitsOf, LastDigit, Higher;
    DigitsStep("", value, base, upper, room);
    if n == 1 {
      FirstPower(base);
      DivBelow(value, base, 1);
    } else if Higher(value, base) != 0 && room != 1 {
      DivBelow(value, base, Pow(base, n - 1));
      hide Pow;
      DigitsCount(Higher(value, base), base, upper, room - 1, n - 1);
    }
  }

  lemma LongFits(value: nat, base: nat, upper: bool)
    requires 8 <= base <= 16 && value < ULONG
    ensures |DigitsOf(value, base, upper, NTOA)| <= 22 && value < Pow(base, NTOA)
  {
    hide Pow, DigitsOf;
    Powers();
    PowMonotone(8, base, 22);
    PowMonotone(8, base, 32);
    DigitsCount(value, base, upper, NTOA, 22);
  }

  // There is room for a minus sign, whatever the number.
  predicate SignFits(prec: nat, width: nat, f: Flags) {
    f.left || (prec < NTOA && (f.zeropad ==> width <= NTOA))
  }

  lemma BodyLength(value: nat, negative: bool, base: nat, prec: nat, width: nat, f: Flags)
    requires 8 <= base <= 16 && value < ULONG && !f.hash
    ensures var b := Body(value, negative, base, prec, width, f);
            && |b| <= NTOA
            && (negative ==> (|b| < NTOA <==> SignFits(prec, width, f)))
            && (!f.left && f.zeropad ==> |b| >= if ShortWidth(negative, width, f) < NTOA then ShortWidth(negative, width, f) else NTOA)
  {
    LongFits(value, base, f.upper);
    DigitsDenote(value, base, f.upper, NTOA);
    hide DigitsOf, RevValue, AllDigits;
    var d := if !f.precision || value != 0 then DigitsOf(value, base, f.upper, NTOA) else "";
    assert AllDigits(d, base) by { EmptyDigits(base); }
    var w := ShortWidth(negative, width, f);
    if !f.left {
      PaddedDenotes(d, prec, base);
      PaddedDenotes(Padded(d, prec), w, base);
    }
  }

  lemma EmptyDigits(base: nat)
    ensures AllDigits("", base)
  {
  }

  lemma FieldLength(b: string, width: nat, f: Flags)
    ensures |Field(b, width, f)| == if (f.left || !f.zeropad) && |b| < width then width else |b|
  {
  }

  /** Every integer printed in decimal, octal or hexadecimal without '#' reads back as itself, with one
      exception: when zeros have filled the digit buffer, a minus sign is left out. The field has at
      least the width asked for, unless that is more zeros than the buffer holds. */
  lemma PrintedIntegers(s: char, c: Conv)
    requires IsIntSpec(s) && s != 'b' && !c.f.longlong && (c.f.hash ==> BaseOf(s) == 10)
    ensures var v := IntValue(s, c.f, NumOf(c.args));
            var f := IntFlags(s, c.f);
            Scan(Shown(s, c), BaseOf(s)) == if v < 0 && !SignFits(c.prec, c.width, f) then -v else v
    ensures var f := IntFlags(s, c.f); |Shown(s, c)| >= c.width <==> f.left || !f.zeropad || c.width <= NTOA
  {
    hide IntValue, Shown, Signed, NumOf, NumberText, Scan, SignFits;
    var f, base := IntFlags(s, c.f), BaseOf(s);
    var v := IntValue(s, c.f, NumOf(c.args));
    IntRange(s, c.f, NumOf(c.args));
    ShownIs(s, c);
    NumberPrinted(Magnitude(v), v < 0, base, c.prec, c.width, f);
  }

  /** In binary without '#' the text stands for the low 32 bits. */
  lemma PrintedBinary(c: Conv)
    requires !c.f.longlong && !c.f.hash
    ensures Scan(Shown('b', c), 2) == IntValue('b', c.f, NumOf(c.args)) % 0x1_0000_0000
  {
    hide Shown, NumOf, NumberText, Scan, Pow, Body;
    var v := IntValue('b', c.f, NumOf(c.args));
    ShownIs('b', c);
    TwoToThe32();
    NumberReadsBack(v, false, 2, c.prec, c.width, IntFlags('b', c.f));
  }

  lemma TwoToThe32()
    ensures Pow(2, NTOA) == 0x1_0000_0000
  {
    var a, b := Pow(2, 8), Pow(2, 16);
    assert Pow(2, 4) == 16;
    assert Pow(2, 8) == 0x100;
    assert Pow(2, 12) == 0x1000;
    assert Pow(2, 16) == 0x1_0000;
    assert Pow(2, 20) == 0x10_0000;
    assert Pow(2, 24) == 0x100_0000;
    assert Pow(2, 28) == 0x1000_0000;
  }

  lemma NumberPrinted(value: nat, negative: bool, base: nat, prec: nat, width: nat, f: Flags)
    requires 8 <= base <= 16 && value < ULONG && !f.hash
    ensures var t := NumberText(value, negative, base, prec, width, f);
            && Scan(t, base) == (if negative && SignFits(prec, width, f) then -(value as int) else value)
            && (|t| >= width <==> f.left || !f.zeropad || width <= NTOA)
  {
    LongFits(value, base, f.upper);
    SmallMod(value, Pow(base, NTOA));
    hide NumberText, Body, Field, Scan, SignFits, Pow;
    NumberReadsBack(value, negative, base, prec, width, f);
    BodyLength(value, negative, base, prec, width, f);
    NumberTextIs(value, negative, base, prec, width, f);
    var b := Body(value, negative, base, prec, width, f);
    FieldLength(WithSign(b, negative, f), ShortWidth(negative, width, f), f);
  }

  lemma ShownIs(s: char, c: Conv)
    requires IsIntSpec(s) && !c.f.longlong
    ensures var v := IntValue(s, c.f, NumOf(c.args));
            Shown(s, c) == NumberText(Magnitude(v), v < 0, BaseOf(s), c.prec, c.width, IntFlags(s, c.f))
  {
    hide NumberText, IntValue, IntFlags;
  }

  lemma IntRange(s: char, f: Flags, n: nat)
    ensures Magnitude(IntValue(s, f, n)) < ULONG
  {
  }

  // The exception: -1 with 32 digits has no room for its sign.
  lemma SignLeftOut()
    ensures var c := Conv(NONE.(precision := true), 0, 32, "d", [Num(ULONG - 1)]);
            IntValue('d', c.f, NumOf(c.args)) == -1 && Scan(Shown('d', c), 10) == 1
  {
    hide Shown, Scan;
    var c := Conv(NONE.(precision := true), 0, 32, "d", [Num(ULONG - 1)]);
    PrintedIntegers('d', c);
    assert Signed(ULONG - 1, 0x8000_0000) == -1;
  }

  /** An integer conversion of the length ll prints nothing, whatever its flags, width and precision, and
      the next conversion gets its argument. */
  lemma LongLongDropped(s: string, args: seq<Arg>)
    requires s != "" && s[0] == '%' && Complete(s, args)
    requires var c := Header(s[1..], args); c.f.longlong && c.rest != "" && IsIntSpec(c.rest[0])
    ensures var c := Header(s[1..], args);
            Complete(c.rest[1..], c.args) && Formatted(s, args) == Formatted(c.rest[1..], c.args)
  {
    hide Complete, Formatted, Header;
    CompleteAt(s, args);
    var c := Header(s[1..], args);
    assert Shown(c.rest[0], c) == "" && ArgsAfter(c.rest[0], c) == c.args;
    assert "" + Formatted(c.rest[1..], c.args) == Formatted(c.rest[1..], c.args);
  }

  // Such a conversion: "%lld".
  lemma LongLongDecimal(t: string, args: seq<Arg>)
    requires Complete(t, args)
    ensures Complete("%lld" + t, args) && Formatted("%lld" + t, args) == Formatted(t, args)
  {
    hide Complete, Formatted;
    var u := "lld" + t;
    LongLongHeader(t, args);
    CompleteAt("%lld" + t, args);
    var c := Header(u, args);
    assert ("%lld" + t)[1..] == u && c.rest[1..] == t;
    LongLongDropped("%lld" + t, args);
  }

  lemma CompleteAt(s: string, args: seq<Arg>)
    requires s != "" && s[0] == '%'
    ensures var c := Header(s[1..], args);
            Complete(s, args) == (c.rest != "" && Complete(c.rest[1..], ArgsAfter(c.rest[0], c)))
    ensures var c := Header(s[1..], args);
            Complete(s, args) ==> Formatted(s, args) == Shown(c.rest[0], c) + Formatted(c.rest[1..], ArgsAfter(c.rest[0], c))
  {
    hide Header, Shown, ArgsAfter;
  }

  lemma LongLongHeader(t: string, args: seq<Arg>)
    ensures Header("lld" + t, args) == Conv(NONE.(long := true, longlong := true), 0, 0, "d" + t, args)
  {
    var u := "lld" + t;
    assert FlagsOf(u, NONE) == (NONE, u);
    assert u[1..] == "ld" + t && u[1..][1..] == "d" + t;
  }

  lemma {:induction false} RevValueSplit(b: string, m: nat, base: nat)
    requires m <= |b|
    ensures RevValue(b, base) == RevValue(b[..m], base) + Pow(base, m) * RevValue(b[m..], base)
    decreases m
  {
    hide DigitVal;
    if m == 0 {
      assert b[..0] == "" && b[0..] == b;
    } else {
      RevValueSplit(b[1..], m - 1, base);
      assert b[1..][..m - 1] == b[..m][1..] && b[1..][m - 1..] == b[m..];
      Shifted(base, RevValue(b[..m][1..], base), Pow(base, m - 1), RevValue(b[m..], base));
    }
  }

  lemma {:induction false} TopDigit(value: nat, base: nat, upper: bool, room: nat)
    requires 2 <= base <= 16 && room > 0 && 0 < value < Pow(base, room)
    ensures var s := DigitsOf(value, base, upper, room); DigitVal(s[|s| - 1]) > 0
    decreases room
  {
    hide DigitsOf, DigitVal, DigitChar, LastDigit, Higher;
    DigitsStep("", value, base, upper, room);
    var h := Higher(value, base);
    if h == 0 {
      NoQuotient(value, base);
      DigitCharVal(value, upper);
    } else if room == 1 {
      FirstPower(base);
      DivBelow(value, base, 1);
      assert false;
    } else {
      DivBelow(value, base, Pow(base, room - 1));
      hide Pow;
      var more := DigitsOf(h, base, upper, room - 1);
      TopDigit(h, base, upper, room - 1);
      var s := DigitsOf(value, base, upper, room);
      assert s[|s| - 1] == more[|more| - 1];
    }
  }

  lemma NoQuotient(v: nat, base: nat)
    requires base > 0 && Higher(v, base) == 0
    ensures LastDigit(v, base) == v
  {
  }

  lemma {:induction false} PositiveTop(b: string, base: nat)
    requires b != "" && DigitVal(b[|b| - 1]) > 0 && base > 0
    ensures RevValue(b, base) > 0
  {
    if |b| > 1 {
      PositiveTop(b[1..], base);
    }
  }

  // Length of d digits with the zeros in front of them; w is the width left for them.
  function ZeroLength(d: nat, prec: nat, w: nat, f: Flags): nat {
    if f.left then d else
      var p := Larger(d, if prec < NTOA then prec else NTOA);
      if f.zeropad then Larger(p, if w < NTOA then w else NTOA) else p
  }

  function Larger(a: nat, b: nat): nat {
    if a < b then b else a
  }

  /** What '#' leaves of it: without a precision, a number that fills the width gives way to the prefix. */
  function KeptLength(d: nat, base: nat, prec: nat, w: nat, f: Flags): nat {
    var z := ZeroLength(d, prec, w, f);
    if f.precision || z == 0 || (z != prec && z != w) then z
    else if z > 1 && base == 16 then z - 2 else z - 1
  }

  /** When '#' leaves a number readable: it has at most 32 digits, none of them gives way to the prefix, and
      the prefix is not broken off after its letter by the end of the digit buffer. */
  predicate Readable(value: nat, d: nat, base: nat, prec: nat, w: nat, f: Flags) {
    && value < Pow(base, NTOA)
    && KeptLength(d, base, prec, w, f) >= d
    && (base == 8 || KeptLength(d, base, prec, w, f) != NTOA - 1)
  }

  lemma ZeroFilledIs(d: string, prec: nat, w: nat, f: Flags)
    requires |d| <= NTOA
    ensures var z := ZeroFilled(d, prec, w, f); |z| == ZeroLength(|d|, prec, w, f) >= |d| && z == d + Zeros(|z| - |d|) && |z| <= NTOA
  {
    var p := Padded(d, prec);
    var n := (if prec < NTOA then prec else NTOA) - |d|;
    var k := (if w < NTOA then w else NTOA) - |p|;
    assert d + Zeros(0) == d;
    assert p == d + Zeros(n);
    if k > 0 && n > 0 {
      assert Zeros(n) + Zeros(k) == Zeros(n + k);
      Assoc(d, Zeros(n), Zeros(k));
    }
  }

  // The first m characters of the digits with n zeros after them have the same value if they include the digits.
  lemma KeptValue(d: string, n: nat, m: nat, base: nat)
    requires d != "" && AllDigits(d, base) && DigitVal(d[|d| - 1]) > 0 && base > 0 && m <= |d| + n
    ensures RevValue((d + Zeros(n))[..m], base) == RevValue(d, base) <==> m >= |d|
  {
    hide RevValue, AllDigits, DigitVal;
    if m >= |d| {
      assert (d + Zeros(n))[..m] == d + Zeros(m - |d|);
      ZerosDenote(d, m - |d|, base);
    } else {
      RevValueSplit(d, m, base);
      PositiveTop(d[m..], base);
      PowPositive(base, m);
      assert (d + Zeros(n))[..m] == d[..m];
      MulPositive(Pow(base, m), RevValue(d[m..], base));
    }
  }

  lemma MulPositive(a: nat, b: nat)
    requires a > 0 && b > 0
    ensures a * b > 0
  {
  }

  lemma CutIs(z: string, base: nat, prec: nat, w: nat, f: Flags, d: nat)
    requires f.hash && |z| == ZeroLength(d, prec, w, f)
    ensures KeptLength(d, base, prec, w, f) <= |z| && Cut(z, base, prec, w, f) == z[..KeptLength(d, base, prec, w, f)]
  {
    assert z[..|z|] == z;
  }

  predicate PrefixLetter(c: char, base: nat) {
    if base == 16 then c == 'x' || c == 'X' else base == 2 && c == 'b'
  }

  function SkipSign(t: string): string {
    if t != "" && (t[0] == '-' || t[0] == '+') then t[1..] else t
  }

  /** Reading digits past a prefix 0x, 0X or 0b. */
  function ReadPrefixed(t: string, base: nat): nat {
    if |t| >= 2 && t[0] == '0' && PrefixLetter(t[1], base) then ReadDigits(t[2..], base, 0) else ReadDigits(t, base, 0)
  }

  /** Reading an unsigned number back: spaces, a sign, a prefix, digits. */
  function ScanPrefixed(s: string, base: nat): nat {
    ReadPrefixed(SkipSign(SkipSpaces(s)), base)
  }

  function Letter(base: nat, f: Flags): char {
    if base == 16 then (if f.upper then 'X' else 'x') else 'b'
  }

  // The number with its prefix, as it is read.
  lemma PrefixText(b: string, base: nat, f: Flags)
    requires f.hash && (base == 2 || base == 8 || base == 16) && |b| <= NTOA
    ensures Rev(Prefixed(b, base, f)) ==
            (if base == 8 then (if |b| < NTOA then "0" else "")
             else if |b| < NTOA - 1 then ['0', Letter(base, f)]
             else if |b| == NTOA - 1 then [Letter(base, f)] else "") + Rev(b)
  {
    hide Rev, Letter;
    var l := Letter(base, f);
    LetterAppended(b, base, f);
    assert "" + Rev(b) == Rev(b);
    if base == 8 {
      RevPlus(b, '0');
    } else {
      RevTwo(b, l, '0');
    }
  }

  lemma LetterAppended(b: string, base: nat, f: Flags)
    requires f.hash && (base == 2 || base == 8 || base == 16) && |b| <= NTOA
    ensures var l := Letter(base, f);
            Prefixed(b, base, f) ==
            if base == 8 then (if |b| < NTOA then b + ['0'] else b)
            else if |b| < NTOA - 1 then b + [l] + ['0'] else if |b| == NTOA - 1 then b + [l] else b
  {
  }

  lemma RevTwo(b: string, c: char, d: char)
    ensures Rev(b + [c] + [d]) == [d, c] + Rev(b) && Rev(b + [c]) == [c] + Rev(b)
  {
    hide Rev;
    RevPlus(b, c);
    RevPlus(b + [c], d);
    assert [d] + ([c] + Rev(b)) == [d, c] + Rev(b);
  }

  // Reading it past the prefix gives the digits, unless the prefix is broken off.
  lemma PrefixRead(b: string, base: nat, f: Flags, right: string)
    requires f.hash && (base == 2 || base == 8 || base == 16) && |b| <= NTOA && AllDigits(b, base)
    requires forall k :: 0 <= k < |right| ==> right[k] == ' '
    ensures var t := Rev(Prefixed(b, base, f)) + right;
            && t != "" && t[0] != ' ' && t[0] != '-' && t[0] != '+'
            && ReadPrefixed(t, base) == if base != 8 && |b| == NTOA - 1 then 0 else RevValue(b, base)
  {
    hide Rev, RevValue, AllDigits, DigitVal, ReadDigits;
    PrefixText(b, base, f);
    if base != 8 {
      LetterVal(base, f);
    }
    ReadReversed(b, base, right, 0) by { TailVal(right, base); }
    assert Times(0, Pow(base, |b|)) == 0;
    FirstDigits(b, base, right);
    var rest := Rev(b) + right;
    var t := Rev(Prefixed(b, base, f)) + right;
    if base == 8 && |b| < NTOA {
      Assoc("0", Rev(b), right);
      assert t == ['0'] + rest && t[1..] == rest;
      ReadOne(t, base);
    } else if base != 8 && |b| < NTOA - 1 {
      Assoc(['0', Letter(base, f)], Rev(b), right);
      assert t == ['0', Letter(base, f)] + rest && t[2..] == rest;
    } else if base != 8 && |b| == NTOA - 1 {
      Assoc([Letter(base, f)], Rev(b), right);
      assert t == [Letter(base, f)] + rest;
      ReadNone(t, base);
    } else {
      assert t == rest;
    }
  }

  lemma LetterVal(base: nat, f: Flags)
    requires base == 2 || base == 16
    ensures PrefixLetter(Letter(base, f), base) && DigitVal(Letter(base, f)) >= base && Letter(base, f) !in " -+"
  {
  }

  lemma TailVal(right: string, base: nat)
    requires base <= 16 && forall k :: 0 <= k < |right| ==> right[k] == ' '
    ensures right == "" || DigitVal(right[0]) >= base
  {
  }

  // A leading zero does not count.
  lemma ReadOne(t: string, base: nat)
    requires t != "" && t[0] == '0' && base > 0
    ensures ReadDigits(t, base, 0) == ReadDigits(t[1..], base, 0)
  {
    assert Shift(0, base, 0) == 0;
  }

  lemma ReadNone(t: string, base: nat)
    requires t != "" && DigitVal(t[0]) >= base
    ensures ReadDigits(t, base, 0) == 0
  {
  }

  // A number does not begin like a prefix, a sign or a space.
  lemma FirstDigits(b: string, base: nat, right: string)
    requires AllDigits(b, base) && 2 <= base <= 16
    ensures |b| > 0 ==> var t := Rev(b) + right; t != "" && DigitVal(t[0]) < base && t[0] !in " -+"
    ensures |b| > 1 ==> var t := Rev(b) + right; |t| >= 2 && !PrefixLetter(t[1], base)
  {
    hide Rev, DigitVal;
    if b != "" {
      RevFirst(b);
      NotDigit(base);
    }
  }

  lemma RevFirst(b: string)
    requires b != ""
    ensures |Rev(b)| == |b| && Rev(b)[0] == b[|b| - 1] && (|b| > 1 ==> Rev(b)[1] == b[|b| - 2])
  {
    hide Rev;
    var n := |b| - 1;
    assert b[..n] + [b[n]] == b;
    RevPlus(b[..n], b[n]);
    if n > 0 {
      assert b[..n - 1] + [b[n - 1]] == b[..n];
      RevPlus(b[..n - 1], b[n - 1]);
    }
  }

  lemma NotDigit(base: nat)
    requires 2 <= base <= 16
    ensures forall c :: PrefixLetter(c, base) || c in " -+" ==> DigitVal(c) >= base
  {
  }

  // The spaces and the sign around the number do not matter.
  lemma FieldReadsPrefixed(b: string, base: nat, w: nat, f: Flags)
    requires f.hash && (base == 2 || base == 8 || base == 16) && |b| <= NTOA && AllDigits(b, base)
    ensures ScanPrefixed(Field(WithSign(Prefixed(b, base, f), false, f), w, f), base)
            == if base != 8 && |b| == NTOA - 1 then 0 else RevValue(b, base)
  {
    hide AllDigits, Rev, DigitVal, SkipSpaces, ReadDigits, Spaces, RevValue, Prefixed, ReadPrefixed;
    var q := Prefixed(b, base, f);
    var s := WithSign(q, false, f);
    var right := if f.left then Spaces(w - |s|) else "";
    var left := if !f.left && !f.zeropad then Spaces(w - |s|) else "";
    var core := Rev(s) + right;
    assert Field(s, w, f) == left + core by { Assoc(left, Rev(s), right); }
    assert SkipSpaces(left + core) == SkipSpaces(core) by {
      if left == "" { assert left + core == core; } else { SkipsSpaces(w - |s|, core); }
    }
    Blank(w - |s|);
    PrefixRead(b, base, f, right);
    var number := Rev(q) + right;
    NoSpace(number);
    if |s| > |q| {
      var c := s[|q|];
      RevPlus(q, c);
      assert s == q + [c];
      Assoc([c], Rev(q), right);
      SignSkipped(c, number);
      assert core == [c] + number;
    }
  }

  lemma NoSpace(t: string)
    ensures t != "" && t[0] != ' ' ==> SkipSpaces(t) == t
  {
  }

  /** The text of a non-negative number with '#' reads back past its prefix as the number if and only if
      it is Readable. */
  lemma HashedReadsBack(value: nat, base: nat, prec: nat, width: nat, f: Flags)
    requires (base == 2 || base == 8 || base == 16) && f.hash && value > 0
    ensures var d := |DigitsOf(value, base, f.upper, NTOA)|;
            ScanPrefixed(NumberText(value, false, base, prec, width, f), base) == value
            <==> Readable(value, d, base, prec, ShortWidth(false, width, f), f)
  {
    hide DigitsOf, Pow, ZeroFilled, Cut, RevValue, KeptLength, ZeroLength, AllDigits, Prefixed, Field, ScanPrefixed, WithSign, ShortWidth, DigitVal;
    var d := DigitsOf(value, base, f.upper, NTOA);
    var w := ShortWidth(false, width, f);
    DigitsDenote(value, base, f.upper, NTOA);
    ZeroFilledIs(d, prec, w, f);
    var z := ZeroFilled(d, prec, w, f);
    CutIs(z, base, prec, w, f, |d|);
    var m := KeptLength(|d|, base, prec, w, f);
    var kept := Cut(z, base, prec, w, f);
    KeptDigits(d, |z| - |d|, m, base);
    FieldReadsPrefixed(kept, base, w, f);
    HashedText(value, base, prec, width, f);
    RevValueBound(kept, base);
    PowLonger(base, m, NTOA);
    if value < Pow(base, NTOA) {
      SmallMod(value, Pow(base, NTOA));
      TopDigit(value, base, f.upper, NTOA);
      KeptValue(d, |z| - |d|, m, base);
    }
  }

  lemma HashedText(value: nat, base: nat, prec: nat, width: nat, f: Flags)
    requires 2 <= base <= 16 && f.hash && value > 0
    ensures var w := ShortWidth(false, width, f);
            NumberText(value, false, base, prec, width, f)
            == Field(WithSign(Prefixed(Cut(ZeroFilled(DigitsOf(value, base, f.upper, NTOA), prec, w, f), base, prec, w, f), base, f), false, f), w, f)
  {
    hide DigitsOf, ZeroFilled, Cut, Prefixed, Field, WithSign;
  }

  lemma KeptDigits(d: string, n: nat, m: nat, base: nat)
    requires AllDigits(d, base) && base > 0 && m <= |d| + n
    ensures AllDigits((d + Zeros(n))[..m], base)
  {
    ZerosDenote(d, n, base);
  }

  lemma {:induction false} RevValueBound(b: string, base: nat)
    requires AllDigits(b, base) && base > 0
    ensures RevValue(b, base) < Pow(base, |b|)
  {
    hide DigitVal;
    if b != "" {
      RevValueBound(b[1..], base);
      assert DigitVal(b[0]) < base;
      MulLe(base, RevValue(b[1..], base) + 1, Pow(base, |b| - 1));
      MulSucc(base, RevValue(b[1..], base));
    }
  }

  lemma {:induction false} PowLonger(b: nat, m: nat, n: nat)
    requires b > 0 && m <= n
    ensures Pow(b, m) <= Pow(b, n)
    decreases n - m
  {
    if m < n {
      PowLonger(b, m, n - 1);
      PowPositive(b, n - 1);
      MulLe(Pow(b, n - 1), 1, b);
    }
  }

  /** Every integer printed in octal, hexadecimal or binary with '#' reads back past its prefix as itself
      if and only if it is zero or Readable. */
  lemma HashReads(s: char, c: Conv)
    requires (s == 'x' || s == 'X' || s == 'o' || s == 'b') && c.f.hash && !c.f.longlong
    ensures var v := IntValue(s, c.f, NumOf(c.args));
            var f := IntFlags(s, c.f);
            v >= 0 && (ScanPrefixed(Shown(s, c), BaseOf(s)) == v <==>
              v == 0 || Readable(v, |DigitsOf(v, BaseOf(s), f.upper, NTOA)|, BaseOf(s), c.prec, c.width, f))
  {
    hide Shown, NumOf, NumberText, ScanPrefixed, Readable, DigitsOf;
    ShownIs(s, c);
    var v, f, base := IntValue(s, c.f, NumOf(c.args)), IntFlags(s, c.f), BaseOf(s);
    if v == 0 {
      ZeroReadsBack(base, c.prec, c.width, f);
    } else {
      HashedReadsBack(v, base, c.prec, c.width, f);
    }
  }

  // Zero has no prefix.
  lemma ZeroReadsBack(base: nat, prec: nat, width: nat, f: Flags)
    requires (base == 2 || base == 8 || base == 16) && !f.plus && !f.space
    ensures ScanPrefixed(NumberText(0, false, base, prec, width, f), base) == 0
  {
    hide NumberText, Field, ScanPrefixed, Body, Pow, RevValue, AllDigits;
    var g := f.(hash := false);
    BodyDenotes(0, false, base, prec, width, g);
    SmallMod(0, Pow(base, NTOA));
    NumberTextIs(0, false, base, prec, width, g);
    ZeroText(base, prec, width, f);
    PlainReads(Body(0, false, base, prec, width, g), base, ShortWidth(false, width, g), g);
  }

  lemma ZeroText(base: nat, prec: nat, width: nat, f: Flags)
    requires 2 <= base <= 16
    ensures NumberText(0, false, base, prec, width, f) == NumberText(0, false, base, prec, width, f.(hash := false))
  {
    hide Dressed, Field, DigitsOf;
    assert f.(hash := false).(hash := false) == f.(hash := false);
  }

  // Digits without a prefix and a sign.
  lemma PlainReads(b: string, base: nat, w: nat, f: Flags)
    requires 2 <= base <= 16 && AllDigits(b, base)
    ensures ScanPrefixed(Field(b, w, f), base) == RevValue(b, base)
  {
    hide AllDigits, Rev, DigitVal, SkipSpaces, ReadDigits, Spaces, RevValue, PrefixLetter;
    var right := if f.left then Spaces(w - |b|) else "";
    var left := if !f.left && !f.zeropad then Spaces(w - |b|) else "";
    var core := Rev(b) + right;
    assert Field(b, w, f) == left + core by { Assoc(left, Rev(b), right); }
    assert SkipSpaces(left + core) == SkipSpaces(core) by {
      if left == "" { assert left + core == core; } else { SkipsSpaces(w - |b|, core); }
    }
    Blank(w - |b|);
    DigitsRead(b, base, right);
    FirstDigits(b, base, right);
    NotPrefixed(b, base, right);
  }

  lemma NotPrefixed(b: string, base: nat, right: string)
    requires AllDigits(b, base) && 2 <= base <= 16 && forall k :: 0 <= k < |right| ==> right[k] == ' '
    ensures var t := SkipSpaces(Rev(b) + right); |t| >= 2 ==> !PrefixLetter(t[1], base)
  {
    hide Rev, DigitVal;
    var t := Rev(b) + right;
    FirstDigits(b, base, right);
    if b == "" {
      RevEmpty();
      assert t == right;
      AllSpaces(right);
    } else {
      NoSpace(t);
      if |b| == 1 && |t| >= 2 {
        assert t[1] == right[0];
      }
    }
  }

  lemma AllSpaces(s: string)
    requires forall k :: 0 <= k < |s| ==> s[k] == ' '
    ensures SkipSpaces(s) == ""
  {
    assert Spaces(|s|) + "" == s;
    SkipsSpaces(|s|, "");
  }

  // "%#4x" of 0x1234 is "0x34".
  lemma HashDropsDigits()
    ensures Shown('x', Conv(NONE.(hash := true), 4, 0, "x", [Num(0x1234)])) == "0x34"
  {
    var c := Conv(NONE.(hash := true), 4, 0, "x", [Num(0x1234)]);
    var f := NONE.(hash := true);
    Digits1234();
    FlagsOf4();
    hide IntFlags, IntValue, NumOf, Shown, NumberText, DigitsOf, ZeroFilled, Cut, Prefixed, Field;
    ShownIs('x', c);
    HashedText(0x1234, 16, 0, 4, f);
    Cut4();
    Field4();
  }

  lemma FlagsOf4()
    ensures var c := Conv(NONE.(hash := true), 4, 0, "x", [Num(0x1234)]);
            IntFlags('x', c.f) == c.f && IntValue('x', c.f, NumOf(c.args)) == 0x1234
  {
  }

  lemma Cut4()
    ensures var f := NONE.(hash := true); Prefixed(Cut(ZeroFilled("4321", 0, 4, f), 16, 0, 4, f), 16, f) == "43x0"
  {
    var f, d := NONE.(hash := true), "4321";
    assert Zeros(-4) == "" && d + "" == d;
    assert ZeroFilled(d, 0, 4, f) == d;
    hide ZeroFilled;
    assert Cut(d, 16, 0, 4, f) == "43";
  }

  lemma Field4()
    ensures Field("43x0", 4, NONE.(hash := true)) == "0x34"
  {
    Reversed4();
    hide Rev;
    assert Spaces(0) == "" && "" + "0x34" + "" == "0x34";
  }

  lemma Reversed4()
    ensures Rev("43x0") == "0x34"
  {
    assert Rev("x0") == "0x";
    assert "43x0"[1..] == "3x0" && "3x0"[1..] == "x0";
  }

  lemma Digits1234()
    ensures DigitsOf(0x1234, 16, false, NTOA) == "4321"
  {
    DigitsStep("", 0x1234, 16, false, 32);
    DigitsStep("", 0x123, 16, false, 31);
    DigitsStep("", 0x12, 16, false, 30);
    DigitsStep("", 0x1, 16, false, 29);
  }
}
