/** Names in a path and short names in a directory: making the one from the other and back. */
module NameForm {
  import opened Bytes
  import opened Layout
  import Lfn

  const SPACE: byte := 0x20
  const DOT: byte := 0x2E
  const QUESTION: word := 0x3F
  const MAX_NAME := 255

  predicate IsUpper(c: nat) {
    0x41 <= c <= 0x5A
  }

  predicate IsLower(c: nat) {
    0x61 <= c <= 0x7A
  }

  predicate IsSeparator(c: nat) {
    c == 0x2F || c == 0x5C
  }

  // * : < > | " ? and DEL
  predicate IsIllegal(c: nat) {
    c in [0x2A, 0x3A, 0x3C, 0x3E, 0x7C, 0x22, 0x3F, 0x7F]
  }

  // + , ; = [ ]
  predicate NotShort(c: nat) {
    c in [0x2B, 0x2C, 0x3B, 0x3D, 0x5B, 0x5D]
  }

  function ToUpper(c: word): word {
    if IsLower(c) then c - 0x20 else c
  }

  function ToLower(c: word): word {
    if IsUpper(c) then c + 0x20 else c
  }

  /** A name without its trailing spaces and dots. */
  function Snip(s: seq<word>): (r: seq<word>)
    ensures |r| <= |s| && (r != [] ==> r[|r| - 1] != SPACE && r[|r| - 1] != DOT)
    ensures r == s[..|r|] && forall i :: |r| <= i < |s| ==> s[i] == SPACE || s[i] == DOT
  {
    if s != [] && (s[|s| - 1] == SPACE || s[|s| - 1] == DOT) then Snip(s[..|s| - 1]) else s
  }

  // The characters that are not padding.
  function Unpadded(s: seq<byte>): seq<word> {
    if s == [] then [] else (if s[0] == SPACE then [] else [if s[0] == 0x05 then 0xE5 else s[0]]) + Unpadded(s[1..])
  }

  /** The short name as text: body, a dot if there is an extension, extension. */
  function AltName(fn: seq<byte>): seq<word>
    requires |fn| == 11
  {
    Unpadded(fn[..8]) + (if fn[8] != SPACE then [DOT] else []) + Unpadded(fn[8..])
  }

  // The text up to a NUL, its letters in lower case before the first dot if body, behind it if ext.
  function Cased(a: seq<word>, body: bool, ext: bool): seq<word> {
    if a == [] || a[0] == 0 then [] else
      var b := if a[0] == DOT then ext else body;
      [if b then ToLower(a[0]) else a[0]] + Cased(a[1..], b, ext)
  }

  /** The name that get_fileinfo shows for a short entry with its two case flags; a question mark if
      the short name is blank. */
  function ShownName(fn: seq<byte>, body: bool, ext: bool): seq<word>
    requires |fn| == 11
  {
    if AltName(fn) == [] then [QUESTION] else Cased(AltName(fn), body, ext)
  }

  // What is to come of the short name from byte si on.
  function AltFrom(fn: seq<byte>, si: nat): seq<word>
    requires |fn| == 11 && si <= 11
  {
    if si <= 8 then Unpadded(fn[si..8]) + (if fn[8] != SPACE then [DOT] else []) + Unpadded(fn[8..]) else Unpadded(fn[si..])
  }

  // What one byte contributes.
  function Shown(c: byte): seq<word> {
    if c == SPACE then [] else [if c == 0x05 then 0xE5 else c]
  }

  lemma UnpaddedStep(s: seq<byte>)
    ensures s != [] ==> Unpadded(s) == Shown(s[0]) + Unpadded(s[1..])
    ensures s == [] ==> Unpadded(s) == []
  {
  }

  lemma AltStepBody(fn: seq<byte>, si: nat)
    requires |fn| == 11 && si < 8
    ensures AltFrom(fn, si) == Shown(fn[si]) + AltFrom(fn, si + 1)
  {
    hide Unpadded, Shown;
    var rest := (if fn[8] != SPACE then [DOT] else []) + Unpadded(fn[8..]);
    UnpaddedStep(fn[si..8]);
    assert fn[si..8][1..] == fn[si + 1..8];
    Associates(Shown(fn[si]), Unpadded(fn[si + 1..8]), rest);
  }

  lemma Associates(a: seq<word>, b: seq<word>, c: seq<word>)
    ensures a + b + c == a + (b + c)
  {
  }

  lemma AltStepExt(fn: seq<byte>, si: nat)
    requires |fn| == 11 && 8 <= si < 11
    ensures AltFrom(fn, si) == (if si == 8 && fn[8] != SPACE then [DOT] else []) + Shown(fn[si]) + AltFrom(fn, si + 1)
  {
    hide Unpadded, Shown;
    UnpaddedStep(fn[si..]);
    UnpaddedStep(fn[8..8]);
    assert fn[si..][1..] == fn[si + 1..];
    if si == 8 {
      var dot := if fn[8] != SPACE then [DOT] else [];
      Associates(dot, Shown(fn[8]), Unpadded(fn[9..]));
      assert [] + dot + Unpadded(fn[8..]) == dot + Unpadded(fn[8..]);
    }
  }

  // What byte si contributes, a dot before an extension included.
  function Piece(fn: seq<byte>, si: nat): seq<word>
    requires |fn| == 11 && si < 11
  {
    (if si == 8 && fn[8] != SPACE then [DOT] else []) + Shown(fn[si])
  }

  lemma AltStep(fn: seq<byte>, si: nat)
    requires |fn| == 11 && si < 11
    ensures AltFrom(fn, si) == Piece(fn, si) + AltFrom(fn, si + 1)
  {
    hide AltFrom, Shown;
    if si < 8 {
      AltStepBody(fn, si);
    } else {
      AltStepExt(fn, si);
    }
  }

  // get_fileinfo: altname
  method PickAltName(fn: seq<byte>) returns (altname: seq<word>)
    requires |fn| == 11
    ensures altname == AltName(fn)
  {
    hide AltFrom, Unpadded, AltName;
    altname := [];
    var si: nat := 0;
    AltEnds(fn);
    while si < 11
      invariant si <= 11 && AltName(fn) == altname + AltFrom(fn, si)
    {
      AltStep(fn, si);
      var wc, piece: seq<word> := fn[si], [];
      si := si + 1;
      if wc != SPACE {
        if wc == 0x05 {
          wc := 0xE5;
        }
        piece := if si == 9 then [DOT, wc] else [wc];
      }
      assert piece == Piece(fn, si - 1);
      Associates(altname, piece, AltFrom(fn, si));
      altname := altname + piece;
    }
  }

  lemma AltEnds(fn: seq<byte>)
    requires |fn| == 11
    ensures AltFrom(fn, 0) == AltName(fn) && AltFrom(fn, 11) == []
  {
  }

  lemma CasedStep(a: seq<word>, di: nat, body: bool, ext: bool)
    requires di < |a| && a[di] != 0
    ensures var b := if a[di] == DOT then ext else body;
            Cased(a[di..], body, ext) == [if b then ToLower(a[di]) else a[di]] + Cased(a[di + 1..], b, ext)
  {
    assert a[di..][1..] == a[di + 1..];
  }

  lemma CasedEnds(a: seq<word>, di: nat, body: bool, ext: bool)
    requires di <= |a|
    ensures a[0..] == a && (di == |a| || a[di] == 0 ==> Cased(a[di..], body, ext) == [])
  {
  }

  // The case flags in a byte of the entry.
  predicate HasBody(nt: byte) {
    nt / 8 % 2 == 1
  }

  predicate HasExt(nt: byte) {
    nt / 16 % 2 == 1
  }

  /** get_fileinfo for an entry without a long name, nt being its case flags. There is an alternative
      name only if they are not zero. */
  method GetFileInfo(fn: seq<byte>, nt: byte) returns (fname: seq<word>, altname: seq<word>)
    requires |fn| == 11
    ensures fname == ShownName(fn, HasBody(nt), HasExt(nt))
    ensures altname == if nt == 0 then [] else AltName(fn)
  {
    hide Cased, AltName, HasBody, HasExt;
    altname := PickAltName(fn);
    fname := [];
    if altname == [] {
      fname := [QUESTION];
    } else {
      var di: nat, lcf := 0, HasBody(nt);
      CasedEnds(altname, 0, lcf, HasExt(nt));
      while di < |altname| && altname[di] != 0
        invariant di <= |altname| && Cased(altname, HasBody(nt), HasExt(nt)) == fname + Cased(altname[di..], lcf, HasExt(nt))
      {
        CasedStep(altname, di, lcf, HasExt(nt));
        var wc := altname[di];
        if wc == DOT {
          lcf := HasExt(nt);
        }
        if IsUpper(wc) && lcf {
          wc := wc + 0x20;
        }
        Associates(fname, [wc], Cased(altname[di + 1..], lcf, HasExt(nt)));
        fname := fname + [wc];
        di := di + 1;
      }
      CasedEnds(altname, di, lcf, HasExt(nt));
    }
    if nt == 0 {
      altname := [];
    }
  }

  // Text of a field padded with spaces.
  lemma {:induction false} UnpaddedField(s: seq<byte>, n: nat)
    requires n <= |s| && (forall i :: 0 <= i < n ==> s[i] != SPACE && s[i] != 0x05) && (forall i :: n <= i < |s| ==> s[i] == SPACE)
    ensures |Unpadded(s)| == n && forall i :: 0 <= i < n ==> Unpadded(s)[i] == s[i]
    decreases |s|
  {
    if s != [] {
      UnpaddedField(s[1..], if n > 0 then n - 1 else 0);
    }
  }

  // All of a text in lower case, or as it is.
  function CaseAll(x: seq<word>, lower: bool): (r: seq<word>)
    ensures |r| == |x|
  {
    seq(|x|, i requires 0 <= i < |x| => if lower then ToLower(x[i]) else x[i])
  }

  // Case mapping up to and behind a dot.
  lemma {:induction false} CasedParts(x: seq<word>, y: seq<word>, body: bool, ext: bool)
    requires DOT !in x && 0 !in x
    ensures Cased(x + y, body, ext) == CaseAll(x, body) + Cased(y, body, ext)
  {
    if x == [] {
      assert x + y == y;
    } else {
      assert (x + y)[1..] == x[1..] + y && (x + y)[0] == x[0];
      CasedParts(x[1..], y, body, ext);
      assert CaseAll(x, body) == [if body then ToLower(x[0]) else x[0]] + CaseAll(x[1..], body);
    }
  }

  // A character that a short name can hold as it is, up to case.
  predicate ShortChar(c: word) {
    SPACE < c < 0x80 && c != DOT && !NotShort(c)
  }

  /** Characters lo .. lo+n-1 of the name are in the field of fn from at on, in upper case and
      padded; u and l say whether there are upper- and lower-case letters among them. */
  ghost predicate Field(name: seq<word>, lo: nat, n: nat, fn: seq<byte>, at: nat, size: nat, u: bool, l: bool) {
    && |fn| == 11 && at + size <= 11 && n <= size && lo + n <= |name|
    && (forall j :: lo <= j < lo + n ==> ShortChar(name[j]))
    && (forall k :: at <= k < at + size ==> fn[k] as int == if k < at + n then ToUpper(name[lo + (k - at)]) else SPACE)
    && (forall j :: lo <= j < lo + n && IsUpper(name[j]) ==> u)
    && (forall j :: lo <= j < lo + n && IsLower(name[j]) ==> l)
  }

  // A field whose letters are not of mixed case shows what was put into it.
  lemma FieldShows(name: seq<word>, lo: nat, n: nat, fn: seq<byte>, at: nat, size: nat, u: bool, l: bool)
    requires Field(name, lo, n, fn, at, size, u, l) && !(u && l)
    ensures DOT !in Unpadded(fn[at..at + size]) && 0 !in Unpadded(fn[at..at + size]) && CaseAll(Unpadded(fn[at..at + size]), l) == name[lo..lo + n]
  {
    var s := fn[at..at + size];
    forall i | 0 <= i < size ensures s[i] as int == (if i < n then ToUpper(name[lo + i]) else SPACE) {
      assert s[i] == fn[at + i];
    }
    forall i | 0 <= i < n ensures s[i] != SPACE && s[i] != 0x05 && s[i] != DOT && s[i] != 0 && (if l then ToLower(s[i]) else s[i]) == name[lo + i] {
      assert ShortChar(name[lo + i]);
    }
    UnpaddedField(s, n);
    assert CaseAll(Unpadded(s), l) == name[lo..lo + n];
  }

  /** The short name, with its case flags, is the name: body, or body, dot and extension. */
  ghost predicate ShortForm(name: seq<word>, fn: seq<byte>, body: bool, ext: bool) {
    exists d: nat, u: bool, v: bool :: FormAt(name, fn, d, u, body, v, ext)
  }

  // The body has d characters.
  ghost predicate FormAt(name: seq<word>, fn: seq<byte>, d: nat, u: bool, body: bool, v: bool, ext: bool) {
    && d <= |name| && Field(name, 0, d, fn, 0, 8, u, body) && !(u && body) && !(v && ext)
    && (if d == |name| then forall k :: 8 <= k < 11 ==> fn[k] == SPACE
        else name[d] == DOT && d + 1 < |name| && Field(name, d + 1, |name| - (d + 1), fn, 8, 3, v, ext))
  }

  lemma BodyShows(name: seq<word>, fn: seq<byte>, u: bool, body: bool, ext: bool)
    requires name != [] && |fn| == 11 && Field(name, 0, |name|, fn, 0, 8, u, body) && !(u && body) && forall k :: 8 <= k < 11 ==> fn[k] == SPACE
    ensures ShownName(fn, body, ext) == name
  {
    hide Unpadded, Cased, Field;
    FieldShows(name, 0, |name|, fn, 0, 8, u, body);
    assert fn[..8] == fn[0..8] && name[0..|name|] == name;
    UnpaddedField(fn[8..], 0);
    var x := Unpadded(fn[..8]);
    CasedParts(x, [], body, ext);
    NoneCased(body, ext);
    assert AltName(fn) == x + [];
  }

  lemma DottedShows(name: seq<word>, fn: seq<byte>, d: nat, u: bool, body: bool, v: bool, ext: bool)
    requires |fn| == 11 && d + 1 < |name| && name[d] == DOT && Field(name, 0, d, fn, 0, 8, u, body) && !(u && body)
    requires Field(name, d + 1, |name| - (d + 1), fn, 8, 3, v, ext) && !(v && ext) && fn[8] != SPACE
    ensures ShownName(fn, body, ext) == name
  {
    hide Unpadded, Cased, Field, CaseAll;
    var e := |name| - (d + 1);
    FieldShows(name, 0, d, fn, 0, 8, u, body);
    FieldShows(name, d + 1, e, fn, 8, 3, v, ext);
    assert fn[..8] == fn[0..8] && fn[8..] == fn[8..11];
    var x, y := Unpadded(fn[0..8]), Unpadded(fn[8..11]);
    Associates(x, [DOT], y);
    CasedParts(x, [DOT] + y, body, ext);
    DotCased(y, body, ext);
    CasedParts(y, [], ext, ext);
    NoneCased(ext, ext);
    assert y + [] == y;
    assert name == name[0..d] + ([DOT] + name[d + 1..d + 1 + e]);
  }

  /** What get_fileinfo shows is the name. */
  lemma ShortFormShows(name: seq<word>, fn: seq<byte>, body: bool, ext: bool)
    requires name != [] && |fn| == 11 && ShortForm(name, fn, body, ext)
    ensures ShownName(fn, body, ext) == name
  {
    hide Unpadded, Cased;
    var d: nat, u: bool, v: bool :| FormAt(name, fn, d, u, body, v, ext);
    if d == |name| {
      BodyShows(name, fn, u, body, ext);
    } else {
      assert ShortChar(name[d + 1]);
      DottedShows(name, fn, d, u, body, v, ext);
    }
  }

  lemma NoneCased(body: bool, ext: bool)
    ensures Cased([], body, ext) == []
  {
  }

  lemma DotCased(y: seq<word>, body: bool, ext: bool)
    ensures Cased([DOT] + y, body, ext) == [DOT] + Cased(y, ext, ext)
  {
    assert ([DOT] + y)[1..] == y;
  }

  // What a short name leaves out.
  predicate Dropped(c: word) {
    c == SPACE as int || c == DOT as int
  }

  // The characters that a short name keeps.
  function Kept(s: seq<word>): (r: seq<word>)
    ensures |r| <= |s|
  {
    if s == [] then [] else Kept(s[..|s| - 1]) + if Dropped(s[|s| - 1]) then [] else [s[|s| - 1]]
  }

  // A character in the OEM code page; conv converts the extended ones to upper case.
  function Oem(c: word, conv: word -> byte): nat
    ensures Oem(c, conv) < 0x100
  {
    if c >= 0x80 then conv(c) else c
  }

  /** The character has no place in a short name: it cannot be converted, or is one of + , ; = [ ]. */
  predicate Lost(c: word, conv: word -> byte) {
    Oem(c, conv) == 0 || NotShort(Oem(c, conv))
  }

  // How a short name holds a character: in upper case, or as an underscore.
  function Stored(c: word, conv: word -> byte): byte {
    if Lost(c, conv) then 0x5F else ToUpper(Oem(c, conv))
  }

  function StoredAll(s: seq<word>, conv: word -> byte): (r: seq<byte>)
    ensures |r| == |s|
  {
    seq(|s|, k requires 0 <= k < |s| => Stored(s[k], conv))
  }

  function Blanks(n: int): (r: seq<byte>)
    ensures |r| == if n > 0 then n else 0
  {
    seq(if n > 0 then n else 0, _ => SPACE)
  }

  // Where the extension begins: behind the last dot, 0 if there is none.
  function DotEnd(name: seq<word>): (d: nat)
    ensures d <= |name| && (d > 0 ==> name[d - 1] == DOT as int) && forall k :: d <= k < |name| ==> name[k] != DOT as int
  {
    if name == [] || name[|name| - 1] == DOT as int then |name| else DotEnd(name[..|name| - 1])
  }

  function BodyOf(name: seq<word>): (b: seq<word>)
    ensures b <= name
  {
    if DotEnd(name) > 0 then name[..DotEnd(name) - 1] else name
  }

  function ExtOf(name: seq<word>): seq<word> {
    if DotEnd(name) > 0 then name[DotEnd(name)..] else []
  }

  // At most so many of the characters to be kept, padded.
  function Packed(s: seq<word>, size: nat, conv: word -> byte): (r: seq<byte>)
    ensures |r| == size
  {
    var k := Kept(s);
    var t := if |k| > size then k[..size] else k;
    StoredAll(t, conv) + Blanks(size - |t|)
  }

  // First character of a deleted entry, and what stands for it in a name.
  const DDEM: byte := 0xE5
  const RDDEM: byte := 0x05

  // The first byte must not look like that of a deleted entry.
  function Undeleted(b: seq<byte>): (r: seq<byte>)
    requires b != []
    ensures |r| == |b| && r[0] != DDEM
  {
    if b[0] == DDEM then b[0 := RDDEM] else b
  }

  /** The short form of any name: the first eight characters kept of what is before the last dot, and the
      first three kept of what is behind it. */
  function ShortBytes(name: seq<word>, conv: word -> byte): (fn: seq<byte>)
    ensures |fn| == 11 && fn[0] != DDEM
  {
    Undeleted(Packed(BodyOf(name), 8, conv) + Packed(ExtOf(name), 3, conv))
  }

  // Spaces, dots, and characters that a short name cannot hold.
  ghost predicate HasOdd(s: seq<word>, conv: word -> byte) {
    exists k :: 0 <= k < |s| && (Dropped(s[k]) || Lost(s[k], conv))
  }

  ghost predicate HasExtended(s: seq<word>) {
    exists k :: 0 <= k < |s| && s[k] >= 0x80
  }

  ghost predicate HasUpper(s: seq<word>) {
    exists k :: 0 <= k < |s| && IsUpper(s[k])
  }

  ghost predicate HasLower(s: seq<word>) {
    exists k :: 0 <= k < |s| && IsLower(s[k])
  }

  /** The short form does not hold the whole name: a space in it, a dot that is its first character or not the
      last dot, a body of more than eight or an extension of more than three characters, or a character
      without a place. */
  ghost predicate Lossy(name: seq<word>, conv: word -> byte) {
    || BodyOf(name) == [] || |BodyOf(name)| > 8 || |ExtOf(name)| > 3
    || HasOdd(BodyOf(name), conv) || HasOdd(ExtOf(name), conv)
  }

  // Letters of both cases.
  ghost predicate Mixed(s: seq<word>) {
    HasUpper(s) && HasLower(s)
  }

  /** A long entry is needed: the short form loses something, or has extended characters or a part of mixed case. */
  ghost predicate Demands(name: seq<word>, conv: word -> byte) {
    Lossy(name, conv) || HasExtended(name) || Mixed(BodyOf(name)) || Mixed(ExtOf(name))
  }

  // What can be a name once it is trimmed.
  predicate Nameable(name: seq<word>) {
    0 < |name| <= MAX_NAME && name[|name| - 1] != SPACE as int && name[|name| - 1] != DOT as int && forall k :: 0 <= k < |name| ==> name[k] > 0x1F
  }

  lemma {:induction false} KeptAll(s: seq<word>)
    requires forall k :: 0 <= k < |s| ==> !Dropped(s[k])
    ensures Kept(s) == s
  {
    if s != [] {
      KeptAll(s[..|s| - 1]);
    }
  }

  lemma {:induction false} KeptPrefix(s: seq<word>, n: nat)
    requires n <= |s|
    ensures Kept(s[..n]) <= Kept(s)
    decreases |s| - n
  {
    if n == |s| {
      assert s[..n] == s;
    } else {
      KeptPrefix(s, n + 1);
      assert s[..n + 1][..n] == s[..n];
    }
  }

  // Where the only dot is.
  lemma {:induction false} DotAt(name: seq<word>, d: nat)
    requires d <= |name| && (forall k :: 0 <= k < |name| && k != d ==> name[k] != DOT as int)
    requires d < |name| ==> name[d] == DOT as int
    ensures DotEnd(name) == if d < |name| then d + 1 else 0
  {
  }

  // A part of a name without odd characters is stored as it is, in upper case.
  lemma PackedPlain(s: seq<word>, size: nat, conv: word -> byte)
    requires !HasOdd(s, conv) && !HasExtended(s) && |s| <= size
    ensures forall k :: 0 <= k < size ==> Packed(s, size, conv)[k] as int == if k < |s| then ToUpper(s[k]) else SPACE as int
  {
    forall k | 0 <= k < |s| ensures !Dropped(s[k]) && !Lost(s[k], conv) && s[k] < 0x80 {
    }
    KeptAll(s);
  }

  lemma PlainField(name: seq<word>, lo: nat, n: nat, fn: seq<byte>, at: nat, size: nat, conv: word -> byte)
    requires |fn| == 11 && at + size <= 11 && n <= size && lo + n <= |name| && (forall k :: 0 <= k < |name| ==> name[k] > 0x1F)
    requires var s := name[lo..lo + n]; !HasOdd(s, conv) && !HasExtended(s) && fn[at..at + size] == Packed(s, size, conv)
    ensures Field(name, lo, n, fn, at, size, HasUpper(name[lo..lo + n]), HasLower(name[lo..lo + n]))
  {
    hide Packed;
    var s := name[lo..lo + n];
    PackedPlain(s, size, conv);
    forall j | lo <= j < lo + n ensures ShortChar(name[j]) && (IsUpper(name[j]) ==> HasUpper(s)) && (IsLower(name[j]) ==> HasLower(s)) {
      assert s[j - lo] == name[j];
      assert !Dropped(s[j - lo]) && !Lost(s[j - lo], conv) && s[j - lo] < 0x80;
    }
    forall k | at <= k < at + size ensures fn[k] as int == if k < at + n then ToUpper(name[lo + (k - at)]) else SPACE {
      assert fn[k] == fn[at..at + size][k - at];
    }
  }

  /** Without need of a long entry the short form, with its case flags, is the name. */
  lemma UndemandedShort(name: seq<word>, conv: word -> byte)
    requires Nameable(name) && !Demands(name, conv)
    ensures var b, e := BodyOf(name), ExtOf(name);
            b != [] && FormAt(name, ShortBytes(name, conv), |b|, HasUpper(b), HasLower(b), HasUpper(e), HasLower(e))
  {
    hide Packed, Field, HasOdd, HasUpper, HasLower, DotEnd;
    var d, fn := DotEnd(name), ShortBytes(name, conv);
    var b, e := BodyOf(name), ExtOf(name);
    NotExtended(name, 0, |b|);
    FirstKept(name, conv);
    assert name[0..0 + |b|] == b;
    assert fn[0..8] == Packed(b, 8, conv) && fn[8..11] == Packed(e, 3, conv);
    PlainField(name, 0, |b|, fn, 0, 8, conv);
    if d > 0 {
      NotExtended(name, d, |name|);
      assert name[d..d + |e|] == e;
      PlainField(name, d, |e|, fn, 8, 3, conv);
    } else {
      EmptyPacked(3, conv);
    }
  }

  lemma NotExtended(name: seq<word>, lo: nat, hi: nat)
    requires lo <= hi <= |name| && !HasExtended(name)
    ensures !HasExtended(name[lo..hi])
  {
  }

  lemma EmptyPacked(size: nat, conv: word -> byte)
    ensures forall k :: 0 <= k < size ==> Packed([], size, conv)[k] == SPACE
  {
  }

  // The first byte is a letter of the name, not the mark of a deleted entry.
  lemma FirstKept(name: seq<word>, conv: word -> byte)
    requires Nameable(name) && !Demands(name, conv)
    ensures ShortBytes(name, conv) == Packed(BodyOf(name), 8, conv) + Packed(ExtOf(name), 3, conv)
  {
    hide Packed, HasOdd, HasUpper, HasLower, DotEnd;
    var b := BodyOf(name);
    NotExtended(name, 0, |b|);
    assert name[0..|b|] == b;
    PackedPlain(b, 8, conv);
    assert b[0] < 0x80 by {
      NotExtendedAt(b, 0);
    }
  }

  lemma NotExtendedAt(s: seq<word>, k: nat)
    requires k < |s| && !HasExtended(s)
    ensures s[k] < 0x80
  {
  }

  /** A long entry is demanded exactly when the name has no short form with a body. */
  lemma DemandsExactly(name: seq<word>, conv: word -> byte)
    requires Nameable(name)
    ensures Demands(name, conv) <==> !exists fn, d: nat, u, body, v, ext :: d > 0 && FormAt(name, fn, d, u, body, v, ext)
  {
    hide Demands, FormAt;
    if !Demands(name, conv) {
      UndemandedShort(name, conv);
    }
    forall fn, d: nat, u, body, v, ext | d > 0 && FormAt(name, fn, d, u, body, v, ext) ensures !Demands(name, conv) {
      FormUndemanded(name, conv, fn, d, u, body, v, ext);
    }
  }

  lemma FormUndemanded(name: seq<word>, conv: word -> byte, fn: seq<byte>, d: nat, u: bool, body: bool, v: bool, ext: bool)
    requires Nameable(name) && d > 0 && FormAt(name, fn, d, u, body, v, ext)
    ensures !Demands(name, conv)
  {
    hide DotEnd, HasOdd, HasUpper, HasLower, Field;
    FieldPlain(name, 0, d, fn, 0, 8, u, body, conv);
    if d < |name| {
      FieldPlain(name, d + 1, |name| - (d + 1), fn, 8, 3, v, ext, conv);
    }
    FormChars(name, fn, d, u, body, v, ext);
    NoneHas(conv);
    FieldLength(name, 0, d, fn, 0, 8, u, body);
    if d < |name| {
      FieldLength(name, d + 1, |name| - (d + 1), fn, 8, 3, v, ext);
    }
  }

  lemma FieldLength(name: seq<word>, lo: nat, n: nat, fn: seq<byte>, at: nat, size: nat, u: bool, l: bool)
    requires Field(name, lo, n, fn, at, size, u, l)
    ensures n <= size
  {
  }

  // The characters of a name with a short form, and where its dot is.
  lemma FormChars(name: seq<word>, fn: seq<byte>, d: nat, u: bool, body: bool, v: bool, ext: bool)
    requires Nameable(name) && d > 0 && FormAt(name, fn, d, u, body, v, ext)
    ensures !HasExtended(name) && BodyOf(name) == name[0..d]
    ensures ExtOf(name) == if d < |name| then name[d + 1..d + 1 + (|name| - (d + 1))] else []
  {
    hide DotEnd;
    forall k | 0 <= k < |name| && k != d ensures name[k] != DOT as int && name[k] < 0x80 {
      assert ShortChar(name[k]);
    }
    DotAt(name, d);
  }

  lemma FieldPlain(name: seq<word>, lo: nat, n: nat, fn: seq<byte>, at: nat, size: nat, u: bool, l: bool, conv: word -> byte)
    requires Field(name, lo, n, fn, at, size, u, l)
    ensures var s := name[lo..lo + n]; !HasOdd(s, conv) && (HasUpper(s) ==> u) && (HasLower(s) ==> l)
  {
    var s := name[lo..lo + n];
    forall k | 0 <= k < |s| ensures s[k] == name[lo + k] && ShortChar(s[k]) && (IsUpper(s[k]) ==> u) && (IsLower(s[k]) ==> l) {
    }
  }

  // Without need of a long entry get_fileinfo shows the name.
  lemma UndemandedShown(name: seq<word>, conv: word -> byte)
    requires Nameable(name) && !Demands(name, conv)
    ensures !Lossy(name, conv) && ShownName(ShortBytes(name, conv), HasLower(BodyOf(name)), HasLower(ExtOf(name))) == name
  {
    hide FormAt, ShownName, ShortBytes, Lossy, HasLower, HasUpper, BodyOf, ExtOf, HasExtended;
    UndemandedShort(name, conv);
    var b, e := BodyOf(name), ExtOf(name);
    assert ShortForm(name, ShortBytes(name, conv), HasLower(b), HasLower(e)) by {
      assert FormAt(name, ShortBytes(name, conv), |b|, HasUpper(b), HasLower(b), HasUpper(e), HasLower(e));
    }
    ShortFormShows(name, ShortBytes(name, conv), HasLower(b), HasLower(e));
  }

  // The text s has been read, after what led to loss0 and lfn0.
  ghost predicate Scanned(s: seq<word>, conv: word -> byte, loss0: bool, lfn0: bool, loss: bool, lfn: bool, u: bool, l: bool) {
    && (loss <==> loss0 || HasOdd(s, conv)) && (lfn <==> lfn0 || loss || HasExtended(s))
    && (!lfn ==> (u <==> HasUpper(s)) && (l <==> HasLower(s)))
  }

  lemma ScannedNone(conv: word -> byte, loss: bool, lfn: bool)
    requires loss ==> lfn
    ensures Scanned([], conv, loss, lfn, loss, lfn, false, false)
  {
  }

  lemma ScannedMore(s: seq<word>, c: word, conv: word -> byte, loss0: bool, lfn0: bool, loss: bool, lfn: bool, u: bool, l: bool)
    requires Scanned(s, conv, loss0, lfn0, loss, lfn, u, l)
    ensures Dropped(c) || Lost(c, conv) ==> Scanned(s + [c], conv, loss0, lfn0, true, true, u, l)
    ensures !Dropped(c) && !Lost(c, conv) ==>
              Scanned(s + [c], conv, loss0, lfn0, loss, lfn || c >= 0x80, u || IsUpper(Oem(c, conv)), l || IsLower(Oem(c, conv)))
  {
    var t := s + [c];
    assert t[|s|] == c && forall k :: 0 <= k < |s| ==> t[k] == s[k];
  }

  // The characters kept of s are in fn from at on; blanks follow.
  ghost predicate Put(fn: seq<byte>, at: nat, s: seq<word>, conv: word -> byte) {
    |fn| == 11 && at + |Kept(s)| <= 11 && fn[at..] == StoredAll(Kept(s), conv) + Blanks(11 - at - |Kept(s)|)
  }

  lemma PutMore(fn: seq<byte>, at: nat, s: seq<word>, c: word, conv: word -> byte)
    requires Put(fn, at, s, conv)
    ensures Kept(s + [c]) == if Dropped(c) then Kept(s) else Kept(s) + [c]
    ensures Dropped(c) ==> Put(fn, at, s + [c], conv)
    ensures !Dropped(c) && at + |Kept(s)| < 11 ==> Put(fn[at + |Kept(s)| := Stored(c, conv)], at, s + [c], conv)
  {
    var t := s + [c];
    assert t[..|t| - 1] == s;
    if !Dropped(c) && at + |Kept(s)| < 11 {
      var i := at + |Kept(s)|;
      var now := fn[i := Stored(c, conv)];
      assert forall k :: at <= k < 11 ==> fn[k] == fn[at..][k - at];
      assert now[at..] == StoredAll(Kept(t), conv) + Blanks(11 - at - |Kept(t)|);
    }
  }

  lemma PutIsPacked(fn: seq<byte>, at: nat, size: nat, s: seq<word>, n: nat, conv: word -> byte)
    requires n <= |s| && Put(fn, at, s[..n], conv) && at + size <= 11
    requires if n == |s| then |Kept(s)| <= size else |Kept(s[..n])| == size
    ensures fn[at..at + size] == Packed(s, size, conv)
  {
    KeptPrefix(s, n);
    assert n == |s| ==> s[..n] == s;
    var k := Kept(s[..n]);
    assert fn[at..at + size] == fn[at..][..size];
    assert (StoredAll(k, conv) + Blanks(11 - at - |k|))[..size] == StoredAll(k, conv) + Blanks(size - |k|);
  }

  // create_name, the short form: the part before the last dot, up to character si, is in fn.
  ghost predicate InBody(name: seq<word>, conv: word -> byte, si: nat, fn: seq<byte>, i: nat, loss: bool, lfn: bool, u: bool, l: bool) {
    && si <= |BodyOf(name)| && i == |Kept(name[..si])| <= 8 && Put(fn, 0, name[..si], conv)
    && name != [] && Scanned(name[..si], conv, name[0] == DOT as int, name[0] == DOT as int, loss, lfn, u, l)
  }

  // The part before the last dot has been left, with what it led to.
  ghost predicate BodyDone(name: seq<word>, conv: word -> byte, loss: bool, lfn: bool, hu: bool, hl: bool) {
    var b := BodyOf(name);
    && (loss <==> b == [] || HasOdd(b, conv) || |Kept(b)| > 8) && (lfn <==> loss || HasExtended(b))
    && (!lfn ==> (hu <==> HasUpper(b)) && (hl <==> HasLower(b)))
  }

  // The part behind the last dot, up to character si, is in fn.
  ghost predicate InExt(name: seq<word>, conv: word -> byte, si: nat, fn: seq<byte>, i: nat, loss: bool, lfn: bool, u: bool, l: bool,
                        hu: bool, hl: bool, loss0: bool, lfn0: bool) {
    var d := DotEnd(name);
    && 0 < d <= si <= |name| && i == 8 + |Kept(name[d..si])| <= 11
    && BodyDone(name, conv, loss0, lfn0, hu, hl) && |fn| == 11 && fn[0..8] == Packed(BodyOf(name), 8, conv)
    && Put(fn, 8, name[d..si], conv) && Scanned(name[d..si], conv, loss0, lfn0, loss, lfn, u, l)
  }

  // How it ends: the bytes, and what the flags are before the case of the letters is looked at.
  ghost predicate Read(name: seq<word>, conv: word -> byte, fn: seq<byte>, loss: bool, lfn: bool, bu: bool, bl: bool, eu: bool, el: bool) {
    && fn == Packed(BodyOf(name), 8, conv) + Packed(ExtOf(name), 3, conv)
    && (loss <==> Lossy(name, conv)) && (lfn <==> loss || HasExtended(name))
    && (!lfn ==> (bu <==> HasUpper(BodyOf(name))) && (bl <==> HasLower(BodyOf(name))))
    && (!lfn ==> (eu <==> HasUpper(ExtOf(name))) && (el <==> HasLower(ExtOf(name))))
  }

  lemma LeadingSpaces(name: seq<word>, conv: word -> byte, si: nat)
    requires Nameable(name) && si < |name| && forall k :: 0 <= k < si ==> name[k] == SPACE as int
    ensures var odd := si > 0 || name[si] == DOT as int;
            InBody(name, conv, si, Blanks(11), 0, odd, odd, false, false)
  {
    KeptNone(name[..si]);
    assert name[..si] != [] ==> name[..si][0] == SPACE as int;
    assert StoredAll([], conv) + Blanks(11) == Blanks(11) == Blanks(11)[0..];
  }

  lemma {:induction false} KeptNone(s: seq<word>)
    requires forall k :: 0 <= k < |s| ==> s[k] == SPACE as int
    ensures Kept(s) == []
  {
    if s != [] {
      KeptNone(s[..|s| - 1]);
    }
  }

  lemma PrefixMore(s: seq<word>, lo: nat, n: nat)
    requires lo <= n < |s|
    ensures s[lo..n + 1] == s[lo..n] + [s[n]]
  {
  }

  // One character more of the body, dropped or put in.
  lemma BodyStep(name: seq<word>, conv: word -> byte, si: nat, fn: seq<byte>, i: nat, loss: bool, lfn: bool, u: bool, l: bool)
    requires InBody(name, conv, si, fn, i, loss, lfn, u, l) && si < |BodyOf(name)|
    ensures var c := name[si];
            && (Dropped(c) ==> InBody(name, conv, si + 1, fn, i, true, true, u, l))
            && (!Dropped(c) && i < 8 && Lost(c, conv) ==> InBody(name, conv, si + 1, fn[i := Stored(c, conv)], i + 1, true, true, u, l))
            && (!Dropped(c) && i < 8 && !Lost(c, conv) ==>
                  InBody(name, conv, si + 1, fn[i := Stored(c, conv)], i + 1, loss, lfn || c >= 0x80, u || IsUpper(Oem(c, conv)), l || IsLower(Oem(c, conv))))
  {
    hide Put, Scanned, Stored, Oem, DotEnd, BodyOf, Lost, Dropped;
    var c := name[si];
    PrefixMore(name, 0, si);
    assert name[0..si] == name[..si] && name[0..si + 1] == name[..si + 1];
    PutMore(fn, 0, name[..si], c, conv);
    ScannedMore(name[..si], c, conv, name[0] == DOT as int, name[0] == DOT as int, loss, lfn, u, l);
  }

  lemma ExtStep(name: seq<word>, conv: word -> byte, si: nat, fn: seq<byte>, i: nat, loss: bool, lfn: bool, u: bool, l: bool,
                hu: bool, hl: bool, loss0: bool, lfn0: bool)
    requires InExt(name, conv, si, fn, i, loss, lfn, u, l, hu, hl, loss0, lfn0) && si < |name|
    ensures var c := name[si];
            && (Dropped(c) ==> InExt(name, conv, si + 1, fn, i, true, true, u, l, hu, hl, loss0, lfn0))
            && (!Dropped(c) && i < 11 && Lost(c, conv) ==>
                  InExt(name, conv, si + 1, fn[i := Stored(c, conv)], i + 1, true, true, u, l, hu, hl, loss0, lfn0))
            && (!Dropped(c) && i < 11 && !Lost(c, conv) ==>
                  InExt(name, conv, si + 1, fn[i := Stored(c, conv)], i + 1, loss, lfn || c >= 0x80,
                        u || IsUpper(Oem(c, conv)), l || IsLower(Oem(c, conv)), hu, hl, loss0, lfn0))
  {
    hide Put, Scanned, Stored, Oem, DotEnd, BodyOf, Lost, Dropped, BodyDone, Packed;
    var c, d := name[si], DotEnd(name);
    PrefixMore(name, d, si);
    PutMore(fn, 8, name[d..si], c, conv);
    ScannedMore(name[d..si], c, conv, loss0, lfn0, loss, lfn, u, l);
    assert i < 11 ==> fn[i := Stored(c, conv)][0..8] == fn[0..8];
  }

  lemma OddHead(name: seq<word>, conv: word -> byte)
    requires Nameable(name)
    ensures name[0] == DOT as int ==> BodyOf(name) == [] || HasOdd(BodyOf(name), conv)
    ensures BodyOf(name) == [] ==> name[0] == DOT as int
  {
    if name[0] == DOT as int && BodyOf(name) != [] {
      assert BodyOf(name)[0] == name[0];
    }
  }

  // At the last dot, or when the body has no more room: the extension begins. over says that the body goes on.
  lemma BodyLeft(name: seq<word>, conv: word -> byte, si: nat, fn: seq<byte>, i: nat, loss: bool, lfn: bool, u: bool, l: bool, over: bool)
    requires Nameable(name) && InBody(name, conv, si, fn, i, loss, lfn, u, l) && DotEnd(name) > 0
    requires if over then si < |BodyOf(name)| && i == 8 && !Dropped(name[si]) else si == |BodyOf(name)|
    ensures InExt(name, conv, DotEnd(name), fn, 8, loss || over, lfn || over, false, false, u, l, loss || over, lfn || over)
  {
    hide Scanned, Stored, Oem, DotEnd, Lost, Dropped, StoredAll, HasOdd, HasUpper, HasLower, HasExtended, Packed, Put;
    BodyCounts(name, conv, si, fn, i, loss, lfn, u, l, over);
    ScannedNone(conv, loss || over, lfn || over);
    var d := DotEnd(name);
    assert name[d..d] == [];
    BlanksBehind(fn, name[..si], conv, i);
  }

  lemma BlanksBehind(fn: seq<byte>, s: seq<word>, conv: word -> byte, i: nat)
    requires Put(fn, 0, s, conv) && i == |Kept(s)| <= 8
    ensures |fn| == 11 && Put(fn, 8, [], conv)
  {
    assert fn[0..] == fn;
    assert fn[8..] == StoredAll([], conv) + Blanks(3);
  }

  lemma BodyCounts(name: seq<word>, conv: word -> byte, si: nat, fn: seq<byte>, i: nat, loss: bool, lfn: bool, u: bool, l: bool, over: bool)
    requires Nameable(name) && InBody(name, conv, si, fn, i, loss, lfn, u, l)
    requires if over then si < |BodyOf(name)| && i == 8 && !Dropped(name[si]) else si == |BodyOf(name)|
    ensures |fn| == 11 && fn[0..8] == Packed(BodyOf(name), 8, conv)
    ensures BodyDone(name, conv, loss || over, lfn || over, u, l)
  {
    hide Stored, Oem, DotEnd, Lost, StoredAll, HasOdd, HasUpper, HasLower, HasExtended, Packed, Put;
    var b := BodyOf(name);
    OddHead(name, conv);
    assert b[..si] == name[..si];
    PutSize(fn, name[..si], conv);
    if over {
      assert b[..si + 1] == b[..si] + [b[si]] && b[si] == name[si];
      PutMoreKept(b[..si], b[si]);
      KeptPrefix(b, si + 1);
      PutIsPacked(fn, 0, 8, b, si, conv);
    } else {
      assert b[..si] == b;
      PutIsPacked(fn, 0, 8, b, si, conv);
    }
  }

  lemma PutSize(fn: seq<byte>, s: seq<word>, conv: word -> byte)
    requires Put(fn, 0, s, conv)
    ensures |fn| == 11
  {
  }

  lemma PutMoreKept(s: seq<word>, c: word)
    ensures Kept(s + [c]) == if Dropped(c) then Kept(s) else Kept(s) + [c]
  {
    assert (s + [c])[..|s|] == s;
  }

  // A name without a dot has been read, or does not fit.
  lemma NoExt(name: seq<word>, conv: word -> byte, si: nat, fn: seq<byte>, i: nat, loss: bool, lfn: bool, u: bool, l: bool, over: bool)
    requires Nameable(name) && InBody(name, conv, si, fn, i, loss, lfn, u, l) && DotEnd(name) == 0
    requires if over then si < |name| && i == 8 && !Dropped(name[si]) else si == |name|
    ensures Read(name, conv, fn, loss || over, lfn || over, u, l, false, false)
  {
    hide Stored, Oem, DotEnd, Lost, StoredAll, HasOdd, HasUpper, HasLower, HasExtended, Packed, Put, Scanned;
    BodyCounts(name, conv, si, fn, i, loss, lfn, u, l, over);
    BlanksBehind(fn, name[..si], conv, i);
    NoneHas(conv);
    EmptyEnd(fn, conv);
    KeptWhole(name, conv);
  }

  lemma NoneHas(conv: word -> byte)
    ensures !HasOdd([], conv) && !HasUpper([]) && !HasLower([]) && !HasExtended([])
  {
  }

  lemma EmptyEnd(fn: seq<byte>, conv: word -> byte)
    requires |fn| == 11 && Put(fn, 8, [], conv)
    ensures fn == fn[0..8] + Packed([], 3, conv)
  {
    assert fn == fn[0..8] + fn[8..];
  }

  // The parts have no more characters than are kept of them, unless they have odd ones.
  lemma KeptWhole(s: seq<word>, conv: word -> byte)
    ensures !HasOdd(s, conv) ==> Kept(s) == s
    ensures |Kept(s)| <= |s|
  {
    if !HasOdd(s, conv) {
      KeptAll(s);
    }
  }

  // A name with a last dot has been read, or its extension does not fit.
  lemma WithExt(name: seq<word>, conv: word -> byte, si: nat, fn: seq<byte>, i: nat, loss: bool, lfn: bool, u: bool, l: bool,
                hu: bool, hl: bool, loss0: bool, lfn0: bool, over: bool)
    requires Nameable(name) && InExt(name, conv, si, fn, i, loss, lfn, u, l, hu, hl, loss0, lfn0)
    requires if over then si < |name| && i == 11 && !Dropped(name[si]) else si == |name|
    ensures Read(name, conv, fn, loss || over, lfn || over, hu, hl, u, l)
  {
    hide Stored, Oem, DotEnd, Lost, StoredAll, HasOdd, HasUpper, HasLower, Packed, Put, Kept, HasExtended, Dropped;
    ExtEnd(name, conv, si, fn, over);
    assert fn == fn[0..8] + fn[8..11];
    KeptWhole(BodyOf(name), conv);
    KeptWhole(ExtOf(name), conv);
    ExtendedParts(name);
  }

  lemma ExtEnd(name: seq<word>, conv: word -> byte, si: nat, fn: seq<byte>, over: bool)
    requires 0 < DotEnd(name) <= si <= |name| && |fn| == 11 && Put(fn, 8, name[DotEnd(name)..si], conv)
    requires |Kept(name[DotEnd(name)..si])| <= 3
    requires if over then si < |name| && |Kept(name[DotEnd(name)..si])| == 3 && !Dropped(name[si]) else si == |name|
    ensures fn[8..11] == Packed(ExtOf(name), 3, conv)
    ensures if over then |Kept(ExtOf(name))| > 3 else name[DotEnd(name)..si] == ExtOf(name)
  {
    hide Stored, Oem, DotEnd, Lost, StoredAll, Packed, Put, Dropped;
    var d, e := DotEnd(name), ExtOf(name);
    var n := si - d;
    assert e[..n] == name[d..si];
    if over {
      assert e[..n + 1] == e[..n] + [e[n]] && e[n] == name[si];
      PutMoreKept(e[..n], e[n]);
      KeptPrefix(e, n + 1);
    } else {
      assert e[..n] == e;
    }
    PutIsPacked(fn, 8, 3, e, n, conv);
  }

  lemma ExtendedParts(name: seq<word>)
    requires DotEnd(name) > 0
    ensures HasExtended(name) <==> HasExtended(BodyOf(name)) || HasExtended(ExtOf(name))
  {
    var d := DotEnd(name);
    if HasExtended(name) {
      var k :| 0 <= k < |name| && name[k] >= 0x80;
      if k < d - 1 {
        assert BodyOf(name)[k] == name[k];
      } else {
        assert ExtOf(name)[k - d] == name[k];
      }
    }
    if HasExtended(BodyOf(name)) {
      var k :| 0 <= k < |BodyOf(name)| && BodyOf(name)[k] >= 0x80;
      assert name[k] >= 0x80;
    }
    if HasExtended(ExtOf(name)) {
      var k :| 0 <= k < |ExtOf(name)| && ExtOf(name)[k] >= 0x80;
      assert name[d + k] >= 0x80;
    }
  }

  /** create_name, the short form: the loop over the long name. conv stands for the conversion of an
      extended character to an upper-case OEM character. For every name: the bytes of the short form,
      whether it loses something, whether it calls for a long entry, and if not the case of body and
      extension. */
  method ShortName(name: seq<word>, conv: word -> byte) returns (fn: seq<byte>, loss: bool, lfn: bool, body: bool, ext: bool)
    requires Nameable(name)
    ensures fn == ShortBytes(name, conv) && (loss <==> Lossy(name, conv)) && (lfn <==> Demands(name, conv))
    ensures !lfn ==> (body <==> HasLower(BodyOf(name))) && (ext <==> HasLower(ExtOf(name)))
  {
    hide InBody, InExt, Read, ShortBytes, Packed, BodyOf, ExtOf, DotEnd, Lossy, HasExtended, HasUpper, HasLower, Demands, Stored, Lost, Oem, Dropped;
    loss, lfn, body, ext := false, false, false, false;
    var si: nat, di: nat := 0, |name|;
    while name[si] == SPACE
      invariant si < |name| && forall k :: 0 <= k < si ==> name[k] == SPACE as int
      decreases |name| - si
    {
      si := si + 1;
    }
    if si > 0 || name[si] == DOT {
      loss, lfn := true, true;
    }
    assert name[..|name|] == name;
    while di > 0 && name[di - 1] != DOT
      invariant di <= |name| && DotEnd(name[..di]) == DotEnd(name)
    {
      DotBefore(name, di);
      di := di - 1;
    }
    DotFound(name, di);
    LeadingSpaces(name, conv, si);
    fn := Blanks(11);
    var i: nat, ni: nat := 0, 8;
    var u, l, hu, hl := false, false, false, false;
    ghost var loss0, lfn0, over := false, false, false;
    while true
      invariant si <= |name| && |fn| == 11 && i <= ni && (loss ==> lfn)
      invariant ni == 8 ==> si <= |BodyOf(name)| && InBody(name, conv, si, fn, i, loss, lfn, u, l) && !hu && !hl
      invariant ni == 8 || (ni == 11 && InExt(name, conv, si, fn, i, loss, lfn, u, l, hu, hl, loss0, lfn0))
      decreases |name| - si, 11 - ni
    {
      if si == |name| {
        if ni == 8 {
          BodyWhole(name);
          NoExt(name, conv, si, fn, i, loss, lfn, u, l, false);
        } else {
          WithExt(name, conv, si, fn, i, loss, lfn, u, l, hu, hl, loss0, lfn0, false);
        }
        break;
      }
      var wc: nat := name[si];
      ghost var at, lost, long := si, loss, lfn;
      if ni == 8 {
        BodyEnds(name, si);
        if si < |BodyOf(name)| {
          BodyStep(name, conv, si, fn, i, loss, lfn, u, l);
        }
      } else {
        ExtStep(name, conv, si, fn, i, loss, lfn, u, l, hu, hl, loss0, lfn0);
        ExtBounds(name, conv, si, fn, i, loss, lfn, u, l, hu, hl, loss0, lfn0);
      }
      DropIs(name[si]);
      si := si + 1;
      if wc == SPACE as int || (wc == DOT as int && si != di) {
        loss, lfn := true, true;
        continue;
      }
      if i >= ni || si == di {
        if ni == 11 {
          loss, lfn := true, true;
          WithExt(name, conv, at, fn, i, lost, long, u, l, hu, hl, loss0, lfn0, true);
          break;
        }
        if si != di {
          loss, lfn := true, true;
        }
        if si > di {
          NoExt(name, conv, at, fn, i, lost, long, u, l, true);
          break;
        }
        BodyLeft(name, conv, at, fn, i, lost, long, u, l, si != di);
        si, i, ni := di, 8, 11;
        hu, hl, u, l := u, l, false, false;
        loss0, lfn0 := loss, lfn;
        continue;
      }
      StoredIs(wc, conv);
      if wc >= 0x80 {
        lfn := true;
        wc := conv(wc);
      }
      if wc == 0 || NotShort(wc) {
        wc := 0x5F;
        loss, lfn := true, true;
      } else {
        if IsUpper(wc) {
          u := true;
        }
        if IsLower(wc) {
          l := true;
          wc := wc - 0x20;
        }
      }
      fn := fn[i := wc];
      i := i + 1;
    }
    if ni == 8 {
      hu, hl, u, l := u, l, false, false;
    }
    assert Read(name, conv, fn, loss, lfn, hu, hl, u, l);
    ReadDone(name, conv, fn, loss, lfn, hu, hl, u, l);
    if fn[0] == DDEM {
      fn := fn[0 := RDDEM];
    }
    if (hu && hl) || (u && l) {
      lfn := true;
    }
    if !lfn {
      body, ext := hl, l;
    }
  }

  lemma DotBefore(name: seq<word>, di: nat)
    requires 0 < di <= |name| && name[di - 1] != DOT as int
    ensures DotEnd(name[..di - 1]) == DotEnd(name[..di])
  {
    assert name[..di][..di - 1] == name[..di - 1];
  }

  lemma DotFound(name: seq<word>, di: nat)
    requires di <= |name| && DotEnd(name[..di]) == DotEnd(name) && (di == 0 || name[di - 1] == DOT as int)
    ensures di == DotEnd(name)
  {
  }

  lemma BodyWhole(name: seq<word>)
    requires |name| <= |BodyOf(name)| && name != []
    ensures DotEnd(name) == 0 && |BodyOf(name)| == |name|
  {
  }

  // The body ends at the last dot, or with the name.
  lemma BodyEnds(name: seq<word>, si: nat)
    requires si <= |BodyOf(name)| && si < |name|
    ensures if DotEnd(name) > 0 then |BodyOf(name)| == DotEnd(name) - 1 && (si < |BodyOf(name)| <==> si + 1 != DotEnd(name)) && si + 1 <= DotEnd(name)
            else si < |BodyOf(name)|
    ensures si == |BodyOf(name)| ==> name[si] == DOT as int
  {
  }

  lemma ExtBounds(name: seq<word>, conv: word -> byte, si: nat, fn: seq<byte>, i: nat, loss: bool, lfn: bool, u: bool, l: bool,
                  hu: bool, hl: bool, loss0: bool, lfn0: bool)
    requires InExt(name, conv, si, fn, i, loss, lfn, u, l, hu, hl, loss0, lfn0)
    ensures 0 < DotEnd(name) <= si && i <= 11 && |fn| == 11
  {
  }

  lemma DropIs(c: word)
    ensures Dropped(c) <==> c == SPACE as int || c == DOT as int
  {
  }

  lemma StoredIs(c: word, conv: word -> byte)
    ensures Oem(c, conv) == if c >= 0x80 then conv(c) as int else c
    ensures Lost(c, conv) <==> Oem(c, conv) == 0 || NotShort(Oem(c, conv))
    ensures Stored(c, conv) == if Lost(c, conv) then 0x5F else if IsLower(Oem(c, conv)) then Oem(c, conv) - 0x20 else Oem(c, conv)
  {
  }

  lemma ReadDone(name: seq<word>, conv: word -> byte, fn: seq<byte>, loss: bool, lfn: bool, bu: bool, bl: bool, eu: bool, el: bool)
    requires Read(name, conv, fn, loss, lfn, bu, bl, eu, el)
    ensures |fn| == 11 && ShortBytes(name, conv) == (if fn[0] == DDEM then fn[0 := RDDEM] else fn)
    ensures (loss <==> Lossy(name, conv)) && (lfn || (bu && bl) || (eu && el) <==> Demands(name, conv))
    ensures !lfn ==> (bl <==> HasLower(BodyOf(name))) && (el <==> HasLower(ExtOf(name)))
  {
    hide Packed, BodyOf, ExtOf, Lossy, HasExtended, HasUpper, HasLower;
  }

  /** Does the path go on behind position p, and where does the segment that starts there end? */
  function SegmentEnd(path: seq<word>, p: nat): (e: nat)
    requires p <= |path|
    ensures p <= e <= |path| && (e < |path| ==> path[e] < SPACE as int || IsSeparator(path[e]))
    ensures forall k :: p <= k < e ==> path[k] >= SPACE as int && !IsSeparator(path[k])
    decreases |path| - p
  {
    if p < |path| && path[p] >= SPACE && !IsSeparator(path[p]) then SegmentEnd(path, p + 1) else p
  }

  // create_name: the long name of the segment, up to its end; none if it is not allowed.
  method TakeSegment(path: seq<word>, p0: nat) returns (ok: bool, name: seq<word>, p: nat)
    requires p0 <= |path|
    ensures p0 <= p <= |path| && (ok ==> p == SegmentEnd(path, p0) && name == path[p0..p] && |name| <= MAX_NAME)
    ensures !ok <==> (exists k :: p0 <= k < SegmentEnd(path, p0) && IsIllegal(path[k])) || SegmentEnd(path, p0) - p0 > MAX_NAME
  {
    hide IsIllegal;
    ok, name, p := true, [], p0;
    while p < |path| && path[p] >= SPACE && !IsSeparator(path[p])
      invariant p0 <= p <= SegmentEnd(path, p0) && SegmentEnd(path, p) == SegmentEnd(path, p0) && ok
      invariant name == path[p0..p] && |name| <= MAX_NAME && forall k :: p0 <= k < p ==> !IsIllegal(path[k])
      decreases |path| - p
    {
      if IsIllegal(path[p]) {
        ok := false;
        return;
      }
      if |name| >= MAX_NAME {
        ok := false;
        return;
      }
      name := name + [path[p]];
      p := p + 1;
    }
  }

  // A segment is a text that can be a long name unless it has a filler in it.
  lemma SegmentText(path: seq<word>, p0: nat)
    requires p0 <= |path|
    ensures var s := path[p0..SegmentEnd(path, p0)];
            && (forall i :: 0 <= i < |s| ==> s[i] != 0)
            && (forall i :: |Snip(s)| <= i < |s| ==> s[i] != Lfn.FILLER)
            && (Lfn.FILLER in s <==> Lfn.FILLER in Snip(s))
  {
    var s := path[p0..SegmentEnd(path, p0)];
    assert forall i :: 0 <= i < |s| ==> s[i] == path[p0 + i];
    hide Snip;
    if Lfn.FILLER in s {
      var i :| 0 <= i < |s| && s[i] == Lfn.FILLER;
      assert Snip(s)[i] == s[i];
    }
  }

  datatype Flags = Flags(loss: bool, lfn: bool, last: bool, body: bool, ext: bool)

  /** create_name. The long name is the segment without trailing spaces and dots. When no long entry
      is needed, get_fileinfo shows that name again from the short name and its case flags. The short name
      is that of the rule, and what it loses and whether a long entry is needed are said of the name. */
  method CreateName(path: seq<word>, p0: nat, conv: word -> byte) returns (res: FRESULT, p: nat, name: seq<word>, fn: seq<byte>, cf: Flags)
    requires p0 <= |path|
    ensures res == OK ==> name == Snip(path[p0..SegmentEnd(path, p0)]) != [] && |fn| == 11
    ensures res == OK ==> Lfn.IsText(name) && (Lfn.IsName(name) <==> Lfn.FILLER !in path[p0..SegmentEnd(path, p0)])
    ensures res == OK ==> fn == ShortBytes(name, conv) && (cf.loss <==> Lossy(name, conv)) && (cf.lfn <==> Demands(name, conv))
    ensures res == OK && !cf.lfn ==> (cf.body <==> HasLower(BodyOf(name))) && (cf.ext <==> HasLower(ExtOf(name)))
    ensures res == OK && !cf.lfn ==> !cf.loss && ShownName(fn, cf.body, cf.ext) == name
    ensures res == OK ==> SegmentEnd(path, p0) <= p <= |path| && (cf.last <==> p == |path| || path[p] < SPACE as int)
    ensures res == OK || res == INVALID_NAME
    ensures res == INVALID_NAME <==> (exists k :: p0 <= k < SegmentEnd(path, p0) && IsIllegal(path[k])) || SegmentEnd(path, p0) - p0 > MAX_NAME
                                     || Snip(path[p0..SegmentEnd(path, p0)]) == []
  {
    hide ShownName, ShortForm, IsIllegal, ShortBytes, Demands, Lossy, HasLower, BodyOf, ExtOf;
    fn, cf := [], Flags(false, false, false, false, false);
    var ok;
    ok, name, p := TakeSegment(path, p0);
    if !ok {
      return INVALID_NAME, p, name, fn, cf;
    }
    while p < |path| && IsSeparator(path[p])
      invariant SegmentEnd(path, p0) <= p <= |path|
      invariant p < |path| ==> path[p] < SPACE as int || IsSeparator(path[p]) || p > SegmentEnd(path, p0)
    {
      p := p + 1;
    }
    cf := cf.(last := p == |path| || path[p] < SPACE);
    ghost var whole := name;
    SegmentText(path, p0);
    while name != [] && (name[|name| - 1] == SPACE || name[|name| - 1] == DOT)
      invariant name <= whole && Snip(name) == Snip(whole)
      decreases |name|
    {
      name := name[..|name| - 1];
    }
    if name == [] {
      return INVALID_NAME, p, name, fn, cf;
    }
    var loss, lfn, body, ext;
    fn, loss, lfn, body, ext := ShortName(name, conv);
    cf := cf.(loss := loss, lfn := lfn, body := body, ext := ext);
    if !lfn {
      UndemandedShown(name, conv);
    }
    res := OK;
  }
}
