/** Long file names: the entries that hold their parts, matching and picking them up again. */
module Lfn {
  import opened Arith
  import opened Bytes
  import opened DirEntry

  const LDIR_Ord := 0
  const LDIR_Type := 12
  const LDIR_Chksum := 13
  const LDIR_FstClusLO := 26
  const AM_LFN: byte := 0x0F
  const LLEF: byte := 0x40
  const MAX_LFN := 255

  // Where the 13 characters of an entry are.
  const LFN_OFS: seq<nat> := [1, 3, 5, 7, 9, 14, 16, 18, 20, 22, 24, 28, 30]

  /** Case mapping; only zero is mapped to zero. */
  ghost predicate IsUpper(up: word -> word) {
    forall c: word :: up(c) == 0 <==> c == 0
  }

  const FILLER: word := 0xFFFF

  /** What the long name buffer can hold: no terminator in it. */
  predicate IsText(name: seq<word>) {
    |name| <= MAX_LFN && forall i :: 0 <= i < |name| ==> name[i] != 0
  }

  /** A long name: no terminator and no filler, U+FFFF, in it. */
  predicate IsName(name: seq<word>) {
    IsText(name) && FILLER !in name
  }

  /** Character i of the entries of a name: terminator behind it, then filler. */
  function PartChar(name: seq<word>, i: nat): word {
    if i < |name| then name[i] else if i == |name| then 0 else 0xFFFF
  }

  // Character s of an entry.
  function CharAt(e: Entry, s: nat): word
    requires s < 13
  {
    LdWord(e, LFN_OFS[s])
  }

  function Order(e: Entry): nat {
    e[LDIR_Ord] % 0x40
  }

  predicate IsLast(e: Entry) {
    e[LDIR_Ord] / 0x40 % 2 == 1
  }

  /** e is entry number k of the name, for a short name with the given checksum. */
  ghost predicate IsPart(e: Entry, name: seq<word>, k: nat, sum: byte) {
    && k >= 1 && e[LDIR_Ord] == (if |name| <= k * 13 then k + LLEF else k) && e[DIR_Attr] == AM_LFN && e[LDIR_Type] == 0
    && e[LDIR_Chksum] == sum && LdWord(e, LDIR_FstClusLO) == 0
    && forall s :: 0 <= s < 13 ==> CharAt(e, s) == PartChar(name, (k - 1) * 13 + s)
  }

  // The characters do not overlap, nor do they touch the other fields.
  lemma CharsApart(e: Entry, s: nat, wc: word, t: nat)
    requires s < 13 && t < 13
    ensures CharAt(StWord(e, LFN_OFS[s], wc), t) == if t == s then wc else CharAt(e, t)
    ensures LdWord(StWord(e, LFN_OFS[s], wc), LDIR_FstClusLO) == LdWord(e, LDIR_FstClusLO)
    ensures forall i :: i in [0, 11, 12, 13] ==> StWord(e, LFN_OFS[s], wc)[i] == e[i]
  {
    StLdWord(e, LFN_OFS[s], wc);
  }

  // There is a filler among the characters lo .. hi-1 of the name.
  predicate Blocked(name: seq<word>, lo: nat, hi: nat) {
    exists t :: lo <= t < hi && t < |name| && name[t] == FILLER
  }

  lemma BlockedMore(name: seq<word>, lo: nat, hi: nat)
    requires lo <= hi
    ensures Blocked(name, lo, hi + 1) <==> Blocked(name, lo, hi) || (hi < |name| && name[hi] == FILLER)
    ensures Blocked(name, lo, hi) ==> lo < hi
  {
    if Blocked(name, lo, hi + 1) {
      var t :| lo <= t < hi + 1 && t < |name| && name[t] == FILLER;
      assert t < hi ==> Blocked(name, lo, hi);
    }
  }

  // Character i of an entry that begins with character lo, as put_lfn stores it: behind a filler in the
  // name it stores filler.
  function PutChar(name: seq<word>, lo: nat, i: nat): word {
    if Blocked(name, lo, i) then FILLER else PartChar(name, i)
  }

  /** e is what put_lfn makes of entry number k of any text. */
  ghost predicate PutAs(e: Entry, name: seq<word>, k: nat, sum: byte) {
    && k >= 1 && e[LDIR_Ord] == (if |name| <= k * 13 || Blocked(name, (k - 1) * 13, k * 13) then k + LLEF else k)
    && e[DIR_Attr] == AM_LFN && e[LDIR_Type] == 0 && e[LDIR_Chksum] == sum && LdWord(e, LDIR_FstClusLO) == 0
    && forall s :: 0 <= s < 13 ==> CharAt(e, s) == PutChar(name, (k - 1) * 13, (k - 1) * 13 + s)
  }

  lemma NameIsText(name: seq<word>)
    requires IsName(name)
    ensures IsText(name)
  {
  }

  // put_lfn's wc behind character i.
  function Shown(name: seq<word>, i: nat): word {
    if i < |name| then name[i] else FILLER
  }

  lemma NameChar(lfn: seq<word>, name: seq<word>, i: nat)
    requires |name| < |lfn| && IsText(name) && lfn[..|name|] == name && lfn[|name|] == 0
    ensures i <= |name| ==> lfn[i] == PartChar(name, i)
    ensures i < |name| ==> name[i] != 0
    ensures |name| <= MAX_LFN
  {
    if i < |name| {
      assert lfn[i] == lfn[..|name|][i];
    }
  }

  lemma HeaderStored(dir: Entry, sum: byte)
    ensures var e := StWord(dir[LDIR_Chksum := sum][DIR_Attr := AM_LFN][LDIR_Type := 0], LDIR_FstClusLO, 0);
            LdWord(e, LDIR_FstClusLO) == 0 && e[11] == AM_LFN && e[12] == 0 && e[13] == sum
  {
    StLdWord(dir[LDIR_Chksum := sum][DIR_Attr := AM_LFN][LDIR_Type := 0], LDIR_FstClusLO, 0);
  }

  lemma OrderStored(e: Entry, o: byte)
    ensures forall t :: 0 <= t < 13 ==> CharAt(e[LDIR_Ord := o], t) == CharAt(e, t)
    ensures LdWord(e[LDIR_Ord := o], LDIR_FstClusLO) == LdWord(e, LDIR_FstClusLO)
  {
  }

  /** put_lfn, for any text in the buffer. */
  method PutLfn(lfn: seq<word>, dir: Entry, ord: byte, sum: byte, ghost name: seq<word>) returns (e: Entry)
    requires |lfn| == MAX_LFN + 1 && IsText(name) && |name| <= MAX_LFN && lfn[..|name|] == name && lfn[|name|] == 0
    requires 1 <= ord <= 20 && (ord - 1) * 13 < |name|
    ensures PutAs(e, name, ord, sum)
    ensures IsName(name) ==> IsPart(e, name, ord, sum)
  {
    hide IsText, IsName, LdWord, StWord, Blocked;
    e := dir[LDIR_Chksum := sum][DIR_Attr := AM_LFN][LDIR_Type := 0];
    e := StWord(e, LDIR_FstClusLO, 0);
    HeaderStored(dir, sum);
    NameChar(lfn, name, 0);
    var i: nat, s: nat, wc: word := (ord - 1) * 13, 0, 0;
    ghost var base := (ord - 1) * 13;
    BlockedMore(name, base, base);
    while true
      invariant 0 <= s < 13 && wc == (if s == 0 then 0 else if Blocked(name, base, base + s) then FILLER else Shown(name, base + s - 1))
      invariant !Blocked(name, base, base + s) ==> i == (if base + s <= |name| + 1 then base + s else |name| + 1)
      invariant |name| <= MAX_LFN
      invariant LdWord(e, LDIR_FstClusLO) == 0 && e[11] == AM_LFN && e[12] == 0 && e[13] == sum
      invariant forall t :: 0 <= t < s ==> CharAt(e, t) == PutChar(name, base, base + t)
      decreases 13 - s
    {
      BlockedMore(name, base, base + s);
      NameChar(lfn, name, base + s);
      if s > 0 {
        NameChar(lfn, name, base + s - 1);
        BlockedMore(name, base, base + s - 1);
      }
      if wc != 0xFFFF {
        wc := lfn[i];
        i := i + 1;
      }
      forall t: nat | t < 13 ensures CharAt(StWord(e, LFN_OFS[s], wc), t) == if t == s then wc else CharAt(e, t) {
        CharsApart(e, s, wc, t);
      }
      CharsApart(e, s, wc, s);
      e := StWord(e, LFN_OFS[s], wc);
      if wc == 0 {
        wc := 0xFFFF;
      }
      s := s + 1;
      assert forall t :: 0 <= t < s ==> CharAt(e, t) == PutChar(name, base, base + t);
      if !(s < 13) {
        break;
      }
    }
    var o: byte := ord;
    NameChar(lfn, name, base + 12);
    NameChar(lfn, name, base + 13);
    BlockedMore(name, base, base + 12);
    if wc == 0xFFFF || lfn[i] == 0 {
      o := o + LLEF;
    }
    OrderStored(e, o);
    ghost var e1 := e;
    e := e[LDIR_Ord := o];
    forall t | 0 <= t < 13 ensures CharAt(e, t) == PutChar(name, base, base + t) {
      assert CharAt(e1, t) == PutChar(name, base, base + t);
    }
    if IsName(name) {
      PutOfName(e, name, ord, sum);
    }
  }

  lemma PutOfName(e: Entry, name: seq<word>, k: nat, sum: byte)
    requires IsName(name) && PutAs(e, name, k, sum)
    ensures IsPart(e, name, k, sum)
  {
    hide CharAt, LdWord;
  }

  // No terminator among the first s characters.
  ghost predicate Live(e: Entry, s: nat)
    requires s <= 13
  {
    forall t :: 0 <= t < s ==> CharAt(e, t) != 0
  }

  // Character s of the entry agrees with the name in the buffer, or is filler behind the terminator.
  ghost predicate CharMatches(up: word -> word, buf: seq<word>, e: Entry, s: nat)
    requires s < 13 && Order(e) >= 1
  {
    var i := (Order(e) - 1) * 13 + s;
    if Live(e, s) then i < |buf| && up(CharAt(e, s)) == up(buf[i]) else CharAt(e, s) == 0xFFFF
  }

  /** The entry holds its part of the name in the buffer, up to case, and a last entry its end. */
  ghost predicate PartMatches(up: word -> word, buf: seq<word>, e: Entry) {
    && LdWord(e, LDIR_FstClusLO) == 0 && Order(e) >= 1
    && (forall s :: 0 <= s < 13 ==> CharMatches(up, buf, e, s))
    && (IsLast(e) && Live(e, 13) ==> var i := Order(e) * 13; i < |buf| && buf[i] == 0)
  }

  /** cmp_lfn */
  method CmpLfn(up: word -> word, lfnbuf: seq<word>, e: Entry) returns (r: bool)
    requires |lfnbuf| == MAX_LFN + 1 && IsUpper(up)
    ensures r <==> PartMatches(up, lfnbuf, e)
  {
    hide LdWord, IsUpper, CharAt;
    r := false;
    if LdWord(e, LDIR_FstClusLO) != 0 {
      return;
    }
    var base: nat := (Order(e) - 1) * 13 % 0x1_0000_0000;
    var i: nat, wc: word, s: nat := base, 1, 0;
    while s < 13
      invariant s <= 13 && (wc != 0 <==> Live(e, s)) && (Live(e, s) ==> i == base + s)
      invariant Order(e) >= 1 || s == 0
      invariant Order(e) >= 1 ==> base == (Order(e) - 1) * 13 && forall t :: 0 <= t < s ==> CharMatches(up, lfnbuf, e, t)
      invariant s > 0 && Live(e, s) ==> base + s <= MAX_LFN + 1
    {
      var uc := CharAt(e, s);
      if wc != 0 {
        if i >= MAX_LFN + 1 || up(uc) != up(lfnbuf[i]) {
          assert Order(e) >= 1 ==> !CharMatches(up, lfnbuf, e, s);
          return;
        }
        i := i + 1;
        wc := uc;
      } else {
        if uc != 0xFFFF {
          assert !CharMatches(up, lfnbuf, e, s);
          return;
        }
      }
      s := s + 1;
    }
    PartsEnd(Order(e) - 1);
    if IsLast(e) && wc != 0 && lfnbuf[i] != 0 {
      return;
    }
    r := true;
  }

  // A multiple of 13 that leaves room for 13 characters leaves room for one more.
  lemma PartsEnd(k: int)
    ensures k * 13 + 13 <= MAX_LFN + 1 ==> k * 13 + 13 <= MAX_LFN
  {
  }

  /** The two names are equal up to case. */
  ghost predicate SameName(up: word -> word, a: seq<word>, b: seq<word>) {
    |a| == |b| && forall i :: 0 <= i < |a| ==> up(a[i]) == up(b[i])
  }

  // A buffer that holds a name and its terminator.
  ghost predicate Holding(buf: seq<word>, name: seq<word>) {
    && |buf| == MAX_LFN + 1 && |name| <= MAX_LFN && buf[..|name|] == name && buf[|name|] == 0
    && forall i :: 0 <= i < |name| ==> name[i] != 0
  }

  // Number of entries of a name.
  function Parts(name: seq<word>): nat {
    (|name| + 12) / 13
  }

  // The entry of a name that holds its character i.
  function PartOf(i: nat): (k: nat)
    ensures k >= 1 && (k - 1) * 13 <= i < k * 13
  {
    i / 13 + 1
  }

  // Which characters of an entry come before the terminator.
  lemma LivePart(e: Entry, name: seq<word>, k: nat, sum: byte, s: nat)
    requires IsName(name) && IsPart(e, name, k, sum) && s <= 13 && (k - 1) * 13 < |name|
    ensures Live(e, s) <==> (k - 1) * 13 + s <= |name|
    ensures k <= 20 ==> Order(e) == k && (IsLast(e) <==> |name| <= k * 13)
  {
    hide CharAt;
    var base := (k - 1) * 13;
    if base + s <= |name| {
      forall t | 0 <= t < s ensures CharAt(e, t) != 0 {
      }
    } else {
      assert CharAt(e, |name| - base) == 0;
    }
  }

  // A part of a name matches a name that is equal up to case.
  lemma SameMatches(up: word -> word, buf: seq<word>, given: seq<word>, name: seq<word>, e: Entry, k: nat, sum: byte)
    requires IsUpper(up) && Holding(buf, given) && IsName(name) && IsPart(e, name, k, sum) && SameName(up, given, name)
    requires 1 <= k <= Parts(name)
    ensures PartMatches(up, buf, e)
  {
    hide CharAt, LdWord;
    PartsBound(name, k);
    LivePart(e, name, k, sum, 13);
    forall s | 0 <= s < 13 ensures CharMatches(up, buf, e, s) {
      var i := (k - 1) * 13 + s;
      LivePart(e, name, k, sum, s);
      assert CharAt(e, s) == PartChar(name, i);
      if i < |name| {
        assert buf[i] == buf[..|given|][i];
      }
    }
  }

  lemma PartsBound(name: seq<word>, k: nat)
    requires 1 <= k <= Parts(name) && |name| <= MAX_LFN
    ensures (k - 1) * 13 < |name| && k <= 20
    ensures k == Parts(name) ==> |name| <= k * 13
  {
  }

  // A part that matches tells its characters of the given name.
  lemma MatchTells(up: word -> word, buf: seq<word>, name: seq<word>, e: Entry, k: nat, sum: byte, i: nat)
    requires IsUpper(up) && IsName(name) && IsPart(e, name, k, sum) && PartMatches(up, buf, e) && |buf| == MAX_LFN + 1
    requires 1 <= k <= Parts(name) && (k - 1) * 13 <= i < k * 13 && i <= |name|
    ensures up(PartChar(name, i)) == up(buf[i])
  {
    hide CharAt, LdWord;
    PartsBound(name, k);
    LivePart(e, name, k, sum, i - (k - 1) * 13);
    assert CharMatches(up, buf, e, i - (k - 1) * 13);
  }

  lemma EndTells(up: word -> word, buf: seq<word>, name: seq<word>, e: Entry, k: nat, sum: byte)
    requires IsUpper(up) && IsName(name) && |name| > 0 && IsPart(e, name, k, sum) && PartMatches(up, buf, e)
    requires |buf| == MAX_LFN + 1 && k == Parts(name)
    ensures buf[|name|] == 0
  {
    PartsBound(name, k);
    LivePart(e, name, k, sum, 13);
    if |name| < k * 13 {
      MatchTells(up, buf, name, e, k, sum, |name|);
    }
  }

  /** es are the entries of the name, the one of order k at index k - 1. */
  ghost predicate AreParts(es: seq<Entry>, name: seq<word>, sum: byte) {
    |es| == Parts(name) && forall j :: 0 <= j < |es| ==> IsPart(es[j], name, j + 1, sum)
  }

  /** The fillers in a text do no harm: they are at its end, in a last entry that is full. */
  predicate Storable(name: seq<word>) {
    forall t :: 0 <= t < |name| && name[t] == FILLER ==>
                  |name| % 13 == 0 && |name| - t <= 13 && forall u :: t <= u < |name| ==> name[u] == FILLER
  }

  /** What put_lfn makes of a text are the entries of that name if and only if it is storable. */
  lemma StorableExactly(es: seq<Entry>, name: seq<word>, sum: byte)
    requires IsText(name) && |es| == Parts(name) && forall j :: 0 <= j < |es| ==> PutAs(es[j], name, j + 1, sum)
    ensures AreParts(es, name, sum) <==> Storable(name)
  {
    hide PutAs, IsPart;
    if Storable(name) {
      forall j | 0 <= j < |es| ensures IsPart(es[j], name, j + 1, sum) {
        StorablePart(es[j], name, j + 1, sum);
      }
    }
    if AreParts(es, name, sum) {
      forall t | 0 <= t < |name| && name[t] == FILLER
        ensures |name| % 13 == 0 && |name| - t <= 13 && forall u :: t <= u < |name| ==> name[u] == FILLER
      {
        FillerInPart(es[t / 13], name, t / 13 + 1, sum, t);
      }
    }
  }

  lemma StorablePart(e: Entry, name: seq<word>, k: nat, sum: byte)
    requires Storable(name) && PutAs(e, name, k, sum) && k <= Parts(name)
    ensures IsPart(e, name, k, sum)
  {
    hide CharAt, LdWord, Blocked, Storable;
    var lo := (k - 1) * 13;
    forall i | lo <= i <= lo + 13 && Blocked(name, lo, i) ensures |name| == lo + 13 && (i < |name| ==> name[i] == FILLER) {
      BlockedAtEnd(name, lo, i);
    }
  }

  lemma BlockedAtEnd(name: seq<word>, lo: nat, i: nat)
    requires Storable(name) && Blocked(name, lo, i) && lo % 13 == 0 && i <= lo + 13 && lo < |name|
    ensures |name| == lo + 13 && (i < |name| ==> name[i] == FILLER)
  {
    var t :| lo <= t < i && t < |name| && name[t] == FILLER;
  }

  lemma FillerInPart(e: Entry, name: seq<word>, k: nat, sum: byte, t: nat)
    requires PutAs(e, name, k, sum) && IsPart(e, name, k, sum) && (k - 1) * 13 <= t < k * 13 && t < |name| && name[t] == FILLER
    ensures |name| == k * 13 && forall u :: t <= u < |name| ==> name[u] == FILLER
  {
    hide CharAt, LdWord;
    var lo := (k - 1) * 13;
    assert Blocked(name, lo, k * 13) && PartChar(name, |name|) == 0;
    forall u | t < u < lo + 13 ensures PartChar(name, u) == FILLER {
      assert Blocked(name, lo, u);
      assert CharAt(e, u - lo) == PartChar(name, lo + (u - lo)) == PutChar(name, lo, lo + (u - lo));
    }
    forall u | t <= u < |name| ensures name[u] == FILLER {
      assert u > t ==> name[u] == PartChar(name, u);
    }
  }

  /** All entries of a name match a given name if and only if the names are equal up to case. */
  lemma MatchIsSame(up: word -> word, buf: seq<word>, given: seq<word>, name: seq<word>, es: seq<Entry>, sum: byte)
    requires IsUpper(up) && Holding(buf, given) && IsName(name) && |name| > 0 && AreParts(es, name, sum)
    ensures (forall j :: 0 <= j < |es| ==> PartMatches(up, buf, es[j])) <==> SameName(up, given, name)
  {
    hide IsPart, PartMatches;
    if forall j :: 0 <= j < |es| ==> PartMatches(up, buf, es[j]) {
      EndTells(up, buf, name, es[|es| - 1], |es|, sum);
      forall i | 0 <= i < |name| ensures up(name[i]) == up(buf[i]) && buf[i] != 0 {
        MatchTells(up, buf, name, es[PartOf(i) - 1], PartOf(i), sum, i);
      }
      forall i | 0 <= i < |given| ensures buf[i] == given[i] {
        assert buf[i] == buf[..|given|][i];
      }
    }
    if SameName(up, given, name) {
      forall j | 0 <= j < |es| ensures PartMatches(up, buf, es[j]) {
        SameMatches(up, buf, given, name, es[j], j + 1, sum);
      }
    }
  }

  // The buffer holds the name from index lo on, with its terminator.
  ghost predicate HoldsFrom(buf: seq<word>, name: seq<word>, lo: nat)
  {
    |name| < |buf| && forall i :: lo <= i <= |name| ==> buf[i] == PartChar(name, i)
  }

  // The entry is number k of the name, and those of higher numbers have been picked up.
  ghost predicate Pickable(buf: seq<word>, e: Entry, name: seq<word>, k: nat, sum: byte) {
    && IsName(name) && 1 <= k <= Parts(name) && IsPart(e, name, k, sum) && (k < Parts(name) ==> HoldsFrom(buf, name, k * 13))
  }

  // Order number of the entry, without the mark of the last one.
  function PickOrder(e: Entry): nat {
    if IsLast(e) then e[LDIR_Ord] - LLEF else e[LDIR_Ord]
  }

  // Number of the first of the characters from s on that is the terminator, 13 if there is none.
  function EndFrom(e: Entry, s: nat): (t: nat)
    requires s <= 13
    ensures s <= t <= 13 && (t < 13 ==> CharAt(e, t) == 0) && forall j :: s <= j < t ==> CharAt(e, j) != 0
    decreases 13 - s
  {
    if s == 13 || CharAt(e, s) == 0 then s else EndFrom(e, s + 1)
  }

  // Where in the name the characters of an entry belong; entry number 0 wraps round.
  function PickBase(e: Entry): nat {
    (PickOrder(e) - 1) * 13 % 0x1_0000_0000
  }

  /** The entries that pick_lfn accepts: no cluster number, only filler behind the terminator, and
      characters, terminator included, that fit into the buffer. */
  predicate Pickworthy(e: Entry) {
    var t := EndFrom(e, 0);
    && LdWord(e, LDIR_FstClusLO) == 0
    && (forall s :: t < s < 13 ==> CharAt(e, s) == 0xFFFF)
    && PickBase(e) + (if t < 13 || IsLast(e) then t else 12) <= MAX_LFN
  }

  /** pick_lfn accepts exactly these. The characters of an accepted entry get into their places, and
      nothing else changes but a terminator behind a full last one. */
  method PickLfn(lfnbuf: array<word>, e: Entry) returns (ok: bool)
    requires lfnbuf.Length == MAX_LFN + 1
    modifies lfnbuf
    ensures ok <==> Pickworthy(e)
    ensures ok ==> forall j :: 0 <= j <= MAX_LFN ==>
              lfnbuf[j] == if PickBase(e) <= j < PickBase(e) + 13 && j - PickBase(e) <= EndFrom(e, 0) then CharAt(e, j - PickBase(e))
                           else if IsLast(e) && EndFrom(e, 0) == 13 && j == PickBase(e) + 13 then 0 else old(lfnbuf[j])
  {
    hide LdWord, CharAt, PickBase, EndFrom, IsLast;
    ghost var was := lfnbuf[..];
    ok := false;
    if LdWord(e, LDIR_FstClusLO) != 0 {
      return;
    }
    var base: nat := PickBase(e);
    ghost var t := EndFrom(e, 0);
    var i: nat, wc: word, s: nat := base, 1, 0;
    while s < 13
      invariant s <= 13 && (wc != 0 <==> t >= s) && i == base + if t >= s then s else t + 1
      invariant forall j :: t < j < s ==> CharAt(e, j) == 0xFFFF
      invariant s > 0 ==> base + (if t < s then t else s - 1) <= MAX_LFN
      invariant forall j :: 0 <= j <= MAX_LFN ==>
                  lfnbuf[j] == if base <= j < base + s && j - base <= t then CharAt(e, j - base) else was[j]
    {
      var uc := CharAt(e, s);
      if wc != 0 {
        if i >= MAX_LFN + 1 {
          return;
        }
        wc := uc;
        lfnbuf[i] := wc;
        i := i + 1;
      } else {
        if uc != 0xFFFF {
          return;
        }
      }
      s := s + 1;
    }
    if IsLast(e) && wc != 0 {
      if i >= MAX_LFN + 1 {
        return;
      }
      lfnbuf[i] := 0;
    }
    ok := true;
  }

  // Entry number k of a name is accepted.
  lemma PickableWorthy(buf: seq<word>, e: Entry, name: seq<word>, k: nat, sum: byte)
    requires |buf| == MAX_LFN + 1 && Pickable(buf, e, name, k, sum)
    ensures Pickworthy(e) && PickBase(e) == (k - 1) * 13
    ensures EndFrom(e, 0) == if |name| < k * 13 then |name| - (k - 1) * 13 else 13
    ensures IsLast(e) <==> k == Parts(name)
  {
    hide LdWord, CharAt;
    NameBound(name, k);
    forall s | 0 <= s < 13 ensures CharAt(e, s) == PartChar(name, (k - 1) * 13 + s) {
      NameChars(name, (k - 1) * 13 + s);
    }
    var n := if |name| < k * 13 then |name| - (k - 1) * 13 else 13;
    forall s | 0 <= s < n ensures CharAt(e, s) != 0 {
      NameChars(name, (k - 1) * 13 + s);
    }
    SmallMod((k - 1) * 13, 0x1_0000_0000);
  }

  // What has been put into the buffer is its part of the name.
  lemma PickedHolds(was: seq<word>, buf: seq<word>, e: Entry, name: seq<word>, k: nat, sum: byte)
    requires |was| == |buf| == MAX_LFN + 1 && Pickable(was, e, name, k, sum)
    requires forall j :: 0 <= j <= MAX_LFN ==>
               buf[j] == if PickBase(e) <= j < PickBase(e) + 13 && j - PickBase(e) <= EndFrom(e, 0) then CharAt(e, j - PickBase(e))
                         else if IsLast(e) && EndFrom(e, 0) == 13 && j == PickBase(e) + 13 then 0 else was[j]
    ensures HoldsFrom(buf, name, (k - 1) * 13)
  {
    hide LdWord, CharAt, EndFrom, IsName;
    PickableWorthy(was, e, name, k, sum);
    NameBound(name, k);
    var base := (k - 1) * 13;
    forall j | base <= j <= |name| ensures buf[j] == PartChar(name, j) {
      NameChars(name, j);
    }
  }

  lemma NameChars(name: seq<word>, i: nat)
    requires IsName(name)
    ensures i < |name| ==> PartChar(name, i) != 0 && PartChar(name, i) != 0xFFFF
  {
  }

  lemma NameBound(name: seq<word>, k: nat)
    requires IsName(name) && 1 <= k <= Parts(name)
    ensures |name| <= MAX_LFN && (k - 1) * 13 < |name| && k <= 20
    ensures (k == Parts(name) <==> |name| <= k * 13) && (|name| == k * 13 ==> k * 13 <= MAX_LFN)
  {
  }

  /** Picking up the entries of a name in directory order recovers it, whatever its length. */
  method PickName(lfnbuf: array<word>, es: seq<Entry>, ghost name: seq<word>, ghost sum: byte) returns (ok: bool)
    requires lfnbuf.Length == MAX_LFN + 1 && IsName(name) && |name| > 0 && AreParts(es, name, sum)
    modifies lfnbuf
    ensures ok && lfnbuf[..|name|] == name && lfnbuf[|name|] == 0
  {
    hide IsPart, IsName, Pickworthy, PickBase, EndFrom, CharAt;
    var k: nat := |es|;
    ok := true;
    while k > 0
      invariant k <= |es| && ok && (k < |es| ==> HoldsFrom(lfnbuf[..], name, k * 13))
    {
      ghost var was := lfnbuf[..];
      PickableWorthy(was, es[k - 1], name, k, sum);
      ok := PickLfn(lfnbuf, es[k - 1]);
      PickedHolds(was, lfnbuf[..], es[k - 1], name, k, sum);
      k := k - 1;
    }
    forall i | 0 <= i < |name| ensures lfnbuf[i] == name[i] {
      assert lfnbuf[..][i] == PartChar(name, i);
    }
  }

  /** The checksum of a short name: every byte is added to the sum rotated right by one bit. */
  function Sum(s: seq<byte>): byte {
    if s == [] then 0 else
      RotatedRight(Sum(s[..|s| - 1]), s[|s| - 1])
  }

  // x rotated right by one bit, plus b.
  function RotatedRight(x: byte, b: byte): byte {
    (x / 2 + x % 2 * 0x80 + b) % 0x100
  }

  // A right shift and a left shift by seven make the rotation, once the sum is cut to a byte.
  lemma Rotation(x: byte, b: byte)
    ensures (x / 2 + x * 0x80 + b) % 0x100 == RotatedRight(x, b)
  {
    assert x == 2 * (x / 2) + x % 2;
    DivUnique(x / 2 + x * 0x80 + b, 0x100, x / 2 + (x / 2 + x % 2 * 0x80 + b) / 0x100, RotatedRight(x, b));
  }

  // One step of the checksum, by shifts and additions in a byte.
  function AddRotated(x: byte, b: byte): (r: byte)
    ensures r == RotatedRight(x, b)
  {
    Rotation(x, b);
    (x / 2 + x * 0x80 + b) % 0x100
  }

  /** sum_sfn */
  method SumSfn(dir: seq<byte>) returns (sum: byte)
    requires |dir| >= 11
    ensures sum == Sum(dir[..11])
  {
    hide AddRotated, RotatedRight;
    sum := 0;
    var n: nat := 11;
    while true
      invariant 0 < n <= 11 && sum == Sum(dir[..11 - n])
      decreases n
    {
      assert dir[..12 - n][..11 - n] == dir[..11 - n];
      sum := AddRotated(sum, dir[11 - n]);
      n := n - 1;
      if n == 0 {
        break;
      }
    }
  }
}
