/** pattern_match: the backtracking matcher against the meaning of ? and *. */
module Pattern {
  import opened Arith

  // Characters of the pattern and of the name; 0 only ends a string.
  type Text = s: seq<nat> | forall i :: 0 <= i < |s| ==> s[i] != 0

  // The string from position i on: a pointer advanced by i.
  function Suffix(s: Text, i: nat): (r: Text)
    requires i <= |s|
    ensures r == s[i..]
  {
    s[i..]
  }

  const ANY_ONE: nat := 0x3F
  const ANY_RUN: nat := 0x2A

  /** Case mapping of get_achar; only the terminator is mapped to 0. */
  ghost predicate Folds(up: nat -> nat) {
    forall c: nat :: up(c) == 0 <==> c == 0
  }

  predicate IsWild(c: nat) {
    c == ANY_ONE || c == ANY_RUN
  }

  /** The meaning of a pattern: ? is any one character, * any number of them. */
  ghost predicate Match(up: nat -> nat, p: seq<nat>, n: seq<nat>)
    decreases |p|, |n|
  {
    if p == [] then n == []
    else if p[0] == ANY_RUN then Match(up, p[1..], n) || (n != [] && Match(up, p, n[1..]))
    else n != [] && (p[0] == ANY_ONE || up(p[0]) == up(n[0])) && Match(up, p[1..], n[1..])
  }

  // Length of the wildcard term, or of the plain text, that the pattern starts with.
  function Term(p: seq<nat>): (k: nat)
    ensures k <= |p| && (forall i :: 0 <= i < k ==> IsWild(p[i])) && (k < |p| ==> !IsWild(p[k]))
  {
    if p != [] && IsWild(p[0]) then 1 + Term(p[1..]) else 0
  }

  function Plain(p: seq<nat>): (k: nat)
    ensures k <= |p| && (forall i :: 0 <= i < k ==> !IsWild(p[i])) && (k < |p| ==> IsWild(p[k]))
  {
    if p != [] && !IsWild(p[0]) then 1 + Plain(p[1..]) else 0
  }

  // Number of ?s in a wildcard term.
  function Ones(t: seq<nat>): (q: nat)
    ensures q <= |t|
  {
    if t == [] then 0 else (if t[0] == ANY_ONE then 1 else 0) + Ones(t[1..])
  }

  // The first wildcard term of a pattern that has one, and what follows it.
  function FirstTerm(p: seq<nat>): seq<nat> {
    p[Plain(p)..][..Term(p[Plain(p)..])]
  }

  function Beyond(p: seq<nat>): (r: seq<nat>)
    ensures Plain(p) < |p| ==> |r| < |p|
  {
    p[Plain(p)..][Term(p[Plain(p)..])..]
  }

  /** Number of wildcard terms. */
  function Terms(p: seq<nat>): nat
    decreases |p|
  {
    if Plain(p) == |p| then 0 else 1 + Terms(Beyond(p))
  }

  /** No wildcard term has more than 255 ?s. */
  predicate Modest(p: seq<nat>)
    decreases |p|
  {
    Plain(p) == |p| || (Ones(FirstTerm(p)) < 256 && Modest(Beyond(p)))
  }

  // q characters, any number of them if star.
  function Wild(q: nat, star: bool): seq<nat> {
    seq(q, _ => ANY_ONE) + if star then [ANY_RUN] else []
  }

  // How the code counts a wildcard term: in a byte, whose carry is the mark for a *.
  function Few(t: seq<nat>): (q: nat)
    ensures q < 0x100
  {
    Ones(t) % 0x100
  }

  predicate Open(t: seq<nat>) {
    ANY_RUN in t || Ones(t) >= 0x100
  }

  /** The pattern that the code takes a pattern for: of 256 or more ?s in a wildcard term it drops whole
      multiples of 256 and puts a *. */
  function Coarse(p: seq<nat>): seq<nat>
    decreases |p|
  {
    if Plain(p) == |p| then p
    else p[..Plain(p)] + (Wild(Few(FirstTerm(p)), Open(FirstTerm(p))) + Coarse(Beyond(p)))
  }

  // q characters, then any number of them if star, then the pattern.
  ghost predicate After(up: nat -> nat, p: seq<nat>, n: seq<nat>, q: nat, star: bool) {
    q <= |n| && if star then exists k :: q <= k <= |n| && Match(up, p, n[k..]) else Match(up, p, n[q..])
  }

  /** A wildcard term stands for its number of ?s and whether it has a *, in any order. */
  lemma {:induction false} TermMeans(up: nat -> nat, t: seq<nat>, p: seq<nat>, n: seq<nat>)
    requires forall i :: 0 <= i < |t| ==> IsWild(t[i])
    ensures Match(up, t + p, n) <==> After(up, p, n, Ones(t), ANY_RUN in t)
    decreases |t|, |n|
  {
    if t == [] {
      assert t + p == p && n[0..] == n;
    } else {
      assert (t + p)[1..] == t[1..] + p;
      assert t == [t[0]] + t[1..];
      if t[0] == ANY_ONE {
        if n != [] {
          TermMeans(up, t[1..], p, n[1..]);
          AfterOne(up, p, n, Ones(t[1..]), ANY_RUN in t[1..]);
        }
      } else {
        TermMeans(up, t[1..], p, n);
        if n != [] {
          TermMeans(up, t, p, n[1..]);
          AfterRun(up, p, n, Ones(t), ANY_RUN in t[1..]);
        } else {
          assert n[0..] == n;
        }
      }
    }
  }

  lemma AfterOne(up: nat -> nat, p: seq<nat>, n: seq<nat>, q: nat, star: bool)
    requires n != []
    ensures After(up, p, n[1..], q, star) <==> After(up, p, n, q + 1, star)
  {
    hide Match;
    assert forall k :: 0 <= k < |n| ==> n[1..][k..] == n[k + 1..];
    if star && After(up, p, n[1..], q, star) {
      var k :| q <= k <= |n| - 1 && Match(up, p, n[1..][k..]);
      assert Match(up, p, n[k + 1..]);
    }
    if star && After(up, p, n, q + 1, star) {
      var k :| q + 1 <= k <= |n| && Match(up, p, n[k..]);
      assert n[1..][k - 1..] == n[k..];
    }
  }

  lemma AfterRun(up: nat -> nat, p: seq<nat>, n: seq<nat>, q: nat, star: bool)
    requires n != []
    ensures After(up, p, n, q, true) <==> After(up, p, n, q, star) || After(up, p, n[1..], q, true)
  {
    hide Match;
    assert forall k :: 0 <= k < |n| ==> n[1..][k..] == n[k + 1..];
    if After(up, p, n, q, true) {
      var k :| q <= k <= |n| && Match(up, p, n[k..]);
      if k > q {
        assert n[1..][k - 1..] == n[k..];
      }
    }
    if After(up, p, n[1..], q, true) {
      var k :| q <= k <= |n| - 1 && Match(up, p, n[1..][k..]);
      assert Match(up, p, n[k + 1..]);
    }
  }

  // The name starts with this text, up to case.
  ghost predicate Agrees(up: nat -> nat, t: seq<nat>, n: seq<nat>) {
    |t| <= |n| && forall i :: 0 <= i < |t| ==> up(t[i]) == up(n[i])
  }

  lemma AgreesFrom(up: nat -> nat, t: seq<nat>, n: seq<nat>)
    requires t != [] && n != []
    ensures Agrees(up, t, n) <==> up(t[0]) == up(n[0]) && Agrees(up, t[1..], n[1..])
  {
    if up(t[0]) == up(n[0]) && Agrees(up, t[1..], n[1..]) {
      forall i | 0 <= i < |t| ensures up(t[i]) == up(n[i]) {
        if i > 0 {
          assert t[1..][i - 1] == t[i] && n[1..][i - 1] == n[i];
        }
      }
    }
  }

  /** Plain text stands for itself. */
  lemma {:induction false} PlainMeans(up: nat -> nat, t: seq<nat>, p: seq<nat>, n: seq<nat>)
    requires forall i :: 0 <= i < |t| ==> !IsWild(t[i])
    ensures Match(up, t + p, n) <==> Agrees(up, t, n) && Match(up, p, n[|t|..])
    decreases |t|
  {
    if t == [] {
      assert t + p == p && n[0..] == n;
    } else {
      assert (t + p)[1..] == t[1..] + p;
      if n != [] {
        PlainMeans(up, t[1..], p, n[1..]);
        AgreesFrom(up, t, n);
        assert |t| <= |n| ==> n[1..][|t| - 1..] == n[|t|..];
      }
    }
  }

  // What one branch decides: the whole pattern against the name from here.
  lemma BranchMeans(up: nat -> nat, p: seq<nat>, n: seq<nat>)
    ensures var l := Plain(p);
            Match(up, p, n) <==>
            (Agrees(up, p[..l], n)
             && if l == |p| then |n| == l else After(up, Beyond(p), n[l..], Ones(FirstTerm(p)), ANY_RUN in FirstTerm(p)))
  {
    var l := Plain(p);
    var rest := p[l..];
    assert p == p[..l] + rest;
    PlainMeans(up, p[..l], rest, n);
    if l < |p| && l <= |n| {
      assert rest == FirstTerm(p) + Beyond(p);
      TermMeans(up, FirstTerm(p), Beyond(p), n[l..]);
    }
  }

  lemma {:induction false} OnesOf(q: nat)
    ensures Ones(seq(q, _ => ANY_ONE)) == q
  {
    if q > 0 {
      assert seq(q, _ => ANY_ONE)[1..] == seq(q - 1, _ => ANY_ONE);
      OnesOf(q - 1);
    }
  }

  lemma WildIs(q: nat, star: bool)
    ensures var t := Wild(q, star); (forall i :: 0 <= i < |t| ==> IsWild(t[i])) && Ones(t) == q && (ANY_RUN in t <==> star)
  {
    var a := seq(q, _ => ANY_ONE);
    OnesOf(q);
    assert Wild(q, star)[..q] == a;
    if star {
      OnesMore(Wild(q, star), q);
      assert Wild(q, star)[..q + 1] == Wild(q, star) && Wild(q, star)[q] == ANY_RUN;
    } else {
      assert Wild(q, star) == a;
    }
  }

  // The same for the pattern that the code takes it for.
  lemma CoarseMeans(up: nat -> nat, p: seq<nat>, n: seq<nat>)
    ensures var l := Plain(p);
            Match(up, Coarse(p), n) <==>
            (Agrees(up, p[..l], n)
             && if l == |p| then |n| == l else After(up, Coarse(Beyond(p)), n[l..], Few(FirstTerm(p)), Open(FirstTerm(p))))
  {
    var l := Plain(p);
    if l == |p| {
      BranchMeans(up, p, n);
    } else {
      var t := FirstTerm(p);
      var w, c := Wild(Few(t), Open(t)), Coarse(Beyond(p));
      PlainMeans(up, p[..l], w + c, n);
      WildIs(Few(t), Open(t));
      if l <= |n| {
        TermMeans(up, w, c, n[l..]);
      }
    }
  }

  lemma {:induction false} OnesMore(t: seq<nat>, i: nat)
    requires i < |t|
    ensures Ones(t[..i + 1]) == Ones(t[..i]) + if t[i] == ANY_ONE then 1 else 0
    decreases i
  {
    if i > 0 {
      OnesMore(t[1..], i - 1);
      assert t[..i + 1][1..] == t[1..][..i] && t[..i][1..] == t[1..][..i - 1];
    }
  }

  // The bit that stands for a * is set.
  function WithRun(sk: nat): nat {
    if sk / 0x100 % 2 == 1 then sk else sk + 0x100
  }

  // What the analysis of a wildcard term gives.
  predicate Counted(t: seq<nat>, sk: nat) {
    sk % 0x100 == Few(t) && (sk >= 0x100 <==> Open(t))
  }

  lemma CountedMore(p: Text, i: nat, sk: nat)
    requires i < |p| && IsWild(p[i]) && Counted(p[..i], sk)
    ensures Counted(p[..i + 1], if p[i] == ANY_ONE then sk + 1 else WithRun(sk))
  {
    OnesMore(p, i);
    assert p[..i + 1] == p[..i] + [p[i]];
    hide Ones;
    var a := Ones(p[..i]);
    if p[i] == ANY_ONE {
      SameNext(a, sk);
    } else {
      WithRunIs(sk);
    }
  }

  lemma SameNext(a: nat, b: nat)
    requires a % 0x100 == b % 0x100
    ensures (a + 1) % 0x100 == (b + 1) % 0x100
  {
  }

  lemma WithRunIs(sk: nat)
    ensures WithRun(sk) >= 0x100 && WithRun(sk) % 0x100 == sk % 0x100
  {
  }

  // Analysis of a wildcard term.
  method AnalyzeTerm(p: Text) returns (sk: nat, rest: Text)
    requires p != [] && IsWild(p[0])
    ensures rest == p[Term(p)..] && Counted(p[..Term(p)], sk)
  {
    hide Counted, WithRun;
    var i: nat := 0;
    sk := 0;
    ghost var t := Term(p);
    CountedNone(p);
    while true
      invariant i < t && Counted(p[..i], sk)
      decreases t - i
    {
      CountedMore(p, i, sk);
      if p[i] == ANY_ONE {
        sk := sk + 1;
      } else {
        sk := WithRun(sk);
      }
      i := i + 1;
      if !(i < |p| && IsWild(p[i])) {
        break;
      }
    }
    rest := Suffix(p, i);
  }

  lemma CountedNone(p: Text)
    ensures Counted(p[..0], 0)
  {
  }

  // Plain text before position i agrees with the name: what the branch decides there.
  lemma BranchAt(up: nat -> nat, p: Text, n: Text, i: nat)
    requires Folds(up) && i <= Plain(p) && i <= |n| && forall j :: 0 <= j < i ==> up(p[j]) == up(n[j])
    ensures i < |p| && IsWild(p[i]) ==>
              i == Plain(p) && Terms(p) > 0
              && (Match(up, Coarse(p), n) <==> After(up, Coarse(Beyond(p)), n[i..], Few(FirstTerm(p)), Open(FirstTerm(p))))
    ensures i == |p| ==> Terms(p) == 0
    ensures i == |p| == |n| ==> Match(up, Coarse(p), n)
    ensures (i < |p| && !IsWild(p[i]) && (i == |n| || up(p[i]) != up(n[i]))) || (i == |p| < |n|) ==> !Match(up, Coarse(p), n)
    ensures i < |p| && !IsWild(p[i]) ==> i < Plain(p)
  {
    CoarseMeans(up, p, n);
    hide Match, After, Beyond, FirstTerm, Few, Open, Coarse;
  }

  /** One branch of pattern_match, from the current position of the name on. It gives up when there
      are too many wildcard terms; otherwise nchr is 0 only if the name has ended within the plain
      text, or right behind it. */
  method Branch(up: nat -> nat, pat: Text, nam: Text, recur: nat) returns (matched: bool, nchr: nat, stop: bool)
    requires Folds(up)
    ensures matched <==> Terms(pat) <= recur && Match(up, Coarse(pat), nam)
    ensures !matched && !stop ==> (nchr == 0 ==> |nam| <= Plain(pat)) && (nchr != 0 ==> nam != [])
    ensures stop ==> recur == 0 < Terms(pat)
    decreases recur, 0
  {
    hide Match, After, Beyond, FirstTerm, Terms, Coarse, Few, Open, Counted;
    var i: nat := 0;
    stop := false;
    while true
      invariant i <= Plain(pat) && i <= |nam| && !stop && forall j :: 0 <= j < i ==> up(pat[j]) == up(nam[j])
      decreases |pat| - i
    {
      BranchAt(up, pat, nam, i);
      if i < |pat| && IsWild(pat[i]) {
        if recur == 0 {
          return false, 0, true;
        }
        var sk, rest := AnalyzeTerm(Suffix(pat, i));
        TermParts(pat, sk, rest);
        matched := PatternMatch(up, rest, Suffix(nam, i), sk, recur - 1);
        return matched, if i < |nam| then nam[i] else 0, false;
      }
      var pchr := if i < |pat| then up(pat[i]) else 0;
      nchr := if i < |nam| then up(nam[i]) else 0;
      if pchr != nchr {
        return false, nchr, false;
      }
      if pchr == 0 {
        return true, nchr, false;
      }
      i := i + 1;
    }
  }

  // The analysed term is the first term of the pattern.
  lemma TermParts(p: seq<nat>, sk: nat, rest: seq<nat>)
    requires Plain(p) < |p| && rest == p[Plain(p)..][Term(p[Plain(p)..])..]
    requires var t := p[Plain(p)..]; Counted(t[..Term(t)], sk)
    ensures rest == Beyond(p) && sk % 0x100 == Few(FirstTerm(p)) && (sk >= 0x100 <==> Open(FirstTerm(p)))
    ensures Terms(p) == 1 + Terms(rest)
  {
    hide Few, Open, Plain, Term;
  }

  // A name too short for the plain text does not match.
  lemma TooShort(up: nat -> nat, p: seq<nat>, n: seq<nat>)
    requires |n| < Plain(p)
    ensures !Match(up, Coarse(p), n)
  {
    CoarseMeans(up, p, n);
  }

  /** pattern_match. It matches exactly what the pattern means to the code, provided that it may use as many
      recursions as the pattern has wildcard terms; otherwise it matches nothing. */
  method PatternMatch(up: nat -> nat, pat: Text, nam0: Text, skip0: nat, recur: nat) returns (r: bool)
    requires Folds(up)
    ensures r <==> Terms(pat) <= recur && After(up, Coarse(pat), nam0, skip0 % 0x100, skip0 >= 0x100)
    decreases recur, 1
  {
    hide Match, Coarse, Terms;
    ghost var q := skip0 % 0x100;
    var nam, skip := nam0, skip0;
    while skip % 0x100 != 0
      invariant skip % 0x100 <= q && skip == skip0 - (q - skip % 0x100)
      invariant q - skip % 0x100 <= |nam0| && nam == nam0[q - skip % 0x100..]
      decreases skip
    {
      if nam == [] {
        return false;
      }
      nam := nam[1..];
      skip := skip - 1;
    }
    if pat == [] && skip != 0 {
      MatchesNothing(up, nam0);
      return true;
    }
    ghost var k := q;
    while true
      invariant q <= k <= |nam0| && nam == nam0[k..] && (skip == 0 ==> k == q)
      invariant Terms(pat) <= recur ==> forall j :: q <= j < k ==> !Match(up, Coarse(pat), nam0[j..])
      decreases |nam|
    {
      var nchr, stop;
      r, nchr, stop := Branch(up, pat, nam, recur);
      if r || stop {
        return;
      }
      if !(skip != 0 && nchr != 0) {
        if nchr == 0 && skip != 0 {
          forall j | k < j <= |nam0| ensures !Match(up, Coarse(pat), nam0[j..]) {
            TooShort(up, pat, nam0[j..]);
          }
        }
        return;
      }
      nam := nam[1..];
      k := k + 1;
    }
  }

  lemma MatchesNothing(up: nat -> nat, n: seq<nat>)
    ensures Terms([]) == 0 && Coarse([]) == [] && Match(up, [], n[|n|..])
  {
  }

  const FIND_RECURS := 4

  // What f_findnext's test accepts.
  ghost predicate Accepts(up: nat -> nat, pat: Text, fname: Text) {
    Terms(pat) <= FIND_RECURS && Match(up, Coarse(pat), fname)
  }

  /** f_findnext's test of a name. */
  method NameMatches(up: nat -> nat, pat: Text, fname: Text) returns (r: bool)
    requires Folds(up)
    ensures r <==> Accepts(up, pat, fname)
    ensures Modest(pat) ==> (r <==> Terms(pat) <= FIND_RECURS && Match(up, pat, fname))
  {
    hide Match, Modest, Terms, Coarse;
    r := PatternMatch(up, pat, fname, 0, FIND_RECURS);
    assert fname[0..] == fname;
    if Modest(pat) {
      ModestIsMeant(up, pat, fname);
    }
  }

  /** With fewer than 256 ?s in each term the code takes a pattern for what it is. */
  lemma {:induction false} ModestIsMeant(up: nat -> nat, p: seq<nat>, n: seq<nat>)
    requires Modest(p)
    ensures Match(up, Coarse(p), n) <==> Match(up, p, n)
    decreases |p|
  {
    var l := Plain(p);
    BranchMeans(up, p, n);
    CoarseMeans(up, p, n);
    if l < |p| && l <= |n| {
      var t, b := FirstTerm(p), Beyond(p);
      SmallMod(Ones(t), 0x100);
      forall k | 0 <= k <= |n[l..]| ensures Match(up, Coarse(b), n[l..][k..]) <==> Match(up, b, n[l..][k..]) {
        ModestIsMeant(up, b, n[l..][k..]);
      }
      hide Match, Coarse;
    }
  }

  // Number of characters that a name must have.
  function Needed(p: seq<nat>): (k: nat)
    ensures k <= |p|
  {
    if p == [] then 0 else (if p[0] == ANY_RUN then 0 else 1) + Needed(p[1..])
  }

  lemma {:induction false} NeededJoined(a: seq<nat>, b: seq<nat>)
    ensures Needed(a + b) == Needed(a) + Needed(b)
  {
    if a == [] {
      assert a + b == b;
    } else {
      assert (a + b)[1..] == a[1..] + b;
      NeededJoined(a[1..], b);
    }
  }

  lemma {:induction false} MatchLength(up: nat -> nat, p: seq<nat>, n: seq<nat>)
    requires Match(up, p, n)
    ensures |n| >= Needed(p)
    decreases |p|, |n|
  {
    if p != [] {
      if p[0] != ANY_RUN {
        MatchLength(up, p[1..], n[1..]);
      } else if Match(up, p[1..], n) {
        MatchLength(up, p[1..], n);
      } else {
        MatchLength(up, p, n[1..]);
      }
    }
  }

  const LETTER: nat := 0x61

  // A shortest name with the meaning of the pattern.
  function Sample(p: Text): (n: Text)
    ensures |n| == Needed(p)
  {
    if p == [] then [] else
      (if p[0] == ANY_RUN then [] else if p[0] == ANY_ONE then [LETTER] else [p[0]]) + Sample(p[1..])
  }

  lemma {:induction false} SampleMatches(up: nat -> nat, p: Text)
    ensures Match(up, p, Sample(p))
  {
    if p != [] {
      SampleMatches(up, p[1..]);
      if p[0] == ANY_RUN {
        assert Sample(p) == Sample(p[1..]);
      } else {
        assert Sample(p)[1..] == Sample(p[1..]);
      }
    }
  }

  lemma {:induction false} CoarseText(p: Text)
    ensures forall i :: 0 <= i < |Coarse(p)| ==> Coarse(p)[i] != 0
    decreases |p|
  {
    if Plain(p) < |p| {
      CoarseText(Beyond(p));
      hide Coarse;
    }
  }

  lemma {:induction false} NeededTerm(t: seq<nat>)
    requires forall i :: 0 <= i < |t| ==> IsWild(t[i])
    ensures Needed(t) == Ones(t)
  {
    if t != [] {
      NeededTerm(t[1..]);
    }
  }

  // Dropping ?s makes shorter names match.
  lemma {:induction false} CoarseNeeds(p: seq<nat>)
    ensures Needed(Coarse(p)) <= Needed(p)
    ensures !Modest(p) ==> Needed(Coarse(p)) < Needed(p)
    decreases |p|
  {
    var l := Plain(p);
    if l < |p| {
      CoarseNeeds(Beyond(p));
      NeededParts(p);
      hide Needed, Coarse, FirstTerm, Beyond, Ones, Plain;
    }
  }

  lemma NeededParts(p: seq<nat>)
    requires Plain(p) < |p|
    ensures var l := Needed(p[..Plain(p)]);
            && Needed(p) == l + (Ones(FirstTerm(p)) + Needed(Beyond(p)))
            && Needed(Coarse(p)) == l + (Few(FirstTerm(p)) + Needed(Coarse(Beyond(p))))
  {
    hide Coarse, Plain, Term, Wild, Few, Open, FirstTerm, Beyond, Needed, Ones, IsWild;
    PatternParts(p);
    var l, t, b := Plain(p), FirstTerm(p), Beyond(p);
    var w, c := Wild(Few(t), Open(t)), Coarse(b);
    WildIs(Few(t), Open(t));
    NeededJoined(p[..l], t + b);
    NeededJoined(t, b);
    NeededJoined(p[..l], w + c);
    NeededJoined(w, c);
    NeededTerm(w);
    NeededTerm(t);
  }

  lemma PatternParts(p: seq<nat>)
    requires Plain(p) < |p|
    ensures var t := FirstTerm(p); p == p[..Plain(p)] + (t + Beyond(p)) && forall i :: 0 <= i < |t| ==> IsWild(t[i])
    ensures Coarse(p) == p[..Plain(p)] + (Wild(Few(FirstTerm(p)), Open(FirstTerm(p))) + Coarse(Beyond(p)))
  {
    hide Plain, Term, Few, Open, Wild;
  }

  /** The test is right for every name if and only if the pattern has at most four wildcard terms and fewer
      than 256 ?s in each. */
  lemma RightExactly(up: nat -> nat, pat: Text)
    ensures (forall n: Text :: Accepts(up, pat, n) <==> Match(up, pat, n)) <==> Modest(pat) && Terms(pat) <= FIND_RECURS
  {
    hide Match, Modest, Terms, Coarse, Needed, Sample;
    if Modest(pat) {
      forall n: Text ensures Match(up, Coarse(pat), n) <==> Match(up, pat, n) {
        ModestIsMeant(up, pat, n);
      }
    }
    if Terms(pat) > FIND_RECURS {
      SampleMatches(up, pat);
      assert !Accepts(up, pat, Sample(pat)) && Match(up, pat, Sample(pat));
    } else if !Modest(pat) {
      CoarseText(pat);
      CoarseNeeds(pat);
      SampleMatches(up, Coarse(pat));
      var n := Sample(Coarse(pat));
      if Match(up, pat, n) {
        MatchLength(up, pat, n);
      }
      assert Accepts(up, pat, n) && !Match(up, pat, n);
    }
  }

  function ManyOnes(): (p: Text)
    ensures |p| == 256
  {
    seq(256, _ => ANY_ONE)
  }

  /** 256 ?s: the name "a" is accepted, though it is too short. */
  lemma ManyOnesAccepted(up: nat -> nat)
    ensures Accepts(up, ManyOnes(), [LETTER]) && !Match(up, ManyOnes(), [LETTER])
  {
    var p: Text := ManyOnes();
    OnesOf(256);
    NeededTerm(p);
    if Match(up, p, [LETTER]) {
      MatchLength(up, p, [LETTER]);
    }
    OneTerm(p);
    RunMatches(up);
  }

  lemma RunMatches(up: nat -> nat)
    ensures Match(up, [ANY_RUN], [LETTER])
  {
    assert [LETTER][1..] == [] && [ANY_RUN][1..] == [];
    assert Match(up, [ANY_RUN], []);
  }

  // A pattern of 256 ?s in one term.
  lemma OneTerm(p: seq<nat>)
    requires p != [] && (forall i :: 0 <= i < |p| ==> IsWild(p[i])) && Ones(p) == 256 && ANY_RUN !in p
    ensures Terms(p) == 1 && Coarse(p) == [ANY_RUN]
  {
    TermOf(p);
    assert Plain(p) == 0 && p[0..] == p && p[..|p|] == p && p[|p|..] == [];
    assert Plain([]) == 0;
    hide Plain, Term, Ones, IsWild;
    assert FirstTerm(p) == p && Beyond(p) == [];
    hide FirstTerm, Beyond;
    assert Coarse([]) == [] && Terms([]) == 0;
  }

  lemma {:induction false} TermOf(t: seq<nat>)
    requires forall i :: 0 <= i < |t| ==> IsWild(t[i])
    ensures Term(t) == |t|
  {
    if t != [] {
      TermOf(t[1..]);
    }
  }

  // k terms of a * each, with a letter between them.
  function Stars(k: nat): Text
    requires k > 0
  {
    if k == 1 then [ANY_RUN] else [ANY_RUN, LETTER] + Stars(k - 1)
  }

  lemma {:induction false} StarsTerms(k: nat)
    requires k > 0
    ensures Terms(Stars(k)) == k
  {
    hide Terms;
    if k == 1 {
      LeadingStar([]);
      assert [ANY_RUN] + [] == [ANY_RUN];
    } else {
      StarsTerms(k - 1);
      var r := Stars(k - 1);
      assert [ANY_RUN, LETTER] + r == [ANY_RUN] + ([LETTER] + r);
      LeadingStar([LETTER] + r);
      LeadingLetter(r);
    }
  }

  lemma LeadingStar(r: seq<nat>)
    requires r == [] || !IsWild(r[0])
    ensures Terms([ANY_RUN] + r) == 1 + Terms(r) && Terms([]) == 0
  {
    var p := [ANY_RUN] + r;
    assert p[0..] == p && p[1..] == r;
    assert Term(r) == 0;
    assert Plain(p) == 0 && Term(p) == 1;
    hide Plain, Term;
    assert Beyond(p) == r;
    assert Plain([]) == 0;
  }

  lemma LeadingLetter(r: seq<nat>)
    ensures Terms([LETTER] + r) == Terms(r)
  {
    var p := [LETTER] + r;
    assert p[1..] == r;
    assert Plain(p) == 1 + Plain(r);
    hide Plain, Term;
    assert p[1 + Plain(r)..] == r[Plain(r)..];
  }

  /** "*a*a*a*a*": its own letters are refused. */
  lemma FiveTermsRefused(up: nat -> nat)
    ensures Match(up, Stars(5), Sample(Stars(5))) && |Sample(Stars(5))| == 4 && !Accepts(up, Stars(5), Sample(Stars(5)))
  {
    hide Match, Terms;
    SampleMatches(up, Stars(5));
    StarsTerms(5);
    StarsNeed(5);
  }

  lemma {:induction false} StarsNeed(k: nat)
    requires k > 0
    ensures Needed(Stars(k)) == k - 1
  {
    if k > 1 {
      StarsNeed(k - 1);
      NeededJoined([ANY_RUN, LETTER], Stars(k - 1));
      assert [ANY_RUN, LETTER][1..] == [LETTER];
    }
  }
}
