/** The console's line editor and the byte buffer that the UART interrupt handler fills. */
module LineEditor {

  const CAPACITY: nat := 32   // BUFFER_SIZE, and the characters a line holds
  const SLOTS: nat := 8
  const NUL := '\0'
  const ESC := '\U{1b}'
  const BACKSPACE := '\U{08}'
  const DEL := '\U{7f}'

  /** strlen of the C string at the start of s. */
  function Len(s: seq<char>): (n: nat)
    ensures n <= |s| && NUL !in s[..n] && (n < |s| ==> s[n] == NUL)
  {
    if s == [] || s[0] == NUL then 0 else
      assert forall k :: 1 <= k < 1 + Len(s[1..]) ==> s[k] == s[1..][k - 1];
      1 + Len(s[1..])
  }

  function Text(s: seq<char>): string {
    s[..Len(s)]
  }

  lemma LenIs(s: seq<char>, n: nat)
    requires n < |s| && s[n] == NUL && forall k :: 0 <= k < n ==> s[k] != NUL
    ensures Len(s) == n && Text(s) == s[..n]
  {
    if n < Len(s) {
      CharIsNotNul(s, n);
    }
  }

  lemma CharIsNotNul(s: seq<char>, k: nat)
    requires k < Len(s)
    ensures s[k] != NUL
  {
    assert s[k] == s[..Len(s)][k];
  }

  /** The editor as its user sees it: what is left and right of the cursor, how far an escape sequence
      has come, the lines entered before, latest first, and which of them is being shown. */
  datatype Ed = Ed(left: string, right: string, esc: nat, hist: seq<string>, h: int)

  const START := Ed("", "", 0, [], -1)

  function TrimRight(t: string): (r: string)
    ensures |r| <= |t| && r == t[..|r|] && (r != "" ==> r[|r| - 1] != ' ')
  {
    if t != "" && t[|t| - 1] == ' ' then TrimRight(t[..|t| - 1]) else t
  }

  function TrimLeft(t: string): (r: string)
    ensures |r| <= |t| && r == t[|t| - |r|..] && (r != "" ==> r[0] != ' ')
  {
    if t != "" && t[0] == ' ' then TrimLeft(t[1..]) else t
  }

  function Trim(t: string): string {
    TrimLeft(TrimRight(t))
  }

  // The line enters the history unless it is empty or the same as the last.
  function Remember(hist: seq<string>, line: string): seq<string> {
    if line == "" || (hist != [] && hist[0] == line) then hist
    else if |hist| < SLOTS then [line] + hist
    else [line] + hist[..SLOTS - 1]
  }

  predicate Printable(c: char) {
    ' ' <= c <= '~'
  }

  function Show(e: Ed, h: int): Ed
    requires 0 <= h < |e.hist|
  {
    e.(left := e.hist[h], right := "", h := h, esc := 0)
  }

  /** What one key does, and whether it ends the line. */
  function Key(e: Ed, c: char): (Ed, bool)
    requires -1 <= e.h < |e.hist|
  {
    if c == ESC then (e.(esc := 1), false)
    else if e.esc == 1 && c == '[' then (e.(esc := 2), false)
    else if e.esc == 2 && c == '3' then (e.(esc := 3), false)
    else if e.esc == 3 && c == '~' then
      (e.(right := if e.right == "" then "" else e.right[1..], esc := 0), false)
    else if e.esc == 2 && c == 'C' then
      (if e.right == "" then e.(esc := 0) else e.(left := e.left + [e.right[0]], right := e.right[1..], esc := 0), false)
    else if e.esc == 2 && c == 'D' then
      (if e.left == "" then e.(esc := 0)
       else e.(left := e.left[..|e.left| - 1], right := [e.left[|e.left| - 1]] + e.right, esc := 0), false)
    else if e.esc == 2 && c == 'A' then
      (if e.h + 1 < |e.hist| then Show(e, e.h + 1) else e.(esc := 0), false)
    else if e.esc == 2 && c == 'B' then
      (if e.h > 0 then Show(e, e.h - 1) else e.(esc := 0), false)
    else if (c == BACKSPACE || c == DEL) && e.left != "" && e.esc == 0 then
      (e.(left := e.left[..|e.left| - 1]), false)
    else if Printable(c) && |e.left| < CAPACITY && e.esc == 0 then
      var room := CAPACITY - |e.left| - 1;
      (e.(left := e.left + [c], right := if |e.right| <= room then e.right else e.right[..room]), false)
    else if c == '\r' then
      var line := Trim(e.left + e.right);
      (Ed("", line, 0, Remember(e.hist, line), -1), true)
    else (e.(esc := 0), false)
  }

  /** The line fits, and the history holds at most eight lines that fit, none of them empty or the same
      as its neighbour. */
  ghost predicate WellFormed(e: Ed) {
    && |e.left| + |e.right| <= CAPACITY && Clean(e.left) && Clean(e.right)
    && e.esc <= 3
    && -1 <= e.h < |e.hist| <= SLOTS
    && (forall i :: 0 <= i < |e.hist| ==> 0 < |e.hist[i]| <= CAPACITY && Clean(e.hist[i]))
    && Varied(e.hist)
  }

  // A C string: no terminator inside.
  ghost predicate Clean(t: string) {
    forall k :: 0 <= k < |t| ==> t[k] != NUL
  }

  ghost predicate Varied(hist: seq<string>) {
    forall i, j :: 0 <= i < |hist| - 1 && j == i + 1 ==> hist[i] != hist[j]
  }

  lemma RememberKeeps(e: Ed, line: string)
    requires WellFormed(e) && |line| <= CAPACITY && Clean(line)
    ensures WellFormed(Ed("", line, 0, Remember(e.hist, line), -1))
  {
    var r := Remember(e.hist, line);
    if r != e.hist {
      assert forall i :: 1 <= i < |r| ==> r[i] == e.hist[i - 1];
    }
  }

  lemma TrimKeeps(t: string)
    ensures |Trim(t)| <= |t| && (Clean(t) ==> Clean(Trim(t)))
  {
    hide TrimRight, TrimLeft;
    var r := TrimRight(t);
    var l := TrimLeft(r);
    assert forall k :: 0 <= k < |l| ==> l[k] == r[|r| - |l| + k] == t[|r| - |l| + k];
  }

  /** Every key keeps the editor well formed. */
  lemma KeyKeeps(e: Ed, c: char)
    requires WellFormed(e)
    ensures WellFormed(Key(e, c).0)
  {
    hide Trim, Remember, Varied;
    if c == '\r' {
      TrimKeeps(e.left + e.right);
      RememberKeeps(e, Trim(e.left + e.right));
    }
  }

  /** Taking back: a character typed where there is room is undone by a backspace, and a cursor move by
      the opposite one. */
  lemma Undone(e: Ed, c: char)
    requires WellFormed(e) && e.esc == 0
    ensures Printable(c) && |e.left| + |e.right| < CAPACITY ==> Key(Key(e, c).0, BACKSPACE).0 == e
    ensures Key(e, DEL) == Key(e, BACKSPACE)
    ensures e.left != "" ==> Arrow(Arrow(e, 'D'), 'C') == e
    ensures e.right != "" ==> Arrow(Arrow(e, 'C'), 'D') == e
    ensures e.left != "" ==> DeleteKey(Arrow(e, 'D')) == Key(e, BACKSPACE).0
  {
    hide *;
    EdAt(e);
    if Printable(c) && |e.left| + |e.right| < CAPACITY {
      TypingUndone(e, c);
    }
    EraseKeys(e);
    if e.left != "" {
      LeftUndone(e);
    }
    if e.right != "" {
      RightUndone(e);
    }
  }

  lemma EdAt(e: Ed)
    requires WellFormed(e)
    ensures -1 <= e.h < |e.hist|
  {
  }

  lemma TypingUndone(e: Ed, c: char)
    requires -1 <= e.h < |e.hist| && e.esc == 0 && Printable(c) && |e.left| + |e.right| < CAPACITY
    ensures Key(Key(e, c).0, BACKSPACE).0 == e
  {
    hide Trim, Remember;
    assert Key(e, c).0 == e.(left := e.left + [c]);
    assert (e.left + [c])[..|e.left|] == e.left;
  }

  lemma EraseKeys(e: Ed)
    requires -1 <= e.h < |e.hist| && e.esc == 0
    ensures Key(e, DEL) == Key(e, BACKSPACE)
    ensures e.left != "" ==> Key(e, BACKSPACE).0 == e.(left := e.left[..|e.left| - 1])
  {
    hide Trim, Remember;
  }

  lemma LeftUndone(e: Ed)
    requires -1 <= e.h < |e.hist| && e.esc == 0 && e.left != ""
    ensures Arrow(Arrow(e, 'D'), 'C') == e && DeleteKey(Arrow(e, 'D')) == Key(e, BACKSPACE).0
  {
    EraseKeys(e);
    var l, c := e.left[..|e.left| - 1], e.left[|e.left| - 1];
    assert l + [c] == e.left && ([c] + e.right)[1..] == e.right;
    CursorKeys(e);
    CursorKeys(e.(left := l, right := [c] + e.right));
    hide *;
  }

  lemma RightUndone(e: Ed)
    requires -1 <= e.h < |e.hist| && e.esc == 0 && e.right != ""
    ensures Arrow(Arrow(e, 'C'), 'D') == e
  {
    var l := e.left + [e.right[0]];
    assert [e.right[0]] + e.right[1..] == e.right && l[..|l| - 1] == e.left;
    CursorKeys(e);
    CursorKeys(e.(left := l, right := e.right[1..]));
    hide *;
  }

  // What the cursor keys and the delete key do.
  lemma CursorKeys(e: Ed)
    requires -1 <= e.h < |e.hist| && e.esc == 0
    ensures e.left != "" ==> Arrow(e, 'D') == e.(left := e.left[..|e.left| - 1], right := [e.left[|e.left| - 1]] + e.right)
    ensures e.right != "" ==> Arrow(e, 'C') == e.(left := e.left + [e.right[0]], right := e.right[1..])
    ensures e.right != "" ==> DeleteKey(e) == e.(right := e.right[1..])
  {
    hide Trim, Remember, Show;
  }

  // An arrow key: ESC [ and a letter.
  function Arrow(e: Ed, letter: char): (r: Ed)
    requires -1 <= e.h < |e.hist| && letter in "ABCD"
    ensures -1 <= r.h < |r.hist|
  {
    Key(Key(Key(e, ESC).0, '[').0, letter).0
  }

  // The delete key: ESC [ 3 ~
  function DeleteKey(e: Ed): Ed
    requires -1 <= e.h < |e.hist|
  {
    Key(Key(Key(Key(e, ESC).0, '[').0, '3').0, '~').0
  }

  /** What has become of a stream of bytes: the editor, and the lines handed over to the command handler,
      which leaves the line empty. */
  datatype Session = Session(ed: Ed, lines: seq<string>)

  function Consume(s: Session, c: char): Session
    requires -1 <= s.ed.h < |s.ed.hist|
  {
    var (e, eol) := Key(s.ed, c);
    if eol then Session(e.(right := ""), s.lines + [e.right]) else Session(e, s.lines)
  }

  ghost function Run(bytes: string): (s: Session)
    ensures WellFormed(s.ed)
  {
    if bytes == "" then Session(START, []) else
      var s := Run(bytes[..|bytes| - 1]);
      var c := bytes[|bytes| - 1];
      ConsumeKeeps(s, c);
      Consume(s, c)
  }

  lemma ConsumeKeeps(s: Session, c: char)
    requires WellFormed(s.ed)
    ensures WellFormed(Consume(s, c).ed)
  {
    KeyKeeps(s.ed, c);
    hide Key;
  }

  lemma RunMore(bytes: string, c: char)
    ensures Run(bytes + [c]) == Consume(Run(bytes), c)
  {
    assert (bytes + [c])[..|bytes|] == bytes;
  }

  lemma KeyTypes(e: Ed, c: char)
    requires -1 <= e.h < |e.hist| && e.esc == 0 && e.right == "" && |e.left| < CAPACITY && Printable(c)
    ensures Key(e, c) == (e.(left := e.left + [c]), false)
  {
  }

  lemma {:induction false} RunTyped(bytes: string, s: string)
    requires var e := Run(bytes).ed; e.left == e.right == "" && e.esc == 0
    requires |s| <= CAPACITY && forall k :: 0 <= k < |s| ==> Printable(s[k])
    ensures Run(bytes + s) == Run(bytes).(ed := Run(bytes).ed.(left := s))
  {
    hide Run, Key, Varied;
    if s == "" {
      assert bytes + s == bytes;
    } else {
      var t := s[..|s| - 1];
      RunTyped(bytes, t);
      RunMore(bytes + t, s[|s| - 1]);
      assert bytes + t + [s[|s| - 1]] == bytes + s && t + [s[|s| - 1]] == s;
      KeyTypes(Run(bytes + t).ed, s[|s| - 1]);
    }
  }

  lemma TrimStep(t: string)
    requires t != "" && t[0] == ' '
    ensures TrimLeft(t) == TrimLeft(t[1..])
  {
  }

  lemma NoneBefore(t: string)
    requires t != ""
    ensures t[..0] + t[0 + 1..] == t[1..]
  {
  }

  lemma TrimNone(t: string)
    requires t == "" || t[0] != ' '
    ensures TrimLeft(t) == t
  {
  }

  predicate Blanks(s: string) {
    forall k :: 0 <= k < |s| ==> s[k] == ' '
  }

  // Spaces at both ends are trimmed, and nothing else.
  lemma {:induction false} Trimmed(a: string, s: string, b: string)
    requires Blanks(a) && Blanks(b) && (s != "" ==> s[0] != ' ' && s[|s| - 1] != ' ')
    ensures Trim(a + s + b) == s
    decreases |a| + |b|
  {
    RightTrimmed(a + s, b);
    if s == "" {
      assert a + s == "" + a;
      RightTrimmed("", a);
    } else {
      assert TrimRight(a + s) == a + s;
      LeftTrimmed(a, s);
    }
  }

  lemma {:induction false} RightTrimmed(t: string, b: string)
    requires Blanks(b)
    ensures TrimRight(t + b) == TrimRight(t)
  {
    if b == "" {
      assert t + b == t;
    } else {
      RightTrimmed(t, b[..|b| - 1]);
      assert (t + b)[..|t + b| - 1] == t + b[..|b| - 1];
    }
  }

  lemma {:induction false} LeftTrimmed(a: string, t: string)
    requires Blanks(a)
    ensures TrimLeft(a + t) == TrimLeft(t)
  {
    if a == "" {
      assert a + t == t;
    } else {
      LeftTrimmed(a[1..], t);
      assert (a + t)[1..] == a[1..] + t;
    }
  }

  /** A line typed after any history is handed over without the spaces at its ends; the up arrow then
      brings it back. */
  lemma TypedAndRecalled(bytes: string, a: string, s: string, b: string)
    requires var e := Run(bytes).ed; e.left == e.right == "" && e.esc == 0
    requires |a + s + b| <= CAPACITY && (forall k :: 0 <= k < |s| ==> Printable(s[k]))
    requires Blanks(a) && Blanks(b) && (s != "" ==> s[0] != ' ' && s[|s| - 1] != ' ')
    ensures Run(bytes + (a + s + b) + "\r").lines == Run(bytes).lines + [s]
    ensures s != "" ==> Arrow(Run(bytes + (a + s + b) + "\r").ed, 'A').left == s
  {
    hide Run, Trim, WellFormed;
    var t := a + s + b;
    RunTyped(bytes, t);
    RunMore(bytes + t, '\r');
    assert t + "" == t;
    Trimmed(a, s, b);
  }

  /** The lines worth remembering: not empty and not the same as the one before. */
  function Kept(lines: seq<string>): seq<string> {
    if lines == [] then [] else
      var kept, line := Kept(lines[..|lines| - 1]), lines[|lines| - 1];
      if line == "" || (kept != [] && kept[|kept| - 1] == line) then kept else kept + [line]
  }

  // hist has the last of the lines, the latest first.
  ghost predicate Latest(hist: seq<string>, kept: seq<string>) {
    && |hist| == (if |kept| < SLOTS then |kept| else SLOTS)
    && forall i :: 0 <= i < |hist| ==> hist[i] == kept[|kept| - 1 - i]
  }

  lemma KeyHistory(e: Ed, c: char)
    requires WellFormed(e)
    ensures var (n, eol) := Key(e, c); n.hist == if eol then Remember(e.hist, n.right) else e.hist
  {
    hide Trim, Remember, WellFormed;
    assert -1 <= e.h < |e.hist| by { EdAt(e); }
  }

  lemma LatestMore(hist: seq<string>, lines: seq<string>, line: string)
    requires Latest(hist, Kept(lines))
    ensures Latest(Remember(hist, line), Kept(lines + [line]))
  {
    KeptMore(lines, line);
    hide *;
    LatestPlus(hist, Kept(lines), line);
  }

  lemma LatestPlus(hist: seq<string>, kept: seq<string>, line: string)
    requires Latest(hist, kept)
    ensures Latest(Remember(hist, line), if line == "" || (kept != [] && kept[|kept| - 1] == line) then kept else kept + [line])
  {
    if kept != [] {
      assert hist[0] == kept[|kept| - 1];
    }
  }

  lemma KeptMore(lines: seq<string>, line: string)
    ensures var kept := Kept(lines);
            Kept(lines + [line]) == if line == "" || (kept != [] && kept[|kept| - 1] == line) then kept else kept + [line]
  {
    assert (lines + [line])[..|lines|] == lines;
  }

  /** Whatever has been typed, the history is the last eight of the lines worth remembering. */
  lemma {:induction false} HistoryIs(bytes: string)
    ensures Latest(Run(bytes).ed.hist, Kept(Run(bytes).lines))
  {
    if bytes != "" {
      var n := |bytes| - 1;
      HistoryIs(bytes[..n]);
      assert bytes[..n] + [bytes[n]] == bytes;
      hide Key, Remember, Kept, Latest, WellFormed, Run;
      RunMore(bytes[..n], bytes[n]);
      var s := Run(bytes[..n]);
      KeyHistory(s.ed, bytes[n]);
      LatestMore(s.ed.hist, s.lines, Key(s.ed, bytes[n]).0.right);
    }
  }

  /** An arrow key pressed k times. */
  function Presses(letter: char, k: nat): string {
    if k == 0 then "" else Presses(letter, k - 1) + [ESC, '[', letter]
  }

  lemma RunArrow(bytes: string, letter: char)
    requires letter in "ABCD"
    ensures Run(bytes + [ESC, '[', letter]) == Run(bytes).(ed := Arrow(Run(bytes).ed, letter))
  {
    hide Run, WellFormed, Trim, Remember, Show;
    RunMore(bytes, ESC);
    RunMore(bytes + [ESC], '[');
    RunMore(bytes + [ESC] + ['['], letter);
    assert bytes + [ESC] + ['['] + [letter] == bytes + [ESC, '[', letter];
  }

  lemma ArrowShows(e: Ed)
    requires WellFormed(e)
    ensures e.h + 1 < |e.hist| ==> Arrow(e, 'A') == e.(left := e.hist[e.h + 1], right := "", h := e.h + 1, esc := 0)
    ensures e.h + 1 == |e.hist| ==> Arrow(e, 'A') == e.(esc := 0)
    ensures e.h > 0 ==> Arrow(e, 'B') == e.(left := e.hist[e.h - 1], right := "", h := e.h - 1, esc := 0)
    ensures e.h <= 0 ==> Arrow(e, 'B') == e.(esc := 0)
  {
    EdAt(e);
    hide WellFormed, Trim, Remember;
  }

  function Fewer(a: nat, b: nat): nat {
    if a < b then a else b
  }

  // The editor when the n-th latest line is shown.
  function Recalled(e: Ed, n: nat): Ed
    requires 0 < n <= |e.hist|
  {
    Ed(e.hist[n - 1], "", 0, e.hist, n - 1)
  }

  lemma RecalledArrows(e: Ed, n: nat)
    requires WellFormed(e) && 0 < n <= |e.hist|
    ensures WellFormed(Recalled(e, n))
    ensures Arrow(Recalled(e, n), 'A') == Recalled(e, if n < |e.hist| then n + 1 else n)
    ensures n > 1 ==> Arrow(Recalled(e, n), 'B') == Recalled(e, n - 1)
  {
    ArrowShows(Recalled(e, n));
    hide Arrow;
  }

  lemma FirstArrow(e: Ed)
    requires WellFormed(e) && e.h == -1 && e.hist != []
    ensures Arrow(e, 'A') == Recalled(e, 1)
  {
    ArrowShows(e);
    hide Arrow, WellFormed;
  }

  lemma PressMore(bytes: string, letter: char, k: nat)
    requires k > 0
    ensures bytes + Presses(letter, k) == bytes + Presses(letter, k - 1) + [ESC, '[', letter]
    ensures bytes + Presses(letter, 0) == bytes
  {
  }

  lemma {:induction false} Recalling(bytes: string, k: nat)
    requires Run(bytes).ed.h == -1 && Run(bytes).ed.hist != [] && k > 0
    ensures WellFormed(Run(bytes).ed)
    ensures Run(bytes + Presses('A', k)) == Run(bytes).(ed := Recalled(Run(bytes).ed, Fewer(k, |Run(bytes).ed.hist|)))
  {
    hide Run, Arrow, WellFormed, Recalled, Presses;
    var e := Run(bytes).ed;
    PressMore(bytes, 'A', k);
    RunArrow(bytes + Presses('A', k - 1), 'A');
    if k == 1 {
      FirstArrow(e);
    } else {
      Recalling(bytes, k - 1);
      RecalledArrows(e, Fewer(k - 1, |e.hist|));
    }
  }

  /** When no older line is shown, the up arrow pressed k times shows the k-th latest of the lines worth
      remembering, or the oldest of eight. */
  lemma OlderLines(bytes: string, k: nat)
    requires Run(bytes).ed.h == -1 && Kept(Run(bytes).lines) != [] && k > 0
    ensures var kept, e := Kept(Run(bytes).lines), Run(bytes + Presses('A', k)).ed;
            e.left == kept[|kept| - Fewer(k, Fewer(|kept|, SLOTS))] && e.right == "" && e.esc == 0
  {
    hide Run, Kept, Arrow, WellFormed, Presses;
    HistoryIs(bytes);
    Recalling(bytes, k);
  }

  /** The down arrow takes back the up arrow, down to the latest line. */
  lemma {:induction false} NewerLines(bytes: string, k: nat, m: nat)
    requires Run(bytes).ed.h == -1 && m < k <= Fewer(|Kept(Run(bytes).lines)|, SLOTS)
    ensures Run(bytes + Presses('A', k) + Presses('B', m)) == Run(bytes + Presses('A', k - m))
  {
    var up, e := bytes + Presses('A', k), Run(bytes).ed;
    HistoryIs(bytes);
    assert k <= |e.hist| by { hide Run, Kept, Presses; }
    hide Run, Kept, Arrow, WellFormed, Latest, Presses, Recalled;
    if m == 0 {
      PressMore(up, 'B', 1);
    } else {
      NewerLines(bytes, k, m - 1);
      Recalling(bytes, k - m + 1);
      Recalling(bytes, k - m);
      PressMore(up, 'B', m);
      RunArrow(up + Presses('B', m - 1), 'B');
      RecalledArrows(e, k - m + 1);
    }
  }

  // The last character gives way to the terminator.
  lemma CutEnd(was: seq<char>, now: seq<char>, n: nat)
    requires 0 < n == Len(was) && now == was[n - 1 := NUL]
    ensures Len(now) == n - 1 && Text(now) == Text(was)[..n - 1]
  {
    hide Len;
    forall k: nat | k < n - 1 ensures now[k] != NUL {
      CharIsNotNul(was, k);
    }
    LenIs(now, n - 1);
    assert now[..n - 1] == was[..n][..n - 1];
  }

  // The text after the characters from p on have moved up by one, the last giving way if need be.
  lemma Opened(was: seq<char>, now: seq<char>, p: nat, c: char)
    requires |was| == |now| == CAPACITY + 1 && was[CAPACITY] == now[CAPACITY] == NUL && c != NUL
    requires p <= Len(was) <= CAPACITY && p < CAPACITY && now[p] == c
    requires (forall k :: 0 <= k < p ==> now[k] == was[k]) && forall k :: p < k < CAPACITY ==> now[k] == was[k - 1]
    ensures Text(now) == Text(was)[..p] + [c] + Text(was)[p..if |Text(was)| < CAPACITY then |Text(was)| else CAPACITY - 1]
  {
    hide Len;
    var l := Len(was);
    var n := if l < CAPACITY then l + 1 else CAPACITY;
    forall k: nat | k < n ensures now[k] != NUL {
      if k < p {
        CharIsNotNul(was, k);
      } else if k > p {
        CharIsNotNul(was, k - 1);
      }
    }
    LenIs(now, n);
    var want := was[..l][..p] + [c] + was[..l][p..if l < CAPACITY then l else CAPACITY - 1];
    assert |want| == n && forall k :: 0 <= k < n ==> want[k] == now[k];
  }

  /** The editor of readline: an array for the line, with the cursor p, and one for the history. */
  class Editor {
    const inputline: array<char>
    const history: array<string>
    var p: nat
    var esc: nat
    var h: int

    ghost predicate Sized()
      reads inputline
    {
      && inputline.Length == CAPACITY + 1 && history.Length == SLOTS
      && inputline[CAPACITY] == NUL
    }

    ghost predicate Valid()
      reads this, inputline, history
    {
      && Sized() && p <= Len(inputline[..]) && SlotsOk(history[..])
      && esc <= 3 && -1 <= h < |Filled(history[..])|
    }

    function Line(): string
      reads inputline
    {
      Text(inputline[..])
    }

    ghost function Abs(): (e: Ed)
      requires Valid()
      reads this, inputline, history
    {
      Ed(Line()[..p], Line()[p..], esc, Filled(history[..]), h)
    }

    constructor ()
      ensures Valid() && fresh(inputline) && fresh(history) && Abs() == START
    {
      inputline := new char[CAPACITY + 1](_ => NUL);
      history := new string[SLOTS](_ => "");
      p, esc, h := 0, 0, -1;
      new;
      LenIs(inputline[..], 0);
    }

    // Move what follows the character at from one place to the left, up to the terminator, which is searched anew each round.
    method CloseGap(from: nat)
      requires Sized() && from <= |Line()|
      modifies inputline
      ensures Sized()
      ensures Line() == if from < |old(Line())| then old(Line())[..from] + old(Line())[from + 1..] else old(Line())
    {
      ghost var was := inputline[..];
      ghost var l := Len(was);
      var i := from;
      assert inputline[..][..l] == was[..l];
      while i < Len(inputline[..])
        invariant from <= i <= l == Len(was) <= CAPACITY && inputline.Length == |was| == CAPACITY + 1
        invariant forall k :: 0 <= k <= CAPACITY && !(from <= k < i) ==> inputline[k] == was[k]
        invariant forall k :: from <= k < i ==> inputline[k] == was[k + 1]
        invariant Len(inputline[..]) == if i < l || from == l then l else l - 1
      {
        inputline[i] := inputline[i + 1];
        i := i + 1;
        ghost var n := if i < l then l else l - 1;
        forall k: nat | k < n ensures inputline[k] != NUL {
          CharIsNotNul(was, k);
          if k < l - 1 {
            CharIsNotNul(was, k + 1);
          }
        }
        LenIs(inputline[..], n);
      }
    }

    // Move what starts at the cursor one place to the right, from the end of the array on, and put c there.
    method OpenGap(c: char)
      requires Sized() && p <= Len(inputline[..]) == |Line()| <= CAPACITY && p < CAPACITY && c != NUL
      modifies inputline
      ensures Sized()
      ensures Line() == old(Line())[..p] + [c] + old(Line())[p..if |old(Line())| < CAPACITY then |old(Line())| else CAPACITY - 1]
    {
      ghost var was := inputline[..];
      ghost var l := Len(was);
      var i := CAPACITY - 1;
      while i > p
        invariant p <= i < CAPACITY && inputline.Length == |was| == CAPACITY + 1
        invariant forall k :: 0 <= k <= CAPACITY && !(i < k < CAPACITY) ==> inputline[k] == was[k]
        invariant forall k :: i < k < CAPACITY ==> inputline[k] == was[k - 1]
      {
        inputline[i] := inputline[i - 1];
        i := i - 1;
      }
      inputline[p] := c;
      Opened(was, inputline[..], p, c);
    }

    // strcpy(inputline, s)
    method Copy(s: string)
      requires Sized() && |s| <= CAPACITY && Clean(s)
      modifies inputline
      ensures Sized() && Line() == s
    {
      forall k | 0 <= k < |s| {
        inputline[k] := s[k];
      }
      inputline[|s|] := NUL;
      LenIs(inputline[..], |s|);
      assert inputline[..][..|s|] == s;
    }

    // The trimming loop at the end; the guard on the empty line stands for the byte before the array not being a space.
    method TrimEnd()
      requires Sized()
      modifies inputline
      ensures Sized() && Line() == TrimRight(old(Line()))
    {
      ghost var t := Line();
      while Len(inputline[..]) > 0 && inputline[Len(inputline[..]) - 1] == ' '
        invariant Sized() && TrimRight(Line()) == TrimRight(t)
        decreases |Line()|
      {
        ghost var was := inputline[..];
        var n := Len(inputline[..]);
        inputline[n - 1] := NUL;
        CutEnd(was, inputline[..], n);
      }
    }

    // One round of the trimming loop at the start.
    method DropSpace()
      requires Sized() && inputline[0] == ' '
      modifies inputline
      ensures Sized() && TrimLeft(Line()) == TrimLeft(old(Line())) && |Line()| < |old(Line())|
    {
      LineStarts();
      LineFirst();
      ghost var was := Line();
      CloseGap(0);
      hide *;
      TrimStep(was);
      NoneBefore(was);
    }

    // Both trimming loops.
    method TrimLine()
      requires Sized()
      modifies inputline
      ensures Sized() && Line() == Trim(old(Line()))
    {
      ghost var t := Line();
      TrimEnd();
      hide Len, TrimRight, TrimLeft, Text;
      while inputline[0] == ' '
        invariant Sized() && TrimLeft(Line()) == TrimLeft(TrimRight(t))
        decreases |Line()|
      {
        DropSpace();
      }
      LineFirst();
      TrimNone(Line());
    }

    lemma LineFirst()
      requires Sized()
      ensures Line() != "" ==> Line()[0] == inputline[0]
    {
    }

    // The history, all slots down by one, with the line in the first.
    method Save(line: string)
      requires Sized() && SlotsOk(history[..]) && 0 < |line| <= CAPACITY && Clean(line) && history[0] != line
      modifies history
      ensures SlotsOk(history[..]) && Filled(history[..]) == Remember(old(Filled(history[..])), line)
    {
      ghost var was := history[..];
      var i := SLOTS - 1;
      while i > 0
        invariant 0 <= i < SLOTS == history.Length
        invariant forall k :: 0 <= k <= i ==> history[k] == was[k]
        invariant forall k :: i < k < SLOTS ==> history[k] == was[k - 1]
      {
        history[i] := history[i - 1];
        i := i - 1;
      }
      history[0] := line;
      assert history[..] == [line] + was[..SLOTS - 1];
      SavedIsRemembered(was, line);
    }

    method DeleteRight()
      requires Valid()
      modifies this`esc, inputline
      ensures Valid()
      ensures var e := old(Abs()); Abs() == e.(right := if e.right == "" then "" else e.right[1..], esc := 0)
    {
      hide Filled, SlotsOk, Len;
      AbsWellFormed();
      ghost var was := Line();
      CloseGap(p);
      LineFits();
      esc := 0;
      assert Line()[..p] == was[..p] && Line()[p..] == if p < |was| then was[p + 1..] else "";
    }

    method MoveRight()
      requires Valid()
      modifies this`esc, this`p
      ensures Valid()
      ensures var e := old(Abs());
              Abs() == if e.right == "" then e.(esc := 0) else e.(left := e.left + [e.right[0]], right := e.right[1..], esc := 0)
    {
      hide Filled, SlotsOk, Len;
      AbsWellFormed();
      esc := 0;
      if p < Len(inputline[..]) {
        p := p + 1;
      }
    }

    method MoveLeft()
      requires Valid()
      modifies this`esc, this`p
      ensures Valid()
      ensures var e := old(Abs());
              Abs() == if e.left == "" then e.(esc := 0)
                       else e.(left := e.left[..|e.left| - 1], right := [e.left[|e.left| - 1]] + e.right, esc := 0)
    {
      hide Filled, SlotsOk, Len;
      AbsWellFormed();
      esc := 0;
      if p > 0 {
        p := p - 1;
      }
    }

    method ShowOlder()
      requires Valid()
      modifies this`esc, this`p, this`h, inputline
      ensures Valid()
      ensures var e := old(Abs()); Abs() == if e.h + 1 < |e.hist| then Show(e, e.h + 1) else e.(esc := 0)
    {
      hide Filled, SlotsOk, Len;
      AbsWellFormed();
      FilledAt(history[..]);
      esc := 0;
      if h < SLOTS - 1 && |history[h + 1]| > 0 {
        h := h + 1;
        Copy(history[h]);
        LineFits();
        p := Len(inputline[..]);
      }
    }

    method ShowNewer()
      requires Valid()
      modifies this`esc, this`p, this`h, inputline
      ensures Valid()
      ensures var e := old(Abs()); Abs() == if e.h > 0 then Show(e, e.h - 1) else e.(esc := 0)
    {
      hide Filled, SlotsOk, Len;
      AbsWellFormed();
      FilledAt(history[..]);
      esc := 0;
      if h > 0 && |history[h - 1]| > 0 {
        h := h - 1;
        Copy(history[h]);
        LineFits();
        p := Len(inputline[..]);
      }
    }

    method EraseLeft()
      requires Valid() && p > 0
      modifies this`p, inputline
      ensures Valid()
      ensures var e := old(Abs()); e.left != "" && Abs() == e.(left := e.left[..|e.left| - 1])
    {
      hide Filled, SlotsOk, Len;
      AbsWellFormed();
      ghost var was := Line();
      p := p - 1;
      CloseGap(p);
      LineFits();
      assert Line()[..p] == was[..p + 1][..p] && Line()[p..] == was[p + 1..];
    }

    method Insert(c: char)
      requires Valid() && p < CAPACITY && c != NUL
      modifies this`p, inputline
      ensures Valid()
      ensures var e := old(Abs());
              var room := CAPACITY - |e.left| - 1;
              room >= 0 && Abs() == e.(left := e.left + [c], right := if |e.right| <= room then e.right else e.right[..room])
    {
      hide Filled, SlotsOk, Len;
      AbsWellFormed();
      LineFits();
      ghost var was := Line();
      OpenGap(c);
      LineFits();
      p := p + 1;
      assert Line()[..p] == was[..p - 1] + [c];
      assert Line()[p..] == was[p - 1..if |was| < CAPACITY then |was| else CAPACITY - 1];
    }

    method EndLine() returns (eol: bool)
      requires Valid()
      modifies this`p, this`esc, this`h, inputline, history
      ensures Valid() && eol
      ensures var line := Trim(old(Line()));
              Abs() == Ed("", line, 0, Remember(old(Filled(history[..])), line), -1)
    {
      hide Filled, SlotsOk, Len, Text, Trim, Remember;
      p := 0;
      esc := 0;
      eol := true;
      TrimLine();
      FilledAt(history[..]);
      var line := Line();
      RememberSame(Filled(history[..]), line);
      if |line| > 0 && line != history[0] {
        LineFits();
        Save(line);
      }
      h := -1;
    }

    /** One step of readline: the array editor does what the two-sided one does. */
    method ReadKey(c: char) returns (eol: bool)
      requires Valid()
      modifies this`p, this`esc, this`h, inputline, history
      ensures Valid() && (Abs(), eol) == Key(old(Abs()), c)
    {
      hide Filled, SlotsOk, Len, Text, Trim, Remember;
      AbsParts();
      eol := false;
      if c == ESC {
        esc := 1;
      } else if esc == 1 && c == '[' {
        esc := 2;
      } else if esc == 2 && c == '3' {
        esc := 3;
      } else if esc == 3 && c == '~' {
        DeleteRight();
      } else if esc == 2 && c == 'C' {
        MoveRight();
      } else if esc == 2 && c == 'D' {
        MoveLeft();
      } else if esc == 2 && c == 'A' {
        ShowOlder();
      } else if esc == 2 && c == 'B' {
        ShowNewer();
      } else if (c == BACKSPACE || c == DEL) && p > 0 && esc == 0 {
        EraseLeft();
      } else if Printable(c) && p < CAPACITY && esc == 0 {
        Insert(c);
      } else if c == '\r' {
        eol := EndLine();
      } else {
        esc := 0;
      }
    }

    lemma AbsShown()
      requires Valid()
      ensures -1 <= Abs().h < |Abs().hist|
    {
    }

    lemma Whole()
      requires Valid() && Abs().left == ""
      ensures p == 0 && Line() == Abs().right
    {
      hide Filled, SlotsOk, Len;
      AbsWellFormed();
    }

    // What the command handler leaves: the words cut out of the line, then an empty line.
    method Clear()
      requires Valid() && p == 0
      modifies inputline
      ensures Valid() && Abs() == old(Abs()).(right := "")
    {
      hide Filled, SlotsOk, Len;
      var i := 0;
      while i < CAPACITY
        invariant 0 <= i <= CAPACITY && Sized()
      {
        var cut: bool := *;
        if cut {
          inputline[i] := NUL;
        }
        i := i + 1;
      }
      inputline[0] := NUL;
      LenIs(inputline[..], 0);
    }

    lemma AbsParts()
      requires Valid()
      ensures var e := Abs(); |e.left| == p && e.esc == esc && e.h == h && e.left + e.right == Line()
    {
    }

    lemma LineStarts()
      requires Sized() && inputline[0] == ' '
      ensures |Line()| > 0
    {
      assert inputline[..][0] == ' ';
    }

    lemma LineFits()
      requires Sized()
      ensures |Line()| == Len(inputline[..]) <= CAPACITY && Clean(Line())
    {
      assert inputline[..][CAPACITY] == NUL;
    }

    lemma AbsWellFormed()
      requires Valid()
      ensures WellFormed(Abs()) && |Line()| == Len(inputline[..])
    {
      LineFits();
      FilledAt(history[..]);
      FilledVaried(history[..]);
      assert Line()[..p] + Line()[p..] == Line();
    }
  }

  /** The slots in use: those before the first empty one. */
  function Filled(hs: seq<string>): (r: seq<string>)
  {
    if hs == [] || hs[0] == "" then [] else [hs[0]] + Filled(hs[1..])
  }

  /** Each slot holds a line that fits; the ones in use come first, and no two neighbours in use are equal. */
  ghost predicate SlotsOk(hs: seq<string>) {
    && (forall i :: 0 <= i < |hs| ==> |hs[i]| <= CAPACITY && Clean(hs[i]))
    && (forall i, j :: 0 <= i < |hs| - 1 && j == i + 1 && hs[j] != "" ==> hs[i] != "" && hs[i] != hs[j])
  }

  lemma {:induction false} FilledIs(hs: seq<string>)
    ensures |Filled(hs)| <= |hs| && Filled(hs) == hs[..|Filled(hs)|]
    ensures forall i :: 0 <= i < |Filled(hs)| ==> hs[i] != ""
    ensures |Filled(hs)| < |hs| ==> hs[|Filled(hs)|] == ""
  {
    if hs != [] && hs[0] != "" {
      FilledIs(hs[1..]);
      assert forall i :: 1 <= i < |hs| ==> hs[i] == hs[1..][i - 1];
    }
  }

  lemma FilledAt(hs: seq<string>)
    requires SlotsOk(hs)
    ensures |Filled(hs)| <= |hs|
    ensures forall i :: 0 <= i < |hs| ==> |hs[i]| <= CAPACITY && Clean(hs[i]) && (hs[i] != "" <==> i < |Filled(hs)|)
    ensures forall i :: 0 <= i < |Filled(hs)| ==> Filled(hs)[i] == hs[i]
  {
    FilledIs(hs);
    forall i | |Filled(hs)| <= i < |hs| ensures hs[i] == "" {
      EmptyAfter(hs, |Filled(hs)|, i);
    }
  }

  lemma {:induction false} EmptyAfter(hs: seq<string>, i: nat, j: nat)
    requires SlotsOk(hs) && i <= j < |hs| && hs[i] == ""
    ensures hs[j] == ""
    decreases j
  {
    if i < j {
      EmptyAfter(hs, i, j - 1);
    }
  }

  lemma FilledVaried(hs: seq<string>)
    requires SlotsOk(hs)
    ensures Varied(Filled(hs))
  {
    FilledIs(hs);
  }

  lemma SavedIsRemembered(was: seq<string>, line: string)
    requires |was| == SLOTS && SlotsOk(was) && 0 < |line| <= CAPACITY && Clean(line) && was[0] != line
    ensures var now := [line] + was[..SLOTS - 1];
            SlotsOk(now) && Filled(now) == Remember(Filled(was), line)
  {
    var now := [line] + was[..SLOTS - 1];
    assert forall i :: 1 <= i < SLOTS ==> now[i] == was[i - 1];
    FilledAt(was);
    FilledIs(now);
    var n, f := |Filled(was)|, |Filled(now)|;
    if f < SLOTS {
      assert was[f - 1] == now[f] == "";
      if n < SLOTS - 1 {
        assert now[n + 1] == was[n] == "";
      }
    }
    var r := Remember(Filled(was), line);
    assert |r| == f;
    forall i | 0 <= i < f ensures Filled(now)[i] == r[i] {
    }
  }

  // An empty line, or one like the last, is not entered.
  lemma RememberSame(hist: seq<string>, line: string)
    ensures line == "" || (hist != [] && hist[0] == line) ==> Remember(hist, line) == hist
  {
  }

  /** The console: the byte buffer, which the UART interrupt may extend between any two steps of readline,
      and the editor. What has been accepted from the UART and consumed by the editor is recorded. */
  class Console {
    const data: array<char>
    const ed: Editor
    var r: nat
    var w: nat
    var coming: seq<string>   // what the UART is still going to deliver, one read a time
    ghost var accepted: string
    ghost var consumed: string
    ghost var lines: seq<string>

    /** No byte is lost, repeated or reordered between the interrupt handler and the editor. */
    ghost predicate FifoOk()
      reads this, data
    {
      && data.Length == CAPACITY && r <= w <= CAPACITY && (r == w ==> w == 0)
      && accepted == consumed + data[r..w]
      && forall i :: 0 <= i < |coming| ==> |coming[i]| <= 8
    }

    /** The editor and the lines handed over are what the bytes consumed make of them. */
    ghost predicate EdOk()
      reads this, ed, ed.inputline, ed.history
    {
      ed.Valid() && Run(consumed) == Session(ed.Abs(), lines)
    }

    ghost predicate Apart() {
      ed.inputline != data
    }

    ghost predicate Valid()
      reads this, data, ed, ed.inputline, ed.history
    {
      FifoOk() && EdOk() && Apart()
    }

    constructor (coming: seq<string>)
      requires forall i :: 0 <= i < |coming| ==> |coming[i]| <= 8
      ensures Valid() && accepted == consumed == "" && lines == [] && this.coming == coming
    {
      this.coming := coming;
      data := new char[CAPACITY];
      ed := new Editor();
      r, w, accepted, consumed, lines := 0, 0, "", "", [];
    }

    lemma Appended(before: string, was: string, now: string, from: nat, to: nat, t: string)
      requires from <= to <= to + |t| <= |was| == |now| && now[..to] == was[..to] && now[to..to + |t|] == t
      ensures before + now[from..to + |t|] == before + was[from..to] + t
    {
      assert now[from..to] == now[..to][from..];
      assert now[from..to + |t|] == now[from..to] + now[to..to + |t|];
    }

    lemma ConsumeOne(before: string, e: Ed, ls: seq<string>, c: char)
      requires Run(before) == Session(e, ls) && -1 <= e.h < |e.hist|
      ensures var (n, eol) := Key(e, c);
              && Run(before + [c]) == (if eol then Session(n.(right := ""), ls + [n.right]) else Session(n, ls))
              && (eol ==> n.left == "")
    {
      RunMore(before, c);
    }

    // uart_isr: up to eight bytes at a time; what does not fit is dropped
    method UartIsr()
      requires FifoOk() && coming != []
      modifies this`w, this`accepted, this`coming, data
      ensures FifoOk() && w >= old(w) && coming == old(coming[1..])
      ensures var temp := old(coming[0]);
              var count := if |temp| <= CAPACITY - old(w) then |temp| else CAPACITY - old(w);
              w == old(w) + count && accepted == old(accepted) + temp[..count]
    {
      var temp := coming[0];
      coming := coming[1..];
      if |temp| > 0 {
        var count := if |temp| <= CAPACITY - w then |temp| else CAPACITY - w;
        ghost var was := data[..];
        forall k | 0 <= k < count {
          data[w + k] := temp[k];
        }
        w := w + count;
        accepted := accepted + temp[..count];
        Appended(consumed, was, data[..], r, w - count, temp[..count]);
      }
    }

    // Any number of interrupts.
    method Interrupts()
      requires FifoOk()
      modifies this`w, this`accepted, this`coming, data
      ensures FifoOk() && w >= old(w) && old(accepted) <= accepted
      ensures |coming| < |old(coming)| || (coming == old(coming) && w == old(w))
    {
      var n: nat := *;
      while n > 0 && coming != []
        invariant FifoOk() && w >= old(w) && old(accepted) <= accepted
        invariant |coming| < |old(coming)| || (coming == old(coming) && w == old(w))
      {
        UartIsr();
        n := n - 1;
      }
    }

    // Take the oldest byte out of the ring, with interrupts off.
    method Take() returns (c: char)
      requires FifoOk() && r < w
      modifies this`r, this`w, this`consumed
      ensures FifoOk() && consumed == old(consumed) + [c] && accepted == old(accepted)
      ensures accepted[|old(consumed)|] == c
    {
      c := data[r];
      assert data[r..w] == [c] + data[r + 1..w];
      assert consumed + ([c] + data[r + 1..w]) == consumed + [c] + data[r + 1..w];
      consumed := consumed + [c];
      r := r + 1;
      if r >= w {
        r, w := 0, 0;
      }
    }

    // readline
    method ReadLine() returns (eol: bool)
      requires Valid()
      modifies this`r, this`w, this`consumed, this`accepted, this`coming, data, ed`p, ed`esc, ed`h, ed.inputline, ed.history
      ensures FifoOk() && Apart() && old(accepted) <= accepted && old(consumed) <= consumed
      ensures !eol ==> EdOk()
      ensures eol ==> LineDone()
    {
      hide Editor.Valid, Editor.Abs, Editor.Line, Run, Key, Console.FifoOk;
      eol := false;
      while !eol && w > r
        invariant FifoOk() && Apart() && old(accepted) <= accepted && old(consumed) <= consumed
        invariant !eol ==> EdOk()
        invariant eol ==> LineDone()
        decreases |coming|, w - r, !eol
      {
        eol := ReadNext();
      }
    }

    // One turn of the loop.
    method ReadNext() returns (eol: bool)
      requires Valid() && w > r
      modifies this`r, this`w, this`consumed, this`accepted, this`coming, data, ed`p, ed`esc, ed`h, ed.inputline, ed.history
      ensures FifoOk() && Apart() && old(accepted) <= accepted && old(consumed) <= consumed
      ensures |coming| < |old(coming)| || (coming == old(coming) && w - r < old(w - r))
      ensures if eol then LineDone() else EdOk()
    {
      hide Editor.Valid, Editor.Abs, Editor.Line, Run, Key, WellFormed;
      ghost var before, e := consumed, ed.Abs();
      assert Run(before) == Session(e, lines);
      ed.AbsShown();
      Interrupts();
      var c := Take();
      hide Console.FifoOk;
      Interrupts();
      assert ed.Valid() && ed.Abs() == e;
      eol := ed.ReadKey(c);
      ConsumeOne(before, e, lines, c);
      if eol {
        ed.Whole();
      }
    }

    /** The line entered is in the editor, to be handed over. */
    ghost predicate LineDone()
      reads this, ed, ed.inputline, ed.history
    {
      && ed.Valid() && ed.p == 0
      && Run(consumed) == Session(ed.Abs().(right := ""), lines + [ed.Line()])
    }

    // One round of the main loop: a complete line goes to the command handler, which cuts it into words, and is emptied.
    method Poll()
      requires Valid()
      modifies this`r, this`w, this`consumed, this`accepted, this`coming, this`lines, data, ed`p, ed`esc, ed`h, ed.inputline, ed.history
      ensures Valid() && old(accepted) <= accepted && old(consumed) <= consumed && old(lines) <= lines
    {
      var eol := ReadLine();
      if eol {
        lines := lines + [ed.Line()];
        Interrupts();
        ed.Clear();
      }
    }
  }
}
