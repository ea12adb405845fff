/** What comes of a message or a disconnected device in hart 4, over whole runs: the steps of the main loop
    that handle it, with timer interrupts between any two of them, and what follows. */
module RobotRuns {
  import opened OwiSequence
  import opened Robot

  // A step of a run: of the main loop, or a timer interrupt.
  lemma OneStep(cs: seq<State>, k: nat)
    requires Run(cs) && k < |cs| - 1
    ensures Inv(cs[k]) && Prompt(cs[k]) && cs[k + 1].now >= cs[k].now
    ensures MainStep(cs[k], cs[k + 1].(now := cs[k].now)) || Interrupted(cs[k], cs[k + 1])
  {
    hide Inv, MainStep, Prompt;
    StepAt(cs, k);
    RunInv(cs, k);
    if !MainStep(cs[k], cs[k + 1].(now := cs[k].now)) {
      TickIs(cs[k], cs[k + 1]);
    }
  }

  // What a timer interrupt does to the variables of the sequence.
  ghost predicate Interrupted(c: State, d: State) {
    && d.pc == c.pc
    && (c.now >= c.v.seqTime && d.v.usb ==>
          && c.v.owi.InTable() && d.v.owi == Next(c.v.owi).0
          && (if Next(c.v.owi).1 == -1 then d.v.seqTime == MAX_TIME
              else var span := d.v.owi.table[Next(c.v.owi).1].ms * 1000; c.now + span <= d.v.seqTime <= d.now + span))
    && (c.now >= c.v.seqTime && !d.v.usb ==> d.v.owi == c.v.owi && d.v.seqTime == MAX_TIME)
    && (c.now < c.v.seqTime ==> d.v.owi == c.v.owi && d.v.seqTime == c.v.seqTime)
    && (c.now < c.v.cmdTime ==> d.v.manCmd == c.v.manCmd && d.v.cmdTime == c.v.cmdTime)
  }

  lemma TickIs(c: State, d: State)
    requires Inv(c) && Prompt(c) && TickStep(c, d)
    ensures Interrupted(c, d)
  {
    hide Inv, Prompt, Known;
    var usb, event, later: nat :| c.now <= later <= d.now && Callbacks(c.v, usb, event) && d == Ticked(c, later, usb, event).(now := d.now);
    TickIsSafe(c, later, usb, event);
    hide Next, Owi.InTable;
    var a := AfterUsb(c.v, c.now, usb, event);
    assert a.owi == c.v.owi && a.seqTime == c.v.seqTime;
  }

  // Up to h the main loop lets the message through: a device is connected, no manual command is in force.
  ghost predicate Admitted(cs: seq<State>, i: nat, h: nat)
    requires h <= |cs|
  {
    forall k :: i <= k < h ==> (cs[k].pc.Received? ==> cs[k].v.usb) && (cs[k].pc.Checked? ==> cs[k].v.manCmd == CMD_STOP)
  }

  ghost predicate Handling(pc: Pc, m: Command) {
    pc == Received(m) || pc == Checked(m) || pc == Dispatch(m)
  }

  // From i on the main loop is not back between messages before h.
  ghost predicate Busy(cs: seq<State>, i: nat, h: nat)
    requires h <= |cs|
  {
    forall k :: i <= k < h ==> !cs[k].pc.Loop?
  }

  lemma {:induction false} StopPath(cs: seq<State>, i: nat, h: nat)
    requires Run(cs) && i <= h < |cs| && cs[i].pc == Received(Halt) && Admitted(cs, i, h) && Busy(cs, i, h)
    ensures Handling(cs[h].pc, Halt) || (cs[h].pc == Loop && cs[h].v.owi.stop)
    decreases h
  {
    if h > i {
      StopPath(cs, i, h - 1);
      OneStep(cs, h - 1);
      hide Inv, Prompt, Run;
    }
  }

  /** A received "stop" is a stop request: when the main loop is next between messages, it has been made,
      provided that a device is connected and no manual command in force where the main loop looks. */
  lemma StopHandled(cs: seq<State>, i: nat, h: nat)
    requires Run(cs) && i <= h < |cs| && cs[i].pc == Received(Parse("stop")) && Admitted(cs, i, h) && Busy(cs, i, h)
    requires cs[h].pc == Loop
    ensures cs[h].v.owi.stop
  {
    hide Run;
    StopPath(cs, i, h);
  }

  /** It holds until a sequence is started again. */
  lemma {:induction false} StopHolds(cs: seq<State>, h: nat, j: nat)
    requires Run(cs) && h <= j < |cs| && cs[h].v.owi.stop && forall k :: h <= k < j ==> !cs[k].pc.Start4?
    ensures cs[j].v.owi.stop
    decreases j
  {
    hide *;
    if j > h {
      StopHolds(cs, h, j - 1);
      OneStep(cs, j - 1);
      StopKept(cs[j - 1], cs[j]);
    }
  }

  lemma StopKept(c: State, d: State)
    requires MainStep(c, d.(now := c.now)) || Interrupted(c, d)
    requires c.v.owi.stop && !c.pc.Start4?
    ensures d.v.owi.stop
  {
    hide Parse, Owi.InTable;
  }

  /** While no sequence is started, none runs. */
  lemma {:induction false} IdleHolds(cs: seq<State>, h: nat, j: nat)
    requires Run(cs) && h <= j < |cs| && !cs[h].v.owi.running && forall k :: h <= k < j ==> !cs[k].pc.Start1?
    ensures !cs[j].v.owi.running
    decreases j
  {
    hide *;
    if j > h {
      IdleHolds(cs, h, j - 1);
      OneStep(cs, j - 1);
      IdleKept(cs[j - 1], cs[j]);
    }
  }

  lemma IdleKept(c: State, d: State)
    requires MainStep(c, d.(now := c.now)) || Interrupted(c, d)
    requires !c.v.owi.running && !c.pc.Start1?
    ensures !d.v.owi.running
  {
    hide Parse, Owi.InTable;
  }

  // The number of timer interrupts from h to j that find the timer of the sequence due.
  ghost function DueTicks(cs: seq<State>, h: nat, j: nat): nat
    requires h <= j < |cs|
    decreases j
  {
    if j == h then 0 else DueTicks(cs, h, j - 1) + if DueTick(cs[j - 1], cs[j]) then 1 else 0
  }

  ghost predicate DueTick(c: State, d: State) {
    !MainStep(c, d.(now := c.now)) && c.now >= c.v.seqTime
  }

  // The sequence running at h has ended by j.
  ghost predicate Ended(cs: seq<State>, h: nat, j: nat)
    requires j < |cs|
  {
    exists k :: h < k <= j && !cs[k].v.owi.running
  }

  // No store of a start is under way.
  ghost predicate Settled(pc: Pc) {
    !pc.Start2? && !pc.Start3? && !pc.Start4?
  }

  // What one step makes of a sequence that is to stop.
  lemma StoppingStep(cs: seq<State>, k: nat)
    requires Run(cs) && k < |cs| - 1
    requires cs[k].v.owi.running && cs[k].v.owi.stop && Settled(cs[k].pc) && cs[k + 1].v.usb
    ensures cs[k].v.owi.Ok()
    ensures cs[k + 1].v.owi.running ==>
              Settled(cs[k + 1].pc) && cs[k + 1].v.owi == if DueTick(cs[k], cs[k + 1]) then Next(cs[k].v.owi).0 else cs[k].v.owi
    ensures DueTick(cs[k], cs[k + 1]) ==> cs[k + 1].v.owi == Next(cs[k].v.owi).0
  {
    OneStep(cs, k);
    hide Run, Prompt, Known, Excluded, Next, Parse;
  }

  lemma {:induction false} StoppingUntil(cs: seq<State>, h: nat, j: nat)
    requires Run(cs) && h <= j < |cs|
    requires cs[h].v.owi.running && cs[h].v.owi.stop && Settled(cs[h].pc) && forall k :: h <= k <= j ==> cs[k].v.usb
    ensures var o := cs[h].v.owi;
            && o.Ok()
            && (Ended(cs, h, j) || (DueTicks(cs, h, j) < CallsToStop(o) && Settled(cs[j].pc) && cs[j].v.owi.running
                                    && cs[j].v.owi == After(o, DueTicks(cs, h, j))))
    decreases j
  {
    hide *;
    var o := cs[h].v.owi;
    RunInv(cs, h);
    StoppingFirst(cs, h);
    if j > h {
      StoppingUntil(cs, h, j - 1);
      if Ended(cs, h, j - 1) {
        EndedLater(cs, h, j);
      } else {
        Stopping(o, DueTicks(cs, h, j - 1));
        StoppingStep(cs, j - 1);
        StoppingCount(cs, h, j);
      }
    }
  }

  lemma StoppingFirst(cs: seq<State>, h: nat)
    requires h < |cs| && Inv(cs[h]) && cs[h].v.owi.running && Settled(cs[h].pc)
    ensures var o := cs[h].v.owi; o.Ok() && 0 == DueTicks(cs, h, h) < CallsToStop(o) && After(o, 0) == o
  {
    hide Known, Excluded;
  }

  lemma StoppingCount(cs: seq<State>, h: nat, j: nat)
    requires h < j < |cs| && cs[h].v.owi.Ok() && cs[h].v.owi.running && cs[h].v.owi.stop
    requires var o, n := cs[h].v.owi, DueTicks(cs, h, j - 1); n < CallsToStop(o) && cs[j - 1].v.owi == After(o, n)
    requires cs[j].v.owi.running ==>
               Settled(cs[j].pc) && cs[j].v.owi == if DueTick(cs[j - 1], cs[j]) then Next(cs[j - 1].v.owi).0 else cs[j - 1].v.owi
    requires DueTick(cs[j - 1], cs[j]) ==> cs[j].v.owi == Next(cs[j - 1].v.owi).0
    ensures var o := cs[h].v.owi;
            Ended(cs, h, j) || (DueTicks(cs, h, j) < CallsToStop(o) && Settled(cs[j].pc) && cs[j].v.owi.running
                                && cs[j].v.owi == After(o, DueTicks(cs, h, j)))
  {
    var o, n := cs[h].v.owi, DueTicks(cs, h, j - 1);
    hide Settled, CallsToStop, After, DueTick, Next, Owi.Ok;
    AfterMore(o, n);
    StopEnds(o);
  }

  lemma EndedLater(cs: seq<State>, h: nat, j: nat)
    requires h < j < |cs| && Ended(cs, h, j - 1)
    ensures Ended(cs, h, j)
  {
  }

  /** A received "stop" stops the robot: while a device stays connected, the sequence that is running when
      the message has been handled ends at the latest with the timer interrupt number CallsToStop that
      finds its timer due. */
  lemma StopEndsRun(cs: seq<State>, i: nat, h: nat, j: nat)
    requires Run(cs) && i <= h <= j < |cs| && cs[i].pc == Received(Parse("stop")) && Admitted(cs, i, h) && Busy(cs, i, h)
    requires cs[h].pc == Loop && cs[h].v.owi.running && forall k :: h <= k <= j ==> cs[k].v.usb
    ensures cs[h].v.owi.Ok()
    ensures DueTicks(cs, h, j) >= CallsToStop(cs[h].v.owi) ==> Ended(cs, h, j)
  {
    hide Run, Parse, CallsToStop, Ended;
    StopHandled(cs, i, h);
    StoppingUntil(cs, h, j);
  }

  // While it runs, the timer of the sequence is due within five seconds.
  ghost predicate Armed(c: State) {
    c.v.owi.running && Settled(c.pc) && Gentle(c.v.owi.table) && c.v.seqTime <= c.now + 5_000_000
  }

  predicate Gentle(t: Table) {
    forall i :: 0 <= i < |t| ==> t[i].ms <= 5000
  }

  lemma ArmedKept(c: State, d: State)
    requires Inv(c) && d.now >= c.now && (MainStep(c, d.(now := c.now)) || Interrupted(c, d))
    requires Armed(c) && d.v.usb
    ensures Armed(d) || !d.v.owi.running
  {
    hide Known, Excluded, Parse;
  }

  /** As long as a device stays connected, a sequence that runs with its timer set goes on or ends: its timer
      is always set, at most five seconds ahead. */
  lemma {:induction false} ArmedUntil(cs: seq<State>, h: nat, j: nat)
    requires Run(cs) && h <= j < |cs| && Armed(cs[h]) && forall k :: h <= k <= j ==> cs[k].v.usb
    ensures Ended(cs, h, j) || Armed(cs[j])
    decreases j
  {
    hide *;
    if j > h {
      ArmedUntil(cs, h, j - 1);
      if Ended(cs, h, j - 1) {
        EndedLater(cs, h, j);
      } else {
        OneStep(cs, j - 1);
        ArmedKept(cs[j - 1], cs[j]);
        EndedNow(cs, h, j);
      }
    }
  }

  lemma EndedNow(cs: seq<State>, h: nat, j: nat)
    requires h < j < |cs|
    ensures !cs[j].v.owi.running ==> Ended(cs, h, j)
  {
  }

  lemma NotDueStep(c: State, d: State)
    requires MainStep(c, d.(now := c.now)) || Interrupted(c, d)
    requires c.now < c.v.seqTime && !c.pc.Start5?
    ensures d.v.seqTime == c.v.seqTime
  {
    hide Parse, MAIN, FOLD, UNFOLD;
  }

  lemma AdvanceSets(c: State, d: State)
    requires MainStep(c, d.(now := c.now)) || Interrupted(c, d)
    requires DueTick(c, d) && d.v.usb && d.v.owi.running
    ensures d.v.owi.stepIdx < |d.v.owi.table| && c.now + d.v.owi.table[d.v.owi.stepIdx].ms * 1000 <= d.v.seqTime
  {
    hide MainStep;
  }

  /** A step of a sequence lasts: from the interrupt that advances to it, its timer is not due before as many
      milliseconds have passed as its table says, unless a sequence is started meanwhile. */
  lemma {:induction false} StepLasts(cs: seq<State>, k: nat, j: nat)
    requires Run(cs) && k < j < |cs| && DueTick(cs[k], cs[k + 1]) && cs[k + 1].v.usb && cs[k + 1].v.owi.running
    requires forall n :: k < n < j ==> !cs[n].pc.Start5?
    ensures var o := cs[k + 1].v.owi;
            && o.stepIdx < |o.table|
            && (cs[j].now < cs[k].now + o.table[o.stepIdx].ms * 1000 ==> cs[j].now < cs[j].v.seqTime == cs[k + 1].v.seqTime)
    decreases j
  {
    hide *;
    OneStep(cs, k);
    AdvanceSets(cs[k], cs[k + 1]);
    if j > k + 1 {
      StepLasts(cs, k, j - 1);
      OneStep(cs, j - 1);
      var o := cs[k + 1].v.owi;
      if cs[j].now < cs[k].now + o.table[o.stepIdx].ms * 1000 {
        NotDueStep(cs[j - 1], cs[j]);
      }
    }
  }

  /** Where the main loop is while it handles a message that starts the sequence t, and what it has stored. */
  ghost predicate Starting(c: State, t: Table) {
    var o := c.v.owi;
    || Handling(c.pc, Begin(t)) || c.pc == Start0(t) || c.pc == Start1(t)
    || (o.running && o.table == t && o.stepIdx == 0
        && (c.pc == Start2(t) || (o.size == |t| && (c.pc == Start3(t) || c.pc.Start4? || (c.pc.Start5? && !o.stop)))))
    || (c.pc.Test? && o == Owi(true, t, 0, |t|, false) && c.v.seqTime == 0)
  }

  // The interrupt runs the sequence task while its variables are being stored.
  ghost predicate Disturbed(c: State, d: State) {
    (c.pc.Start2? || c.pc.Start3? || c.pc.Start4? || c.pc.Start5?) && d.pc == c.pc && c.now >= c.v.seqTime && d.v.usb
  }

  lemma StartingStep(c: State, d: State, t: Table)
    requires Inv(c) && (MainStep(c, d.(now := c.now)) || Interrupted(c, d)) && Starting(c, t) && !Disturbed(c, d)
    requires (c.pc.Received? ==> c.v.usb) && (c.pc.Checked? ==> c.v.manCmd == CMD_STOP) && (c.pc.Dispatch? ==> !c.v.owi.running)
    requires !c.pc.Test?
    ensures Starting(d, t)
  {
    hide Known, Excluded, Parse, MAIN, FOLD, UNFOLD, Owi.Ok, Next, Owi.InTable;
  }

  // The main loop finds no sequence running.
  ghost predicate FoundIdle(cs: seq<State>, i: nat, h: nat)
    requires h <= |cs|
  {
    forall k :: i <= k < h ==> cs[k].pc.Dispatch? ==> !cs[k].v.owi.running
  }

  ghost predicate Undisturbed(cs: seq<State>, i: nat, h: nat)
    requires h < |cs|
  {
    forall k :: i <= k < h ==> !Disturbed(cs[k], cs[k + 1])
  }

  lemma {:induction false} StartPath(cs: seq<State>, i: nat, h: nat, t: Table)
    requires Run(cs) && i <= h < |cs| && cs[i].pc == Received(Begin(t)) && Admitted(cs, i, h) && FoundIdle(cs, i, h)
    requires Undisturbed(cs, i, h) && forall k :: i <= k < h ==> !cs[k].pc.Test?
    ensures Starting(cs[h], t)
    decreases h
  {
    hide *;
    if h == i {
      StartsReceived(cs[i], t);
    } else {
      Shorter(cs, i, h);
      StartPath(cs, i, h - 1, t);
      OneStep(cs, h - 1);
      StartingStep(cs[h - 1], cs[h], t);
    }
  }

  lemma StartsReceived(c: State, t: Table)
    requires c.pc == Received(Begin(t))
    ensures Starting(c, t)
  {
  }

  lemma Shorter(cs: seq<State>, i: nat, h: nat)
    requires i < h < |cs| && Admitted(cs, i, h) && FoundIdle(cs, i, h) && Undisturbed(cs, i, h)
    ensures Admitted(cs, i, h - 1) && FoundIdle(cs, i, h - 1) && Undisturbed(cs, i, h - 1)
    ensures var c := cs[h - 1];
            && (c.pc.Received? ==> c.v.usb) && (c.pc.Checked? ==> c.v.manCmd == CMD_STOP)
            && (c.pc.Dispatch? ==> !c.v.owi.running) && !Disturbed(c, cs[h])
  {
  }

  /** A received "start", "fold" or "unfold" starts the sequence of that name, with its timer due at once, if
      a device is connected, no manual command is in force and no sequence running where the main loop
      looks, and the timer of the sequence does not fall due while its variables are stored. */
  lemma StartHandled(cs: seq<State>, i: nat, h: nat, m: string, t: Table)
    requires (m == "start" && t == MAIN) || (m == "fold" && t == FOLD) || (m == "unfold" && t == UNFOLD)
    requires Run(cs) && i < h < |cs| && cs[i].pc == Received(Parse(m)) && Admitted(cs, i, h) && FoundIdle(cs, i, h)
    requires Undisturbed(cs, i, h) && (forall k :: i <= k < h ==> !cs[k].pc.Test?) && cs[h].pc == Test
    ensures cs[h].v.owi == Owi(true, t, 0, |t|, false) && cs[h].v.seqTime == 0 && Armed(cs[h])
  {
    ParsedStart(m, t);
    AllGentle();
    hide *;
    StartPath(cs, i, h, t);
    StartedAtTest(cs[h], t);
  }

  lemma AllGentle()
    ensures Gentle(MAIN) && Gentle(FOLD) && Gentle(UNFOLD)
  {
  }

  lemma ParsedStart(m: string, t: Table)
    requires (m == "start" && t == MAIN) || (m == "fold" && t == FOLD) || (m == "unfold" && t == UNFOLD)
    ensures Parse(m) == Begin(t)
  {
    hide MAIN, FOLD, UNFOLD;
  }

  lemma StartedAtTest(c: State, t: Table)
    requires Starting(c, t) && c.pc == Test && Gentle(t)
    ensures c.v.owi == Owi(true, t, 0, |t|, false) && c.v.seqTime == 0 && Armed(c)
  {
  }

  /** If it does fall due before stop is cleared, the start is lost: no sequence runs when the message has
      been handled, nor later until the next start. */
  lemma StartLost(cs: seq<State>, k: nat, h: nat)
    requires Run(cs) && k < h < |cs| && (cs[k].pc.Start2? || cs[k].pc.Start3? || cs[k].pc.Start4?)
    requires Disturbed(cs[k], cs[k + 1]) && cs[k].v.owi.stop && cs[k].v.owi.stepIdx == 0
    requires forall n :: k < n < h ==> !cs[n].pc.Start1?
    ensures !cs[h].v.owi.running
  {
    OneStep(cs, k);
    DisturbedEnds(cs[k], cs[k + 1]);
    hide *;
    IdleHolds(cs, k + 1, h);
  }

  lemma DisturbedEnds(c: State, d: State)
    requires MainStep(c, d.(now := c.now)) || Interrupted(c, d)
    requires (c.pc.Start2? || c.pc.Start3? || c.pc.Start4?) && Disturbed(c, d) && c.v.owi.stop && c.v.owi.stepIdx == 0
    ensures !d.v.owi.running
  {
    hide Parse, MAIN, FOLD, UNFOLD;
  }

  /** Where the main loop is while it handles the manual command k, received at the time since. */
  ghost predicate Moving(c: State, k: nat, since: nat) {
    && since <= c.now
    && (|| Handling(c.pc, Move(k)) || c.pc == Manual(k)
        || ((c.pc.Test? || c.pc.Write? || c.pc.ArmRead?) && c.v.manCmd == k)
        || (c.pc.ArmStore? && c.v.manCmd == k && since + MAN_CMD_TIME <= c.pc.t <= c.now + MAN_CMD_TIME)
        || (c.pc.Loop? && c.v.manCmd == k && since + MAN_CMD_TIME <= c.v.cmdTime <= c.now + MAN_CMD_TIME))
  }

  // The interrupt finds an older stop timer due.
  ghost predicate Outdated(c: State, d: State) {
    Arming(c.pc) && d.pc == c.pc && c.now >= c.v.cmdTime
  }

  lemma MovingStep(c: State, d: State, k: nat, since: nat)
    requires (MainStep(c, d.(now := c.now)) || Interrupted(c, d)) && d.now >= c.now && Moving(c, k, since) && !Outdated(c, d)
    requires (c.pc.Received? ==> c.v.usb) && (c.pc.Checked? ==> c.v.manCmd == CMD_STOP) && (c.pc.Dispatch? ==> !c.v.owi.running)
    requires !c.pc.Loop? && k != CMD_STOP
    ensures Moving(d, k, since)
  {
    hide Parse, MAIN, FOLD, UNFOLD, Owi.Ok, Next, Owi.InTable;
  }

  ghost predicate Current(cs: seq<State>, i: nat, h: nat)
    requires h < |cs|
  {
    forall k :: i <= k < h ==> !Outdated(cs[k], cs[k + 1])
  }

  lemma {:induction false} MovingPath(cs: seq<State>, i: nat, h: nat, k: nat)
    requires Run(cs) && i <= h < |cs| && cs[i].pc == Received(Move(k)) && Admitted(cs, i, h) && FoundIdle(cs, i, h)
    requires Current(cs, i, h) && Busy(cs, i, h) && k != CMD_STOP
    ensures Moving(cs[h], k, cs[i].now)
    decreases h
  {
    hide *;
    if h == i {
      MovesReceived(cs[i], k);
    } else {
      ShorterMove(cs, i, h);
      MovingPath(cs, i, h - 1, k);
      OneStep(cs, h - 1);
      MovingStep(cs[h - 1], cs[h], k, cs[i].now);
    }
  }

  lemma MovesReceived(c: State, k: nat)
    requires c.pc == Received(Move(k))
    ensures Moving(c, k, c.now)
  {
  }

  lemma ShorterMove(cs: seq<State>, i: nat, h: nat)
    requires i < h < |cs| && Admitted(cs, i, h) && FoundIdle(cs, i, h) && Current(cs, i, h) && Busy(cs, i, h)
    ensures Admitted(cs, i, h - 1) && FoundIdle(cs, i, h - 1) && Current(cs, i, h - 1) && Busy(cs, i, h - 1)
    ensures var c := cs[h - 1];
            && (c.pc.Received? ==> c.v.usb) && (c.pc.Checked? ==> c.v.manCmd == CMD_STOP)
            && (c.pc.Dispatch? ==> !c.v.owi.running) && !Outdated(c, cs[h]) && !c.pc.Loop?
  {
  }

  /** A manual command that is let through is in force when the main loop is next between messages, with its
      stop timer 200 ms after a moment in which it was handled, unless an older stop timer fell due then. */
  lemma ManualHandled(cs: seq<State>, i: nat, h: nat, k: nat)
    requires Run(cs) && i <= h < |cs| && cs[i].pc == Received(Move(k)) && Admitted(cs, i, h) && FoundIdle(cs, i, h)
    requires Current(cs, i, h) && Busy(cs, i, h) && cs[h].pc == Loop && k != CMD_STOP
    ensures cs[h].v.manCmd == k && cs[i].now + MAN_CMD_TIME <= cs[h].v.cmdTime <= cs[h].now + MAN_CMD_TIME
  {
    MovedAtLoop(cs[h], k, cs[i].now);
    hide *;
    MovingPath(cs, i, h, k);
  }

  lemma MovedAtLoop(c: State, k: nat, since: nat)
    ensures c.pc == Loop && Moving(c, k, since) ==>
              c.v.manCmd == k && since + MAN_CMD_TIME <= c.v.cmdTime <= c.now + MAN_CMD_TIME
  {
  }

  /** Where the main loop is while it handles a disconnected device, and what it has stored. */
  ghost predicate Leaving(c: State) {
    var o := c.v.owi;
    || c.pc == Event || c.pc == Halt1
    || (!o.running && o.table == []
        && (c.pc == Halt2 || (o.stepIdx == 0 && (c.pc == Halt3 || (o.size == 0 &&
            (c.pc == Halt4 || (o.stop && (c.pc == EventDone || c.pc == Loop))))))))
  }

  lemma LeavingStep(c: State, d: State)
    requires Inv(c) && (MainStep(c, d.(now := c.now)) || Interrupted(c, d)) && Leaving(c)
    requires (c.pc.Event? ==> !c.v.usb) && !c.pc.Loop?
    ensures Leaving(d)
  {
    hide Known, Excluded, Parse, MAIN, FOLD, UNFOLD;
  }

  lemma {:induction false} LeavingPath(cs: seq<State>, i: nat, h: nat)
    requires Run(cs) && i <= h < |cs| && cs[i].pc == Event && Busy(cs, i, h)
    requires forall k :: i <= k < h ==> cs[k].pc.Event? ==> !cs[k].v.usb
    ensures Leaving(cs[h])
    decreases h
  {
    hide *;
    if h == i {
      LeavesEvent(cs[i]);
    } else {
      ShorterBusy(cs, i, h);
      LeavingPath(cs, i, h - 1);
      OneStep(cs, h - 1);
      LeavingStep(cs[h - 1], cs[h]);
    }
  }

  lemma LeavesEvent(c: State)
    requires c.pc == Event
    ensures Leaving(c)
  {
  }

  lemma ShorterBusy(cs: seq<State>, i: nat, h: nat)
    requires i < h <= |cs| && Busy(cs, i, h)
    ensures Busy(cs, i, h - 1) && !cs[h - 1].pc.Loop?
  {
  }

  /** When the main loop has handled the event of a device that is not connected, the sequence is reset, and
      none runs until the next start. */
  lemma DisconnectHandled(cs: seq<State>, i: nat, h: nat, j: nat)
    requires Run(cs) && i <= h <= j < |cs| && cs[i].pc == Event && Busy(cs, i, h) && cs[h].pc == Loop
    requires forall k :: i <= k < h ==> cs[k].pc.Event? ==> !cs[k].v.usb
    requires forall k :: h <= k < j ==> !cs[k].pc.Start1?
    ensures cs[h].v.owi == Owi(false, [], 0, 0, true)
    ensures !cs[j].v.owi.running
  {
    LeftAtLoop(cs[h]);
    hide *;
    LeavingPath(cs, i, h);
    IdleHolds(cs, h, j);
  }

  lemma LeftAtLoop(c: State)
    ensures Leaving(c) && c.pc == Loop ==> c.v.owi == Owi(false, [], 0, 0, true)
  {
  }

  /** A sequence without a timer: what a device leaves that is disconnected when the timer falls due and
      connected again before the main loop looks. */
  ghost predicate Stalled(c: State, i: nat) {
    c.v.owi.running && c.v.owi.stepIdx == i && c.v.seqTime == MAX_TIME && Settled(c.pc) && !c.pc.Start5?
  }

  lemma StalledStep(c: State, d: State, i: nat)
    requires Inv(c) && Prompt(c) && (MainStep(c, d.(now := c.now)) || Interrupted(c, d)) && Stalled(c, i) && !c.pc.Halt1?
    ensures Stalled(d, i)
  {
    hide Known, Excluded, Parse, MAIN, FOLD, UNFOLD, Owi.Ok, Next, Owi.InTable;
  }

  /** Such a sequence neither advances nor ends, whatever messages are received, "stop" and "start" among
      them, until a disconnected device is handled. */
  lemma {:induction false} StalledHolds(cs: seq<State>, h: nat, j: nat, i: nat)
    requires Run(cs) && h <= j < |cs| && Stalled(cs[h], i) && forall k :: h <= k < j ==> !cs[k].pc.Halt1?
    ensures Stalled(cs[j], i)
    decreases j
  {
    hide *;
    if j > h {
      StalledHolds(cs, h, j - 1, i);
      OneStep(cs, j - 1);
      StalledStep(cs[j - 1], cs[j], i);
    }
  }

  ghost predicate Reached(c: State) {
    exists cs :: Run(cs) && cs[|cs| - 1] == c
  }

  lemma Reaches(c: State, d: State)
    requires Reached(c) && Robot.Step(c, d) && Prompt(d)
    ensures Reached(d)
  {
    var cs :| Run(cs) && cs[|cs| - 1] == c;
    hide Robot.Step, Prompt, Init;
    assert Run(cs + [d]);
  }

  lemma MainReaches(c: State, d: State)
    requires Reached(c) && MainStep(c, d) && d.now == c.now && Prompt(d)
    ensures Reached(d)
  {
    hide Reached, MainStep, Prompt;
    assert d.(now := c.now) == d;
    Reaches(c, d);
  }

  lemma TickReaches(c: State, usb: bool)
    requires Reached(c) && Prompt(c) && !Astray(AfterUsb(c.v, c.now, usb, true), c.now)
    ensures Reached(c.(v := Tick(c.v, c.now, c.now, usb, true)))
  {
    hide Reached, Tick, AfterUsb, Astray;
    var d := Ticked(c, c.now, usb, true);
    assert d == d.(now := d.now) && Callbacks(c.v, usb, true);
    assert TickStep(c, d);
    Reaches(c, d);
  }

  // The variables right after the start of a sequence.
  function Begun(t: Table): Shared {
    STARTED.(usbTime := 0, usb := true, event := true, owi := Owi(true, t, 0, |t|, false), seqTime := 0)
  }

  // A message starts a sequence.
  lemma StartReached(v: Shared)
    requires v == STARTED.(usbTime := 0, usb := true, event := true) && Reached(State(v, 0, Loop, 0, false))
    ensures Reached(State(Begun(MAIN), 0, Loop, 0, false))
  {
    hide Reached, MAIN, Parse;
    ReceivedReached(v);
    var m, o := Begin(MAIN), v.owi;
    MainReaches(State(v, 0, Received(m), 0, false), State(v, 0, Checked(m), 0, false));
    MainReaches(State(v, 0, Checked(m), 0, false), State(v, 0, Dispatch(m), 0, false));
    MainReaches(State(v, 0, Dispatch(m), 0, false), State(v, 0, Start0(MAIN), 0, false));
    MainReaches(State(v, 0, Start0(MAIN), 0, false), State(v, 0, Start1(MAIN), 0, false));
    var v1 := v.(owi := o.(running := true, table := MAIN));
    MainReaches(State(v, 0, Start1(MAIN), 0, false), State(v1, 0, Start2(MAIN), 0, false));
    StoresReached(v1);
  }

  lemma ReceivedReached(v: Shared)
    requires Reached(State(v, 0, Loop, 0, false))
    ensures Reached(State(v, 0, Received(Begin(MAIN)), 0, false))
  {
    ParsedStart("start", MAIN);
    hide Reached, MAIN, Parse;
    var c := State(v, 0, Loop, 0, false);
    var d := c.(pc := Received(Parse("start")));
    assert MainStep(c, d);
    MainReaches(c, d);
  }

  lemma StoresReached(v: Shared)
    requires v == STARTED.(usbTime := 0, usb := true, event := true, owi := Owi(true, MAIN, 0, 0, true))
    requires Reached(State(v, 0, Start2(MAIN), 0, false))
    ensures Reached(State(Begun(MAIN), 0, Loop, 0, false))
  {
    hide Reached, MAIN, Parse;
    var v2 := v.(owi := v.owi.(size := |MAIN|));
    MainReaches(State(v, 0, Start2(MAIN), 0, false), State(v2, 0, Start3(MAIN), 0, false));
    MainReaches(State(v2, 0, Start3(MAIN), 0, false), State(v2, 0, Start4, 0, false));
    var v3 := v2.(owi := v2.owi.(stop := false));
    MainReaches(State(v2, 0, Start4, 0, false), State(v3, 0, Start5, 0, false));
    var v4 := v3.(seqTime := 0);
    MainReaches(State(v3, 0, Start5, 0, false), State(v4, 0, Test, 0, false));
    MainReaches(State(v4, 0, Test, 0, false), State(v4, 0, Loop, 0, false));
  }

  /** There is such a run: a device is connected, "start" received, and the device disconnected for one timer
      interrupt. */
  lemma StallReached()
    ensures exists c :: Reached(c) && Stalled(c, 0) && c.v.usb && c.pc == Loop
  {
    var c0 := State(STARTED.(usbTime := 0), 0, Loop, 0, false);
    assert Run([c0]) && [c0][|[c0]| - 1] == c0;
    assert Reached(c0);
    hide Reached, MAIN, Parse;
    TickReaches(c0, true);
    StartReached(STARTED.(usbTime := 0, usb := true, event := true));
    var c1 := State(Begun(MAIN), 0, Loop, 0, false);
    TickReaches(c1, false);
    var c2 := c1.(v := c1.v.(usb := false, seqTime := MAX_TIME));
    assert Reached(c2);
    TickReaches(c2, true);
    assert Reached(c2.(v := c2.v.(usb := true)));
  }
}
