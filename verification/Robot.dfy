/** The controller of hart 4: the main loop, one store or load of a shared variable at a time, and
    the timer interrupt that may come between any two of them. */
module Robot {
  import opened OwiSequence

  const MAX_TIME := 0xFFFF_FFFF_FFFF_FFFF
  const MAN_CMD_TIME := 200_000
  const ACK_TIME := 300_000
  const CMD_STOP := 0

  /** What a message asks for. */
  datatype Command = Ping | Halt | Begin(table: Table) | Move(cmd: nat) | Unknown

  function Parse(m: string): Command {
    if m == "ping" then Ping
    else if m == "stop" then Halt
    else if m == "start" then Begin(MAIN)
    else if m == "fold" then Begin(FOLD)
    else if m == "unfold" then Begin(UNFOLD)
    else if m == "q" then Move(GRIP_CLOSE)
    else if m == "a" then Move(GRIP_OPEN)
    else if m == "w" then Move(WRIST_UP)
    else if m == "s" then Move(WRIST_DWN)
    else if m == "e" then Move(ELBOW_UP)
    else if m == "d" then Move(ELBOW_DWN)
    else if m == "r" then Move(SHOULDER_UP)
    else if m == "f" then Move(SHOULDER_DWN)
    else if m == "t" then Move(BASE_CLOCKWISE)
    else if m == "g" then Move(BASE_COUNTERCLK)
    else if m == "y" then Move(LIGHT_ON)
    else Unknown
  }

  /** The variables that the main loop and the interrupt handler share. */
  datatype Shared = Shared(manCmd: nat, usb: bool, event: bool, owi: Owi, usbTime: nat, seqTime: nat, cmdTime: nat)

  const STARTED := Shared(CMD_STOP, false, false, Owi(false, [], 0, 0, true), MAX_TIME, MAX_TIME, MAX_TIME)

  // robot_seq_task
  function SeqTask(v: Shared, now: nat): Shared
    requires v.usb ==> v.owi.InTable()
  {
    if !v.usb then v.(seqTime := MAX_TIME) else
      var (o, r) := Next(v.owi);
      v.(owi := o, seqTime := if r == -1 then MAX_TIME else now + o.table[r].ms * 1000)
  }

  // robot_cmd_task
  function CmdTask(v: Shared): Shared {
    v.(manCmd := CMD_STOP, cmdTime := MAX_TIME)
  }

  // What the USB callbacks, which run within the host task, can make of their two variables.
  predicate Callbacks(v: Shared, usb: bool, event: bool) {
    (usb == v.usb && event == v.event) || event
  }

  // usb_host_task
  function UsbTask(v: Shared, usb: bool, event: bool): Shared {
    v.(usb := usb, event := event, usbTime := 0)
  }

  function AfterUsb(v: Shared, time: nat, usb: bool, event: bool): Shared {
    if time >= v.usbTime then UsbTask(v, usb, event) else v
  }

  // The sequence is advanced, and the step is not in its table.
  predicate Astray(v: Shared, time: nat) {
    time >= v.seqTime && v.usb && !v.owi.InTable()
  }

  // timer_handler(time): the three tasks in order; the sequence task reads the clock again.
  function Tick(v: Shared, time: nat, later: nat, usb: bool, event: bool): Shared
    requires !Astray(AfterUsb(v, time, usb, event), time)
  {
    var a := AfterUsb(v, time, usb, event);
    var b := if time >= a.seqTime then SeqTask(a, later) else a;
    if time >= b.cmdTime then CmdTask(b) else b
  }

  /** The timer table and the tasks, as hart 4 runs them. */
  class Hart {
    const timecmp: array<nat>
    const owi: OwiState
    var manCmd: nat
    var usbState: bool
    var usbEvent: bool

    ghost predicate Valid()
      reads this, timecmp
    {
      timecmp.Length == 3
    }

    function Vars(): Shared
      requires timecmp.Length == 3
      reads this, timecmp, owi
    {
      Shared(manCmd, usbState, usbEvent, owi.State(), timecmp[0], timecmp[1], timecmp[2])
    }

    constructor ()
      ensures Valid() && fresh(timecmp) && fresh(owi) && Vars() == STARTED
    {
      timecmp := new nat[3](_ => MAX_TIME);
      owi := new OwiState();
      manCmd, usbState, usbEvent := CMD_STOP, false, false;
    }

    // robot_seq_task; readmtime() returns now
    method RobotSeqTask(now: nat) returns (t: nat)
      requires Valid() && (usbState ==> owi.State().InTable())
      modifies owi
      ensures Vars().(seqTime := t) == SeqTask(old(Vars()), now)
    {
      t := MAX_TIME;
      if usbState {
        var r := owi.NextStep();
        if r != -1 {
          var cmd := owi.GetCmd();   // usb_write(cmd)
          t := now + owi.sequence[owi.stepIdx].ms * 1000;
        }
      }
    }

    // robot_cmd_task
    method RobotCmdTask() returns (t: nat)
      requires Valid()
      modifies this`manCmd
      ensures Vars().(cmdTime := t) == CmdTask(old(Vars()))
    {
      manCmd := CMD_STOP;
      t := MAX_TIME;
    }

    // usb_host_task; the callbacks leave usb and event
    method UsbHostTask(usb: bool, event: bool) returns (t: nat)
      requires Valid()
      modifies this`usbState, this`usbEvent
      ensures Vars().(usbTime := t) == UsbTask(old(Vars()), usb, event)
    {
      usbState, usbEvent := usb, event;
      t := 0;
    }

    // timer_handler with timer_set
    method TimerHandler(time: nat, later: nat, usb: bool, event: bool)
      requires Valid() && !Astray(AfterUsb(Vars(), time, usb, event), time)
      modifies this`manCmd, this`usbState, this`usbEvent, timecmp, owi
      ensures Valid()
      ensures Vars() == Tick(old(Vars()), time, later, usb, event)
    {
      var i := 0;
      ghost var v := Vars();
      ghost var a := AfterUsb(v, time, usb, event);
      while i < 3
        invariant 0 <= i <= 3
        invariant i == 0 ==> Vars() == v
        invariant i == 1 ==> Vars() == a
        invariant i == 2 ==> Vars() == if time >= a.seqTime then SeqTask(a, later) else a
        invariant i == 3 ==> Vars() == Tick(v, time, later, usb, event)
      {
        if time >= timecmp[i] {
          var t;
          if i == 0 {
            t := UsbHostTask(usb, event);
          } else if i == 1 {
            t := RobotSeqTask(later);
          } else {
            t := RobotCmdTask();
          }
          timecmp[i] := t;
        }
        i := i + 1;
      }
    }
  }

  /** Where the main loop is: about to do what the name says. */
  datatype Pc =
    | Loop                     // look for an event, for a message, or wait
    | Event                    // read usb_state after an event
    | AckRead | AckStore(t: nat)
    | Halt1 | Halt2 | Halt3 | Halt4   // the stores of owi_sequence_stop
    | EventDone                // clear usb_event
    | Received(m: Command)     // read usb_state
    | Checked(m: Command)      // read man_cmd
    | Dispatch(m: Command)     // ask owi_sequence_is_running, or request a stop
    | Start0(table: Table) | Start1(table: Table) | Start2(table: Table) | Start3(table: Table) | Start4
    | Start5                   // timer_set(ROBOT_SEQ_TASK, 0)
    | Manual(cmd: nat)         // store man_cmd
    | Test                     // compare man_cmd
    | Write                    // usb_write(man_cmd)
    | ArmRead | ArmStore(t: nat)

  /** now is the clock; since is when the sequence pointer was last stored; fault says that the
      interrupt handler has gone outside a table. */
  datatype State = State(v: Shared, now: nat, pc: Pc, since: nat, fault: bool)

  ghost predicate Init(c: State) {
    c.v == STARTED.(usbTime := 0) && c.pc == Loop && !c.fault
  }

  // One step of the main loop and of msg_handler.
  ghost predicate MainStep(c: State, d: State) {
    var v, o := c.v, c.v.owi;
    match c.pc
    case Loop => d == c || (v.event && d == c.(pc := Event)) || exists m :: d == c.(pc := Received(Parse(m)))
    case Event => d == c.(pc := if v.usb then AckRead else Halt1)
    case AckRead => d == c.(pc := AckStore(c.now + ACK_TIME))
    case AckStore(t) => d == c.(v := v.(cmdTime := t), pc := EventDone)
    case Halt1 => d == c.(v := v.(owi := o.(running := false, table := [])), pc := Halt2)
    case Halt2 => d == c.(v := v.(owi := o.(stepIdx := 0)), pc := Halt3)
    case Halt3 => d == c.(v := v.(owi := o.(size := 0)), pc := Halt4)
    case Halt4 => d == c.(v := v.(owi := o.(stop := true)), pc := EventDone)
    case EventDone => d == c.(v := v.(event := false), pc := Loop)
    case Received(m) => d == c.(pc := if m != Ping && v.usb then Checked(m) else Loop)
    case Checked(m) => d == c.(pc := if v.manCmd == CMD_STOP then Dispatch(m) else Loop)
    case Dispatch(m) =>
      if m == Halt then d == c.(v := v.(owi := o.(stop := true)), pc := Loop)
      else if o.running then d == c.(pc := Loop)
      else d == c.(pc := match m case Begin(t) => Start0(t) case Move(k) => Manual(k) case _ => Test)
    case Start0(t) => d == c.(pc := if o.running then Start5 else Start1(t))
    case Start1(t) => d == c.(v := v.(owi := o.(running := true, table := t)), since := c.now, pc := Start2(t))
    case Start2(t) => d == c.(v := v.(owi := o.(size := |t|)), pc := Start3(t))
    case Start3(t) => d == c.(v := v.(owi := o.(stepIdx := 0)), pc := Start4)
    case Start4 => d == c.(v := v.(owi := o.(stop := false)), pc := Start5)
    case Start5 => d == c.(v := v.(seqTime := 0), pc := Test)
    case Manual(k) => d == c.(v := v.(manCmd := k), pc := Test)
    case Test => d == c.(pc := if v.manCmd != CMD_STOP then Write else Loop)
    case Write => d == c.(pc := ArmRead)
    case ArmRead => d == c.(pc := ArmStore(c.now + MAN_CMD_TIME))
    case ArmStore(t) => d == c.(v := v.(cmdTime := t), pc := Loop)
  }

  // The timer interrupt; the sequence task reads the clock at the time later.
  function Ticked(c: State, later: nat, usb: bool, event: bool): State {
    if Astray(AfterUsb(c.v, c.now, usb, event), c.now) then c.(fault := true)
    else c.(v := Tick(c.v, c.now, later, usb, event))
  }

  ghost predicate TickStep(c: State, d: State) {
    exists usb, event, later: nat ::
      c.now <= later <= d.now && Callbacks(c.v, usb, event) && d == Ticked(c, later, usb, event).(now := d.now)
  }

  /** A step of either program, during which time may pass. */
  ghost predicate Step(c: State, d: State) {
    && d.now >= c.now
    && (MainStep(c, d.(now := c.now)) || TickStep(c, d))
  }

  /** The clock is far from wrapping round, and from the store of the sequence pointer to that of its
      size, two instructions later, less than a tenth of a second passes. */
  ghost predicate Prompt(c: State) {
    c.now + 10_000_000 < MAX_TIME && (c.pc.Start2? ==> c.now < c.since + 100_000)
  }

  ghost predicate Run(cs: seq<State>) {
    && cs != [] && Init(cs[0])
    && (forall i :: 0 <= i < |cs| ==> Prompt(cs[i]))
    && (forall i :: 0 < i < |cs| ==> Step(cs[i - 1], cs[i]))
  }

  predicate Known(t: Table) {
    |t| >= 2 && t[1].ms >= 100 && forall i :: 0 <= i < |t| ==> t[i].ms <= 5000
  }

  lemma ParsedIsKnown(m: string)
    ensures Parse(m).Begin? ==> Known(Parse(m).table)
    ensures Parse(m).Move? ==> Parse(m).cmd != CMD_STOP
  {
  }

  predicate KnownCommand(m: Command) {
    m.Begin? ==> Known(m.table)
  }

  // The main loop has found no manual command in force and no sequence running, and relies on it.
  predicate Claimed(pc: Pc) {
    pc.Start0? || pc.Start1? || pc.Manual?
  }

  // The stop timer of a manual command is about to be set.
  predicate Arming(pc: Pc) {
    pc.Test? || pc.Write? || pc.ArmRead? || pc.ArmStore?
  }

  // The program holds what it must at each place.
  ghost predicate PlaceOk(c: State) {
    var v, pc := c.v, c.pc;
    && (pc.Dispatch? || Claimed(pc) || pc.Start2? || pc.Start3? || pc.Start4? || pc.Start5? ==> v.manCmd == CMD_STOP)
    && (Claimed(pc) || pc.Write? || pc.ArmRead? || pc.ArmStore? ==> !v.owi.running)
    && (pc.AckStore? ==> pc.t <= c.now + ACK_TIME) && (pc.ArmStore? ==> pc.t <= c.now + MAN_CMD_TIME)
    && (pc.Received? || pc.Checked? || pc.Dispatch? ==> KnownCommand(pc.m))
    && (pc.Start0? || pc.Start1? || pc.Start2? || pc.Start3? ==> Known(pc.table))
  }

  // The sequence variables, half stored or not.
  ghost predicate OwiOk(c: State) {
    var o, pc := c.v.owi, c.pc;
    && (!o.running && !pc.Halt2? ==> o.stepIdx == 0)
    && (pc.Halt2? || pc.Halt3? || pc.Halt4? ==> !o.running)
    && ((!o.stop || pc.Start3? || pc.Start4?) && !pc.Halt4? ==> o.size >= 1)
    && (o.running && pc.Start2? ==>
          && o.table == pc.table && c.since <= c.now
          && (o.stepIdx == 0 || (o.stepIdx == 1 && c.v.seqTime >= c.since + 100_000)))
    && (o.running && !pc.Start2? ==> o.Ok())
    && (o.running && pc.Start3? ==> o.table == pc.table)
  }

  /** A manual command excludes a sequence, and has its stop timer set unless that is just being done. */
  ghost predicate Excluded(c: State) {
    c.v.manCmd != CMD_STOP ==> !c.v.owi.running && (Arming(c.pc) || c.v.cmdTime <= c.now + ACK_TIME)
  }

  ghost predicate Inv(c: State) {
    !c.fault && PlaceOk(c) && OwiOk(c) && Excluded(c)
  }

  lemma MainKeepsPlace(c: State, d: State)
    requires Inv(c) && MainStep(c, d.(now := c.now)) && d.now >= c.now
    ensures PlaceOk(d)
  {
    hide Known, Parse, Owi.Ok, OwiOk, MAIN, FOLD, UNFOLD;
    if c.pc.Loop? {
      MainReceives(c, d);
    } else if c.pc.Dispatch? {
    } else {
      hide KnownCommand;
    }
  }

  lemma MainReceives(c: State, d: State)
    requires PlaceOk(c) && c.pc.Loop? && MainStep(c, d.(now := c.now)) && d.now >= c.now
    ensures PlaceOk(d)
  {
    hide Known, Owi.Ok;
    if d.pc.Received? {
      var m :| d.pc == Received(Parse(m));
      ParsedIsKnown(m);
    }
    hide Parse;
  }

  lemma MainKeepsExcluded(c: State, d: State)
    requires Inv(c) && MainStep(c, d.(now := c.now)) && d.now >= c.now
    ensures Excluded(d) && !d.fault
  {
    hide Known, KnownCommand, Owi.Ok, OwiOk, Parse;
  }

  lemma MainKeepsOwi(c: State, d: State)
    requires Inv(c) && MainStep(c, d.(now := c.now)) && d.now >= c.now
    ensures OwiOk(d)
  {
    hide Parse, Excluded;
  }

  // The step taken by the sequence task while the main loop has stored the pointer but not the size.
  lemma EarlyStep(o: Owi)
    requires o.running && Known(o.table) && o.stepIdx == 0 && (!o.stop ==> o.size >= 1)
    ensures o.InTable()
    ensures var (n, r) := Next(o); n.running ==> n.table == o.table && n.size == o.size && 0 <= r == n.stepIdx <= 1
    ensures var (n, r) := Next(o); !n.running ==> n.stepIdx == 0 && r == -1
    ensures Next(o).0.stop || o.size >= 1
  {
    if !o.stop {
      assert (0 + 1) % o.size <= 1 by {
        if o.size > 1 {
          Arith.SmallMod(1, o.size);
        }
      }
    }
  }

  lemma TickIsSafe(c: State, later: nat, usb: bool, event: bool)
    requires Inv(c) && Prompt(c)
    ensures !Astray(AfterUsb(c.v, c.now, usb, event), c.now)
  {
    hide Known, Excluded;
    if c.v.owi.running && c.pc.Start2? && c.v.owi.stepIdx == 0 {
      EarlyStep(c.v.owi);
    }
  }

  // What the sequence task does to the sequence, in any state that the invariant allows.
  lemma TickOwi(c: State, later: nat, usb: bool, event: bool)
    requires Inv(c) && Prompt(c) && later >= c.now
    requires !Astray(AfterUsb(c.v, c.now, usb, event), c.now)
    ensures var v := Tick(c.v, c.now, later, usb, event); OwiOk(c.(v := v, now := later))
    ensures Tick(c.v, c.now, later, usb, event).owi.running ==> c.v.owi.running
  {
    hide Known, Excluded;
    var o := c.v.owi;
    var a := AfterUsb(c.v, c.now, usb, event);
    var v := Tick(c.v, c.now, later, usb, event);
    if c.now >= a.seqTime && a.usb {
      assert v.owi == Next(o).0;
      if o.running && c.pc.Start2? {
        EarlyStep(o);
        if v.owi.running && v.owi.stepIdx == 1 {
          assert o.table[1].ms >= 100 by { assert Known(o.table); KnownSecond(o.table); }
        }
      }
    } else {
      assert v.owi == o;
    }
  }

  lemma KnownSecond(t: Table)
    requires Known(t)
    ensures |t| >= 2 && t[1].ms >= 100
  {
  }

  lemma OwiLater(c: State, now: nat)
    requires OwiOk(c) && c.now <= now
    ensures OwiOk(c.(now := now))
  {
  }

  lemma TickKeeps(c: State, d: State)
    requires Inv(c) && Prompt(c) && d.now >= c.now && TickStep(c, d)
    ensures Inv(d)
  {
    var usb, event, later: nat :| c.now <= later <= d.now && Callbacks(c.v, usb, event) && d == Ticked(c, later, usb, event).(now := d.now);
    TickIsSafe(c, later, usb, event);
    TickOwi(c, later, usb, event);
    OwiLater(c.(v := d.v, now := later), d.now);
    hide Known, OwiOk, Owi.Ok, Owi.InTable, Next;
    var a := AfterUsb(c.v, c.now, usb, event);
    var b := if c.now >= a.seqTime then SeqTask(a, later) else a;
    assert b.manCmd == c.v.manCmd && b.cmdTime == c.v.cmdTime;
  }

  lemma {:induction false} RunInv(cs: seq<State>, i: nat)
    requires Run(cs) && i < |cs|
    ensures Inv(cs[i])
  {
    if i > 0 {
      RunInv(cs, i - 1);
      var c, d := cs[i - 1], cs[i];
      hide Inv, MainStep, TickStep, Prompt;
      assert Step(c, d) && Prompt(c);
      if MainStep(c, d.(now := c.now)) {
        MainKeepsPlace(c, d);
        MainKeepsExcluded(c, d);
        MainKeepsOwi(c, d);
        InvFromParts(d);
      } else {
        TickKeeps(c, d);
      }
    }
  }

  lemma InvFromParts(d: State)
    requires PlaceOk(d) && Excluded(d) && !d.fault && OwiOk(d)
    ensures Inv(d)
  {
  }

  /** In every state of every run: no pre-programmed sequence is running while a manual command is in
      force; while one is in force and the main loop is between messages, its stop timer is set, at
      most 300 ms ahead; and the interrupt handler has never left a table. */
  lemma RunSafe(cs: seq<State>, i: nat)
    requires Run(cs) && i < |cs|
    ensures cs[i].v.manCmd != CMD_STOP ==> !cs[i].v.owi.running
    ensures cs[i].v.manCmd != CMD_STOP && cs[i].pc == Loop ==> cs[i].v.cmdTime <= cs[i].now + ACK_TIME < MAX_TIME
    ensures !cs[i].fault
  {
    RunInv(cs, i);
    assert Prompt(cs[i]);
  }

  // From a manual command between messages on, it stays in force with the same stop timer, and the
  // main loop takes no path that changes either.
  ghost predicate Standing(c: State, cmd: nat, t: nat) {
    && c.v.manCmd == cmd && c.v.cmdTime == t
    && (c.pc.Loop? || c.pc.Event? || c.pc.AckRead? || c.pc.AckStore? || c.pc.Halt1? || c.pc.Halt2? || c.pc.Halt3?
        || c.pc.Halt4? || c.pc.EventDone? || c.pc.Received? || c.pc.Checked?)
  }

  lemma StandsOrStops(c: State, d: State, cmd: nat, t: nat)
    requires Inv(c) && Prompt(c) && Step(c, d) && cmd != CMD_STOP && Standing(c, cmd, t) && !c.pc.AckStore?
    ensures d.v.manCmd == CMD_STOP || Standing(d, cmd, t)
    ensures TickStep(c, d) && c.now >= t ==> d.v.manCmd == CMD_STOP || MainStep(c, d.(now := c.now))
  {
    hide OwiOk, Known, Parse, Next, Owi.Ok, Owi.InTable;
    if !MainStep(c, d.(now := c.now)) {
      var usb, event, later: nat :| c.now <= later <= d.now && Callbacks(c.v, usb, event) && d == Ticked(c, later, usb, event).(now := d.now);
      TickIsSafe(c, later, usb, event);
      var a := AfterUsb(c.v, c.now, usb, event);
      var b := if c.now >= a.seqTime then SeqTask(a, later) else a;
      assert b.manCmd == cmd && b.cmdTime == t;
    }
  }

  // The robot has been stopped between i and j.
  ghost predicate StoppedBy(cs: seq<State>, i: nat, j: nat)
    requires j < |cs|
  {
    exists k :: i < k <= j && cs[k].v.manCmd == CMD_STOP
  }

  /** A manual command does not outlast its timer: if it is in force between messages at i, then a timer
      interrupt at j, at or after the time set, finds or leaves the robot stopped, unless a newly
      connected device has moved the timer in between. */
  lemma {:induction false} ManualEnds(cs: seq<State>, i: nat, j: nat)
    requires Run(cs) && i <= j < |cs| - 1
    requires cs[i].v.manCmd != CMD_STOP && cs[i].pc == Loop
    requires forall k :: i <= k < j ==> !cs[k].pc.AckStore?
    requires !cs[j].pc.AckStore? && !MainStep(cs[j], cs[j + 1].(now := cs[j].now)) && cs[j].now >= cs[i].v.cmdTime
    ensures StoppedBy(cs, i, j + 1)
  {
    StandsUntil(cs, i, j);
    if Standing(cs[j], cs[i].v.manCmd, cs[i].v.cmdTime) {
      hide Standing, MainStep, TickStep, Prompt;
      assert Prompt(cs[j]) && Step(cs[j], cs[j + 1]) by { StepAt(cs, j); }
      RunInv(cs, j);
      hide Run, Inv;
      StandsOrStops(cs[j], cs[j + 1], cs[i].v.manCmd, cs[i].v.cmdTime);
      assert cs[j + 1].v.manCmd == CMD_STOP;
    }
  }

  lemma StepAt(cs: seq<State>, j: nat)
    requires Run(cs) && j < |cs| - 1
    ensures Prompt(cs[j]) && Step(cs[j], cs[j + 1])
  {
    var k := j + 1;
    assert Step(cs[k - 1], cs[k]);
  }

  lemma StandsOnce(cs: seq<State>, j: nat, cmd: nat, t: nat)
    requires Run(cs) && j < |cs| - 1 && cmd != CMD_STOP && Standing(cs[j], cmd, t) && !cs[j].pc.AckStore?
    ensures cs[j + 1].v.manCmd == CMD_STOP || Standing(cs[j + 1], cmd, t)
  {
    hide Standing, MainStep, TickStep, Prompt;
    StepAt(cs, j);
    RunInv(cs, j);
    hide Run, Inv;
    StandsOrStops(cs[j], cs[j + 1], cmd, t);
  }

  lemma StoppedStill(cs: seq<State>, i: nat, j: nat)
    requires i < j < |cs|
    ensures StoppedBy(cs, i, j) <==> StoppedBy(cs, i, j - 1) || cs[j].v.manCmd == CMD_STOP
  {
  }

  lemma {:induction false} StandsUntil(cs: seq<State>, i: nat, j: nat)
    requires Run(cs) && i <= j < |cs|
    requires cs[i].v.manCmd != CMD_STOP && cs[i].pc == Loop
    requires forall k :: i <= k < j ==> !cs[k].pc.AckStore?
    ensures StoppedBy(cs, i, j) || Standing(cs[j], cs[i].v.manCmd, cs[i].v.cmdTime)
    decreases j
  {
    hide Standing, Run, StoppedBy;
    if j == i {
      StandsFirst(cs[i]);
    } else {
      StandsUntil(cs, i, j - 1);
      StoppedStill(cs, i, j);
      if Standing(cs[j - 1], cs[i].v.manCmd, cs[i].v.cmdTime) {
        StandsOnce(cs, j - 1, cs[i].v.manCmd, cs[i].v.cmdTime);
      }
    }
  }

  lemma StandsFirst(c: State)
    requires c.pc == Loop
    ensures Standing(c, c.v.manCmd, c.v.cmdTime)
  {
  }
}
