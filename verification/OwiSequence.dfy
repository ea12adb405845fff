/** The robot's pre-programmed motion sequences: the step counter of hart 4. */
module OwiSequence {
  import opened Arith

  datatype Step = Step(command: nat, ms: nat)

  type Table = seq<Step>

  /** The variables of owi_sequence.c; running says whether sequence points to a table. */
  datatype Owi = Owi(running: bool, table: Table, stepIdx: nat, size: nat, stop: bool)
  {
    /** A sequence in progress: inside its table. */
    ghost predicate Ok() {
      running ==> stepIdx < size == |table|
    }

    /** The next step, if there is to be one, is in the table. */
    predicate InTable() {
      running && !(stop && stepIdx == 0) ==> size > 0 && (stepIdx + 1) % size < |table|
    }
  }

  const STOP := 0x000000
  const GRIP_CLOSE := 0x000001
  const GRIP_OPEN := 0x000002
  const WRIST_UP := 0x000004
  const WRIST_DWN := 0x000008
  const ELBOW_UP := 0x000010
  const ELBOW_DWN := 0x000020
  const SHOULDER_UP := 0x000040
  const SHOULDER_DWN := 0x000080
  const BASE_CLOCKWISE := 0x000100
  const BASE_COUNTERCLK := 0x000200
  const LIGHT_ON := 0x010000
  const ARM_UP := WRIST_DWN + ELBOW_UP + SHOULDER_UP
  const ARM_DWN := WRIST_UP + ELBOW_DWN + SHOULDER_DWN + BASE_CLOCKWISE

  const MAIN: Table := [
    Step(STOP, 1000), Step(GRIP_CLOSE, 1200), Step(WRIST_UP, 1800), Step(ARM_DWN, 1800), Step(BASE_CLOCKWISE, 3000),
    Step(GRIP_OPEN, 1200), Step(STOP, 1000), Step(GRIP_CLOSE, 1200), Step(BASE_COUNTERCLK, 3000), Step(BASE_COUNTERCLK, 1440),
    Step(ARM_UP, 1890), Step(ELBOW_UP, 90), Step(WRIST_DWN, 1440), Step(GRIP_OPEN, 1200)]

  const FOLD: Table := [
    Step(STOP, 0), Step(GRIP_OPEN, 100), Step(ELBOW_DWN + SHOULDER_UP + WRIST_DWN, 4500), Step(ELBOW_DWN, 225), Step(SHOULDER_UP, 1200)]

  const UNFOLD: Table := [
    Step(STOP, 0), Step(ELBOW_UP, 450), Step(SHOULDER_DWN, 1500), Step(ELBOW_UP + SHOULDER_DWN + WRIST_UP, 4500)]

  function Started(o: Owi, t: Table): Owi {
    if o.running then o else Owi(true, t, 0, |t|, false)
  }

  function Stopped(o: Owi): Owi {
    Owi(false, [], 0, 0, true)
  }

  /** What owi_sequence_next makes of the state, and what it returns. */
  function Next(o: Owi): (Owi, int)
    requires o.InTable()
  {
    if !o.running || (o.stop && o.stepIdx == 0) then (o.(running := false), -1)
    else
      var i := (o.stepIdx + 1) % o.size;
      (o.(stepIdx := i, stop := o.stop || o.table[i].ms == 0), i)
  }

  class OwiState {
    var sequence: Table
    var hasSequence: bool
    var stepIdx: nat
    var size: nat
    var stop: bool

    constructor ()
      ensures State() == Owi(false, [], 0, 0, true)
    {
      sequence, hasSequence, stepIdx, size, stop := [], false, 0, 0, true;
    }

    function State(): Owi
      reads this
    {
      Owi(hasSequence, sequence, stepIdx, size, stop)
    }

    // owi_sequence_start
    method Start(t: Table)
      requires t != []
      modifies this
      ensures State() == Started(old(State()), t) && (old(State().Ok()) ==> State().Ok())
    {
      if !hasSequence {
        sequence, hasSequence := t, true;
        size := |t|;
        stepIdx := 0;
        stop := false;
      }
    }

    // owi_sequence_stop_req
    method StopReq()
      modifies this`stop
      ensures State() == old(State()).(stop := true)
    {
      stop := true;
    }

    // owi_sequence_stop
    method Stop()
      modifies this
      ensures State() == Stopped(old(State()))
    {
      sequence, hasSequence := [], false;
      stepIdx := 0;
      size := 0;
      stop := true;
    }

    // owi_sequence_next
    method NextStep() returns (r: int)
      requires State().InTable()
      modifies this
      ensures (State(), r) == Next(old(State())) && (old(State().Ok()) ==> State().Ok())
      ensures r == -1 || (hasSequence && r == stepIdx < |sequence|)
    {
      if stop && stepIdx == 0 {
        hasSequence := false;
      }
      if !hasSequence {
        return -1;
      }
      stepIdx := (stepIdx + 1) % size;
      if sequence[stepIdx].ms == 0 {
        stop := true;
      }
      return stepIdx;
    }

    // owi_sequence_get_cmd: bit 16, the light, is on until a stop is requested
    method GetCmd() returns (c: nat)
      requires hasSequence ==> stepIdx < |sequence|
      ensures !hasSequence ==> c == 0
      ensures hasSequence ==> (c / 0x1_0000 % 2 == 1 <==> !stop) && c % 0x1_0000 == sequence[stepIdx].command % 0x1_0000
                              && c / 0x2_0000 == sequence[stepIdx].command / 0x2_0000
    {
      if !hasSequence {
        return 0;
      }
      var cmd := sequence[stepIdx].command;
      c := cmd % 0x1_0000 + cmd / 0x2_0000 * 0x2_0000 + if stop then 0 else 0x1_0000;
      CommandDigits(cmd, if stop then 0 else 1);
    }
  }

  lemma CommandDigits(cmd: nat, bit: nat)
    requires bit < 2
    ensures var c := cmd % 0x1_0000 + cmd / 0x2_0000 * 0x2_0000 + bit * 0x1_0000;
            c / 0x1_0000 % 2 == bit && c % 0x1_0000 == cmd % 0x1_0000 && c / 0x2_0000 == cmd / 0x2_0000
  {
    var c := cmd % 0x1_0000 + cmd / 0x2_0000 * 0x2_0000 + bit * 0x1_0000;
    DivUnique(c, 0x1_0000, cmd / 0x2_0000 * 2 + bit, cmd % 0x1_0000);
    DivUnique(c, 0x2_0000, cmd / 0x2_0000, cmd % 0x1_0000 + bit * 0x1_0000);
  }

  /** The state after n calls of owi_sequence_next. */
  function After(o: Owi, n: nat): (r: Owi)
    requires o.Ok()
    ensures r.Ok()
  {
    if n == 0 then o else
      var p := After(o, n - 1);
      Step1(p);
      Next(p).0
  }

  lemma Step1(o: Owi)
    requires o.Ok()
    ensures Next(o).0.Ok()
  {
  }

  // Number of calls after which a sequence that is to stop has stopped.
  function CallsToStop(o: Owi): nat
    requires o.Ok() && o.running
  {
    if o.stepIdx == 0 then 1 else o.size - o.stepIdx + 1
  }

  lemma {:induction false} Stopping(o: Owi, n: nat)
    requires o.Ok() && o.running && o.stop && n < CallsToStop(o)
    ensures After(o, n) == o.(stepIdx := (o.stepIdx + n) % o.size)
  {
    if n == 0 {
      SmallMod(o.stepIdx, o.size);
    } else {
      Stopping(o, n - 1);
      SmallMod(o.stepIdx + n - 1, o.size);
    }
  }

  lemma StillGoing(o: Owi, n: nat)
    requires o.Ok() && o.running && o.stop && n < CallsToStop(o) - 1
    ensures Next(After(o, n)).1 >= 0
  {
    Stopping(o, n);
    SmallMod(o.stepIdx + n, o.size);
  }

  /** After a stop request the sequence ends, for any table: the call number size - stepIdx + 1 at
      the latest returns -1, and no call before CallsToStop does. */
  lemma StopEnds(o: Owi)
    requires o.Ok() && o.running && o.stop
    ensures var k := CallsToStop(o);
            && k <= o.size - o.stepIdx + 1
            && Next(After(o, k - 1)).1 == -1 && !After(o, k).running
            && forall n: nat :: n < k - 1 ==> Next(After(o, n)).1 >= 0
  {
    hide After;
    var k := CallsToStop(o);
    Stopping(o, k - 1);
    if o.stepIdx > 0 {
      DivUnique(o.size, o.size, 1, 0);
    } else {
      SmallMod(0, o.size);
    }
    AfterMore(o, k - 1);
    forall n: nat | n < k - 1 ensures Next(After(o, n)).1 >= 0 {
      StillGoing(o, n);
    }
  }

  lemma AfterMore(o: Owi, n: nat)
    requires o.Ok()
    ensures After(o, n + 1) == Next(After(o, n)).0
  {
  }

  // While no step of no duration is reached, the steps follow each other round the table.
  lemma {:induction false} Cycling(o: Owi, n: nat)
    requires o.Ok() && o.running && !o.stop && o.stepIdx == 0
    requires forall i :: 0 <= i < |o.table| && (i > 0 || n >= |o.table|) ==> o.table[i].ms != 0
    ensures After(o, n) == o.(stepIdx := n % o.size)
  {
    if n == 0 {
      SmallMod(0, o.size);
    } else {
      hide After;
      Cycling(o, n - 1);
      AfterMore(o, n - 1);
      CycleStep(n - 1, o.size);
      var p := After(o, n - 1);
      assert p.table == o.table && (p.stepIdx + 1) % p.size == n % o.size;
    }
  }

  lemma CycleStep(n: nat, m: nat)
    requires m > 0
    ensures (n % m + 1) % m == (n + 1) % m && (n + 1 < m ==> (n + 1) % m == n + 1)
  {
    if n % m + 1 < m {
      BlockOffset(n, m, 1);
      SmallMod(n % m + 1, m);
    } else {
      MulSucc(m, n / m);
      DivUnique(n + 1, m, n / m + 1, 0);
    }
    if n + 1 < m {
      SmallMod(n + 1, m);
    }
  }

  /** A sequence whose first step alone has no duration, like FOLD and UNFOLD, plays every other
      step once and ends by itself; one without such a step, like MAIN, goes on until it is stopped. */
  lemma AutoStop(o: Owi, t: Table, n: nat)
    requires !o.running && t != [] && forall i :: 0 < i < |t| ==> t[i].ms != 0
    ensures var s := Started(o, t); s.Ok()
    ensures var s := Started(o, t);
            t[0].ms == 0 ==>
              && (n + 1 < |t| ==> Next(After(s, n)).1 == n + 1)
              && After(s, |t|) == s.(stop := true) && Next(After(s, |t|)).1 == -1
    ensures var s := Started(o, t); t[0].ms != 0 ==> Next(After(s, n)).1 == (n + 1) % |t|
  {
    var s := Started(o, t);
    if t[0].ms == 0 {
      Cycling(s, |t| - 1);
      CycleStep(|t| - 1, |t|);
      DivUnique(|t|, |t|, 1, 0);
      SmallMod(|t| - 1, |t|);
      if n + 1 < |t| {
        Cycling(s, n);
        CycleStep(n, |t|);
        SmallMod(n, |t|);
      }
    } else {
      Cycling(s, n);
      CycleStep(n, |t|);
    }
  }

  /** Which of the robot's tables end by themselves. */
  lemma OwnTables(o: Owi, n: nat)
    requires !o.running
    ensures Next(After(Started(o, FOLD), 5)).1 == Next(After(Started(o, UNFOLD), 4)).1 == -1
    ensures Next(After(Started(o, MAIN), n)).1 == (n + 1) % 14
  {
    AutoStop(o, FOLD, 0);
    AutoStop(o, UNFOLD, 0);
    AutoStop(o, MAIN, n);
  }
}
