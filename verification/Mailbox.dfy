/** The one-slot mailbox between two harts, step by step: the sender's stores, the receiver's
    loads in its interrupt handler, and the inbox that the receiver's main loop empties. Each hart
    runs its own program in order; their steps interleave in any way. */
module Mailbox {

  // A message of two double words.
  datatype Message = Message(w0: nat, w1: nat)

  // The first character is the terminator.
  predicate Blank(m: Message) {
    m.w0 % 0x100 == 0
  }

  /** Where the sender is in MZONE_SEND: idle, about to store the first word, the second word, the flag. */
  datatype Sender = SIdle | SFirst(m: Message) | SSecond(m: Message) | SFlag(m: Message)

  /** Where the receiver is in MZONE_RECV: idle, about to load the first word, the second word, to
      clear the flag, to copy the message into the inbox. */
  datatype Receiver = RIdle | RFirst | RSecond(w0: nat) | RClear(w0: nat, w1: nat) | RCopy(m: Message)

  /** The slot, both programs, and what has been sent, received and handled so far. */
  datatype Channel = Channel(full: bool, w0: nat, w1: nat, sender: Sender, receiver: Receiver, inbox: Message,
                             sent: seq<Message>, received: seq<Message>, handled: seq<Message>)

  const EMPTY := Message(0, 0)

  // The receiver has cleared the first byte of the inbox.
  function Emptied(m: Message): (r: Message)
    ensures Blank(r) && r.w1 == m.w1 && r.w0 / 0x100 == m.w0 / 0x100
  {
    Message(m.w0 - m.w0 % 0x100, m.w1)
  }

  ghost predicate Init(c: Channel) {
    !c.full && c.sender == SIdle && c.receiver == RIdle && c.inbox == EMPTY && c.sent == c.received == c.handled == []
  }

  // MZONE_SEND(m): gives up if the slot is full; otherwise both words, then the flag.
  ghost predicate SendStep(c: Channel, d: Channel) {
    match c.sender
    case SIdle => exists m :: d == if c.full then c else c.(sender := SFirst(m))
    case SFirst(m) => d == c.(w0 := m.w0, sender := SSecond(m))
    case SSecond(m) => d == c.(w1 := m.w1, sender := SFlag(m))
    case SFlag(m) => d == c.(full := true, sender := SIdle, sent := c.sent + [m])
  }

  // MZONE_RECV in the software interrupt handler: both words, then the flag, then the inbox.
  ghost predicate RecvStep(c: Channel, d: Channel) {
    match c.receiver
    case RIdle => d == if c.full then c.(receiver := RFirst) else c
    case RFirst => d == c.(receiver := RSecond(c.w0))
    case RSecond(a) => d == c.(receiver := RClear(a, c.w1))
    case RClear(a, b) => d == c.(full := false, receiver := RCopy(Message(a, b)), received := c.received + [Message(a, b)])
    case RCopy(m) => d == c.(inbox := m, receiver := RIdle)
  }

  // The main loop of the receiver, with the software interrupt off: it handles the message in the
  // inbox and empties it. It does not run while the interrupt handler does.
  ghost predicate HandleStep(c: Channel, d: Channel) {
    && c.receiver == RIdle
    && d == if Blank(c.inbox) then c else c.(handled := c.handled + [c.inbox], inbox := Emptied(c.inbox))
  }

  ghost predicate Next(c: Channel, d: Channel) {
    SendStep(c, d) || RecvStep(c, d) || HandleStep(c, d)
  }

  /** a is what is left of b when some elements are dropped. */
  ghost predicate Subsequence(a: seq<Message>, b: seq<Message>)
    decreases |b|
  {
    if a == [] then true
    else b != [] && (Subsequence(a, b[..|b| - 1]) || (a[|a| - 1] == b[|b| - 1] && Subsequence(a[..|a| - 1], b[..|b| - 1])))
  }

  lemma SubsequenceMore(a: seq<Message>, b: seq<Message>, m: Message)
    requires Subsequence(a, b)
    ensures Subsequence(a, b + [m]) && Subsequence(a + [m], b + [m])
  {
    assert (b + [m])[..|b|] == b && (a + [m])[..|a|] == a;
  }

  lemma {:induction false} SubsequenceLess(a: seq<Message>, b: seq<Message>, m: Message)
    requires Subsequence(a + [m], b)
    ensures Subsequence(a, b)
    decreases |b|
  {
    assert (a + [m])[..|a|] == a;
    var c := b[..|b| - 1];
    if Subsequence(a + [m], c) {
      SubsequenceLess(a, c, m);
    }
    SubsequenceMore(a, c, b[|b| - 1]);
    assert c + [b[|b| - 1]] == b;
  }

  // What is waiting in the inbox.
  function Pending(c: Channel): seq<Message> {
    if Blank(c.inbox) then [] else [c.inbox]
  }

  /** What all interleavings keep. */
  ghost predicate Inv(c: Channel) {
    && (c.full ==> c.sent == c.received + [Message(c.w0, c.w1)]) && (!c.full ==> c.sent == c.received)
    && (c.sender != SIdle ==> !c.full)
    && (c.sender.SSecond? ==> c.w0 == c.sender.m.w0)
    && (c.sender.SFlag? ==> Message(c.w0, c.w1) == c.sender.m)
    && (c.receiver.RFirst? || c.receiver.RSecond? || c.receiver.RClear? ==> c.full)
    && (c.receiver.RSecond? ==> c.receiver.w0 == c.w0)
    && (c.receiver.RClear? ==> c.receiver.w0 == c.w0 && c.receiver.w1 == c.w1)
    && (if c.receiver.RCopy? then
          && c.received != [] && c.received[|c.received| - 1] == c.receiver.m
          && Subsequence(c.handled + Pending(c), c.received[..|c.received| - 1])
        else Subsequence(c.handled + Pending(c), c.received))
  }

  lemma InvStarts(c: Channel)
    requires Init(c)
    ensures Inv(c)
  {
  }

  lemma InvSend(c: Channel, d: Channel)
    requires Inv(c) && SendStep(c, d)
    ensures Inv(d)
  {
    hide Subsequence;
  }

  lemma InvRecv(c: Channel, d: Channel)
    requires Inv(c) && RecvStep(c, d)
    ensures Inv(d)
  {
    hide Subsequence, Blank;
    if c.receiver.RClear? {
      assert d.received[..|d.received| - 1] == c.received;
    } else if c.receiver.RCopy? {
      var before, m := c.received[..|c.received| - 1], c.receiver.m;
      assert c.received == before + [m] && c.handled + [] == c.handled;
      if !Blank(c.inbox) {
        SubsequenceLess(c.handled, before, c.inbox);
      }
      SubsequenceMore(c.handled, before, m);
    }
  }

  lemma InvHandle(c: Channel, d: Channel)
    requires Inv(c) && HandleStep(c, d)
    ensures Inv(d)
  {
    hide Subsequence;
    assert c.handled + [c.inbox] + [] == c.handled + [c.inbox];
  }

  /** Every message is received as it was sent, once and in order, and at most one is under way;
      the handled messages are some of those, in order. */
  ghost predicate Safe(c: Channel) {
    && c.received <= c.sent && |c.sent| <= |c.received| + 1
    && Subsequence(c.handled, c.sent)
  }

  lemma InvIsSafe(c: Channel)
    requires Inv(c)
    ensures Safe(c)
  {
    hide Subsequence;
    var seen := if c.receiver.RCopy? then c.received[..|c.received| - 1] else c.received;
    assert c.handled + [] == c.handled;
    if !Blank(c.inbox) {
      SubsequenceLess(c.handled, seen, c.inbox);
    }
    if c.receiver.RCopy? {
      SubsequenceMore(c.handled, seen, c.receiver.m);
      assert seen + [c.receiver.m] == c.received;
    }
    if c.full {
      SubsequenceMore(c.handled, c.received, Message(c.w0, c.w1));
    }
  }

  /** A run: any interleaving of the steps, from the start. */
  ghost predicate Run(cs: seq<Channel>) {
    cs != [] && Init(cs[0]) && forall i :: 0 < i < |cs| ==> Next(cs[i - 1], cs[i])
  }

  lemma {:induction false} RunInv(cs: seq<Channel>, i: nat)
    requires Run(cs) && i < |cs|
    ensures Inv(cs[i])
  {
    if i == 0 {
      InvStarts(cs[0]);
    } else {
      RunInv(cs, i - 1);
      hide Inv, SendStep, RecvStep, HandleStep;
      if SendStep(cs[i - 1], cs[i]) {
        InvSend(cs[i - 1], cs[i]);
      } else if RecvStep(cs[i - 1], cs[i]) {
        InvRecv(cs[i - 1], cs[i]);
      } else {
        InvHandle(cs[i - 1], cs[i]);
      }
    }
  }

  /** Every state of every run is safe. */
  lemma RunSafe(cs: seq<Channel>, i: nat)
    requires Run(cs) && i < |cs|
    ensures Safe(cs[i])
  {
    RunInv(cs, i);
    InvIsSafe(cs[i]);
  }

  // Between messages: nothing is under way or waiting.
  predicate Quiet(c: Channel) {
    !c.full && c.sender == SIdle && c.receiver == RIdle && Blank(c.inbox)
  }

  lemma Extended(cs: seq<Channel>, d: Channel)
    requires Run(cs) && Next(cs[|cs| - 1], d)
    ensures Run(cs + [d])
  {
    hide Next, Init;
  }

  // The steps that bring a message over.
  function Sending(c: Channel, m: Message): seq<Channel> {
    [c.(sender := SFirst(m)), c.(w0 := m.w0, sender := SSecond(m)), c.(w0 := m.w0, w1 := m.w1, sender := SFlag(m)),
     c.(w0 := m.w0, w1 := m.w1, full := true, sent := c.sent + [m])]
  }

  function Receiving(c: Channel, m: Message): seq<Channel> {
    [c.(receiver := RFirst), c.(receiver := RSecond(m.w0)), c.(receiver := RClear(m.w0, m.w1)),
     c.(full := false, receiver := RCopy(m), received := c.received + [m]),
     c.(full := false, inbox := m, received := c.received + [m]),
     c.(full := false, inbox := Emptied(m), received := c.received + [m], handled := c.handled + [m])]
  }

  lemma Sends(cs: seq<Channel>, m: Message)
    requires Run(cs) && Quiet(cs[|cs| - 1])
    ensures Run(cs + Sending(cs[|cs| - 1], m))
  {
    var p := Sending(cs[|cs| - 1], m);
    hide Run, RecvStep, HandleStep;
    Extended(cs, p[0]);
    Extended(cs + [p[0]], p[1]);
    Extended(cs + [p[0]] + [p[1]], p[2]);
    Extended(cs + [p[0]] + [p[1]] + [p[2]], p[3]);
    assert cs + [p[0]] + [p[1]] + [p[2]] + [p[3]] == cs + p;
  }

  lemma Receives(cs: seq<Channel>, m: Message)
    requires Run(cs) && !Blank(m)
    requires var c := cs[|cs| - 1]; c.full && c.sender == SIdle && c.receiver == RIdle && c.w0 == m.w0 && c.w1 == m.w1
    ensures Run(cs + Receiving(cs[|cs| - 1], m))
  {
    var p := Receiving(cs[|cs| - 1], m);
    hide Run, SendStep, Emptied;
    Extended(cs, p[0]);
    Extended(cs + [p[0]], p[1]);
    Extended(cs + [p[0]] + [p[1]], p[2]);
    Extended(cs + [p[0]] + [p[1]] + [p[2]], p[3]);
    Extended(cs + [p[0]] + [p[1]] + [p[2]] + [p[3]], p[4]);
    Extended(cs + [p[0]] + [p[1]] + [p[2]] + [p[3]] + [p[4]], p[5]);
    assert cs + [p[0]] + [p[1]] + [p[2]] + [p[3]] + [p[4]] + [p[5]] == cs + p;
  }

  lemma OneMore(cs: seq<Channel>, m: Message) returns (es: seq<Channel>)
    requires cs != [] && Run(cs) && Quiet(cs[|cs| - 1]) && !Blank(m)
    ensures es != [] && Run(es) && Quiet(es[|es| - 1])
    ensures es[|es| - 1].sent == cs[|cs| - 1].sent + [m] && es[|es| - 1].handled == cs[|cs| - 1].handled + [m]
  {
    hide Run, Emptied;
    Sends(cs, m);
    var ds := cs + Sending(cs[|cs| - 1], m);
    Receives(ds, m);
    es := ds + Receiving(ds[|ds| - 1], m);
  }

  /** Messages do get through: for every list of messages that are not blank there is a run in which they
      are sent, received and handled, all of them and in order. */
  lemma {:induction false} AllHandled(ms: seq<Message>)
    requires forall i :: 0 <= i < |ms| ==> !Blank(ms[i])
    ensures exists cs: seq<Channel> :: Run(cs) && Quiet(cs[|cs| - 1]) && cs[|cs| - 1].sent == cs[|cs| - 1].handled == ms
  {
    if ms == [] {
      var c := Channel(false, 0, 0, SIdle, RIdle, EMPTY, [], [], []);
      assert Run([c]) && Quiet([c][|[c]| - 1]);
    } else {
      var m := ms[|ms| - 1];
      AllHandled(ms[..|ms| - 1]);
      var cs: seq<Channel> :| Run(cs) && Quiet(cs[|cs| - 1]) && cs[|cs| - 1].sent == cs[|cs| - 1].handled == ms[..|ms| - 1];
      hide Run, Blank, Quiet;
      var es := OneMore(cs, m);
      assert ms[..|ms| - 1] + [m] == ms;
    }
  }
}
