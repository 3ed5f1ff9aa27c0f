/** Two endpoints of one channel, each sending and receiving, joined by two FIFO wires that carry frames one way and
    the credits for the other way together. Every interleaving of writes, sends and deliveries is a run. */
module CreditSystem {
  import opened Bytes
  import opened ChannelStates
  import opened Segmentation
  import opened R = Runs

  datatype Message = Data(payload: seq<Byte>) | Credits(count: Uint16) | Disconnection

  /** `unsent` holds the frames of the writes that have begun or queue on the write mutex; `written` every SDU so
      far. */
  datatype Endpoint = Endpoint(chan: ChannelState, unsent: seq<seq<Byte>>, written: seq<seq<Byte>>)

  datatype System = System(left: Endpoint, right: Endpoint, toRight: seq<Message>, toLeft: seq<Message>)

  datatype Side = Left | Right

  datatype Action =
    | Write(side: Side, sdu: seq<Byte>)
    | Send(side: Side)
    | Deliver(side: Side)

  function Flip(s: System): System {
    System(s.right, s.left, s.toLeft, s.toRight)
  }

  function Mirror(a: Action): Action {
    var side := if a.side.Left? then Right else Left;
    match a
    case Write(_, sdu) => Write(side, sdu)
    case Send(_) => Send(side)
    case Deliver(_) => Deliver(side)
  }

  function Answer(r: Reply): seq<Message> {
    match r
    case Quiet => []
    case GrantCredits(n) => [Credits(n)]
    case RequestDisconnect => [Disconnection]
  }

  /** An endpoint takes the next message off its wire. A disconnection ends the model: nothing happens after it. */
  function Handle(c: ChannelState, m: Message): (ChannelState, Reply) {
    match m
    case Data(payload) => Receive(c, payload)
    case Credits(n) => Indicate(c, n)
    case Disconnection => (c, Quiet)
  }

  /** A send waits for a credit, a delivery for a message; a write keeps to the limits the ends agreed. */
  predicate Enabled(s: System, a: Action) {
    if a.side.Right? then EnabledLeft(Flip(s), Mirror(a)) else EnabledLeft(s, a)
  }

  predicate EnabledLeft(s: System, a: Action) {
    && PossibleLeft(s, a)
    && (a.Write? ==> Deliverable(|a.sdu|, s.left.chan.txMPS, s.right.chan.rxMPS, s.right.chan.rxMTU))
  }

  /** What the code lets happen: any write, as long as it makes progress. */
  predicate PossibleLeft(s: System, a: Action) {
    match a
    case Write(_, _) => s.left.chan.txMPS > 0
    case Send(_) => s.left.unsent != [] && s.left.chan.txCredits > 0
    case Deliver(_) => s.toLeft != []
  }

  predicate Possible(s: System, a: Action) {
    if a.side.Right? then PossibleLeft(Flip(s), Mirror(a)) else PossibleLeft(s, a)
  }

  function StepLeft(s: System, a: Action): System
    requires PossibleLeft(s, a)
  {
    match a
    case Write(_, sdu) =>
      s.(left := s.left.(unsent := s.left.unsent + Segments(sdu, s.left.chan.txMPS), written := s.left.written + [sdu]))
    case Send(_) =>
      var chan := s.left.chan.(txCredits := s.left.chan.txCredits - 1);
      s.(left := s.left.(chan := chan, unsent := s.left.unsent[1..]), toRight := s.toRight + [Data(s.left.unsent[0])])
    case Deliver(_) =>
      var (chan, reply) := Handle(s.left.chan, s.toLeft[0]);
      s.(left := s.left.(chan := chan), toLeft := s.toLeft[1..], toRight := s.toRight + Answer(reply))
  }

  function Step(s: System, a: Action): System
    requires Possible(s, a)
  {
    if a.side.Right? then Flip(StepLeft(Flip(s), Mirror(a))) else StepLeft(s, a)
  }

  ghost function Steps(): (System, Action) -> Option<System> {
    (s, a) => if Enabled(s, a) then Some(Step(s, a)) else None
  }

  ghost predicate IsRun(s: System, actions: seq<Action>) {
    R.IsRun(Steps(), s, actions)
  }

  ghost function Run(s: System, actions: seq<Action>): System
    requires IsRun(s, actions)
  {
    R.Run(Steps(), s, actions)
  }

  lemma RunCons(s: System, a: Action, rest: seq<Action>)
    requires Enabled(s, a) && IsRun(Step(s, a), rest)
    ensures IsRun(s, [a] + rest) && Run(s, [a] + rest) == Run(Step(s, a), rest)
  {
    assert ([a] + rest)[1..] == rest;
  }

  // ------------------------------------------------------------------ the invariant

  function Payloads(ms: seq<Message>): seq<seq<Byte>> {
    if ms == [] then [] else (if ms[0].Data? then [ms[0].payload] else []) + Payloads(ms[1..])
  }

  function CreditSum(ms: seq<Message>): nat {
    if ms == [] then 0 else (if ms[0].Credits? then ms[0].count else 0) + CreditSum(ms[1..])
  }

  function CreditCount(ms: seq<Message>): nat {
    if ms == [] then 0 else (if ms[0].Credits? then 1 else 0) + CreditCount(ms[1..])
  }

  lemma {:induction false} WireAppend(a: seq<Message>, b: seq<Message>)
    ensures Payloads(a + b) == Payloads(a) + Payloads(b)
    ensures CreditSum(a + b) == CreditSum(a) + CreditSum(b)
    ensures CreditCount(a + b) == CreditCount(a) + CreditCount(b)
  {
    if a == [] {
      assert a + b == b;
    } else {
      WireAppend(a[1..], b);
      assert (a + b)[0] == a[0] && (a + b)[1..] == a[1..] + b;
      Associate(if a[0].Data? then [a[0].payload] else [], Payloads(a[1..]), Payloads(b));
    }
  }

  function Grant(r: Reply): Uint16 {
    if r.GrantCredits? then r.credits else 0
  }

  /** What a channel answers is no frame. */
  lemma AnswerAppends(ms: seq<Message>, r: Reply)
    ensures Payloads(ms + Answer(r)) == Payloads(ms)
    ensures CreditSum(ms + Answer(r)) == CreditSum(ms) + Grant(r)
    ensures CreditCount(ms + Answer(r)) == CreditCount(ms) + if r.GrantCredits? then 1 else 0
    ensures Disconnection in ms + Answer(r) <==> Disconnection in ms || r.RequestDisconnect?
  {
    WireAppend(ms, Answer(r));
    assert Payloads(Answer(r)) == [] && CreditSum(Answer(r)) == Grant(r);
    assert Payloads(ms) + [] == Payloads(ms);
  }

  /** Credit conservation in one direction: the sender's credits, the frames in flight and the credits on their way
      back are exactly the receiver's window. */
  predicate Conserved(s: System) {
    s.left.chan.txCredits + |Payloads(s.toRight)| + CreditSum(s.toLeft) == s.right.chan.rxCredits as int
  }

  /** The direction from left to right is open: its receiver holds a credit window. */
  predicate Open(s: System) {
    s.right.chan.rxCredits > 0
  }

  /** What is in flight and still unsent completes, without a refusal, exactly the SDUs written. */
  predicate OnCourse(s: System) {
    var coming := Payloads(s.toRight) + s.left.unsent;
    var d := ReceiveAll(s.right.chan, coming);
    Accepts(s.right.chan, coming) && Idle(d) && d.delivered == s.left.written && d.rxCredits > 0
  }

  /** A direction that never opened: its reader has been handed a part of what was written and holds no bytes. */
  predicate Blocked(s: System) {
    Idle(s.right.chan) && s.right.chan.delivered <= s.left.written
  }

  /** One direction, open or closed. */
  predicate Orderly(s: System) {
    && Conserved(s)
    && (if Open(s) then OnCourse(s) else Blocked(s))
    && Disconnection !in s.toRight
  }

  predicate Invariant(s: System) {
    Orderly(s) && Orderly(Flip(s))
  }

  /** Nothing sent yet, and each end's transmit credits are the other's receive window, open or not. */
  predicate Initial(s: System) {
    && s.toRight == [] && s.toLeft == []
    && Fresh(s.left) && Fresh(s.right)
    && s.left.chan.txCredits == s.right.chan.rxCredits
    && s.right.chan.txCredits == s.left.chan.rxCredits
  }

  predicate Fresh(e: Endpoint) {
    e.unsent == [] && e.written == [] && Idle(e.chan) && e.chan.delivered == []
  }

  lemma InitialInvariant(s: System)
    requires Initial(s)
    ensures Invariant(s)
  {
  }

  lemma WriteKeeps(s: System, a: Action)
    requires Invariant(s) && a.Write? && EnabledLeft(s, a)
    ensures Invariant(StepLeft(s, a))
  {
    if Open(s) {
      WriteStaysOnCourse(s, a);
    }
  }

  lemma WriteStaysOnCourse(s: System, a: Action)
    requires OnCourse(s) && a.Write? && EnabledLeft(s, a)
    ensures OnCourse(StepLeft(s, a))
  {
    var t := StepLeft(s, a);
    var coming := Payloads(s.toRight) + s.left.unsent;
    var fs := Segments(a.sdu, s.left.chan.txMPS);
    var d := ReceiveAll(s.right.chan, coming);
    RunKeepsConfiguration(s.right.chan, coming);
    SduDelivered(d, a.sdu, s.left.chan.txMPS);
    ReceiveAllAppend(s.right.chan, coming, fs);
    Associate(Payloads(s.toRight), s.left.unsent, fs);
  }

  lemma SendKeeps(s: System, a: Action)
    requires Invariant(s) && a.Send? && EnabledLeft(s, a)
    ensures Invariant(StepLeft(s, a))
  {
    var t := StepLeft(s, a);
    WireAppend(s.toRight, [Data(s.left.unsent[0])]);
    assert Payloads([Data(s.left.unsent[0])]) == [s.left.unsent[0]];
    assert Payloads(t.toRight) + t.left.unsent == Payloads(s.toRight) + s.left.unsent;
    assert Orderly(t);
    TxCreditsDoNotMatter(s.left.chan, t.left.chan, Payloads(s.toLeft) + s.right.unsent);
  }

  /** An open receiver takes the next frame as it should. */
  lemma FrameTaken(s: System)
    requires Orderly(Flip(s)) && s.toLeft != [] && s.toLeft[0].Data?
    ensures var (chan, reply) := Receive(s.left.chan, s.toLeft[0].payload);
            && !reply.RequestDisconnect? && chan.rxCredits > 0
            && chan.rxCredits as int == s.left.chan.rxCredits - 1 + Grant(reply)
            && OnCourse(System(s.right, s.left.(chan := chan), s.toLeft[1..], s.toRight))
  {
    var coming := Payloads(s.toLeft) + s.right.unsent;
    assert Open(Flip(s));
    assert coming[0] == s.toLeft[0].payload;
    assert coming[1..] == Payloads(s.toLeft[1..]) + s.right.unsent;
  }

  lemma DeliverData(s: System, a: Action)
    requires Invariant(s) && a.Deliver? && EnabledLeft(s, a) && s.toLeft[0].Data?
    ensures Invariant(StepLeft(s, a))
  {
    var t := StepLeft(s, a);
    FrameTaken(s);
    AnswerAppends(s.toRight, Receive(s.left.chan, s.toLeft[0].payload).1);
    assert Orderly(t);
    assert Orderly(Flip(t));
  }

  /** The state after the left end has taken a credit indication off its wire. */
  function Granted(s: System): System
    requires s.toLeft != [] && s.toLeft[0].Credits? && s.left.chan.txCredits + s.toLeft[0].count <= 0xFFFF
  {
    var chan := s.left.chan.(txCredits := s.left.chan.txCredits + s.toLeft[0].count);
    s.(left := s.left.(chan := chan), toLeft := s.toLeft[1..])
  }

  lemma GrantFits(s: System, a: Action)
    requires Conserved(s) && a.Deliver? && EnabledLeft(s, a) && s.toLeft[0].Credits?
    ensures s.left.chan.txCredits + s.toLeft[0].count <= 0xFFFF && StepLeft(s, a) == Granted(s)
    ensures Conserved(Granted(s))
  {
    assert CreditSum(s.toLeft) == s.toLeft[0].count + CreditSum(s.toLeft[1..]);
    assert Indicate(s.left.chan, s.toLeft[0].count).1.Quiet?;
    assert s.toRight + [] == s.toRight;
  }

  lemma DeliverCredits(s: System, a: Action)
    requires Invariant(s) && a.Deliver? && EnabledLeft(s, a) && s.toLeft[0].Credits?
    ensures Invariant(StepLeft(s, a))
  {
    GrantFits(s, a);
    GrantSent(s);
    GrantTaken(s);
  }

  /** The direction in which the left end sends. */
  lemma GrantSent(s: System)
    requires Orderly(s) && s.toLeft != [] && s.toLeft[0].Credits?
    requires s.left.chan.txCredits + s.toLeft[0].count <= 0xFFFF && Conserved(Granted(s))
    ensures Orderly(Granted(s))
  {
  }

  /** The direction in which it receives. */
  lemma GrantTaken(s: System)
    requires Orderly(Flip(s)) && s.toLeft != [] && s.toLeft[0].Credits?
    requires s.left.chan.txCredits + s.toLeft[0].count <= 0xFFFF
    ensures Orderly(Flip(Granted(s)))
  {
    var t := Granted(s);
    assert Payloads(t.toLeft) == Payloads(s.toLeft);
    TxCreditsDoNotMatter(s.left.chan, t.left.chan, Payloads(s.toLeft) + s.right.unsent);
  }

  lemma DeliverKeeps(s: System, a: Action)
    requires Invariant(s) && a.Deliver? && EnabledLeft(s, a)
    ensures Invariant(StepLeft(s, a))
  {
    match s.toLeft[0] {
      case Data(_) => DeliverData(s, a);
      case Credits(_) => DeliverCredits(s, a);
      case Disconnection => assert false;
    }
  }

  /** Each direction is open in t if it is open in s. */
  predicate SameWindows(s: System, t: System) {
    (Open(s) <==> Open(t)) && (Open(Flip(s)) <==> Open(Flip(t)))
  }

  lemma WindowsStay(s: System, a: Action)
    requires Invariant(s) && EnabledLeft(s, a)
    ensures SameWindows(s, StepLeft(s, a))
  {
    if a.Deliver? && s.toLeft[0].Data? {
      var coming := Payloads(s.toLeft) + s.right.unsent;
      assert Open(Flip(s)) && coming[0] == s.toLeft[0].payload;
      assert !Receive(s.left.chan, s.toLeft[0].payload).1.RequestDisconnect?;
    }
  }

  lemma StepLeftKeepsInvariant(s: System, a: Action)
    requires Invariant(s) && EnabledLeft(s, a)
    ensures Invariant(StepLeft(s, a)) && SameWindows(s, StepLeft(s, a))
  {
    WindowsStay(s, a);
    match a {
      case Write(_, _) => WriteKeeps(s, a);
      case Send(_) => SendKeeps(s, a);
      case Deliver(_) => DeliverKeeps(s, a);
    }
  }

  lemma StepKeepsInvariant(s: System, a: Action)
    requires Invariant(s) && Enabled(s, a)
    ensures Invariant(Step(s, a)) && SameWindows(s, Step(s, a))
  {
    if a.side.Right? {
      StepLeftKeepsInvariant(Flip(s), Mirror(a));
    } else {
      StepLeftKeepsInvariant(s, a);
    }
  }

  /** Safety over every run between ends that start with matching credits, each direction open or closed, and write
      within the limits: credits are conserved both ways in every reachable state, nobody ever asks to disconnect, and
      an open direction stays open. */
  lemma {:induction false} CreditConservation(s: System, actions: seq<Action>)
    requires Invariant(s) && IsRun(s, actions)
    ensures var t := Run(s, actions);
            && Invariant(t) && SameWindows(s, t)
            && Disconnection !in t.toRight && Disconnection !in t.toLeft
            && t.left.chan.txCredits + |Payloads(t.toRight)| + CreditSum(t.toLeft) == t.right.chan.rxCredits as int
            && t.right.chan.txCredits + |Payloads(t.toLeft)| + CreditSum(t.toRight) == t.left.chan.rxCredits as int
    decreases |actions|
  {
    if actions != [] {
      StepKeepsInvariant(s, actions[0]);
      CreditConservation(Step(s, actions[0]), actions[1..]);
    }
  }

  /** At every moment of every run each reader has been handed a prefix of what the other end wrote. */
  lemma DeliveredPrefix(s: System, actions: seq<Action>)
    requires Invariant(s) && IsRun(s, actions)
    ensures Run(s, actions).right.chan.delivered <= Run(s, actions).left.written
    ensures Run(s, actions).left.chan.delivered <= Run(s, actions).right.written
  {
    CreditConservation(s, actions);
    var t := Run(s, actions);
    DeliveredGrows(t.right.chan, Payloads(t.toRight) + t.left.unsent);
    DeliveredGrows(t.left.chan, Payloads(t.toLeft) + t.right.unsent);
  }

  // ------------------------------------------------------------------ a closed window

  /** The left end has no credit and none can be on its way: nothing was sent, so nothing will be granted. */
  predicate Starved(s: System) {
    s.left.chan.txCredits == 0 && Payloads(s.toRight) == [] && CreditSum(s.toLeft) == 0
  }

  lemma StarvedStep(s: System, a: Action)
    requires Starved(s) && Enabled(s, a)
    ensures Starved(Step(s, a)) && Step(s, a).right.chan.delivered == s.right.chan.delivered
    ensures s.left.unsent <= Step(s, a).left.unsent && (!a.Write? ==> Step(s, a).left.unsent == s.left.unsent)
  {
    if a.side.Right? {
      if a.Send? {
        WireAppend(s.toLeft, [Data(s.right.unsent[0])]);
        assert CreditSum([Data(s.right.unsent[0])]) == 0;
      } else if a.Deliver? {
        assert !s.toRight[0].Data?;
        var out := Answer(Handle(s.right.chan, s.toRight[0]).1);
        WireAppend(s.toLeft, out);
        assert CreditSum(out) == 0;
      }
    } else if a.Deliver? {
      var out := Answer(Handle(s.left.chan, s.toLeft[0]).1);
      WireAppend(s.toRight, out);
      assert Payloads(out) == [];
    }
  }

  /** A request may open with no credits, and `receive` grants only in reply to frames: a window that starts at zero
      stays at zero, and on no run whatever is a frame sent or anything delivered through it. */
  lemma {:induction false} ClosedWindowStaysClosed(s: System, actions: seq<Action>)
    requires Starved(s) && IsRun(s, actions)
    ensures var t := Run(s, actions);
            && Starved(t) && t.right.chan.delivered == s.right.chan.delivered
            && s.left.unsent <= t.left.unsent && (NoWrites(actions) ==> t.left.unsent == s.left.unsent)
    decreases |actions|
  {
    if actions != [] {
      StarvedStep(s, actions[0]);
      ClosedWindowStaysClosed(Step(s, actions[0]), actions[1..]);
    }
  }

  // ------------------------------------------------------------------ progress and termination

  /** Nothing is in flight, and nothing is left to send in a direction that is open. */
  predicate Settled(s: System) {
    && s.toLeft == [] && s.toRight == []
    && (Open(s) ==> s.left.unsent == []) && (Open(Flip(s)) ==> s.right.unsent == [])
  }

  /** Each unsent frame may still cost a send, a delivery and the delivery of the grant it provokes. */
  function Work(s: System): nat {
    3 * (|s.left.unsent| + |s.right.unsent|)
    + 2 * (|Payloads(s.toLeft)| + |Payloads(s.toRight)|)
    + CreditCount(s.toLeft) + CreditCount(s.toRight)
  }

  /** No send and no delivery is possible. */
  ghost predicate Halted(s: System) {
    forall a: Action :: !a.Write? ==> !Enabled(s, a)
  }

  lemma Movable(s: System) returns (a: Action)
    requires Conserved(s) && Conserved(Flip(s)) && !Settled(s)
    ensures !a.Write? && Enabled(s, a)
  {
    if s.toLeft != [] {
      a := Deliver(Left);
    } else if s.toRight != [] {
      a := Deliver(Right);
    } else if Open(s) && s.left.unsent != [] {
      a := Send(Left);
    } else {
      a := Send(Right);
    }
  }

  /** No reachable state is stuck: sends and deliveries stop exactly where nothing is in flight and whatever is still
      unsent waits on a window that never opened. */
  lemma NoDeadlock(s: System)
    requires Conserved(s) && Conserved(Flip(s))
    ensures Halted(s) <==> Settled(s)
  {
    if !Settled(s) {
      var a := Movable(s);
      assert Enabled(s, a);
    }
  }

  lemma WorkDecreasesLeft(s: System, a: Action)
    requires Conserved(s) && Disconnection !in s.toLeft && !a.Write? && EnabledLeft(s, a)
    ensures Work(StepLeft(s, a)) < Work(s)
  {
    var t := StepLeft(s, a);
    if a.Send? {
      WireAppend(s.toRight, [Data(s.left.unsent[0])]);
      assert |Payloads([Data(s.left.unsent[0])])| == 1 && CreditCount([Data(s.left.unsent[0])]) == 0;
    } else {
      var out := Answer(Handle(s.left.chan, s.toLeft[0]).1);
      WireAppend(s.toRight, out);
      assert |Payloads(out)| == 0 && CreditCount(out) <= 1;
      assert s.toLeft[0] != Disconnection;
      if s.toLeft[0].Credits? {
        assert CreditSum(s.toLeft) >= s.toLeft[0].count;
        assert out == [];
      }
    }
  }

  lemma WorkDecreases(s: System, a: Action)
    requires Conserved(s) && Conserved(Flip(s)) && Disconnection !in s.toLeft && Disconnection !in s.toRight
    requires !a.Write? && Enabled(s, a)
    ensures Work(Step(s, a)) < Work(s)
  {
    if a.side.Right? {
      WorkDecreasesLeft(Flip(s), Mirror(a));
    } else {
      WorkDecreasesLeft(s, a);
    }
  }

  predicate NoWrites(actions: seq<Action>) {
    forall i :: 0 <= i < |actions| ==> !actions[i].Write?
  }

  lemma {:induction false} RunsAreBounded(s: System, actions: seq<Action>)
    requires Invariant(s) && IsRun(s, actions) && NoWrites(actions)
    ensures |actions| + Work(Run(s, actions)) <= Work(s)
    decreases |actions|
  {
    if actions != [] {
      assert !actions[0].Write?;
      StepKeepsInvariant(s, actions[0]);
      WorkDecreases(s, actions[0]);
      RunsAreBounded(Step(s, actions[0]), actions[1..]);
    }
  }

  /** From left to right, t has what s still owed: everything written, if the direction is open, and otherwise exactly
      what it had, with every frame still waiting. Either way the reader's buffer is empty. */
  predicate Served(s: System, t: System) {
    && t.left.written == s.left.written && Idle(t.right.chan)
    && if Open(s)
       then t.right.chan.delivered == s.left.written && t.left.unsent == []
       else t.right.chan.delivered == s.right.chan.delivered && t.left.unsent == s.left.unsent
  }

  predicate AllServed(s: System, t: System) {
    t.toLeft == [] && t.toRight == [] && Served(s, t) && Served(Flip(s), Flip(t))
  }

  /** Every maximal run ends well: once the writers stop, a run has at most Work steps, and where no send or delivery
      is possible any more every SDU written in an open direction has been delivered, nothing has happened in a closed
      one, and no byte is left in a buffer or on a wire. */
  lemma {:induction false} MaximalRunsDeliver(s: System, actions: seq<Action>)
    requires Invariant(s) && IsRun(s, actions) && NoWrites(actions)
    ensures |actions| <= Work(s)
    ensures Halted(Run(s, actions)) ==> AllServed(s, Run(s, actions))
  {
    RunsAreBounded(s, actions);
    CreditConservation(s, actions);
    WrittenUnchanged(s, actions);
    var t := Run(s, actions);
    NoDeadlock(t);
    if Halted(t) {
      FlippedRun(s, actions);
      SettledServes(s, actions);
      SettledServes(Flip(s), Mirrors(actions));
    }
  }

  lemma SettledServes(s: System, actions: seq<Action>)
    requires Invariant(s) && IsRun(s, actions) && NoWrites(actions) && Settled(Run(s, actions))
    ensures Served(s, Run(s, actions))
  {
    var t := Run(s, actions);
    CreditConservation(s, actions);
    WrittenUnchanged(s, actions);
    if Open(s) {
      assert Payloads(t.toRight) + t.left.unsent == [];
    } else {
      ClosedWindowStaysClosed(s, actions);
    }
  }

  function Mirrors(actions: seq<Action>): (r: seq<Action>)
    ensures |r| == |actions| && forall i :: 0 <= i < |actions| ==> r[i] == Mirror(actions[i])
  {
    if actions == [] then [] else [Mirror(actions[0])] + Mirrors(actions[1..])
  }

  /** The system has no preferred side: the mirrored run of the mirrored system is the run, mirrored. */
  lemma {:induction false} FlippedRun(s: System, actions: seq<Action>)
    requires IsRun(s, actions)
    ensures IsRun(Flip(s), Mirrors(actions)) && Run(Flip(s), Mirrors(actions)) == Flip(Run(s, actions))
    decreases |actions|
  {
    if actions != [] {
      FlippedRun(Step(s, actions[0]), actions[1..]);
      assert Step(Flip(s), Mirror(actions[0])) == Flip(Step(s, actions[0]));
      assert Mirrors(actions)[1..] == Mirrors(actions[1..]);
    }
  }

  lemma {:induction false} WrittenUnchanged(s: System, actions: seq<Action>)
    requires IsRun(s, actions) && NoWrites(actions)
    ensures Run(s, actions).left.written == s.left.written && Run(s, actions).right.written == s.right.written
    decreases |actions|
  {
    if actions != [] {
      assert !actions[0].Write?;
      WrittenUnchanged(Step(s, actions[0]), actions[1..]);
    }
  }

  /** From every reachable state the outstanding work can be finished. */
  lemma {:induction false} CompletionExists(s: System) returns (actions: seq<Action>)
    requires Invariant(s)
    ensures IsRun(s, actions) && NoWrites(actions) && AllServed(s, Run(s, actions))
  {
    actions := SettlingRun(s);
    CreditConservation(s, actions);
    NoDeadlock(Run(s, actions));
    MaximalRunsDeliver(s, actions);
  }

  lemma {:induction false} SettlingRun(s: System) returns (actions: seq<Action>)
    requires Invariant(s)
    ensures IsRun(s, actions) && NoWrites(actions) && Settled(Run(s, actions))
    decreases Work(s)
  {
    if Settled(s) {
      actions := [];
    } else {
      var a := Movable(s);
      StepKeepsInvariant(s, a);
      WorkDecreases(s, a);
      var more := SettlingRun(Step(s, a));
      actions := [a] + more;
      assert actions[1..] == more;
    }
  }

  /** So a first write gets through on some run exactly when its receiver opened with a credit, whatever the window the
      other way. */
  lemma DeliveryNeedsAnOpenWindow(s: System, sdu: seq<Byte>)
    requires Initial(s) && Enabled(s, Write(Left, sdu))
    ensures var w := Step(s, Write(Left, sdu));
            (exists actions :: IsRun(w, actions) && Run(w, actions).right.chan.delivered == [sdu])
            <==> s.right.chan.rxCredits > 0
  {
    var w := Step(s, Write(Left, sdu));
    if s.right.chan.rxCredits > 0 {
      InitialInvariant(s);
      StepKeepsInvariant(s, Write(Left, sdu));
      var actions := CompletionExists(w);
      assert Run(w, actions).right.chan.delivered == [sdu];
    } else {
      forall actions | IsRun(w, actions) ensures Run(w, actions).right.chan.delivered != [sdu] {
        ClosedWindowStaysClosed(w, actions);
      }
    }
  }
}
