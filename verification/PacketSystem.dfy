/** The whole stack as one machine: the two connections, their PDUs cut into ACL packets that wait for buffers, and the
    packets recombined at the other end. Channel credits and buffer credits throttle it together. */
module PacketSystem {
  import opened Bytes
  import opened Sums
  import opened AclPackets
  import opened Recombination
  import opened EndToEnd
  import opened R = Runs
  import A = AclCredits
  import C = CreditSystem
  import F = Frames
  import I = Interleavings
  import S = Signalling
  import W = WireSystem
  import Q = WireRuns

  /** An end with its host controller interface: what it has recombined so far, the packets it has cut and not yet
      written, its ledger beside the controller, and the ACLMTU. */
  datatype Host = Host(node: W.Node, buf: seq<Byte>, outgoing: seq<AclPacket>, world: A.World, mtu: nat)

  /** Between the two controllers, packets of this connection in order. */
  datatype Stack = Stack(left: Host, right: Host, toRight: seq<AclPacket>, toLeft: seq<AclPacket>)

  datatype Action =
    | Begin(act: W.Action)
    | Transmit(side: C.Side)
    | Complete(side: C.Side, handle: Uint16)
    | Arrive(side: C.Side)

  function Swap(n: Stack): Stack {
    Stack(n.right, n.left, n.toLeft, n.toRight)
  }

  function SideOf(a: Action): C.Side {
    if a.Begin? then a.act.side else a.side
  }

  function Mirror(a: Action): Action {
    var side := if SideOf(a).Right? then C.Left else C.Right;
    match a
    case Begin(act) => Begin(W.Mirror(act))
    case Transmit(_) => Transmit(side)
    case Complete(_, g) => Complete(side, g)
    case Arrive(_) => Arrive(side)
  }

  /** The two connections, without what is between them. */
  function Nodes(n: Stack): W.Net {
    W.Net(n.left.node, n.right.node, [], [])
  }

  /** A write or a send as before; a packet is written when a buffer is free; the controller completes what it holds. */
  ghost predicate EnabledLeft(n: Stack, links: set<W.Link>, a: Action) {
    match a
    case Begin(act) => !act.Deliver? && act.link in links && W.EnabledLeft(Nodes(n), act)
    case Transmit(_) => n.left.outgoing != [] && n.left.world.ledger.remaining > 0
    case Complete(_, g) => A.Legal(n.left.world, A.Completed([(g, 1)]))
    case Arrive(_) => n.toLeft != []
  }

  /** WritePacket, for the replies: each in a single packet, whatever its size. */
  function Wholes(handle: Uint16, pdus: seq<seq<Byte>>): (r: seq<AclPacket>)
    ensures |r| == |pdus|
  {
    if pdus == [] then []
    else [AclPacket(FIRST_FROM_HOST, 0, handle, pdus[0])] + Wholes(handle, pdus[1..])
  }

  /** What a packet from the air does to an end. */
  ghost function Arrived(h: Uint16, e: Host, q: AclPacket): Host {
    var (buf, out) := Recombine(h, e.buf, Relay(q));
    if out.Pdu? then
      e.(node := W.Handled(e.node, out.bytes), buf := buf,
         outgoing := e.outgoing + Wholes(h, W.Replies(e.node, out.bytes)))
    else e.(buf := buf)
  }

  ghost function StepLeft(h: Uint16, n: Stack, links: set<W.Link>, a: Action): Stack
    requires EnabledLeft(n, links, a) && n.left.mtu > 0
  {
    match a
    case Begin(Write(_, l, sdu)) => n.(left := n.left.(node := W.Wrote(n.left.node, l.left, sdu)))
    case Begin(Send(_, l)) =>
      var fs := Fragments(h, W.NextFrame(n.left.node, l.left), n.left.mtu);
      n.(left := n.left.(node := W.Paid(n.left.node, l.left), outgoing := n.left.outgoing + fs))
    case Transmit(_) =>
      n.(left := n.left.(outgoing := n.left.outgoing[1..], world := A.Next(n.left.world, A.Sent(h))),
         toRight := n.toRight + [n.left.outgoing[0]])
    case Complete(_, g) =>
      n.(left := n.left.(world := A.Next(n.left.world, A.Completed([(g, 1)]))))
    case Arrive(_) =>
      n.(left := Arrived(h, n.left, n.toLeft[0]), toLeft := n.toLeft[1..])
  }

  ghost predicate Enabled(n: Stack, links: set<W.Link>, a: Action) {
    n.left.mtu > 0 && n.right.mtu > 0 &&
    if SideOf(a).Right? then EnabledLeft(Swap(n), W.Backs(links), Mirror(a)) else EnabledLeft(n, links, a)
  }

  ghost function Step(h: Uint16, n: Stack, links: set<W.Link>, a: Action): Stack
    requires Enabled(n, links, a)
  {
    if SideOf(a).Right? then Swap(StepLeft(h, Swap(n), W.Backs(links), Mirror(a))) else StepLeft(h, n, links, a)
  }

  ghost function Steps(h: Uint16, links: set<W.Link>): (Stack, Action) -> Option<Stack> {
    (n, a) => if Enabled(n, links, a) then Some(Step(h, n, links, a)) else None
  }

  ghost predicate IsRun(h: Uint16, n: Stack, links: set<W.Link>, actions: seq<Action>) {
    R.IsRun(Steps(h, links), n, actions)
  }

  ghost function Run(h: Uint16, n: Stack, links: set<W.Link>, actions: seq<Action>): Stack
    requires IsRun(h, n, links, actions)
  {
    R.Run(Steps(h, links), n, actions)
  }

  // ------------------------------------------------------------------ what the packets will become

  /** The PDUs that a receiver with this buffer will make of the packets on their way to it. */
  function Becoming(h: Uint16, buf: seq<Byte>, qs: seq<AclPacket>): seq<seq<Byte>> {
    Pdus(h, buf, RelayAll(qs))
  }

  /** It will make all of them, refuse none, and have nothing left. */
  predicate Flows(h: Uint16, buf: seq<Byte>, qs: seq<AclPacket>) {
    Clean(h, buf, RelayAll(qs)) && Residue(h, buf, RelayAll(qs)) == []
  }

  /** The same system with whole PDUs on the wires. */
  function View(h: Uint16, n: Stack): W.Net {
    W.Net(n.left.node, n.right.node,
          Becoming(h, n.right.buf, n.toRight + n.left.outgoing), Becoming(h, n.left.buf, n.toLeft + n.right.outgoing))
  }

  lemma FlowAppend(h: Uint16, buf: seq<Byte>, qs: seq<AclPacket>, fs: seq<AclPacket>)
    requires Flows(h, buf, qs) && Flows(h, [], fs)
    ensures Flows(h, buf, qs + fs) && Becoming(h, buf, qs + fs) == Becoming(h, buf, qs) + Becoming(h, [], fs)
  {
    RelayAppend(qs, fs);
    RunAppend(h, buf, RelayAll(qs), RelayAll(fs));
  }

  lemma FlowHead(h: Uint16, buf: seq<Byte>, qs: seq<AclPacket>)
    requires Flows(h, buf, qs) && qs != []
    ensures var (next, out) := Recombine(h, buf, Relay(qs[0]));
            && !out.Fault? && Flows(h, next, qs[1..])
            && Becoming(h, buf, qs) == (if out.Pdu? then [out.bytes] else []) + Becoming(h, next, qs[1..])
  {
    I.RelayCons(qs[0], qs[1..]);
    assert [qs[0]] + qs[1..] == qs;
    I.RunCons(h, buf, Relay(qs[0]), RelayAll(qs[1..]));
  }

  lemma FragmentsFlow(h: Uint16, pdu: seq<Byte>, mtu: nat)
    requires F.SelfDelimiting(pdu) && mtu > 0
    ensures Flows(h, [], Fragments(h, pdu, mtu)) && Becoming(h, [], Fragments(h, pdu, mtu)) == [pdu]
  {
    FragmentsRecombine(h, pdu, mtu);
  }

  lemma {:induction false} WholesFlow(h: Uint16, pdus: seq<seq<Byte>>)
    requires forall p :: p in pdus ==> F.SelfDelimiting(p)
    ensures Flows(h, [], Wholes(h, pdus)) && Becoming(h, [], Wholes(h, pdus)) == pdus
    decreases |pdus|
  {
    if pdus != [] {
      var pdu := pdus[0];
      assert pdu in pdus;
      FragmentsFlow(h, pdu, |pdu|);
      assert Fragments(h, pdu, |pdu|) == [AclPacket(FIRST_FROM_HOST, 0, h, pdu)] by {
        assert Label(h, [pdu], true)[1..] == [];
      }
      WholesFlow(h, pdus[1..]);
      FlowAppend(h, [], [AclPacket(FIRST_FROM_HOST, 0, h, pdu)], Wholes(h, pdus[1..]));
      assert [pdu] + pdus[1..] == pdus;
    }
  }

  // ------------------------------------------------------------------ the invariant

  /** The buffers of one controller: some, and no more than sixteen bits can count. */
  ghost predicate Stocked(w: A.World) {
    0 < w.ledger.remaining + Sum(w.outstanding) <= 0xFFFF
  }

  ghost predicate Good(h: Uint16, n: Stack, links: set<W.Link>) {
    && W.Good(View(h, n), links)
    && Flows(h, n.right.buf, n.toRight + n.left.outgoing) && Flows(h, n.left.buf, n.toLeft + n.right.outgoing)
    && Stocked(n.left.world) && Stocked(n.right.world) && n.left.mtu > 0 && n.right.mtu > 0
  }

  lemma SentStocked(w: A.World, h: Uint16)
    requires Stocked(w) && A.Legal(w, A.Sent(h))
    ensures var v := A.Next(w, A.Sent(h));
            Stocked(v) && Sum(v.outstanding) == Sum(w.outstanding) + 1
            && v.ledger.remaining + Sum(v.outstanding) == w.ledger.remaining + Sum(w.outstanding)
  {
    SumUpdate(w.outstanding, h, At(w.outstanding, h, 0) + 1);
  }

  lemma CompletedStocked(w: A.World, g: Uint16)
    requires Stocked(w) && A.Legal(w, A.Completed([(g, 1)]))
    ensures var v := A.Next(w, A.Completed([(g, 1)]));
            Stocked(v) && Sum(v.outstanding) + 1 == Sum(w.outstanding)
            && v.ledger.remaining + Sum(v.outstanding) == w.ledger.remaining + Sum(w.outstanding)
  {
    assert [(g, 1 as Uint16)][1..] == [];
    A.OneCompleted(w.outstanding, g, 1);
    SumUpdate(w.outstanding, g, At(w.outstanding, g, 0) - 1);
  }

  // ------------------------------------------------------------------ the refinement

  lemma FrameWhole(n: W.Node, k: Uint16, peer: Uint16)
    requires W.Channelled(n, k, peer) && n.lines[k].unsent != []
    ensures F.SelfDelimiting(W.NextFrame(n, k)) && |W.NextFrame(n, k)| <= 0xFFFF
  {
    assert n.lines[k].unsent[0] in n.lines[k].unsent;
    F.MarshalledIsSelfDelimiting(F.BFrame(W.Chan(n, k).txCID, n.lines[k].unsent[0]));
  }

  lemma GrantWhole(id: Byte, cid: Uint16, n: Uint16)
    ensures F.SelfDelimiting(W.SignalPdu(S.CreditIndication(id, cid, n)))
  {
    F.MarshalledIsSelfDelimiting(F.BFrame(F.CID_SIGNALLING_LEU, S.Marshal(S.CreditIndication(id, cid, n)).value));
  }

  /** What an end in good order replies is at most one whole PDU. */
  lemma RepliesWhole(n: W.Net, links: set<W.Link>)
    requires W.Good(n, links) && n.toLeft != []
    ensures var pdus := W.Replies(n.left, n.toLeft[0]);
            |pdus| <= 1 && forall p :: p in pdus ==> F.SelfDelimiting(p)
  {
    var m := W.Concerned(n, links, W.Deliver(C.Left));
    var msg := W.Message(n.toLeft[0], m.left, m.right)[0];
    var reply := C.Handle(W.Chan(n.left, m.left), msg).1;
    W.MeantFor(n, links, m);
    W.HandleMeans(n.left, m.left, m.right, n.toLeft[0]);
    if reply.GrantCredits? {
      GrantWhole(n.left.identifier, W.Chan(n.left, m.left).rxCID, reply.credits);
    }
  }

  /** A write or a send is the same step with packets. */
  lemma BeginSimulates(h: Uint16, n: Stack, links: set<W.Link>, a: Action)
    requires Good(h, n, links) && EnabledLeft(n, links, a) && a.Begin? && a.act.side.Left?
    ensures var t := StepLeft(h, n, links, a);
            && W.EnabledLeft(View(h, n), a.act) && View(h, t) == W.StepLeft(View(h, n), a.act)
            && Flows(h, t.right.buf, t.toRight + t.left.outgoing)
  {
    if a.act.Send? {
      var l := a.act.link;
      var pdu := W.NextFrame(n.left.node, l.left);
      FrameWhole(n.left.node, l.left, l.right);
      FragmentsFlow(h, pdu, n.left.mtu);
      FlowAppend(h, n.right.buf, n.toRight + n.left.outgoing, Fragments(h, pdu, n.left.mtu));
      Associate(n.toRight, n.left.outgoing, Fragments(h, pdu, n.left.mtu));
    }
  }

  lemma TransmitSimulates(h: Uint16, n: Stack, links: set<W.Link>, a: Action)
    requires Good(h, n, links) && EnabledLeft(n, links, a) && a.Transmit?
    ensures var t := StepLeft(h, n, links, a);
            View(h, t) == View(h, n) && t.toRight + t.left.outgoing == n.toRight + n.left.outgoing
  {
    AppendOne(n.toRight, n.left.outgoing[0], n.left.outgoing[1..]);
    assert [n.left.outgoing[0]] + n.left.outgoing[1..] == n.left.outgoing;
  }

  /** A packet that completes no PDU changes nothing but the buffer it is in. */
  lemma ArrivalSilent(h: Uint16, n: Stack, links: set<W.Link>, a: Action)
    requires Good(h, n, links) && EnabledLeft(n, links, a) && a.Arrive?
    requires !Recombine(h, n.left.buf, Relay(n.toLeft[0])).1.Pdu?
    ensures var t := StepLeft(h, n, links, a);
            View(h, t) == View(h, n) && Flows(h, t.left.buf, t.toLeft + t.right.outgoing)
  {
    var qs := n.toLeft + n.right.outgoing;
    assert qs[0] == n.toLeft[0] && qs[1..] == n.toLeft[1..] + n.right.outgoing;
    FlowHead(h, n.left.buf, qs);
  }

  /** A packet that completes one delivers it. */
  lemma ArrivalDelivers(h: Uint16, n: Stack, links: set<W.Link>, a: Action)
    requires Good(h, n, links) && EnabledLeft(n, links, a) && a.Arrive?
    requires Recombine(h, n.left.buf, Relay(n.toLeft[0])).1.Pdu?
    ensures var t := StepLeft(h, n, links, a); var v := View(h, n);
            && v.toLeft != [] && View(h, t) == W.StepLeft(v, W.Deliver(C.Left))
            && Flows(h, t.left.buf, t.toLeft + t.right.outgoing) && Flows(h, t.right.buf, t.toRight + t.left.outgoing)
            && |t.left.outgoing| <= |n.left.outgoing| + 1
  {
    var qs := n.toLeft + n.right.outgoing;
    assert qs[0] == n.toLeft[0] && qs[1..] == n.toLeft[1..] + n.right.outgoing;
    FlowHead(h, n.left.buf, qs);
    var v := View(h, n);
    var bytes := Recombine(h, n.left.buf, Relay(n.toLeft[0])).1.bytes;
    var next := Recombine(h, n.left.buf, Relay(n.toLeft[0])).0;
    assert v.toLeft[0] == bytes && v.toLeft[1..] == Becoming(h, next, qs[1..]);
    RepliesWhole(v, links);
    var pdus := W.Replies(n.left.node, bytes);
    WholesFlow(h, pdus);
    FlowAppend(h, n.right.buf, n.toRight + n.left.outgoing, Wholes(h, pdus));
    Associate(n.toRight, n.left.outgoing, Wholes(h, pdus));
  }

  /** The step of the system with whole PDUs that a step here amounts to, if any. */
  function PartLeft(h: Uint16, n: Stack, a: Action): Option<W.Action> {
    match a
    case Begin(act) => Some(act)
    case Arrive(_) =>
      if n.toLeft != [] && Recombine(h, n.left.buf, Relay(n.toLeft[0])).1.Pdu? then Some(W.Deliver(C.Left)) else None
    case _ => None
  }

  /** One step of the left end: the invariant is kept, and the view makes its step, or none. */
  lemma StepLeftRefines(h: Uint16, n: Stack, links: set<W.Link>, a: Action)
    requires Good(h, n, links) && EnabledLeft(n, links, a) && SideOf(a).Left?
    ensures var t := StepLeft(h, n, links, a); var v := View(h, n);
            && Good(h, t, links)
            && match PartLeft(h, n, a)
               case Some(b) => W.OnLeft(v, links, b) && View(h, t) == W.StepLeft(v, b)
               case None => View(h, t) == v
  {
    match a {
      case Begin(act) =>
        BeginSimulates(h, n, links, a);
        W.StepLeftGood(View(h, n), links, act);
      case Transmit(_) =>
        TransmitSimulates(h, n, links, a);
        SentStocked(n.left.world, h);
      case Complete(_, g) =>
        CompletedStocked(n.left.world, g);
      case Arrive(_) =>
        if Recombine(h, n.left.buf, Relay(n.toLeft[0])).1.Pdu? {
          ArrivalDelivers(h, n, links, a);
          W.StepLeftGood(View(h, n), links, W.Deliver(C.Left));
        } else {
          ArrivalSilent(h, n, links, a);
        }
    }
  }

  function Part(h: Uint16, n: Stack, a: Action): Option<W.Action> {
    if SideOf(a).Right? then
      match PartLeft(h, Swap(n), Mirror(a))
      case Some(b) => Some(W.Mirror(b))
      case None => None
    else PartLeft(h, n, a)
  }

  lemma SwapGood(h: Uint16, n: Stack, links: set<W.Link>)
    requires Good(h, n, links)
    ensures Good(h, Swap(n), W.Backs(links)) && View(h, Swap(n)) == W.Swap(View(h, n))
  {
    W.SwapGood(View(h, n), links);
  }

  lemma StepRefinesRight(h: Uint16, n: Stack, links: set<W.Link>, a: Action)
    requires Good(h, n, links) && Enabled(n, links, a) && SideOf(a).Right?
    ensures var t := Step(h, n, links, a); var v := View(h, n);
            && Good(h, t, links)
            && match Part(h, n, a)
               case Some(b) => W.Enabled(v, links, b) && View(h, t) == W.Step(v, links, b)
               case None => View(h, t) == v
  {
    var f, b := Swap(n), Mirror(a);
    W.BacksBack(links);
    SwapGood(h, n, links);
    StepLeftRefines(h, f, W.Backs(links), b);
    SwapGood(h, StepLeft(h, f, W.Backs(links), b), W.Backs(links));
    if PartLeft(h, f, b).Some? {
      StepMirrored(View(h, n), links, PartLeft(h, f, b).value);
    }
  }

  lemma StepMirrored(v: W.Net, links: set<W.Link>, b: W.Action)
    requires W.OnLeft(W.Swap(v), W.Backs(links), b)
    ensures W.Enabled(v, links, W.Mirror(b)) && W.Step(v, links, W.Mirror(b)) == W.Swap(W.StepLeft(W.Swap(v), b))
  {
    W.BacksBack(links);
    assert W.Mirror(W.Mirror(b)) == b;
  }

  /** One step of either end: the view makes the step that is its part, or none. */
  lemma {:induction false} StepRefines(h: Uint16, n: Stack, links: set<W.Link>, a: Action)
    requires Good(h, n, links) && Enabled(n, links, a)
    ensures var t := Step(h, n, links, a); var v := View(h, n);
            && Good(h, t, links)
            && match Part(h, n, a)
               case Some(b) => W.Enabled(v, links, b) && View(h, t) == W.Step(v, links, b)
               case None => View(h, t) == v
  {
    if SideOf(a).Right? {
      StepRefinesRight(h, n, links, a);
    } else {
      StepLeftRefines(h, n, links, a);
    }
  }

  ghost function Goods(h: Uint16, links: set<W.Link>): Stack -> bool {
    n => Good(h, n, links)
  }

  ghost function Viewing(h: Uint16): Stack -> W.Net {
    n => View(h, n)
  }

  ghost function Parts(h: Uint16): (Stack, Action) -> Option<W.Action> {
    (n, a) => Part(h, n, a)
  }

  lemma StepsRefine(h: Uint16, links: set<W.Link>)
    ensures Kept(Steps(h, links), Goods(h, links))
    ensures Simulated(Steps(h, links), Goods(h, links), Viewing(h), Q.Steps(links), Parts(h))
  {
    forall n, a | Goods(h, links)(n) && Steps(h, links)(n, a).Some?
      ensures Goods(h, links)(Steps(h, links)(n, a).value)
      ensures if Parts(h)(n, a).Some?
              then Q.Steps(links)(Viewing(h)(n), Parts(h)(n, a).value) == Some(Viewing(h)(Steps(h, links)(n, a).value))
              else Viewing(h)(Steps(h, links)(n, a).value) == Viewing(h)(n)
    {
      StepRefines(h, n, links, a);
    }
  }

  predicate NoWrites(actions: seq<Action>) {
    forall i :: 0 <= i < |actions| ==> Quiet(actions[i])
  }

  predicate Quiet(a: Action) {
    a.Begin? ==> !a.act.Write?
  }

  /** The run of the connections that a run of the stack amounts to. */
  ghost function Trace(h: Uint16, n: Stack, links: set<W.Link>, actions: seq<Action>): seq<W.Action>
    requires IsRun(h, n, links, actions)
  {
    R.Trace(Steps(h, links), Parts(h), n, actions)
  }

  lemma PartIsQuiet(h: Uint16, n: Stack, a: Action)
    requires Quiet(a) && Part(h, n, a).Some?
    ensures !Part(h, n, a).value.Write?
  {
  }

  lemma PartsWriteNothing(h: Uint16, n: Stack, links: set<W.Link>, actions: seq<Action>)
    requires IsRun(h, n, links, actions) && NoWrites(actions)
    ensures Q.NoWrites(Trace(h, n, links, actions))
  {
    var quiet := (b: W.Action) => !b.Write?;
    forall t, i | 0 <= i < |actions| && Parts(h)(t, actions[i]).Some? ensures quiet(Parts(h)(t, actions[i]).value) {
      PartIsQuiet(h, t, actions[i]);
    }
    TraceParts(Steps(h, links), Parts(h), quiet, n, actions);
  }

  /** Every run over packets and buffers is, through the PDUs the packets become, a run of the two connections. */
  lemma {:induction false} RunRefines(h: Uint16, n: Stack, links: set<W.Link>, actions: seq<Action>)
    requires Good(h, n, links) && IsRun(h, n, links, actions)
    ensures var own := Trace(h, n, links, actions); var t := Run(h, n, links, actions);
            && Good(h, t, links) && Q.IsRun(View(h, n), links, own) && Q.Run(View(h, n), links, own) == View(h, t)
            && (NoWrites(actions) ==> Q.NoWrites(own))
  {
    StepsRefine(h, links);
    AlwaysKept(Steps(h, links), Goods(h, links), n, actions);
    RunsAreSimulated(Steps(h, links), Goods(h, links), Viewing(h), Q.Steps(links), Parts(h), n, actions);
    if NoWrites(actions) {
      PartsWriteNothing(h, n, links, actions);
    }
  }

  /** Connections and buffers as they start: matching credits, nothing under way, and some buffers on each side. */
  ghost predicate Initial(n: Stack, links: set<W.Link>) {
    && Q.Initial(Nodes(n), links) && n.toRight == [] && n.toLeft == []
    && n.left.buf == [] && n.right.buf == [] && n.left.outgoing == [] && n.right.outgoing == []
    && Stocked(n.left.world) && Stocked(n.right.world) && n.left.mtu > 0 && n.right.mtu > 0
  }

  lemma InitialIsGood(h: Uint16, n: Stack, links: set<W.Link>)
    requires Initial(n, links)
    ensures Good(h, n, links)
  {
    assert View(h, n) == Nodes(n);
    Q.InitialIsGood(Nodes(n), links);
  }

  /** Safety of the whole stack, over every run from its start: recombination refuses no packet, and on every channel
      each reader has a prefix of what the other end wrote. */
  lemma {:induction false} StackSafety(h: Uint16, n: Stack, links: set<W.Link>, actions: seq<Action>)
    requires Initial(n, links) && IsRun(h, n, links, actions)
    ensures var t := Run(h, n, links, actions);
            && Good(h, t, links)
            && (t.toLeft != [] ==> !Recombine(h, t.left.buf, Relay(t.toLeft[0])).1.Fault?)
            && (t.toRight != [] ==> !Recombine(h, t.right.buf, Relay(t.toRight[0])).1.Fault?)
            && forall l :: l in links ==>
                 && W.Chan(t.right.node, l.right).delivered <= t.left.node.lines[l.left].written
                 && W.Chan(t.left.node, l.left).delivered <= t.right.node.lines[l.right].written
  {
    var t := Run(h, n, links, actions);
    InitialIsGood(h, n, links);
    RunRefines(h, n, links, actions);
    assert View(h, n) == Nodes(n);
    Q.WireSafety(View(h, n), links, Trace(h, n, links, actions));
    if t.toLeft != [] {
      assert (t.toLeft + t.right.outgoing)[0] == t.toLeft[0];
      FlowHead(h, t.left.buf, t.toLeft + t.right.outgoing);
    }
    if t.toRight != [] {
      assert (t.toRight + t.left.outgoing)[0] == t.toRight[0];
      FlowHead(h, t.right.buf, t.toRight + t.left.outgoing);
    }
  }

  /** Packets written on a side less those completed there: by one action, and in a run. */
  function Taken1(a: Action, side: C.Side): int {
    if a == Transmit(side) then 1 else if a.Complete? && a.side == side then -1 else 0
  }

  function TakenBy(actions: seq<Action>, side: C.Side): int {
    if actions == [] then 0 else Taken1(actions[0], side) + TakenBy(actions[1..], side)
  }

  /** So many packets more than before are in the controller, and so many buffers fewer remain. */
  ghost predicate Took(w: A.World, v: A.World, packets: int) {
    && Sum(v.outstanding) as int == Sum(w.outstanding) + packets
    && v.ledger.remaining as int == w.ledger.remaining - packets
  }

  /** The part of a step that concerns the left end's controller. */
  function WorldAfter(h: Uint16, w: A.World, a: Action): Option<A.World> {
    if a.Transmit? && A.Legal(w, A.Sent(h)) then Some(A.Next(w, A.Sent(h)))
    else if a.Complete? && A.Legal(w, A.Completed([(a.handle, 1)])) then Some(A.Next(w, A.Completed([(a.handle, 1)])))
    else if a.Transmit? || a.Complete? then None
    else Some(w)
  }

  lemma WorldsAfter(h: Uint16, n: Stack, links: set<W.Link>, a: Action)
    requires EnabledLeft(n, links, a) && n.left.mtu > 0
    ensures var t := StepLeft(h, n, links, a);
            Some(t.left.world) == WorldAfter(h, n.left.world, a) && t.right.world == n.right.world
  {
  }

  lemma WorldTakes(h: Uint16, w: A.World, a: Action)
    requires Stocked(w) && WorldAfter(h, w, a).Some? && SideOf(a).Left?
    ensures Took(w, WorldAfter(h, w, a).value, Taken1(a, C.Left)) && Taken1(a, C.Right) == 0
  {
    if a.Transmit? {
      SentStocked(w, h);
    } else if a.Complete? {
      CompletedStocked(w, a.handle);
    }
  }

  ghost predicate BothTook(n: Stack, t: Stack, left: int, right: int) {
    Took(n.left.world, t.left.world, left) && Took(n.right.world, t.right.world, right)
  }

  lemma StepTakes(h: Uint16, n: Stack, links: set<W.Link>, a: Action)
    requires Good(h, n, links) && EnabledLeft(n, links, a) && SideOf(a).Left?
    ensures BothTook(n, StepLeft(h, n, links, a), Taken1(a, C.Left), Taken1(a, C.Right))
  {
    WorldsAfter(h, n, links, a);
    WorldTakes(h, n.left.world, a);
  }

  lemma MirrorTakes(a: Action)
    ensures Taken1(Mirror(a), C.Left) == Taken1(a, C.Right) && Taken1(Mirror(a), C.Right) == Taken1(a, C.Left)
    ensures SideOf(a).Right? ==> SideOf(Mirror(a)).Left?
  {
  }

  lemma StepTakesRight(h: Uint16, n: Stack, links: set<W.Link>, a: Action)
    requires Good(h, n, links) && Enabled(n, links, a) && SideOf(a).Right?
    ensures BothTook(n, Step(h, n, links, a), Taken1(a, C.Left), Taken1(a, C.Right))
  {
    var t := StepLeft(h, Swap(n), W.Backs(links), Mirror(a));
    MirrorTakes(a);
    SwapGood(h, n, links);
    StepTakes(h, Swap(n), W.Backs(links), Mirror(a));
    assert BothTook(Swap(n), t, Taken1(a, C.Right), Taken1(a, C.Left));
    assert Step(h, n, links, a) == Swap(t);
  }

  lemma StepTakesEither(h: Uint16, n: Stack, links: set<W.Link>, a: Action)
    requires Good(h, n, links) && Enabled(n, links, a)
    ensures BothTook(n, Step(h, n, links, a), Taken1(a, C.Left), Taken1(a, C.Right))
  {
    if SideOf(a).Right? {
      StepTakesRight(h, n, links, a);
    } else {
      StepTakes(h, n, links, a);
    }
  }

  lemma BothTookOn(n: Stack, m: Stack, t: Stack, a: int, b: int, c: int, d: int)
    requires BothTook(n, m, a, b) && BothTook(m, t, c, d)
    ensures BothTook(n, t, a + c, b + d)
  {
  }

  /** No buffer is lost or made up: over any run, on each side, what the controller holds has grown, and what the host
      may still send has shrunk, by exactly the packets written less those completed. */
  lemma {:induction false} BuffersConserved(h: Uint16, n: Stack, links: set<W.Link>, actions: seq<Action>)
    requires Good(h, n, links) && IsRun(h, n, links, actions)
    ensures BothTook(n, Run(h, n, links, actions), TakenBy(actions, C.Left), TakenBy(actions, C.Right))
    decreases |actions|
  {
    if actions != [] {
      var a, m := actions[0], Step(h, n, links, actions[0]);
      StepTakesEither(h, n, links, a);
      StepRefines(h, n, links, a);
      BuffersConserved(h, m, links, actions[1..]);
      BothTookOn(n, m, Run(h, m, links, actions[1..]), Taken1(a, C.Left), Taken1(a, C.Right),
                 TakenBy(actions[1..], C.Left), TakenBy(actions[1..], C.Right));
    }
  }

  // ------------------------------------------------------------------ progress

  /** A packet cut costs its writing, its completion and its arrival. */
  ghost function Packets(n: Stack): nat {
    3 * (|n.left.outgoing| + |n.right.outgoing|) + |n.toLeft| + |n.toRight|
    + Sum(n.left.world.outstanding) + Sum(n.right.world.outstanding)
  }

  /** No PDU is cut into more packets than it has bytes. */
  const MAX_PACKETS: nat := 0xFFFF

  ghost function Work(h: Uint16, n: Stack, links: set<W.Link>): nat {
    4 * MAX_PACKETS * Q.Work(View(h, n), links) + Packets(n)
  }

  lemma {:induction false} FewChunks<T>(s: seq<T>, n: nat)
    requires n > 0
    ensures |Chunks(s, n)| <= |s|
    decreases |s|
  {
    if |s| > n {
      FewChunks(s[n..], n);
    }
  }

  /** What one step of the left end does to the packets. */
  lemma PacketsMove(h: Uint16, n: Stack, links: set<W.Link>, a: Action)
    requires Good(h, n, links) && EnabledLeft(n, links, a) && SideOf(a).Left? && Quiet(a)
    ensures var t := StepLeft(h, n, links, a);
            if PartLeft(h, n, a).Some? then Packets(t) <= Packets(n) + 3 * MAX_PACKETS else Packets(t) < Packets(n)
  {
    match a {
      case Begin(act) =>
        FrameWhole(n.left.node, act.link.left, act.link.right);
        FewChunks(W.NextFrame(n.left.node, act.link.left), n.left.mtu);
      case Transmit(_) => SentStocked(n.left.world, h);
      case Complete(_, g) => CompletedStocked(n.left.world, g);
      case Arrive(_) =>
        if Recombine(h, n.left.buf, Relay(n.toLeft[0])).1.Pdu? {
          ArrivalDelivers(h, n, links, a);
        }
    }
  }

  lemma PacketsMoveEither(h: Uint16, n: Stack, links: set<W.Link>, a: Action)
    requires Good(h, n, links) && Enabled(n, links, a) && Quiet(a)
    ensures var t := Step(h, n, links, a);
            if Part(h, n, a).Some? then Packets(t) <= Packets(n) + 3 * MAX_PACKETS else Packets(t) < Packets(n)
  {
    if SideOf(a).Right? {
      SwapGood(h, n, links);
      PacketsMove(h, Swap(n), W.Backs(links), Mirror(a));
    } else {
      PacketsMove(h, n, links, a);
    }
  }

  /** Every step but a write lowers the work that is left. */
  lemma WorkDecreases(h: Uint16, n: Stack, links: set<W.Link>, a: Action)
    requires Good(h, n, links) && Enabled(n, links, a) && Quiet(a)
    ensures Work(h, Step(h, n, links, a), links) < Work(h, n, links)
  {
    StepRefines(h, n, links, a);
    PacketsMoveEither(h, n, links, a);
    if Part(h, n, a).Some? {
      PartIsQuiet(h, n, a);
      Q.WorkDecreases(View(h, n), links, Part(h, n, a).value);
    }
  }

  ghost function Working(h: Uint16, links: set<W.Link>): Stack -> nat {
    n => Work(h, n, links)
  }

  lemma RunsAreBounded(h: Uint16, n: Stack, links: set<W.Link>, actions: seq<Action>)
    requires Good(h, n, links) && IsRun(h, n, links, actions) && NoWrites(actions)
    ensures |actions| <= Work(h, n, links)
  {
    var quiet := (a: Action) => Quiet(a);
    StepsRefine(h, links);
    forall m, a | Goods(h, links)(m) && quiet(a) && Steps(h, links)(m, a).Some?
      ensures Working(h, links)(Steps(h, links)(m, a).value) < Working(h, links)(m)
    {
      WorkDecreases(h, m, links, a);
    }
    Bounded(Steps(h, links), Goods(h, links), quiet, Working(h, links), n, actions);
  }

  /** A step by an end that does one thing at a time: it begins a frame or takes a packet only when it has written all
      the packets it has cut. */
  ghost predicate Prompt(n: Stack, links: set<W.Link>, a: Action) {
    && Enabled(n, links, a)
    && (a.Begin? || a.Arrive? ==> (if SideOf(a).Right? then n.right.outgoing else n.left.outgoing) == [])
  }

  /** Nothing is possible but writes, not even for ends that do one thing at a time. */
  ghost predicate Halted(n: Stack, links: set<W.Link>) {
    forall a: Action :: Quiet(a) ==> !Prompt(n, links, a)
  }

  /** An end that has packets to write can write one or has one completed. */
  lemma Unblocked(n: Stack, links: set<W.Link>) returns (a: Action)
    requires Stocked(n.left.world) && n.left.mtu > 0 && n.right.mtu > 0 && n.left.outgoing != []
    ensures Quiet(a) && Prompt(n, links, a)
  {
    if n.left.world.ledger.remaining > 0 {
      a := Transmit(C.Left);
    } else {
      var g := A.SumPositive(n.left.world.outstanding);
      A.OneCompleted(n.left.world.outstanding, g, 1);
      a := Complete(C.Left, g);
    }
  }

  lemma SwapHalted(n: Stack, links: set<W.Link>)
    requires Halted(n, links)
    ensures Halted(Swap(n), W.Backs(links))
  {
    W.BacksBack(links);
    forall a: Action | Quiet(a) ensures !Prompt(Swap(n), W.Backs(links), a) {
      assert !Prompt(n, links, Mirror(a));
      assert Mirror(Mirror(a)) == a;
    }
  }

  /** Where the stack halts, nothing is cut, in the air or half recombined, and its view has halted too. */
  lemma HaltedIsEmpty(h: Uint16, n: Stack, links: set<W.Link>)
    requires Good(h, n, links) && Halted(n, links)
    ensures n.left.outgoing == n.right.outgoing == n.toLeft == n.toRight == []
    ensures n.left.buf == n.right.buf == []
    ensures View(h, n) == Nodes(n) && Q.Halted(View(h, n), links)
  {
    if n.left.outgoing != [] {
      var a := Unblocked(n, links);
    }
    SwapHalted(n, links);
    if n.right.outgoing != [] {
      var a := Unblocked(Swap(n), W.Backs(links));
    }
    assert !Prompt(n, links, Arrive(C.Left)) && !Prompt(n, links, Arrive(C.Right));
    assert n.toRight + n.left.outgoing == [] && n.toLeft + n.right.outgoing == [];
    forall b: W.Action | !b.Write? ensures !W.Enabled(View(h, n), links, b) {
      assert !Prompt(n, links, Begin(b));
      W.BacksBack(links);
    }
  }

  /** Liveness of the whole stack. Channel credits throttle the frames and buffers throttle their packets; still every
      maximal run without further writes is bounded, and where it ends every SDU written in an open direction of any
      channel has been delivered, closed directions are as they were, no packet is left anywhere, and every buffer is
      empty; even if each end does one thing at a time. */
  lemma {:induction false} StackDelivery(h: Uint16, n: Stack, links: set<W.Link>, actions: seq<Action>)
    requires Good(h, n, links) && IsRun(h, n, links, actions) && NoWrites(actions)
    ensures var t := Run(h, n, links, actions);
            && Good(h, t, links) && |actions| <= Work(h, n, links)
            && (Halted(t, links) ==>
                  && Q.AllServed(View(h, n), View(h, t), links)
                  && t.left.outgoing == t.right.outgoing == t.toLeft == t.toRight == []
                  && t.left.buf == t.right.buf == [])
  {
    var t := Run(h, n, links, actions);
    RunsAreBounded(h, n, links, actions);
    RunRefines(h, n, links, actions);
    if Halted(t, links) {
      HaltedIsEmpty(h, t, links);
      Q.MaximalRunsDeliver(View(h, n), links, Trace(h, n, links, actions));
    }
  }
}
