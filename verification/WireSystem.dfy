/** Two connections of this code with any number of channels between them, reading and writing marshalled PDUs: data,
    grants and refusals are bytes on two wires that all channels share, and each end handles them with HandlePdu. Seen
    from any one channel it is the credit system. */
module WireSystem {
  import opened Bytes
  import opened ChannelStates
  import opened Segmentation
  import opened Connections
  import opened EndToEnd
  import C = CreditSystem
  import F = Frames
  import S = Signalling

  /** What the writers of one channel have in hand. */
  datatype Line = Line(unsent: seq<seq<Byte>>, written: seq<seq<Byte>>)

  /** One end: a connection with its channels, their writers, and the process's identifier counter. */
  datatype Node = Node(conn: ConnState, lines: map<Uint16, Line>, identifier: Byte)

  datatype Net = Net(left: Node, right: Node, toRight: seq<seq<Byte>>, toLeft: seq<seq<Byte>>)

  /** A channel between the two, by the identifiers under which each end receives on it. */
  datatype Link = Link(left: Uint16, right: Uint16)

  datatype Action =
    | Write(side: C.Side, link: Link, sdu: seq<Byte>)
    | Send(side: C.Side, link: Link)
    | Deliver(side: C.Side)

  function Swap(n: Net): Net {
    Net(n.right, n.left, n.toLeft, n.toRight)
  }

  function Back(l: Link): Link {
    Link(l.right, l.left)
  }

  ghost function Backs(links: set<Link>): set<Link> {
    set l | l in links :: Back(l)
  }

  function Mirror(a: Action): Action {
    var side := if a.side.Right? then C.Left else C.Right;
    match a
    case Write(_, l, sdu) => Write(side, Back(l), sdu)
    case Send(_, l) => Send(side, Back(l))
    case Deliver(_) => Deliver(side)
  }

  /** The end has the channel k to a peer that receives on `peer`, and sends to that identifier on no other channel. */
  predicate Channelled(n: Node, k: Uint16, peer: Uint16) {
    && Routable(k) && k in n.conn.cocs && k in n.lines && Small(n.lines[k].unsent)
    && n.conn.cocs[k].rxCID == k && n.conn.cocs[k].txCID == peer
    && forall j :: j in n.conn.cocs && j != k ==> n.conn.cocs[j].txCID != peer
  }

  /** What is queued for sending fits a frame the other end can read. */
  predicate Small(payloads: seq<seq<Byte>>) {
    forall p :: p in payloads ==> |p| <= MAX_PAYLOAD
  }

  predicate Joined(n: Net, l: Link) {
    Channelled(n.left, l.left, l.right) && Channelled(n.right, l.right, l.left)
  }

  ghost predicate Wired(n: Net, links: set<Link>) {
    forall l :: l in links ==> Joined(n, l)
  }

  // ------------------------------------------------------------------ one end

  function Chan(n: Node, k: Uint16): ChannelState
    requires k in n.conn.cocs
  {
    n.conn.cocs[k]
  }

  /** The end with one channel in a new state. */
  function WithChan(n: Node, k: Uint16, c: ChannelState): Node {
    n.(conn := n.conn.(cocs := n.conn.cocs[k := c]))
  }

  /** Once a write on a channel has begun. */
  function Wrote(n: Node, k: Uint16, sdu: seq<Byte>): Node
    requires k in n.conn.cocs && k in n.lines && Chan(n, k).txMPS > 0
  {
    var line := n.lines[k];
    n.(lines := n.lines[k := Line(line.unsent + Segments(sdu, Chan(n, k).txMPS), line.written + [sdu])])
  }

  /** Once the channel's next frame is paid for and sent; and the frame. */
  function Paid(n: Node, k: Uint16): Node
    requires k in n.conn.cocs && k in n.lines && n.lines[k].unsent != [] && Chan(n, k).txCredits > 0
  {
    var line := n.lines[k];
    WithChan(n, k, Chan(n, k).(txCredits := Chan(n, k).txCredits - 1)).(
      lines := n.lines[k := line.(unsent := line.unsent[1..])])
  }

  function NextFrame(n: Node, k: Uint16): seq<Byte>
    requires k in n.conn.cocs && k in n.lines && n.lines[k].unsent != [] && Small(n.lines[k].unsent)
  {
    assert n.lines[k].unsent[0] in n.lines[k].unsent;
    PduOf(Chan(n, k).txCID, n.lines[k].unsent[0])
  }

  /** writeSignallingPacket, for the two packets a channel sends; both are short. */
  function SignalPdu(p: S.SignallingPacket): seq<Byte>
    requires p.CreditIndication? || p.DisconnectionRequest?
  {
    PduOf(F.CID_SIGNALLING_LEU, S.Marshal(p).value)
  }

  /** What an end writes when its channel c answers. */
  function Answered(c: ChannelState, identifier: Byte, reply: Reply): seq<seq<Byte>> {
    match reply
    case Quiet => []
    case GrantCredits(n) => [SignalPdu(S.CreditIndication(identifier, c.rxCID, n))]
    case RequestDisconnect => [SignalPdu(S.DisconnectionRequest(identifier, c.txCID, c.rxCID))]
  }

  /** The requests of the channels whose credits would overflow, in any order. */
  ghost function Refused(cocs: map<Uint16, ChannelState>, ks: set<Uint16>, identifier: Byte): seq<seq<Byte>>
    requires ks <= cocs.Keys
    decreases ks
  {
    if ks == {} then []
    else
      var k :| k in ks;
      Answered(cocs[k], identifier, RequestDisconnect) + Refused(cocs, ks - {k}, (identifier + 1) % 0x100)
  }

  /** What an end writes while it handles a PDU. */
  ghost function Replies(n: Node, pdu: seq<Byte>): seq<seq<Byte>> {
    match HandlePdu(n.conn, pdu).1
    case Delivered(reply) =>
      var k := ReadFrame(pdu).value.channelID;
      Answered(n.conn.cocs[k], n.identifier, reply)
    case Credited(overflowed) => Refused(n.conn.cocs, overflowed * n.conn.cocs.Keys, n.identifier)
    case _ => []
  }

  ghost function Handled(n: Node, pdu: seq<Byte>): Node {
    n.(conn := HandlePdu(n.conn, pdu).0, identifier := (n.identifier + |Replies(n, pdu)|) % 0x100)
  }

  // ------------------------------------------------------------------ steps

  predicate EnabledLeft(n: Net, a: Action) {
    match a
    case Write(_, l, sdu) =>
      && Joined(n, l)
      && var c, d := Chan(n.left, l.left), Chan(n.right, l.right);
         Deliverable(|sdu|, c.txMPS, d.rxMPS, d.rxMTU) && Readable(|sdu|, c.txMPS)
    case Send(_, l) => Joined(n, l) && n.left.lines[l.left].unsent != [] && Chan(n.left, l.left).txCredits > 0
    case Deliver(_) => n.toLeft != []
  }

  ghost function StepLeft(n: Net, a: Action): Net
    requires EnabledLeft(n, a)
  {
    match a
    case Write(_, l, sdu) => n.(left := Wrote(n.left, l.left, sdu))
    case Send(_, l) => n.(left := Paid(n.left, l.left), toRight := n.toRight + [NextFrame(n.left, l.left)])
    case Deliver(_) =>
      n.(left := Handled(n.left, n.toLeft[0]), toLeft := n.toLeft[1..],
         toRight := n.toRight + Replies(n.left, n.toLeft[0]))
  }

  /** Only the given channels are written to. */
  predicate Enabled(n: Net, links: set<Link>, a: Action) {
    && (a.Deliver? || a.link in links)
    && if a.side.Right? then EnabledLeft(Swap(n), Mirror(a)) else EnabledLeft(n, a)
  }

  /** An enabled action of the left end. */
  predicate OnLeft(n: Net, links: set<Link>, a: Action) {
    a.side.Left? && (a.Deliver? || a.link in links) && EnabledLeft(n, a)
  }

  ghost function Step(n: Net, links: set<Link>, a: Action): Net
    requires Enabled(n, links, a)
  {
    if a.side.Right? then Swap(StepLeft(Swap(n), Mirror(a))) else StepLeft(n, a)
  }

  // ------------------------------------------------------------------ what one channel hears

  /** A PDU that asks to disconnect. */
  predicate AsksToDisconnect(pdu: seq<Byte>) {
    match ReadFrame(pdu)
    case Ok(BFrame(cid, payload)) =>
      cid == F.CID_SIGNALLING_LEU && S.Unmarshal(payload).Ok? && S.Unmarshal(payload).value.DisconnectionRequest?
    case _ => false
  }

  /** What a PDU means to the channel that receives on rx and sends to tx. Any request to disconnect ends the run. */
  function Message(pdu: seq<Byte>, rx: Uint16, tx: Uint16): seq<C.Message> {
    var own := Own(rx, tx, pdu);
    if own == [] then (if AsksToDisconnect(pdu) then [C.Disconnection] else [])
    else match own[0]
      case DataIn(payload) => [C.Data(payload)]
      case CreditsIn(n) => [C.Credits(n)]
  }

  function Hearing(rx: Uint16, tx: Uint16): seq<Byte> -> seq<C.Message> {
    pdu => Message(pdu, rx, tx)
  }

  function Heard(pdus: seq<seq<Byte>>, rx: Uint16, tx: Uint16): seq<C.Message> {
    FlatMap(Hearing(rx, tx), pdus)
  }

  lemma HeardAppend(a: seq<seq<Byte>>, b: seq<seq<Byte>>, rx: Uint16, tx: Uint16)
    ensures Heard(a + b, rx, tx) == Heard(a, rx, tx) + Heard(b, rx, tx)
  {
    FlatMapAppend(Hearing(rx, tx), a, b);
  }

  lemma HeardOne(pdu: seq<Byte>, rx: Uint16, tx: Uint16)
    ensures Heard([pdu], rx, tx) == Message(pdu, rx, tx)
  {
    FlatMapOne(Hearing(rx, tx), pdu);
  }

  function EndpointOf(n: Node, k: Uint16): C.Endpoint
    requires k in n.conn.cocs && k in n.lines
  {
    C.Endpoint(n.conn.cocs[k], n.lines[k].unsent, n.lines[k].written)
  }

  /** The system as one channel sees it. */
  function Project(n: Net, l: Link): C.System
    requires Joined(n, l)
  {
    C.System(EndpointOf(n.left, l.left), EndpointOf(n.right, l.right),
             Heard(n.toRight, l.right, l.left), Heard(n.toLeft, l.left, l.right))
  }

  lemma DataMessage(rx: Uint16, tx: Uint16, to: Uint16, payload: seq<Byte>)
    requires Routable(to) && |payload| <= MAX_PAYLOAD
    ensures Message(PduOf(to, payload), rx, tx) == if to == rx then [C.Data(payload)] else []
  {
    F.FrameRoundTrip(F.BFrame(to, payload));
    F.MarshalledIsSelfDelimiting(F.BFrame(to, payload));
    F.HeaderBytes(|payload|, to, payload);
    assert ReadFrame(PduOf(to, payload)) == Ok(F.BFrame(to, payload));
  }

  lemma CreditsMessage(rx: Uint16, tx: Uint16, id: Byte, cid: Uint16, n: Uint16)
    requires Routable(rx)
    ensures Message(SignalPdu(S.CreditIndication(id, cid, n)), rx, tx) == if cid == tx then [C.Credits(n)] else []
    ensures IsIndication(SignalPdu(S.CreditIndication(id, cid, n)))
    ensures Indication(SignalPdu(S.CreditIndication(id, cid, n))) == S.CreditIndication(id, cid, n)
  {
    var p := S.CreditIndication(id, cid, n);
    S.SignallingRoundTrip(p);
    S.LayoutReads(S.Opcode(p), p.id, S.LengthField(p), S.Fields(p), S.Tail(p));
    var payload := S.Marshal(p).value;
    F.FrameRoundTrip(F.BFrame(F.CID_SIGNALLING_LEU, payload));
    F.HeaderBytes(|payload|, F.CID_SIGNALLING_LEU, payload);
    assert ReadFrame(SignalPdu(p)) == Ok(F.BFrame(F.CID_SIGNALLING_LEU, payload));
  }

  lemma RefusedFirst(cocs: map<Uint16, ChannelState>, ks: set<Uint16>, identifier: Byte) returns (k: Uint16)
    requires ks != {} && ks <= cocs.Keys
    ensures k in ks
    ensures Refused(cocs, ks, identifier)
         == Answered(cocs[k], identifier, RequestDisconnect) + Refused(cocs, ks - {k}, (identifier + 1) % 0x100)
  {
    k :| k in ks && Refused(cocs, ks, identifier)
                    == Answered(cocs[k], identifier, RequestDisconnect)
                       + Refused(cocs, ks - {k}, (identifier + 1) % 0x100);
  }

  lemma RefusedOne(cocs: map<Uint16, ChannelState>, k: Uint16, identifier: Byte)
    requires k in cocs
    ensures Refused(cocs, {k}, identifier) == Answered(cocs[k], identifier, RequestDisconnect)
  {
    assert {k} - {k} == {};
    assert Refused(cocs, {}, (identifier + 1) % 0x100) == [];
  }

  /** Handling the bytes is handling what they mean, on the channel they are meant for and on no other. */
  lemma HandleMeans(n: Node, k: Uint16, peer: Uint16, pdu: seq<Byte>)
    requires Channelled(n, k, peer) && Message(pdu, k, peer) != [] && !Message(pdu, k, peer)[0].Disconnection?
    ensures var (c, reply) := C.Handle(Chan(n, k), Message(pdu, k, peer)[0]);
            && HandlePdu(n.conn, pdu).0 == n.conn.(cocs := n.conn.cocs[k := c])
            && Replies(n, pdu) == Answered(Chan(n, k), n.identifier, reply)
  {
    var m := Message(pdu, k, peer)[0];
    if m.Credits? {
      assert CreditAll(n.conn.cocs, peer, m.count) == n.conn.cocs[k := Indicate(Chan(n, k), m.count).0];
      var over := Overflowed(n.conn.cocs, peer, m.count);
      assert over == if Indicate(Chan(n, k), m.count).1.RequestDisconnect? then {k} else {};
      RefusedOne(n.conn.cocs, k, n.identifier);
      assert over * n.conn.cocs.Keys == over;
    }
  }

  /** What a channel is meant to hear, no other one hears. */
  lemma OthersHearNothing(n: Node, k: Uint16, peer: Uint16, j: Uint16, other: Uint16, pdu: seq<Byte>)
    requires Channelled(n, k, peer) && Channelled(n, j, other) && j != k
    requires Message(pdu, k, peer) != [] && !Message(pdu, k, peer)[0].Disconnection?
    ensures Message(pdu, j, other) == []
  {
  }

  // ------------------------------------------------------------------ the refinement

  /** Every PDU is meant for one of the channels, at its right end. */
  ghost predicate Understood(pdus: seq<seq<Byte>>, links: set<Link>) {
    forall pdu :: pdu in pdus ==> Meant(pdu, links)
  }

  ghost predicate Meant(pdu: seq<Byte>, links: set<Link>) {
    exists l :: l in links && Message(pdu, l.right, l.left) != []
  }

  ghost predicate Spoken(n: Net, links: set<Link>) {
    Understood(n.toRight, links) && Understood(n.toLeft, Backs(links))
  }

  /** What every reachable state keeps: each channel sees the credit system in good order. */
  ghost predicate Good(n: Net, links: set<Link>) {
    Wired(n, links) && Spoken(n, links) && forall l :: l in links ==> C.Invariant(Project(n, l))
  }

  /** The channel takes part in the step. */
  predicate Concerns(n: Net, a: Action, l: Link) {
    match a
    case Write(_, m, _) => m == l
    case Send(_, m) => m == l
    case Deliver(Left) => n.toLeft != [] && Message(n.toLeft[0], l.left, l.right) != []
    case Deliver(Right) => n.toRight != [] && Message(n.toRight[0], l.right, l.left) != []
  }

  /** As which step of its own. */
  function Part(a: Action): C.Action {
    match a
    case Write(side, _, sdu) => C.Write(side, sdu)
    case Send(side, _) => C.Send(side)
    case Deliver(side) => C.Deliver(side)
  }

  /** Two channels of an end have different peers. */
  lemma Distinct(n: Net, l: Link, m: Link)
    requires Joined(n, l) && Joined(n, m)
    ensures l.left == m.left || l.right == m.right ==> l == m
  {
  }

  /** An end with one channel changed, but not its identifiers, has all its channels. */
  lemma StillChannelled(n: Node, k: Uint16, c: ChannelState, line: Line, j: Uint16, peer: Uint16)
    requires Channelled(n, j, peer) && k in n.conn.cocs && Small(line.unsent)
    requires c.rxCID == Chan(n, k).rxCID && c.txCID == Chan(n, k).txCID
    ensures var m := WithChan(n, k, c).(lines := n.lines[k := line]);
            Channelled(m, j, peer) && EndpointOf(m, j) == if j == k then C.Endpoint(c, line.unsent, line.written)
                                                          else EndpointOf(n, j)
  {
  }

  lemma WriteKeepsSmall(line: Line, sdu: seq<Byte>, mps: Uint16)
    requires mps > 0 && Small(line.unsent) && Readable(|sdu|, mps)
    ensures Small(line.unsent + Segments(sdu, mps))
  {
    var fs := Segments(sdu, mps);
    WriteCost(sdu, mps);
    forall p | p in line.unsent + fs ensures |p| <= MAX_PAYLOAD {
      if p !in line.unsent {
        var i :| 0 <= i < |fs| && fs[i] == p;
        PieceWithin(fs, i);
      }
    }
  }

  lemma WriteProjects(n: Net, links: set<Link>, a: Action, l: Link)
    requires Wired(n, links) && a.Write? && OnLeft(n, links, a) && l in links
    ensures var t := StepLeft(n, a);
            Joined(t, l) && Project(t, l) == if a.link == l then C.StepLeft(Project(n, l), Part(a)) else Project(n, l)
  {
    var k := a.link.left;
    var c, line := Chan(n.left, k), n.left.lines[k];
    Distinct(n, a.link, l);
    WriteKeepsSmall(line, a.sdu, c.txMPS);
    var longer := Line(line.unsent + Segments(a.sdu, c.txMPS), line.written + [a.sdu]);
    StillChannelled(n.left, k, c, longer, l.left, l.right);
    assert WithChan(n.left, k, c) == n.left;
  }

  /** A frame is heard by its own channel only. */
  lemma FrameHeard(n: Net, m: Link, l: Link, payload: seq<Byte>)
    requires Joined(n, m) && Joined(n, l) && |payload| <= MAX_PAYLOAD
    ensures Heard(n.toRight + [PduOf(m.right, payload)], l.right, l.left)
            == Heard(n.toRight, l.right, l.left) + if m == l then [C.Data(payload)] else []
  {
    var pdu := PduOf(m.right, payload);
    Distinct(n, m, l);
    DataMessage(l.right, l.left, m.right, payload);
    HeardAppend(n.toRight, [pdu], l.right, l.left);
    HeardOne(pdu, l.right, l.left);
  }

  lemma SendProjects(n: Net, links: set<Link>, a: Action, l: Link)
    requires Wired(n, links) && a.Send? && OnLeft(n, links, a) && l in links
    ensures var t := StepLeft(n, a);
            Joined(t, l) && Project(t, l) == if a.link == l then C.StepLeft(Project(n, l), Part(a)) else Project(n, l)
  {
    var k := a.link.left;
    var c, line := Chan(n.left, k), n.left.lines[k];
    assert line.unsent[0] in line.unsent;
    Distinct(n, a.link, l);
    StillChannelled(n.left, k, c.(txCredits := c.txCredits - 1), line.(unsent := line.unsent[1..]), l.left, l.right);
    FrameHeard(n, a.link, l, line.unsent[0]);
    assert Heard(n.toRight, l.right, l.left) + [] == Heard(n.toRight, l.right, l.left);
  }

  lemma KeepsIdentity(c: ChannelState, m: C.Message)
    ensures var d := C.Handle(c, m).0; d.rxCID == c.rxCID && d.txCID == c.txCID
  {
  }

  lemma HeadHeard(pdus: seq<seq<Byte>>, rx: Uint16, tx: Uint16)
    requires pdus != []
    ensures Heard(pdus, rx, tx) == Message(pdus[0], rx, tx) + Heard(pdus[1..], rx, tx)
  {
  }

  /** The channel a PDU on the left wire is for, and what it does with it. */
  lemma MeantFor(n: Net, links: set<Link>, m: Link)
    requires Good(n, links) && n.toLeft != [] && m in links && Message(n.toLeft[0], m.left, m.right) != []
    ensures var msg := Message(n.toLeft[0], m.left, m.right)[0]; var s := Project(n, m);
            && !msg.Disconnection? && s.toLeft != [] && s.toLeft[0] == msg
            && s.toLeft[1..] == Heard(n.toLeft[1..], m.left, m.right)
            && !C.Handle(Chan(n.left, m.left), msg).1.RequestDisconnect?
  {
    var s := Project(n, m);
    HeadHeard(n.toLeft, m.left, m.right);
    assert |Message(n.toLeft[0], m.left, m.right)| == 1;
    assert s.toLeft[0] in s.toLeft;
    var a: C.Action := C.Deliver(C.Left);
    C.StepLeftKeepsInvariant(s, a);
    C.AnswerAppends(s.toRight, C.Handle(s.left.chan, s.toLeft[0]).1);
  }

  /** An end that has handled a PDU, seen from any of its channels. */
  lemma NodeHandled(n: Node, k: Uint16, peer: Uint16, pdu: seq<Byte>, j: Uint16, other: Uint16)
    requires Channelled(n, k, peer) && Message(pdu, k, peer) != [] && !Message(pdu, k, peer)[0].Disconnection?
    requires Channelled(n, j, other)
    ensures var c := C.Handle(Chan(n, k), Message(pdu, k, peer)[0]).0; var m := Handled(n, pdu);
            && Channelled(m, j, other)
            && EndpointOf(m, j) == if j == k then EndpointOf(n, k).(chan := c) else EndpointOf(n, j)
  {
    var msg := Message(pdu, k, peer)[0];
    var c := C.Handle(Chan(n, k), msg).0;
    HandleMeans(n, k, peer, pdu);
    KeepsIdentity(Chan(n, k), msg);
    StillChannelled(n, k, c, n.lines[k], j, other);
    assert n.lines[k := n.lines[k]] == n.lines;
    assert Handled(n, pdu) == WithChan(n, k, c).(identifier := Handled(n, pdu).identifier);
  }

  /** A grant is heard by the channel that gave it only. */
  lemma AnswerHeard(n: Net, m: Link, l: Link, reply: Reply)
    requires Joined(n, m) && Joined(n, l) && !reply.RequestDisconnect?
    ensures Heard(n.toRight + Answered(Chan(n.left, m.left), n.left.identifier, reply), l.right, l.left)
            == Heard(n.toRight, l.right, l.left) + if m == l then C.Answer(reply) else []
  {
    var pdus := Answered(Chan(n.left, m.left), n.left.identifier, reply);
    Distinct(n, m, l);
    HeardAppend(n.toRight, pdus, l.right, l.left);
    if reply.GrantCredits? {
      CreditsMessage(l.right, l.left, n.left.identifier, m.left, reply.credits);
      HeardOne(pdus[0], l.right, l.left);
    } else {
      assert Heard(pdus, l.right, l.left) == [];
    }
  }

  /** The channel a PDU is for takes its step. */
  lemma DeliverTaken(n: Net, links: set<Link>, a: Action, m: Link)
    requires Good(n, links) && a.Deliver? && OnLeft(n, links, a)
    requires m in links && Concerns(n, a, m)
    ensures var t := StepLeft(n, a); Joined(t, m) && Project(t, m) == C.StepLeft(Project(n, m), Part(a))
  {
    var pdu := n.toLeft[0];
    MeantFor(n, links, m);
    HandleMeans(n.left, m.left, m.right, pdu);
    NodeHandled(n.left, m.left, m.right, pdu, m.left, m.right);
    AnswerHeard(n, m, m, C.Handle(Chan(n.left, m.left), Message(pdu, m.left, m.right)[0]).1);
  }

  /** The other channels do not hear it. */
  lemma HeadIgnored(n: Node, k: Uint16, peer: Uint16, j: Uint16, other: Uint16, pdus: seq<seq<Byte>>)
    requires Channelled(n, k, peer) && Channelled(n, j, other) && j != k && pdus != []
    requires Message(pdus[0], k, peer) != [] && !Message(pdus[0], k, peer)[0].Disconnection?
    ensures Message(pdus[0], j, other) == [] && Heard(pdus[1..], j, other) == Heard(pdus, j, other)
  {
    OthersHearNothing(n, k, peer, j, other, pdus[0]);
    HeadHeard(pdus, j, other);
  }

  /** Nor its answer. */
  lemma AnswerIgnored(n: Net, m: Link, l: Link, pdu: seq<Byte>)
    requires Joined(n, m) && Joined(n, l) && l != m
    requires Message(pdu, m.left, m.right) != [] && !Message(pdu, m.left, m.right)[0].Disconnection?
    requires !C.Handle(Chan(n.left, m.left), Message(pdu, m.left, m.right)[0]).1.RequestDisconnect?
    ensures Heard(n.toRight + Replies(n.left, pdu), l.right, l.left) == Heard(n.toRight, l.right, l.left)
  {
    HandleMeans(n.left, m.left, m.right, pdu);
    AnswerHeard(n, m, l, C.Handle(Chan(n.left, m.left), Message(pdu, m.left, m.right)[0]).1);
  }

  lemma DeliverIgnored(n: Net, links: set<Link>, a: Action, m: Link, l: Link)
    requires Good(n, links) && a.Deliver? && OnLeft(n, links, a)
    requires m in links && Concerns(n, a, m) && l in links && l != m
    ensures var t := StepLeft(n, a); Joined(t, l) && Project(t, l) == Project(n, l) && !Concerns(n, a, l)
  {
    MeantFor(n, links, m);
    Distinct(n, m, l);
    HeadIgnored(n.left, m.left, m.right, l.left, l.right, n.toLeft);
    AnswerIgnored(n, m, l, n.toLeft[0]);
    NodeHandled(n.left, m.left, m.right, n.toLeft[0], l.left, l.right);
  }

  /** Some channel takes part in each step, and no other one notices it. */
  lemma Concerned(n: Net, links: set<Link>, a: Action) returns (m: Link)
    requires Good(n, links) && OnLeft(n, links, a)
    ensures m in links && forall l :: l in links ==> (Concerns(n, a, l) <==> l == m)
  {
    if a.Deliver? {
      assert n.toLeft[0] in n.toLeft && Meant(n.toLeft[0], Backs(links));
      var back :| back in Backs(links) && Message(n.toLeft[0], back.right, back.left) != [];
      m := Back(back);
      forall l | l in links && l != m ensures !Concerns(n, a, l) {
        DeliverIgnored(n, links, a, m, l);
      }
    } else {
      m := a.link;
    }
  }

  /** One step over bytes, seen from one channel: its own step, or nothing at all. */
  lemma {:induction false} StepLeftProjects(n: Net, links: set<Link>, a: Action, l: Link)
    requires Good(n, links) && OnLeft(n, links, a) && l in links
    ensures var t := StepLeft(n, a);
            && Joined(t, l)
            && (Concerns(n, a, l) ==>
                  C.EnabledLeft(Project(n, l), Part(a)) && Project(t, l) == C.StepLeft(Project(n, l), Part(a)))
            && (!Concerns(n, a, l) ==> Project(t, l) == Project(n, l))
  {
    match a {
      case Write(_, _, _) => WriteProjects(n, links, a, l);
      case Send(_, _) => SendProjects(n, links, a, l);
      case Deliver(_) =>
        var m := Concerned(n, links, a);
        if l == m {
          MeantFor(n, links, m);
          DeliverTaken(n, links, a, m);
        } else {
          DeliverIgnored(n, links, a, m, l);
        }
    }
  }

  // ------------------------------------------------------------------ the invariant of the whole

  lemma SendSpoken(n: Net, links: set<Link>, a: Action)
    requires Wired(n, links) && Spoken(n, links) && a.Send? && OnLeft(n, links, a)
    ensures Spoken(StepLeft(n, a), links)
  {
    var payload := n.left.lines[a.link.left].unsent[0];
    assert payload in n.left.lines[a.link.left].unsent;
    DataMessage(a.link.right, a.link.left, a.link.right, payload);
    assert Meant(PduOf(a.link.right, payload), links);
  }

  lemma AnswersMeant(n: Net, links: set<Link>, m: Link, reply: Reply)
    requires Joined(n, m) && m in links && !reply.RequestDisconnect?
    ensures Understood(Answered(Chan(n.left, m.left), n.left.identifier, reply), links)
  {
    if reply.GrantCredits? {
      CreditsMessage(m.right, m.left, n.left.identifier, m.left, reply.credits);
      assert Meant(SignalPdu(S.CreditIndication(n.left.identifier, m.left, reply.credits)), links);
    }
  }

  lemma DeliverSpoken(n: Net, links: set<Link>, a: Action)
    requires Good(n, links) && a.Deliver? && OnLeft(n, links, a)
    ensures Spoken(StepLeft(n, a), links)
  {
    var m := Concerned(n, links, a);
    MeantFor(n, links, m);
    HandleMeans(n.left, m.left, m.right, n.toLeft[0]);
    AnswersMeant(n, links, m, C.Handle(Chan(n.left, m.left), Message(n.toLeft[0], m.left, m.right)[0]).1);
    assert forall pdu :: pdu in n.toLeft[1..] ==> pdu in n.toLeft;
  }

  lemma StepLeftSpoken(n: Net, links: set<Link>, a: Action)
    requires Good(n, links) && OnLeft(n, links, a)
    ensures Spoken(StepLeft(n, a), links)
  {
    match a {
      case Write(_, _, _) =>
      case Send(_, _) => SendSpoken(n, links, a);
      case Deliver(_) => DeliverSpoken(n, links, a);
    }
  }

  lemma {:induction false} StepLeftGood(n: Net, links: set<Link>, a: Action)
    requires Good(n, links) && OnLeft(n, links, a)
    ensures Good(StepLeft(n, a), links)
  {
    var t := StepLeft(n, a);
    StepLeftSpoken(n, links, a);
    forall l | l in links ensures Joined(t, l) && C.Invariant(Project(t, l)) {
      StepLeftProjects(n, links, a, l);
      if Concerns(n, a, l) {
        C.StepLeftKeepsInvariant(Project(n, l), Part(a));
      }
    }
  }

  lemma BacksBack(links: set<Link>)
    ensures Backs(Backs(links)) == links
    ensures forall l :: l in links <==> Back(l) in Backs(links)
  {
    forall l ensures l in links <==> Back(l) in Backs(links) {
      assert Back(Back(l)) == l;
    }
  }

  lemma SwapGood(n: Net, links: set<Link>)
    requires Good(n, links)
    ensures Good(Swap(n), Backs(links))
  {
    BacksBack(links);
    forall l | l in Backs(links) ensures Back(l) in links && C.Invariant(Project(Swap(n), l)) {
      assert Project(Swap(n), l) == C.Flip(Project(n, Back(l)));
    }
  }

  lemma {:induction false} StepIsGood(n: Net, links: set<Link>, a: Action)
    requires Good(n, links) && Enabled(n, links, a)
    ensures Good(Step(n, links, a), links)
  {
    if a.side.Right? {
      BacksBack(links);
      SwapGood(n, links);
      StepLeftGood(Swap(n), Backs(links), Mirror(a));
      SwapGood(StepLeft(Swap(n), Mirror(a)), Backs(links));
    } else {
      StepLeftGood(n, links, a);
    }
  }

  /** One step on either side: the invariant is kept, and every channel has made its own step or none. */
  lemma {:induction false} StepRefines(n: Net, links: set<Link>, a: Action, l: Link)
    requires Good(n, links) && Enabled(n, links, a) && l in links
    ensures var t := Step(n, links, a);
            && Good(t, links)
            && (Concerns(n, a, l) ==>
                  C.Enabled(Project(n, l), Part(a)) && Project(t, l) == C.Step(Project(n, l), Part(a)))
            && (!Concerns(n, a, l) ==> Project(t, l) == Project(n, l))
  {
    StepIsGood(n, links, a);
    if a.side.Right? {
      BacksBack(links);
      SwapGood(n, links);
      assert Back(l) in Backs(links);
      StepLeftProjects(Swap(n), Backs(links), Mirror(a), Back(l));
      MirrorConcerns(n, a, l);
    } else {
      StepLeftProjects(n, links, a, l);
    }
  }

  lemma MirrorConcerns(n: Net, a: Action, l: Link)
    ensures Concerns(n, a, l) <==> Concerns(Swap(n), Mirror(a), Back(l))
    ensures Part(Mirror(a)) == C.Mirror(Part(a))
  {
  }
}
